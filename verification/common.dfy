/** Small shared datatypes: an optional value (the source's `false`-or-value
    returns) and the two generations of the propagation engine. */
module Common {

  /** A technique either proposes a value or returns JavaScript `false`. */
  datatype Option<+T> = None | Some(value: T)

  /** Which source file a technique or driver variant follows:
      `Elimination` is sudokusolver-elimination.js, `Original` is
      the older sudokusolver.js. */
  datatype Variant = Elimination | Original

  /** Index 0, where the loops over lines, cells and nonets start. A call
      rather than a literal, so that the verifier does not unfold those
      loops eagerly. */
  function Start(): int {
    0
  }
}
