/**
 * The three places where the renderer computes in floating point.
 *
 * Their rounding cannot be stated exactly on integers, so the model takes
 * each one as a given total function and every property proved about the
 * callers holds whatever values these functions return.
 */
module Floating {

  datatype FloatOps = FloatOps(
    /** `Int(Float(r) * 0.2989 + Float(g) * 0.5870 + Float(b) * 0.1140)`, 32-bit float, truncated. */
    gray: (int, int, int) -> int,
    /**
     * `0.3 * Double(dr) + 0.59 * Double(dg) + 0.11 * Double(db)` for three
     * squared channel differences; the exact value of the resulting double.
     */
    weightedError: (int, int, int) -> real,
    /** `Int(0.299 * Double(r) + 0.587 * Double(g) + 0.114 * Double(b))`, truncated. */
    luma: (int, int, int) -> int
  )
}
