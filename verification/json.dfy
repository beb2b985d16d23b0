/**
 * A JSON document as serde_json's `Value` holds it.  Objects are maps from keys to
 * values (serde_json's default `Map` keeps one value per key).  A number keeps the
 * form serde_json's `Number` stores it in, so that `1`, `1.0` and `-0.0` stay apart.
 */
module JsonValue {

  /** An unsigned 64-bit integer. */
  newtype U64 = x: int | 0 <= x < 0x1_0000_0000_0000_0000

  /** A negative 64-bit integer: serde_json stores non-negative integers as `U64`. */
  newtype NegI64 = x: int | -0x8000_0000_0000_0000 <= x < 0 witness -1

  /**
   * The IEEE-754 bit pattern of a finite binary64 value: its exponent field is not all
   * ones, which rules out the infinities and NaNs serde_json never stores.
   */
  type FiniteF64 = b: bv64 | b & 0x7FF0_0000_0000_0000 != 0x7FF0_0000_0000_0000

  /**
   * serde_json's `Number`: a non-negative integer, a negative integer, or a finite
   * binary64 float given by its IEEE-754 bit pattern.
   */
  datatype JsonNumber =
    | PosInt(u: U64)
    | NegInt(i: NegI64)
    | Float(bits: FiniteF64)

  datatype Json =
    | Null
    | Bool(b: bool)
    | Number(n: JsonNumber)
    | String(s: string)
    | Array(elems: seq<Json>)
    | Object(fields: map<string, Json>)
}
