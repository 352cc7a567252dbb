/** The JavaScript values that cross the interface of bytes.js. */
module Values {

  /** A JavaScript number: NaN, an infinity, or a finite value, held exactly. */
  datatype Number = NaN | Infinity(negative: bool) | Finite(value: real)

  /** An argument of `bytes` or `parse`; its `typeof` decides what happens to it. */
  datatype Value = Str(s: string) | Num(n: Number) | Other

  /**
   * What the functions give back: null, a string, a number, a thrown
   * RangeError, or the object stored under an inherited property of
   * Object.prototype, named by the property.
   */
  datatype Outcome = Null | Text(text: string) | Numeric(number: Number) | RangeError | Inherited(property: string)
}
