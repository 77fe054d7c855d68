/** JavaScript values and strings, as several parts of the model need them. */
module JavaScript {
  datatype Num = Finite(x: real) | PosInf | NegInf | NaN

  /** Objects have their own enumerable keys in order; typed arrays hold numbers or bigints. */
  datatype Value =
    | Undefined
    | Null
    | Bool(b: bool)
    | Number(n: Num)
    | BigInt(i: int)
    | Str(s: string)
    | Function(id: nat)
    | TypedArray(scalars: seq<Scalar>)
    | Array(elems: seq<Value>)
    | Object(entries: seq<Entry>)

  datatype Scalar = NumberScalar(n: Num) | BigIntScalar(i: int)

  datatype Entry = Entry(key: string, value: Value)

  function FromScalar(x: Scalar): Value {
    match x
    case NumberScalar(n) => Number(n)
    case BigIntScalar(i) => BigInt(i)
  }

  /** `String.prototype.trim` removes these. */
  predicate IsSpace(c: char) {
    || '\t' <= c <= '\r' || c == ' ' || c == '\U{00A0}' || c == '\U{1680}'
    || '\U{2000}' <= c <= '\U{200A}' || c == '\U{2028}' || c == '\U{2029}' || c == '\U{202F}'
    || c == '\U{205F}' || c == '\U{3000}' || c == '\U{FEFF}'
  }

  predicate IsBlank(s: string) {
    forall i | 0 <= i < |s| :: IsSpace(s[i])
  }
}
