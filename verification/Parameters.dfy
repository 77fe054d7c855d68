/**
 Node parameters, their descriptors and the checks of `lib/parameter.js`, on values.
 */
module Parameters {
  import opened JavaScript
  import opened Optional

  type ParameterType = int

  const NOT_SET := 0
  const BOOL := 1
  const INTEGER := 2
  const DOUBLE := 3
  const STRING := 4
  const BYTE_ARRAY := 5
  const BOOL_ARRAY := 6
  const INTEGER_ARRAY := 7
  const DOUBLE_ARRAY := 8
  const STRING_ARRAY := 9
  const BYTE := 10

  datatype Parameter = Parameter(name: string, kind: ParameterType, value: Value)

  /**
   A range constraint. What JavaScript makes of comparing an array with a bigint, and the tolerance
   of floating-point ranges, are left open as predicates.
   */
  datatype Range =
    | IntegerRange(from: int, to: int, step: int, coerced: Value -> bool)
    | FloatingPointRange(accepts: Value -> bool)

  datatype Descriptor = Descriptor(name: string, kind: ParameterType, readOnly: bool, range: Option<Range>)

  predicate ValidType(kind: ParameterType) {
    NOT_SET <= kind <= STRING_ARRAY
  }

  predicate Falsy(v: Value) {
    v == Undefined || v == Null || v == Bool(false) || v == Number(Finite(0.0)) || v == Number(NaN)
    || v == BigInt(0) || v == Str("")
  }

  function ElementType(kind: ParameterType): ParameterType {
    if kind == BOOL_ARRAY then BOOL
    else if kind == BYTE_ARRAY then BYTE
    else if kind == INTEGER_ARRAY then INTEGER
    else if kind == DOUBLE_ARRAY then DOUBLE
    else STRING
  }

  predicate ValidValue(v: Value, kind: ParameterType) {
    if v == Undefined || v == Null then kind == NOT_SET
    else if kind == NOT_SET then Falsy(v)
    else if kind == BOOL then v.Bool?
    else if kind == STRING then v.Str?
    else if kind == DOUBLE || kind == BYTE then v.Number?
    else if kind == INTEGER then v.BigInt?
    else if BYTE_ARRAY <= kind <= STRING_ARRAY then
      v.Array? && forall i | 0 <= i < |v.elems| :: ValidValue(v.elems[i], ElementType(kind))
    else false
  }

  /** The types that a value can have, by what it is. */
  lemma TypesOfValue(v: Value, kind: ParameterType)
    ensures v.Undefined? || v.Null? ==> (ValidValue(v, kind) <==> kind == NOT_SET)
    ensures v.Bool? ==> (ValidValue(v, kind) <==> kind == BOOL || (kind == NOT_SET && !v.b))
    ensures v.Str? ==> (ValidValue(v, kind) <==> kind == STRING || (kind == NOT_SET && v.s == ""))
    ensures v.BigInt? ==> (ValidValue(v, kind) <==> kind == INTEGER || (kind == NOT_SET && v.i == 0))
    ensures v.Number? ==> (ValidValue(v, kind) <==>
              kind == DOUBLE || kind == BYTE || (kind == NOT_SET && (v.n.NaN? || v.n == Finite(0.0))))
    ensures v.Function? || v.TypedArray? || v.Object? ==> !ValidValue(v, kind)
    ensures v.Array? ==> (ValidValue(v, kind) <==>
              || (kind == BOOL_ARRAY && forall i | 0 <= i < |v.elems| :: v.elems[i].Bool?)
              || (kind == STRING_ARRAY && forall i | 0 <= i < |v.elems| :: v.elems[i].Str?)
              || (kind == INTEGER_ARRAY && forall i | 0 <= i < |v.elems| :: v.elems[i].BigInt?)
              || ((kind == DOUBLE_ARRAY || kind == BYTE_ARRAY) && forall i | 0 <= i < |v.elems| :: v.elems[i].Number?))
  {
    if v.Array? && BYTE_ARRAY <= kind <= STRING_ARRAY {
      forall i | 0 <= i < |v.elems|
        ensures ValidValue(v.elems[i], ElementType(kind)) <==> IsElement(v.elems[i], kind)
      {
      }
    }
  }

  predicate IsElement(v: Value, kind: ParameterType) {
    if kind == BOOL_ARRAY then v.Bool?
    else if kind == STRING_ARRAY then v.Str?
    else if kind == INTEGER_ARRAY then v.BigInt?
    else v.Number?
  }

  predicate ValidParameter(p: Parameter) {
    !IsBlank(p.name) && ValidType(p.kind) && ValidValue(p.value, p.kind)
  }

  /** A valid parameter or descriptor has a name with something in it, and one of the ten types. */
  lemma ValidNames(p: Parameter, d: Descriptor)
    ensures ValidParameter(p) ==> (exists i | 0 <= i < |p.name| :: !IsSpace(p.name[i])) && 0 <= p.kind <= 9
    ensures ValidDescriptor(d) ==> (exists i | 0 <= i < |d.name| :: !IsSpace(d.name[i])) && 0 <= d.kind <= 9
  {
  }

  predicate RangeFits(r: Range, kind: ParameterType) {
    match r
    case IntegerRange(_, _, _, _) => kind == INTEGER || kind == INTEGER_ARRAY
    case FloatingPointRange(_) => kind == DOUBLE || kind == DOUBLE_ARRAY
  }

  predicate ValidDescriptor(d: Descriptor) {
    !IsBlank(d.name) && ValidType(d.kind) && (d.range.Some? ==> RangeFits(d.range.value, d.kind))
  }

  predicate InRange(r: Range, v: Value) {
    match r
    case IntegerRange(from, to, step, coerced) =>
      if v.BigInt? then
        if v.i < from || v.i > to then false
        else if step != 0 && (v.i - from) % step != 0 then false
        else true
      else coerced(v)
    case FloatingPointRange(accepts) => accepts(v)
  }

  /** `ParameterDescriptor.validateParameter` does not throw. */
  predicate Accepts(d: Descriptor, p: Parameter) {
    && ValidParameter(p) && ValidDescriptor(d)
    && d.name == p.name && d.kind == p.kind
    && (d.range.Some? ==> InRange(d.range.value, p.value))
  }

  predicate IsInteger(v: Value) {
    v.BigInt? || (v.Array? && forall i | 0 <= i < |v.elems| :: v.elems[i].BigInt?)
  }

  predicate IsNumber(v: Value) {
    v.Number? || (v.Array? && forall i | 0 <= i < |v.elems| :: v.elems[i].Number?)
  }

  /** A range is only ever compared with values of its own sort. */
  lemma RangesMatchValues(d: Descriptor, p: Parameter)
    requires Accepts(d, p) && d.range.Some?
    ensures d.range.value.IntegerRange? ==> IsInteger(p.value)
    ensures d.range.value.FloatingPointRange? ==> IsNumber(p.value)
  {
    TypesOfValue(p.value, p.kind);
  }

  /** Each sort of range is allowed for its two types. */
  lemma RangesAllowed(name: string, readOnly: bool, r: Range, kind: ParameterType)
    requires !IsBlank(name)
    requires if r.IntegerRange? then kind == INTEGER || kind == INTEGER_ARRAY else kind == DOUBLE || kind == DOUBLE_ARRAY
    ensures ValidDescriptor(Descriptor(name, kind, readOnly, Some(r)))
  {
  }

  /** `ParameterDescriptor.fromParameter`. */
  function FromParameter(p: Parameter): Descriptor {
    Descriptor(p.name, p.kind, false, None)
  }

  /** A scalar integer is in range exactly if it is a whole number of steps from the lower end. */
  lemma IntegerRangeMeaning(from: int, to: int, step: int, coerced: Value -> bool, v: int)
    ensures InRange(IntegerRange(from, to, step, coerced), BigInt(v)) <==>
              from <= v <= to && (step == 0 || exists n: int :: v == from + n * step)
  {
    if step != 0 {
      if (v - from) % step == 0 {
        assert v == from + ((v - from) / step) * step;
      }
      if n: int :| v == from + n * step {
        MultipleHasNoRemainder(n, step);
      }
    }
  }

  lemma MultipleHasNoRemainder(n: int, step: int)
    requires step != 0
    ensures (n * step) % step == 0
  {
    var m := n - (n * step) / step;
    assert (n * step) % step == m * step;
    if m != 0 {
      ProductIsLarge(if m > 0 then m else -m, if step > 0 then step else -step);
    }
  }

  lemma ProductIsLarge(a: nat, b: nat)
    requires a >= 1
    ensures a * b >= b
  {
    assert a * b == b + (a - 1) * b;
  }
}
