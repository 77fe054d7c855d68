/** Parameters as ROS messages and back (`lib/parameter.js`). */
module ParameterMessages {
  import opened JavaScript
  import opened Optional
  import opened Parameters

  /** The fields of a parameter value message. */
  datatype Slot =
    | BoolValue | IntegerValue | DoubleValue | StringValue
    | ByteArrayValue | BoolArrayValue | IntegerArrayValue | DoubleArrayValue | StringArrayValue

  /** Slots that are not set read as undefined. */
  datatype Message = Message(name: string, kind: ParameterType, slots: map<Slot, Value>)

  function SlotOf(kind: ParameterType): Option<Slot> {
    if kind == BOOL then Some(BoolValue)
    else if kind == INTEGER then Some(IntegerValue)
    else if kind == DOUBLE then Some(DoubleValue)
    else if kind == STRING then Some(StringValue)
    else if kind == BYTE_ARRAY then Some(ByteArrayValue)
    else if kind == BOOL_ARRAY then Some(BoolArrayValue)
    else if kind == INTEGER_ARRAY then Some(IntegerArrayValue)
    else if kind == DOUBLE_ARRAY then Some(DoubleArrayValue)
    else if kind == STRING_ARRAY then Some(StringArrayValue)
    else None
  }

  function Whole(x: real): real {
    if x >= 0.0 then x.Floor as real else -((-x).Floor as real)
  }

  /** `Math.trunc`. */
  function Trunc(v: Value): Value {
    if v.Number? && v.n.Finite? then Number(Finite(Whole(v.n.x))) else v
  }

  function TruncAll(vs: seq<Value>): seq<Value> {
    seq(|vs|, i requires 0 <= i < |vs| => Trunc(vs[i]))
  }

  /** `toParameterMessage`; bytes lose their fractions. */
  function ToMessage(p: Parameter): Message
    requires ValidParameter(p)
  {
    match SlotOf(p.kind)
    case None => Message(p.name, p.kind, map[])
    case Some(slot) =>
      Message(p.name, p.kind, map[slot := if p.kind == BYTE_ARRAY then Array(TruncAll(p.value.elems)) else p.value])
  }

  /** `Array.from`, as far as message fields go; it throws for undefined and null. */
  function ArrayFrom(v: Value): Option<Value> {
    match v
    case Array(_) => Some(v)
    case TypedArray(scalars) => Some(Array(seq(|scalars|, i requires 0 <= i < |scalars| => FromScalar(scalars[i]))))
    case _ => None
  }

  /** `BigInt(v)`; strings do not occur here. */
  function ToBigInt(v: Value): Option<Value> {
    match v
    case BigInt(_) => Some(v)
    case Number(Finite(x)) => if x.Floor as real == x then Some(BigInt(x.Floor)) else None
    case Bool(b) => Some(BigInt(if b then 1 else 0))
    case _ => None
  }

  predicate Copied(kind: ParameterType) {
    BYTE_ARRAY <= kind <= STRING_ARRAY && kind != BOOL_ARRAY
  }

  /** `fromParameterMessage`, whose constructor validates; `None` if something throws. */
  function FromMessage(m: Message): Option<Parameter> {
    var slot := SlotOf(m.kind);
    var raw := if slot.Some? && slot.value in m.slots then m.slots[slot.value] else Undefined;
    var value := if Copied(m.kind) then ArrayFrom(raw) else if m.kind == INTEGER then ToBigInt(raw) else Some(raw);
    if value.None? then None
    else if ValidParameter(Parameter(m.name, m.kind, value.value)) then Some(Parameter(m.name, m.kind, value.value))
    else None
  }

  predicate WholeNumber(v: Value) {
    v.Number? && v.n.Finite? ==> v.n.x.Floor as real == v.n.x
  }

  lemma TruncKeepsWholeNumbers(v: Value)
    ensures Trunc(v) == v <==> WholeNumber(v)
  {
    if v.Number? && v.n.Finite? && v.n.x < 0.0 {
      NegatedFloor(v.n.x);
    }
  }

  lemma NegatedFloor(x: real)
    ensures -((-x).Floor as real) == x <==> x.Floor as real == x
  {
    var down, up := x.Floor, -((-x).Floor);
    assert down as real <= x <= up as real;
    if up as real == x {
      assert up <= down;
    }
    if down as real == x {
      assert (-x).Floor == -down by {
        assert (-down) as real == -x;
      }
    }
  }

  /**
   A valid parameter survives the way into a message and back exactly if it is unset without a value,
   or is set and its bytes, if it has any, are whole numbers.
   */
  lemma MessageRoundTripIff(p: Parameter)
    requires ValidParameter(p)
    ensures FromMessage(ToMessage(p)) == Some(p) <==>
              && (p.kind == NOT_SET ==> p.value == Undefined)
              && (p.kind == BYTE_ARRAY ==> forall i | 0 <= i < |p.value.elems| :: WholeNumber(p.value.elems[i]))
  {
    if p.kind == BYTE_ARRAY {
      var vs := p.value.elems;
      forall i | 0 <= i < |vs|
        ensures TruncAll(vs)[i] == vs[i] <==> WholeNumber(vs[i])
        ensures ValidValue(TruncAll(vs)[i], BYTE)
      {
        TruncKeepsWholeNumbers(vs[i]);
      }
      assert TruncAll(vs) == vs <==> forall i | 0 <= i < |vs| :: TruncAll(vs)[i] == vs[i];
    }
  }

  lemma WholeIsWhole(x: real)
    ensures WholeNumber(Number(Finite(Whole(x))))
  {
    if x < 0.0 {
      assert (-((-x).Floor)) as real == Whole(x);
    }
  }

  /** A byte with a fraction is sent, and comes back, as one without. */
  lemma FractionsAreLost(name: string, x: real)
    requires !IsBlank(name) && x.Floor as real != x
    ensures var p := Parameter(name, BYTE_ARRAY, Array([Number(Finite(x))]));
            var q := Parameter(name, BYTE_ARRAY, Array([Number(Finite(Whole(x)))]));
            ValidParameter(p) && ToMessage(p) == ToMessage(q) && FromMessage(ToMessage(p)) == Some(q) && p != q
  {
    var q := Parameter(name, BYTE_ARRAY, Array([Number(Finite(Whole(x)))]));
    WholeIsWhole(x);
    TruncKeepsWholeNumbers(Number(Finite(x)));
    TruncKeepsWholeNumbers(Number(Finite(Whole(x))));
    MessageRoundTripIff(q);
    assert TruncAll([Number(Finite(x))]) == TruncAll(q.value.elems);
  }

  /** A value given to an unset parameter is lost. */
  lemma UnsetValuesAreLost(name: string, v: Value)
    requires !IsBlank(name) && Falsy(v) && v != Undefined
    ensures var p := Parameter(name, NOT_SET, v);
            ValidParameter(p) && FromMessage(ToMessage(p)) == Some(p.(value := Undefined)) != Some(p)
  {
    assert ValidValue(v, NOT_SET) && SlotOf(NOT_SET) == None;
  }

  // ----- The messages themselves -----

  /** What the definition of the message asks of a field that is set. */
  predicate FitsSlot(slot: Slot, v: Value) {
    match slot
    case BoolValue => v.Bool?
    case IntegerValue => v.BigInt?
    case DoubleValue => v.Number?
    case StringValue => v.Str?
    case ByteArrayValue => v.Array? && forall i | 0 <= i < |v.elems| :: v.elems[i].Number? && WholeNumber(v.elems[i])
    case BoolArrayValue => v.Array? && forall i | 0 <= i < |v.elems| :: v.elems[i].Bool?
    case IntegerArrayValue => v.Array? && forall i | 0 <= i < |v.elems| :: v.elems[i].BigInt?
    case DoubleArrayValue => v.Array? && forall i | 0 <= i < |v.elems| :: v.elems[i].Number?
    case StringArrayValue => v.Array? && forall i | 0 <= i < |v.elems| :: v.elems[i].Str?
  }

  /** The message of a valid parameter sets the one field for its type, with a value of that field's type. */
  lemma MessageFits(p: Parameter)
    requires ValidParameter(p)
    ensures ToMessage(p).name == p.name && ToMessage(p).kind == p.kind
    ensures if p.kind == NOT_SET then ToMessage(p).slots == map[] else |ToMessage(p).slots| == 1
    ensures forall slot | slot in ToMessage(p).slots :: FitsSlot(slot, ToMessage(p).slots[slot])
  {
    TypesOfValue(p.value, p.kind);
    if p.kind == BYTE_ARRAY {
      forall i | 0 <= i < |p.value.elems|
        ensures WholeNumber(TruncAll(p.value.elems)[i]) && TruncAll(p.value.elems)[i].Number?
      {
        TruncIsWhole(p.value.elems[i]);
      }
    }
  }

  lemma TruncIsWhole(v: Value)
    requires v.Number?
    ensures Trunc(v).Number? && WholeNumber(Trunc(v))
  {
    if v.n.Finite? {
      WholeIsWhole(v.n.x);
    }
  }

  /** Parameters of different types never set the same field. */
  lemma SlotsAreOwn(p: Parameter, q: Parameter, slot: Slot)
    requires ValidParameter(p) && ValidParameter(q) && slot in ToMessage(p).slots && slot in ToMessage(q).slots
    ensures p.kind == q.kind
  {
  }

  /** An integer that arrives as a number is taken over exactly if it is whole. */
  lemma NumbersArriveAsIntegers(name: string, x: real)
    requires !IsBlank(name)
    ensures FromMessage(Message(name, INTEGER, map[IntegerValue := Number(Finite(x))]))
            == if x.Floor as real == x then Some(Parameter(name, INTEGER, BigInt(x.Floor))) else None
  {
    var m := Message(name, INTEGER, map[IntegerValue := Number(Finite(x))]);
    assert SlotOf(INTEGER) == Some(IntegerValue) && m.slots[IntegerValue] == Number(Finite(x));
  }

  /** Arrays of integers that arrive as typed arrays become plain ones, element by element. */
  lemma TypedArraysArrive(name: string, xs: seq<int>)
    requires !IsBlank(name)
    ensures var scalars := seq(|xs|, i requires 0 <= i < |xs| => BigIntScalar(xs[i]));
            FromMessage(Message(name, INTEGER_ARRAY, map[IntegerArrayValue := TypedArray(scalars)]))
            == Some(Parameter(name, INTEGER_ARRAY, Array(seq(|xs|, i requires 0 <= i < |xs| => BigInt(xs[i])))))
  {
    var scalars := seq(|xs|, i requires 0 <= i < |xs| => BigIntScalar(xs[i]));
    var elems := seq(|xs|, i requires 0 <= i < |xs| => BigInt(xs[i]));
    var raw := TypedArray(scalars);
    var m := Message(name, INTEGER_ARRAY, map[IntegerArrayValue := raw]);
    assert SlotOf(INTEGER_ARRAY) == Some(IntegerArrayValue) && m.slots[IntegerArrayValue] == raw;
    assert seq(|scalars|, i requires 0 <= i < |scalars| => FromScalar(scalars[i])) == elems;
    TypesOfValue(Array(elems), INTEGER_ARRAY);
    assert ArrayFrom(raw) == Some(Array(elems));
  }
}
