/**
 Three parts meet on the wire: the validator accepts a value for a field, `toJSONSafe` turns it into
 JSON, and the exported schema describes what clients may expect there.
 */
module WireValues {
  import opened JavaScript
  import opened MessageFields
  import opened MessageSerialization
  import opened MessageValidation
  import opened Optional
  import OpenApi

  predicate IsWhole(v: Value) {
    v.Number? && v.n.Finite? && v.n.x.Floor as real == v.n.x
  }

  predicate IsFinite(v: Value) {
    v.Number? && v.n.Finite?
  }

  /** JSON Schema validation of a field; references are left to the schema they name. */
  predicate Admits(f: OpenApi.Fragment, v: Value)
    decreases f
  {
    match f
    case Boolean => v.Bool?
    case BigIntString(unsigned) => v.Str? && LooksBig(v.s) && (unsigned ==> !Negative(v.s))
    case Integer => IsWhole(v)
    case Number => IsFinite(v)
    case Text(max) => v.Str? && (max.Some? ==> |v.s| <= max.value)
    case Anything => true
    case ComponentRef(_) => true
    case ArrayOf(items, min, max) =>
      && v.Array? && (min.Some? ==> |v.elems| >= min.value) && (max.Some? ==> |v.elems| <= max.value)
      && forall i | 0 <= i < |v.elems| :: Admits(items, v.elems[i])
  }

  /** What a message value has to be for its JSON form to match: nothing in it is lost or out of bounds. */
  predicate Ready(f: OpenApi.Fragment, v: Value) {
    match f
    case BigIntString(unsigned) => v.BigInt? && (unsigned ==> v.i >= 0)
    case Integer => IsWhole(v)
    case Number => IsFinite(v)
    case Text(max) => v.Str? && (max.Some? ==> |v.s| <= max.value)
    case _ => true
  }

  /** The schema of a primitive type describes the values the validator takes for it. */
  predicate Suits(f: OpenApi.Fragment, v: Value) {
    match f
    case Boolean => v.Bool?
    case BigIntString(_) => v.BigInt? || v.Number?
    case Integer => v.Number?
    case Number => v.Number?
    case Text(_) => v.Str?
    case Anything => true
    case _ => false
  }

  lemma FittingSuits(typ: string, bound: Option<nat>, v: Value)
    requires FitsPrimitive(v, typ)
    ensures Suits(OpenApi.PrimitiveSchema(typ, bound), v)
  {
  }

  /** A printed integer matches the unsigned pattern exactly if it is not negative. */
  lemma PrintedSign(i: int)
    ensures Negative(Print(i) + "n") <==> i < 0
  {
    if i >= 0 {
      ParsePrintNat(i);
      assert IsDigit(PrintNat(i)[0]);
    }
  }

  lemma BigIntAdmittedIff(unsigned: bool, i: int)
    ensures Admits(OpenApi.BigIntString(unsigned), ToJSONSafe(BigInt(i))) <==> (unsigned ==> i >= 0)
  {
    PrintLooksBig(i);
    PrintedSign(i);
  }

  lemma ScalarAdmittedIff(f: OpenApi.Fragment, v: Value)
    requires Suits(f, v)
    ensures Admits(f, ToJSONSafe(v)) <==> Ready(f, v)
  {
    match f
    case BigIntString(unsigned) =>
      if v.BigInt? {
        BigIntAdmittedIff(unsigned, v.i);
      }
    case Integer => assert IsFinite(v) ==> ToJSONSafe(v) == v;
    case Number => assert IsFinite(v) ==> ToJSONSafe(v) == v;
    case _ =>
  }

  /** The elements of an array or typed array. */
  function Elements(v: Value): seq<Value> {
    match v
    case Array(elems) => elems
    case TypedArray(scalars) => seq(|scalars|, i requires 0 <= i < |scalars| => FromScalar(scalars[i]))
    case _ => []
  }

  /** The validator finds nothing to object to in the value of a primitive field or in any element of it. */
  predicate FitsField(v: Value, ft: FieldType) {
    if ft.isArray then
      FitsArray(v, ft) && forall i | 0 <= i < |Elements(v)| :: FitsPrimitive(Elements(v)[i], ft.typ)
    else FitsPrimitive(v, ft.typ)
  }

  /** What a value of each type has to be so that nothing is lost, and nothing out of bounds, in its JSON form. */
  predicate IsReady(typ: string, bound: Option<nat>, v: Value) {
    && (typ == "int64" || typ == "uint64" ==> v.BigInt?)
    && (typ == "uint64" && v.BigInt? ==> v.i >= 0)
    && (typ in {"int8", "uint8", "int16", "uint16", "int32", "uint32", "byte", "char"} ==> IsWhole(v))
    && (typ == "float32" || typ == "float64" ==> IsFinite(v))
    && (typ == "string" || typ == "wstring" ==> v.Str? && (bound.Some? && bound.value > 0 ==> |v.s| <= bound.value))
  }

  lemma ReadyIff(typ: string, bound: Option<nat>, v: Value)
    ensures Ready(OpenApi.PrimitiveSchema(typ, bound), v) <==> IsReady(typ, bound, v)
  {
  }

  predicate FieldReady(v: Value, ft: FieldType) {
    if ft.isArray then forall i | 0 <= i < |Elements(v)| :: IsReady(ft.typ, ft.stringUpperBound, Elements(v)[i])
    else IsReady(ft.typ, ft.stringUpperBound, v)
  }

  lemma SafeElements(v: Value)
    requires v.Array? || v.TypedArray?
    ensures ToJSONSafe(v).Array? && |ToJSONSafe(v).elems| == |Elements(v)| == LengthOf(v)
    ensures forall i | 0 <= i < |Elements(v)| :: ToJSONSafe(v).elems[i] == ToJSONSafe(Elements(v)[i])
  {
  }

  /**
   What the validator accepts in a primitive field matches the exported schema, once it is JSON, exactly
   if 64-bit integers are bigints, unsigned ones not negative, other integers whole, numbers finite and
   bounded strings short enough. The lengths of arrays always match.
   */
  lemma AcceptedMatchesSchemaIff(v: Value, ft: FieldType)
    requires ft.isPrimitive && FitsField(v, ft)
    ensures Admits(OpenApi.FragmentOf(ft), ToJSONSafe(v)) <==> FieldReady(v, ft)
  {
    var f := OpenApi.PrimitiveSchema(ft.typ, ft.stringUpperBound);
    if ft.isArray {
      SafeElements(v);
      var scalar := ft.(isArray := false);
      assert OpenApi.FragmentOf(scalar) == f;
      forall i | 0 <= i < |Elements(v)|
        ensures Admits(f, ToJSONSafe(v).elems[i]) <==> IsReady(ft.typ, ft.stringUpperBound, Elements(v)[i])
      {
        ReadyIff(ft.typ, ft.stringUpperBound, Elements(v)[i]);
        FittingSuits(ft.typ, ft.stringUpperBound, Elements(v)[i]);
        ScalarAdmittedIff(f, Elements(v)[i]);
      }
    } else {
      ReadyIff(ft.typ, ft.stringUpperBound, v);
      FittingSuits(ft.typ, ft.stringUpperBound, v);
      ScalarAdmittedIff(f, v);
    }
  }

  // ----- The way back -----

  predicate IsText(typ: string) {
    typ == "string" || typ == "wstring"
  }

  /** What the schema of a type admits is revived to a value of the type, unless a text looks like a bigint. */
  lemma AdmittedScalarFitsIff(typ: string, bound: Option<nat>, j: Value)
    requires Admits(OpenApi.PrimitiveSchema(typ, bound), j)
    ensures FitsPrimitive(ReviveBigInts(j), typ) <==> !(IsText(typ) && j.Str? && LooksBig(j.s))
  {
    assert "number" != "string" && "bigint" != "string" && "boolean" != "string";
  }

  /** A text in the value that looks like a bigint. */
  predicate HoldsBigText(j: Value, ft: FieldType) {
    IsText(ft.typ) &&
    if ft.isArray then j.Array? && exists i | 0 <= i < |j.elems| :: j.elems[i].Str? && LooksBig(j.elems[i].s)
    else j.Str? && LooksBig(j.s)
  }

  /**
   What the exported schema of a primitive field admits passes the validator, once it is revived, exactly
   if it holds no text that looks like a bigint and, for an array of fixed size, the size is known.
   */
  lemma AdmittedFitsIff(j: Value, ft: FieldType)
    requires ft.isPrimitive && Admits(OpenApi.FragmentOf(ft), j)
    ensures FitsField(ReviveBigInts(j), ft) <==>
              !HoldsBigText(j, ft) && (ft.isArray && ft.isFixedSize ==> ft.arraySize.Some?)
  {
    var f := OpenApi.PrimitiveSchema(ft.typ, ft.stringUpperBound);
    if ft.isArray {
      assert OpenApi.FragmentOf(ft.(isArray := false)) == f;
      var revived := ReviveBigInts(j);
      assert revived.Array? && Elements(revived) == revived.elems && |revived.elems| == |j.elems|;
      forall i | 0 <= i < |j.elems|
        ensures FitsPrimitive(revived.elems[i], ft.typ) <==> !(IsText(ft.typ) && j.elems[i].Str? && LooksBig(j.elems[i].s))
      {
        AdmittedScalarFitsIff(ft.typ, ft.stringUpperBound, j.elems[i]);
      }
    } else {
      AdmittedScalarFitsIff(ft.typ, ft.stringUpperBound, j);
    }
  }
}
