/** The message validator of `lib/message_validation.js`. */
module MessageValidation {
  import opened JavaScript
  import opened MessageFields
  import opened MessageSerialization
  import opened Optional

  type TypeClass = nat

  /** The fields of each type class that has a definition, and the classes found for its nested fields. */
  datatype Env = Env(schema: TypeClass -> Option<seq<Field>>, nested: (TypeClass, string) -> Option<TypeClass>)

  datatype Options = Options(strict: bool, checkTypes: bool, checkRequired: bool)

  datatype Step = Named(name: string) | At(index: nat)

  datatype Problem =
    | InvalidTypeClass
    | NoSchema
    | UnknownField
    | MissingField(expectedType: string)
    | TypeMismatch(expected: string, received: string)
    | ArrayLength(exact: bool, size: nat, length: nat)

  /** The empty path stands for the root. */
  datatype Issue = Issue(path: seq<Step>, problem: Problem)

  // ----- Values -----

  function TypeOf(v: Value): string {
    match v
    case Undefined => "undefined"
    case Bool(_) => "boolean"
    case Number(_) => "number"
    case BigInt(_) => "bigint"
    case Str(_) => "string"
    case Function(_) => "function"
    case _ => "object"
  }

  function ValueType(v: Value): string {
    match v
    case Null => "null"
    case Array(_) => "array"
    case TypedArray(_) => "TypedArray"
    case _ => TypeOf(v)
  }

  predicate IsScalar(v: Value) {
    v.Str? || v.Number? || v.Bool? || v.BigInt?
  }

  function Keys(v: Value): seq<string> {
    match v
    case Object(entries) => seq(|entries|, i requires 0 <= i < |entries| => entries[i].key)
    case Array(elems) => seq(|elems|, i requires 0 <= i < |elems| => PrintNat(i))
    case TypedArray(scalars) => seq(|scalars|, i requires 0 <= i < |scalars| => PrintNat(i))
    case _ => []
  }

  /** Where the key is, or past the end. */
  function Find(entries: seq<Entry>, key: string): (i: nat)
    ensures i <= |entries|
    ensures i < |entries| ==> entries[i].key == key
    ensures i == |entries| ==> forall k | 0 <= k < |entries| :: entries[k].key != key
  {
    if entries == [] then 0 else if entries[0].key == key then 0 else Find(entries[1..], key) + 1
  }

  /** `obj[name]`, without what objects inherit. */
  function Get(v: Value, name: string): Value {
    match v
    case Object(entries) =>
      var i := Find(entries, name);
      if i < |entries| then entries[i].value else Undefined
    case Array(elems) => if name == "length" then Number(Finite(|elems| as real)) else Undefined
    case TypedArray(scalars) => if name == "length" then Number(Finite(|scalars| as real)) else Undefined
    case _ => Undefined
  }

  // ----- Issues -----

  function JsType(typ: string): Option<string> {
    if typ == "bool" then Some("boolean")
    else if typ == "int64" || typ == "uint64" then Some("bigint")
    else if typ == "string" || typ == "wstring" then Some("string")
    else if typ in ["int8", "uint8", "int16", "uint16", "int32", "uint32", "float32", "float64", "char", "byte"] then
      Some("number")
    else None
  }

  /** `validatePrimitiveValue`; numbers also pass for 64-bit integers, and unknown types take anything. */
  function PrimitiveProblem(v: Value, typ: string): Option<Problem> {
    var expected := JsType(typ);
    if expected.None? then None
    else if expected.value == "bigint" && TypeOf(v) == "number" then None
    else if TypeOf(v) != expected.value then Some(TypeMismatch(expected.value, TypeOf(v)))
    else None
  }

  function LengthOf(v: Value): nat {
    match v
    case Array(elems) => |elems|
    case TypedArray(scalars) => |scalars|
    case _ => 0
  }

  /** `validateArrayConstraints`. */
  function ArrayProblem(v: Value, ft: FieldType): Option<Problem> {
    if !v.Array? && !v.TypedArray? then Some(TypeMismatch("array", ValueType(v)))
    else if ft.isFixedSize && ft.arraySize != Some(LengthOf(v)) then
      Some(ArrayLength(true, if ft.arraySize.Some? then ft.arraySize.value else 0, LengthOf(v)))
    else if ft.isUpperBound && ft.arraySize.Some? && LengthOf(v) > ft.arraySize.value then
      Some(ArrayLength(false, ft.arraySize.value, LengthOf(v)))
    else None
  }

  function AsIssues(path: seq<Step>, problem: Option<Problem>): seq<Issue> {
    if problem.Some? then [Issue(path, problem.value)] else []
  }

  predicate IsFieldName(fields: seq<Field>, key: string) {
    exists i | 0 <= i < |fields| :: fields[i].name == key
  }

  /** Unknown keys among the first `n`. */
  function UnknownKeys(fields: seq<Field>, keys: seq<string>, path: seq<Step>): seq<Issue> {
    if keys == [] then []
    else
      var last := keys[|keys| - 1];
      UnknownKeys(fields, keys[..|keys| - 1], path)
      + if IsFieldName(fields, last) then [] else [Issue(path + [Named(last)], UnknownField)]
  }

  /** A lone field `data` may be given as a bare scalar. */
  predicate IsWrapper(fields: seq<Field>) {
    |fields| == 1 && fields[0].name == "data"
  }

  function Issues(env: Env, v: Value, t: Option<TypeClass>, o: Options, path: seq<Step>): seq<Issue>
    decreases v, 3, 0
  {
    if t.None? then [Issue(path, InvalidTypeClass)]
    else if env.schema(t.value).None? then [Issue(path, NoSchema)]
    else
      var fields := env.schema(t.value).value;
      if v.Null? || v.Undefined? then [Issue(path, TypeMismatch("object", ValueType(v)))]
      else if IsScalar(v) && IsWrapper(fields) then
        if o.checkTypes && fields[0].typ.isPrimitive then
          AsIssues(path + [Named("data")], PrimitiveProblem(v, fields[0].typ.typ))
        else []
      else if TypeOf(v) != "object" then [Issue(path, TypeMismatch("object", TypeOf(v)))]
      else
        (if o.strict then UnknownKeys(fields, Keys(v), path) else []) + FieldIssues(env, v, t.value, fields, o, path)
  }

  function FieldIssues(env: Env, v: Value, t: TypeClass, fields: seq<Field>, o: Options, path: seq<Step>): seq<Issue>
    requires TypeOf(v) == "object"
    decreases v, 2, |fields|
  {
    if fields == [] then []
    else
      FieldIssues(env, v, t, fields[..|fields| - 1], o, path) + OneField(env, v, t, fields[|fields| - 1], o, path)
  }

  function OneField(env: Env, v: Value, t: TypeClass, field: Field, o: Options, path: seq<Step>): seq<Issue>
    requires TypeOf(v) == "object"
    decreases v, 1, 0
  {
    var here, w := path + [Named(field.name)], Get(v, field.name);
    if IsHidden(field.name) then []
    else if w.Undefined? then if o.checkRequired then [Issue(here, MissingField(field.typ.typ))] else []
    else if field.typ.isArray then
      if ArrayProblem(w, field.typ).Some? then AsIssues(here, ArrayProblem(w, field.typ))
      else if o.checkTypes && w.Array? then
        if field.typ.isPrimitive then PrimitiveElements(w.elems, field.typ.typ, here)
        else NestedElements(env, w.elems, env.nested(t, field.name), o, here)
      else []
    else if field.typ.isPrimitive then if o.checkTypes then AsIssues(here, PrimitiveProblem(w, field.typ.typ)) else []
    else if TypeOf(w) == "object" && !w.Null? then
      if env.nested(t, field.name).Some? then Issues(env, w, env.nested(t, field.name), o, here) else []
    else if o.checkTypes && !w.Null? then [Issue(here, TypeMismatch("object", ValueType(w)))]
    else []
  }

  function ElementProblems(elems: seq<Value>, problem: Value -> Option<Problem>, path: seq<Step>): seq<Issue> {
    if elems == [] then []
    else
      var n := |elems| - 1;
      ElementProblems(elems[..n], problem, path) + AsIssues(path + [At(n)], problem(elems[n]))
  }

  function PrimitiveElements(elems: seq<Value>, typ: string, path: seq<Step>): seq<Issue> {
    ElementProblems(elems, v => PrimitiveProblem(v, typ), path)
  }

  function NestedElements(env: Env, elems: seq<Value>, t: Option<TypeClass>, o: Options, path: seq<Step>): seq<Issue>
    decreases elems, 0, 0
  {
    if elems == [] then []
    else
      var n := |elems| - 1;
      NestedElements(env, elems[..n], t, o, path) + Issues(env, elems[n], t, o, path + [At(n)])
  }

  // ----- What a valid message is -----

  predicate FitsPrimitive(v: Value, typ: string) {
    match JsType(typ)
    case None => true
    case Some(expected) => TypeOf(v) == expected || (expected == "bigint" && TypeOf(v) == "number")
  }

  predicate FitsArray(v: Value, ft: FieldType) {
    && (v.Array? || v.TypedArray?)
    && (ft.isFixedSize ==> ft.arraySize == Some(LengthOf(v)))
    && (ft.isUpperBound && ft.arraySize.Some? ==> LengthOf(v) <= ft.arraySize.value)
  }

  /** The value has the shape of the message type, as far as the options ask for it. */
  predicate Conforms(env: Env, v: Value, t: Option<TypeClass>, o: Options)
    decreases v, 2
  {
    && t.Some? && env.schema(t.value).Some?
    && var fields := env.schema(t.value).value;
       if IsScalar(v) && IsWrapper(fields) then
         o.checkTypes && fields[0].typ.isPrimitive ==> FitsPrimitive(v, fields[0].typ.typ)
       else
         && TypeOf(v) == "object" && !v.Null?
         && (o.strict ==> forall i | 0 <= i < |Keys(v)| :: IsFieldName(fields, Keys(v)[i]))
         && forall i | 0 <= i < |fields| && !IsHidden(fields[i].name) :: FieldConforms(env, v, t.value, fields[i], o)
  }

  predicate FieldConforms(env: Env, v: Value, t: TypeClass, field: Field, o: Options)
    requires TypeOf(v) == "object"
    decreases v, 1
  {
    var w := Get(v, field.name);
    if w.Undefined? then !o.checkRequired
    else if field.typ.isArray then
      && FitsArray(w, field.typ)
      && (o.checkTypes && w.Array? ==> forall i | 0 <= i < |w.elems| ::
            if field.typ.isPrimitive then FitsPrimitive(w.elems[i], field.typ.typ)
            else Conforms(env, w.elems[i], env.nested(t, field.name), o))
    else if field.typ.isPrimitive then o.checkTypes ==> FitsPrimitive(w, field.typ.typ)
    else if w.Null? then true
    else if TypeOf(w) == "object" then env.nested(t, field.name).Some? ==> Conforms(env, w, env.nested(t, field.name), o)
    else !o.checkTypes
  }

  /** No issue is reported exactly for the values that conform. */
  lemma {:induction false} ValidIffConforms(env: Env, v: Value, t: Option<TypeClass>, o: Options, path: seq<Step>)
    ensures Issues(env, v, t, o, path) == [] <==> Conforms(env, v, t, o)
    decreases v, 3, 0
  {
    if t.Some? && env.schema(t.value).Some? {
      var fields := env.schema(t.value).value;
      if IsScalar(v) && IsWrapper(fields) {
        ProblemIff(v, fields[0].typ.typ);
      } else if TypeOf(v) == "object" && !v.Null? {
        ObjectValidIff(env, v, t.value, fields, o, path);
      }
    }
  }

  lemma ProblemIff(v: Value, typ: string)
    ensures PrimitiveProblem(v, typ).None? <==> FitsPrimitive(v, typ)
  {
  }

  lemma {:induction false} ObjectValidIff(env: Env, v: Value, t: TypeClass, fields: seq<Field>, o: Options, path: seq<Step>)
    requires TypeOf(v) == "object"
    ensures (if o.strict then UnknownKeys(fields, Keys(v), path) else []) + FieldIssues(env, v, t, fields, o, path) == [] <==>
              && (o.strict ==> forall i | 0 <= i < |Keys(v)| :: IsFieldName(fields, Keys(v)[i]))
              && forall i | 0 <= i < |fields| && !IsHidden(fields[i].name) :: FieldConforms(env, v, t, fields[i], o)
    decreases v, 2, 0
  {
    NoUnknownKeys(fields, Keys(v), path);
    FieldsValidIff(env, v, t, fields, o, path);
  }

  lemma {:induction false} NoUnknownKeys(fields: seq<Field>, keys: seq<string>, path: seq<Step>)
    ensures UnknownKeys(fields, keys, path) == [] <==> forall i | 0 <= i < |keys| :: IsFieldName(fields, keys[i])
  {
    if keys != [] {
      NoUnknownKeys(fields, keys[..|keys| - 1], path);
    }
  }

  lemma {:induction false} FieldsValidIff(env: Env, v: Value, t: TypeClass, fields: seq<Field>, o: Options, path: seq<Step>)
    requires TypeOf(v) == "object"
    ensures FieldIssues(env, v, t, fields, o, path) == [] <==>
              forall i | 0 <= i < |fields| && !IsHidden(fields[i].name) :: FieldConforms(env, v, t, fields[i], o)
    decreases v, 1, |fields|
  {
    if fields != [] {
      FieldsValidIff(env, v, t, fields[..|fields| - 1], o, path);
      FieldValidIff(env, v, t, fields[|fields| - 1], o, path);
    }
  }

  lemma {:induction false} FieldValidIff(env: Env, v: Value, t: TypeClass, field: Field, o: Options, path: seq<Step>)
    requires TypeOf(v) == "object"
    ensures OneField(env, v, t, field, o, path) == [] <==> IsHidden(field.name) || FieldConforms(env, v, t, field, o)
    decreases v, 0, 0
  {
    var here, w := path + [Named(field.name)], Get(v, field.name);
    if w.Array? && field.typ.isArray {
      if field.typ.isPrimitive {
        PrimitivesValidIff(w.elems, field.typ.typ, here);
      } else {
        NestedValidIff(env, w.elems, env.nested(t, field.name), o, here);
      }
    } else if TypeOf(w) == "object" && !w.Null? && v.Object? {
      ValidIffConforms(env, w, env.nested(t, field.name), o, here);
    }
  }

  lemma PrimitivesValidIff(elems: seq<Value>, typ: string, path: seq<Step>)
    ensures PrimitiveElements(elems, typ, path) == [] <==> forall i | 0 <= i < |elems| :: FitsPrimitive(elems[i], typ)
  {
    var problem := v => PrimitiveProblem(v, typ);
    NoElementProblems(elems, problem, path);
    forall i | 0 <= i < |elems|
      ensures problem(elems[i]).None? <==> FitsPrimitive(elems[i], typ)
    {
      ProblemIff(elems[i], typ);
    }
  }

  predicate NoneIn(elems: seq<Value>, problem: Value -> Option<Problem>) {
    forall i | 0 <= i < |elems| :: problem(elems[i]).None?
  }

  lemma {:induction false} NoElementProblems(elems: seq<Value>, problem: Value -> Option<Problem>, path: seq<Step>)
    ensures ElementProblems(elems, problem, path) == [] <==> NoneIn(elems, problem)
  {
    if elems != [] {
      var n := |elems| - 1;
      var init := elems[..n];
      NoElementProblems(init, problem, path);
      assert NoneIn(elems, problem) <==> NoneIn(init, problem) && problem(elems[n]).None? by {
        assert forall i | 0 <= i < n :: init[i] == elems[i];
      }
    }
  }

  predicate AllConform(env: Env, elems: seq<Value>, t: Option<TypeClass>, o: Options) {
    forall i | 0 <= i < |elems| :: Conforms(env, elems[i], t, o)
  }

  lemma {:induction false} NestedValidIff(env: Env, elems: seq<Value>, t: Option<TypeClass>, o: Options, path: seq<Step>)
    ensures NestedElements(env, elems, t, o, path) == [] <==> AllConform(env, elems, t, o)
    decreases elems, 0, 0
  {
    if elems != [] {
      var n := |elems| - 1;
      NestedValidIff(env, elems[..n], t, o, path);
      ValidIffConforms(env, elems[n], t, o, path + [At(n)]);
      LastToo(env, elems, t, o);
    }
  }

  lemma LastToo(env: Env, elems: seq<Value>, t: Option<TypeClass>, o: Options)
    requires elems != []
    ensures AllConform(env, elems, t, o) <==>
            AllConform(env, elems[..|elems| - 1], t, o) && Conforms(env, elems[|elems| - 1], t, o)
  {
    var init := elems[..|elems| - 1];
    assert forall i | 0 <= i < |init| :: init[i] == elems[i];
  }

  // ----- Options -----

  predicate Weaker(o: Options, p: Options) {
    (o.strict ==> p.strict) && (o.checkTypes ==> p.checkTypes) && (o.checkRequired ==> p.checkRequired)
  }

  /** `a` is what is left of `b` when some elements are taken out. */
  predicate Within<T(==)>(a: seq<T>, b: seq<T>) {
    a == [] || (b != [] &&
      ((a[|a| - 1] == b[|b| - 1] && Within(a[..|a| - 1], b[..|b| - 1])) || Within(a, b[..|b| - 1])))
  }

  lemma {:induction false} WithinItself<T>(a: seq<T>)
    ensures Within(a, a)
  {
    if a != [] {
      WithinItself(a[..|a| - 1]);
    }
  }

  lemma {:induction false} WithinAppend<T>(a: seq<T>, b: seq<T>, c: seq<T>, d: seq<T>)
    requires Within(a, b) && Within(c, d)
    ensures Within(a + c, b + d)
    decreases |d|
  {
    if d == [] {
      assert a + c == a && b + d == b;
    } else {
      var d' := d[..|d| - 1];
      assert (b + d)[..|b + d| - 1] == b + d';
      if Within(c, d') {
        WithinAppend(a, b, c, d');
      } else {
        var c' := c[..|c| - 1];
        WithinAppend(a, b, c', d');
        assert (a + c)[..|a + c| - 1] == a + c';
      }
    }
  }

  /** Weaker options report a part of what stronger ones report, in the same order. */
  lemma {:induction false} WeakerReportsLess(env: Env, v: Value, t: Option<TypeClass>, o: Options, p: Options, path: seq<Step>)
    requires Weaker(o, p)
    ensures Within(Issues(env, v, t, o, path), Issues(env, v, t, p, path))
    decreases v, 2, 0
  {
    WithinItself(Issues(env, v, t, o, path));
    if t.Some? && env.schema(t.value).Some? && TypeOf(v) == "object" && !v.Null? {
      var fields := env.schema(t.value).value;
      var unknown := UnknownKeys(fields, Keys(v), path);
      WithinItself(unknown);
      FieldsReportLess(env, v, t.value, fields, o, p, path);
      WithinAppend(if o.strict then unknown else [], if p.strict then unknown else [],
                   FieldIssues(env, v, t.value, fields, o, path), FieldIssues(env, v, t.value, fields, p, path));
    }
  }

  lemma {:induction false} FieldsReportLess(env: Env, v: Value, t: TypeClass, fields: seq<Field>, o: Options, p: Options,
                                            path: seq<Step>)
    requires Weaker(o, p) && TypeOf(v) == "object"
    ensures Within(FieldIssues(env, v, t, fields, o, path), FieldIssues(env, v, t, fields, p, path))
    decreases v, 1, |fields|
  {
    if fields != [] {
      var init, last := fields[..|fields| - 1], fields[|fields| - 1];
      FieldsReportLess(env, v, t, init, o, p, path);
      FieldReportsLess(env, v, t, last, o, p, path);
      WithinAppend(FieldIssues(env, v, t, init, o, path), FieldIssues(env, v, t, init, p, path),
                   OneField(env, v, t, last, o, path), OneField(env, v, t, last, p, path));
    }
  }

  lemma {:induction false} FieldReportsLess(env: Env, v: Value, t: TypeClass, field: Field, o: Options, p: Options,
                                            path: seq<Step>)
    requires Weaker(o, p) && TypeOf(v) == "object"
    ensures Within(OneField(env, v, t, field, o, path), OneField(env, v, t, field, p, path))
    decreases v, 0, 0
  {
    var here, w := path + [Named(field.name)], Get(v, field.name);
    WithinItself(OneField(env, v, t, field, o, path));
    if IsHidden(field.name) || w.Undefined? {
    } else if field.typ.isArray {
      if w.Array? && !field.typ.isPrimitive {
        NestedReportLess(env, w.elems, env.nested(t, field.name), o, p, here);
      }
    } else if !field.typ.isPrimitive && TypeOf(w) == "object" && !w.Null? {
      WeakerReportsLess(env, w, env.nested(t, field.name), o, p, here);
    }
  }

  lemma {:induction false} NestedReportLess(env: Env, elems: seq<Value>, t: Option<TypeClass>, o: Options, p: Options,
                                            path: seq<Step>)
    requires Weaker(o, p)
    ensures Within(NestedElements(env, elems, t, o, path), NestedElements(env, elems, t, p, path))
    decreases elems, 0, 0
  {
    if elems != [] {
      var n := |elems| - 1;
      NestedReportLess(env, elems[..n], t, o, p, path);
      WeakerReportsLess(env, elems[n], t, o, p, path + [At(n)]);
      WithinAppend(NestedElements(env, elems[..n], t, o, path), NestedElements(env, elems[..n], t, p, path),
                   Issues(env, elems[n], t, o, path + [At(n)]), Issues(env, elems[n], t, p, path + [At(n)]));
    }
  }

  /** What passes all checks passes any of them. */
  lemma {:induction false} AllChecksSuffice(env: Env, v: Value, t: Option<TypeClass>, o: Options)
    requires Conforms(env, v, t, Options(true, true, true))
    ensures Conforms(env, v, t, o)
  {
    ValidIffConforms(env, v, t, Options(true, true, true), []);
    WeakerReportsLess(env, v, t, o, Options(true, true, true), []);
    ValidIffConforms(env, v, t, o, []);
  }

  // ----- The validator -----

  method CheckKeys(fields: seq<Field>, keys: seq<string>, path: seq<Step>) returns (issues: seq<Issue>)
    ensures issues == UnknownKeys(fields, keys, path)
  {
    issues := [];
    for i := 0 to |keys|
      invariant issues == UnknownKeys(fields, keys[..i], path)
    {
      assert keys[..i + 1][..i] == keys[..i];
      if !IsFieldName(fields, keys[i]) {
        issues := issues + [Issue(path + [Named(keys[i])], UnknownField)];
      }
    }
    assert keys[..|keys|] == keys;
  }

  method CheckElements(env: Env, elems: seq<Value>, typ: FieldType, t: Option<TypeClass>, o: Options, path: seq<Step>)
    returns (issues: seq<Issue>)
    ensures issues == if typ.isPrimitive then PrimitiveElements(elems, typ.typ, path) else NestedElements(env, elems, t, o, path)
    decreases elems, 0, 0
  {
    issues := [];
    for i := 0 to |elems|
      invariant issues == if typ.isPrimitive then PrimitiveElements(elems[..i], typ.typ, path)
                          else NestedElements(env, elems[..i], t, o, path)
    {
      assert elems[..i + 1][..i] == elems[..i];
      if typ.isPrimitive {
        issues := issues + AsIssues(path + [At(i)], PrimitiveProblem(elems[i], typ.typ));
      } else {
        var valid, nested := ValidateMessage(env, elems[i], t, o, path + [At(i)]);
        if !valid {
          issues := issues + nested;
        }
      }
    }
    assert elems[..|elems|] == elems;
  }

  method CheckField(env: Env, v: Value, t: TypeClass, field: Field, o: Options, path: seq<Step>) returns (issues: seq<Issue>)
    requires TypeOf(v) == "object"
    ensures issues == OneField(env, v, t, field, o, path)
    decreases v, 1, 0
  {
    var here, w := path + [Named(field.name)], Get(v, field.name);
    if IsHidden(field.name) {
      return [];
    }
    if w.Undefined? {
      return if o.checkRequired then [Issue(here, MissingField(field.typ.typ))] else [];
    }
    if field.typ.isArray {
      var problem := ArrayProblem(w, field.typ);
      if problem.Some? {
        return [Issue(here, problem.value)];
      }
      if o.checkTypes && w.Array? {
        issues := CheckElements(env, w.elems, field.typ, env.nested(t, field.name), o, here);
      } else {
        issues := [];
      }
    } else if field.typ.isPrimitive {
      issues := if o.checkTypes then AsIssues(here, PrimitiveProblem(w, field.typ.typ)) else [];
    } else if TypeOf(w) == "object" && !w.Null? {
      issues := [];
      var nested := env.nested(t, field.name);
      if nested.Some? {
        var valid, more := ValidateMessage(env, w, nested, o, here);
        if !valid {
          issues := more;
        }
      }
    } else if o.checkTypes && !w.Null? {
      issues := [Issue(here, TypeMismatch("object", ValueType(w)))];
    } else {
      issues := [];
    }
  }

  /** `validateMessage`: valid exactly for the values that conform to the type. */
  method ValidateMessage(env: Env, v: Value, t: Option<TypeClass>, o: Options, path: seq<Step>)
    returns (valid: bool, issues: seq<Issue>)
    ensures issues == Issues(env, v, t, o, path)
    ensures valid <==> Conforms(env, v, t, o)
    ensures valid <==> issues == []
    decreases v, 2, 0
  {
    ValidIffConforms(env, v, t, o, path);
    if t.None? {
      return false, [Issue(path, InvalidTypeClass)];
    }
    var schema := env.schema(t.value);
    if schema.None? {
      return false, [Issue(path, NoSchema)];
    }
    if v.Null? || v.Undefined? {
      return false, [Issue(path, TypeMismatch("object", ValueType(v)))];
    }
    var fields := schema.value;
    if IsScalar(v) && IsWrapper(fields) {
      issues := if o.checkTypes && fields[0].typ.isPrimitive
                then AsIssues(path + [Named("data")], PrimitiveProblem(v, fields[0].typ.typ)) else [];
      return issues == [], issues;
    }
    if TypeOf(v) != "object" {
      return false, [Issue(path, TypeMismatch("object", TypeOf(v)))];
    }
    var unknown := [];
    if o.strict {
      unknown := CheckKeys(fields, Keys(v), path);
    }
    issues := [];
    for i := 0 to |fields|
      invariant issues == FieldIssues(env, v, t.value, fields[..i], o, path)
    {
      assert fields[..i + 1][..i] == fields[..i];
      var more := CheckField(env, v, t.value, fields[i], o, path);
      issues := issues + more;
    }
    assert fields[..|fields|] == fields;
    issues := unknown + issues;
    return issues == [], issues;
  }
}
