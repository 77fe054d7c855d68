/**
 What each issue of the validator says of the value it was given, found by following the path of the
 issue from the root instead of going through the message.
 */
module MessageIssues {
  import opened JavaScript
  import opened MessageFields
  import opened MessageSerialization
  import opened MessageValidation
  import opened Optional

  // ----- Primitive values -----

  /** What a value of each primitive type looks like; 64-bit integers may be given as numbers. */
  predicate IsOfType(v: Value, typ: string) {
    || (typ == "bool" && v.Bool?)
    || ((typ == "string" || typ == "wstring") && v.Str?)
    || ((typ == "int64" || typ == "uint64") && (v.BigInt? || v.Number?))
    || (SmallNumeric(typ) && v.Number?)
    || !Known(typ)
  }

  predicate SmallNumeric(typ: string) {
    typ in {"int8", "uint8", "int16", "uint16", "int32", "uint32", "float32", "float64", "char", "byte"}
  }

  predicate Known(typ: string) {
    SmallNumeric(typ) || typ in {"bool", "string", "wstring", "int64", "uint64"}
  }

  /** The name JavaScript has for values of the type. */
  function Expected(typ: string): string
    requires Known(typ)
  {
    if typ == "bool" then "boolean"
    else if typ == "string" || typ == "wstring" then "string"
    else if typ == "int64" || typ == "uint64" then "bigint"
    else "number"
  }

  lemma TypeNames(typ: string)
    ensures JsType(typ) == if Known(typ) then Some(Expected(typ)) else None
  {
  }

  /** The validator takes exactly the values that are of the type. */
  lemma FitsPrimitiveIff(v: Value, typ: string)
    ensures FitsPrimitive(v, typ) <==> IsOfType(v, typ)
  {
    TypeNames(typ);
    if Known(typ) {
      var names := ["boolean", "string", "bigint", "number", "undefined", "function", "object"];
      assert names[0][0] == 'b' && names[0][1] == 'o' && names[1][0] == 's' && names[2][1] == 'i' && names[3][0] == 'n';
      assert names[4][0] == 'u' && names[5][0] == 'f' && names[6][0] == 'o';
    }
  }

  /** The issue names the type that was expected and the one that was found. */
  predicate IsMismatch(v: Value, typ: string, problem: Problem) {
    Known(typ) && !IsOfType(v, typ) && problem == TypeMismatch(Expected(typ), TypeOf(v))
  }

  lemma PrimitiveProblemIs(v: Value, typ: string, problem: Problem)
    ensures PrimitiveProblem(v, typ) == Some(problem) <==> IsMismatch(v, typ, problem)
  {
    TypeNames(typ);
    FitsPrimitiveIff(v, typ);
  }

  /** What JavaScript calls an object. */
  lemma ObjectsAre(v: Value)
    ensures TypeOf(v) == "object" <==> v.Null? || v.Array? || v.TypedArray? || v.Object?
  {
    var names := ["boolean", "string", "bigint", "number", "undefined", "function", "object"];
    assert names[0][0] == 'b' && names[1][0] == 's' && names[2][0] == 'b' && names[3][0] == 'n';
    assert names[4][0] == 'u' && names[5][0] == 'f' && names[6][0] == 'o';
  }

  /** A bare scalar passes exactly for a type whose one field is `data`, and then if it is of that field's type. */
  lemma ScalarConformsIff(env: Env, v: Value, t: TypeClass, o: Options)
    requires v.Str? || v.Number? || v.Bool? || v.BigInt?
    requires env.schema(t).Some? && o.checkTypes
    ensures var fields := env.schema(t).value;
            Conforms(env, v, Some(t), o) <==>
              |fields| == 1 && fields[0].name == "data" && (fields[0].typ.isPrimitive ==> IsOfType(v, fields[0].typ.typ))
  {
    ObjectsAre(v);
    var fields := env.schema(t).value;
    if |fields| == 1 {
      FitsPrimitiveIff(v, fields[0].typ.typ);
    }
  }

  // ----- Following a path -----

  /** What is wrong with an array itself: no array at all, or else a length that is not allowed. */
  predicate IsArrayProblem(w: Value, ft: FieldType, problem: Problem) {
    if !w.Array? && !w.TypedArray? then problem == TypeMismatch("array", ValueType(w))
    else if ft.isFixedSize && ft.arraySize != Some(LengthOf(w)) then
      problem == ArrayLength(true, if ft.arraySize.Some? then ft.arraySize.value else 0, LengthOf(w))
    else
      && ft.isUpperBound && ft.arraySize.Some? && LengthOf(w) > ft.arraySize.value
      && problem == ArrayLength(false, ft.arraySize.value, LengthOf(w))
  }

  /** At `path` below `v`, a value for the type class, the problem is there and the options ask for it. */
  ghost predicate Blames(env: Env, v: Value, t: Option<TypeClass>, o: Options, path: seq<Step>, problem: Problem)
    decreases |path|, 3
  {
    if t.None? then path == [] && problem == InvalidTypeClass
    else if env.schema(t.value).None? then path == [] && problem == NoSchema
    else
      var fields := env.schema(t.value).value;
      if v.Null? || v.Undefined? then path == [] && problem == TypeMismatch("object", ValueType(v))
      else if IsScalar(v) && IsWrapper(fields) then
        && path == [Named("data")] && o.checkTypes && fields[0].typ.isPrimitive
        && IsMismatch(v, fields[0].typ.typ, problem)
      else if TypeOf(v) != "object" then path == [] && problem == TypeMismatch("object", TypeOf(v))
      else
        (o.strict && UnknownHere(fields, Keys(v), path, problem)) || BlamesSomeField(env, v, t.value, fields, o, path, problem)
  }

  /** A key that is no field. */
  predicate UnknownHere(fields: seq<Field>, keys: seq<string>, path: seq<Step>, problem: Problem) {
    |path| == 1 && path[0].Named? && problem == UnknownField && path[0].name in keys && !IsFieldName(fields, path[0].name)
  }

  /** A problem in one of the fields. */
  ghost predicate BlamesSomeField(env: Env, v: Value, t: TypeClass, fields: seq<Field>, o: Options, path: seq<Step>,
                                  problem: Problem)
    decreases |path|, 2
  {
    exists field | field in fields :: BlamesThisField(env, v, t, field, o, path, problem)
  }

  /** The path leads into this field, which is not hidden. */
  ghost predicate BlamesThisField(env: Env, v: Value, t: TypeClass, field: Field, o: Options, path: seq<Step>, problem: Problem)
    decreases |path|, 1
  {
    path != [] && path[0] == Named(field.name) && !IsHidden(field.name) && BlamesField(env, v, t, field, o, path[1..], problem)
  }

  /** The same below a field of the value; `path` starts at the field. */
  ghost predicate BlamesField(env: Env, v: Value, t: TypeClass, field: Field, o: Options, path: seq<Step>, problem: Problem)
    decreases |path|, 4
  {
    var w := Get(v, field.name);
    if w.Undefined? then path == [] && o.checkRequired && problem == MissingField(field.typ.typ)
    else if field.typ.isArray then
      if !FitsArray(w, field.typ) then path == [] && IsArrayProblem(w, field.typ, problem)
      else
        && o.checkTypes && w.Array? && path != [] && path[0].At? && path[0].index < |w.elems|
        && (if field.typ.isPrimitive then |path| == 1 && IsMismatch(w.elems[path[0].index], field.typ.typ, problem)
            else Blames(env, w.elems[path[0].index], env.nested(t, field.name), o, path[1..], problem))
    else if field.typ.isPrimitive then path == [] && o.checkTypes && IsMismatch(w, field.typ.typ, problem)
    else if w.Null? then false
    else if TypeOf(w) == "object" then
      env.nested(t, field.name).Some? && Blames(env, w, env.nested(t, field.name), o, path, problem)
    else path == [] && o.checkTypes && problem == TypeMismatch("object", ValueType(w))
  }

  // ----- The theorem -----

  /** The issue lies at `at` or below. */
  predicate Below(issue: Issue, at: seq<Step>) {
    at <= issue.path
  }

  lemma OneStepBelow(issue: Issue, at: seq<Step>, s: Step)
    ensures Below(issue, at + [s]) <==> Below(issue, at) && |issue.path| > |at| && issue.path[|at|] == s
    ensures Below(issue, at) && |issue.path| > |at| ==>
              issue.path[|at|..] != [] && issue.path[|at|..][0] == issue.path[|at|]
              && issue.path[|at|..][1..] == issue.path[|at| + 1..]
  {
    if Below(issue, at) && |issue.path| > |at| && issue.path[|at|] == s {
      assert issue.path[..|at| + 1] == at + [s];
    }
  }

  lemma JustAt(issue: Issue, at: seq<Step>)
    ensures Below(issue, at) && issue.path[|at|..] == [] <==> issue.path == at
  {
    if Below(issue, at) && issue.path[|at|..] == [] {
      assert issue.path == issue.path[..|at|] + issue.path[|at|..];
    }
  }

  /** Exactly one step below. */
  lemma JustBelow(issue: Issue, at: seq<Step>, s: Step)
    ensures issue.path == at + [s] <==> Below(issue, at) && issue.path[|at|..] == [s]
  {
    if Below(issue, at) && issue.path[|at|..] == [s] {
      assert issue.path == issue.path[..|at|] + issue.path[|at|..];
    }
    if issue.path == at + [s] {
      assert issue.path[|at|..] == [s];
    }
  }

  lemma {:induction false} UnknownKeysIff(fields: seq<Field>, keys: seq<string>, at: seq<Step>, issue: Issue)
    ensures issue in UnknownKeys(fields, keys, at) <==>
              Below(issue, at) && UnknownHere(fields, keys, issue.path[|at|..], issue.problem)
  {
    if keys != [] {
      var n := |keys| - 1;
      UnknownKeysIff(fields, keys[..n], at, issue);
      JustBelow(issue, at, Named(keys[n]));
      assert keys == keys[..n] + [keys[n]];
      if Below(issue, at) && UnknownHere(fields, keys, issue.path[|at|..], issue.problem) {
        assert issue.path[|at|..] == [Named(issue.path[|at|..][0].name)];
      }
    }
  }

  predicate MismatchHere(elems: seq<Value>, typ: string, path: seq<Step>, problem: Problem) {
    |path| == 1 && path[0].At? && path[0].index < |elems| && IsMismatch(elems[path[0].index], typ, problem)
  }

  lemma {:induction false} PrimitiveElementsIff(elems: seq<Value>, typ: string, at: seq<Step>, issue: Issue)
    ensures issue in PrimitiveElements(elems, typ, at) <==>
              Below(issue, at) && MismatchHere(elems, typ, issue.path[|at|..], issue.problem)
  {
    ElementProblemsIff(elems, v => PrimitiveProblem(v, typ), typ, at, issue);
  }

  lemma LastMismatch(elems: seq<Value>, typ: string, path: seq<Step>, problem: Problem)
    requires elems != []
    ensures MismatchHere(elems, typ, path, problem) <==>
              || MismatchHere(elems[..|elems| - 1], typ, path, problem)
              || (path == [At(|elems| - 1)] && IsMismatch(elems[|elems| - 1], typ, problem))
  {
  }

  lemma {:induction false} ElementProblemsIff(elems: seq<Value>, problem: Value -> Option<Problem>, typ: string, at: seq<Step>,
                                              issue: Issue)
    requires forall v :: problem(v) == PrimitiveProblem(v, typ)
    ensures issue in ElementProblems(elems, problem, at) <==>
              Below(issue, at) && MismatchHere(elems, typ, issue.path[|at|..], issue.problem)
  {
    if elems != [] {
      var n := |elems| - 1;
      ElementProblemsIff(elems[..n], problem, typ, at, issue);
      JustBelow(issue, at, At(n));
      PrimitiveProblemIs(elems[n], typ, issue.problem);
      if Below(issue, at) {
        LastMismatch(elems, typ, issue.path[|at|..], issue.problem);
      }
    }
  }

  /** A problem in an element of an array of nested messages. */
  ghost predicate BlamesElement(env: Env, elems: seq<Value>, t: Option<TypeClass>, o: Options, path: seq<Step>, problem: Problem) {
    && path != [] && path[0].At? && path[0].index < |elems|
    && Blames(env, elems[path[0].index], t, o, path[1..], problem)
  }

  lemma LastElement(env: Env, elems: seq<Value>, t: Option<TypeClass>, o: Options, path: seq<Step>, problem: Problem)
    requires elems != []
    ensures BlamesElement(env, elems, t, o, path, problem) <==>
              || BlamesElement(env, elems[..|elems| - 1], t, o, path, problem)
              || (path != [] && path[0] == At(|elems| - 1) && Blames(env, elems[|elems| - 1], t, o, path[1..], problem))
  {
  }

  lemma {:induction false} NestedElementsIff(env: Env, elems: seq<Value>, t: Option<TypeClass>, o: Options, at: seq<Step>,
                                             issue: Issue)
    ensures issue in NestedElements(env, elems, t, o, at) <==>
              Below(issue, at) && BlamesElement(env, elems, t, o, issue.path[|at|..], issue.problem)
    decreases elems, 0, 0
  {
    if elems != [] {
      var n: nat := |elems| - 1;
      NestedElementsIff(env, elems[..n], t, o, at, issue);
      IssuesIff(env, elems[n], t, o, at + [At(n)], issue);
      OneStepBelow(issue, at, At(n));
      if Below(issue, at) {
        LastElement(env, elems, t, o, issue.path[|at|..], issue.problem);
      }
    }
  }

  lemma LastField(env: Env, v: Value, t: TypeClass, fields: seq<Field>, o: Options, path: seq<Step>, problem: Problem)
    requires fields != []
    ensures BlamesSomeField(env, v, t, fields, o, path, problem) <==>
              || BlamesSomeField(env, v, t, fields[..|fields| - 1], o, path, problem)
              || BlamesThisField(env, v, t, fields[|fields| - 1], o, path, problem)
  {
    assert fields == fields[..|fields| - 1] + [fields[|fields| - 1]];
  }

  lemma {:induction false} FieldIssuesIff(env: Env, v: Value, t: TypeClass, fields: seq<Field>, o: Options, at: seq<Step>,
                                          issue: Issue)
    requires TypeOf(v) == "object"
    ensures issue in FieldIssues(env, v, t, fields, o, at) <==>
              Below(issue, at) && BlamesSomeField(env, v, t, fields, o, issue.path[|at|..], issue.problem)
    decreases v, 1, |fields|
  {
    if fields != [] {
      var n := |fields| - 1;
      FieldIssuesIff(env, v, t, fields[..n], o, at, issue);
      OneFieldIff(env, v, t, fields[n], o, at, issue);
      OneStepBelow(issue, at, Named(fields[n].name));
      if Below(issue, at) {
        LastField(env, v, t, fields, o, issue.path[|at|..], issue.problem);
      }
    }
  }

  /** The issue is one in this field, which starts at `here`. */
  ghost predicate BlamedField(env: Env, v: Value, t: TypeClass, field: Field, o: Options, here: seq<Step>, issue: Issue) {
    !IsHidden(field.name) && Below(issue, here) && BlamesField(env, v, t, field, o, issue.path[|here|..], issue.problem)
  }

  lemma {:induction false} OneFieldIff(env: Env, v: Value, t: TypeClass, field: Field, o: Options, at: seq<Step>, issue: Issue)
    requires TypeOf(v) == "object"
    ensures issue in OneField(env, v, t, field, o, at) <==> BlamedField(env, v, t, field, o, at + [Named(field.name)], issue)
    decreases v, 0, 1
  {
    var here, w := at + [Named(field.name)], Get(v, field.name);
    JustAt(issue, here);
    if IsHidden(field.name) || w.Undefined? {
    } else if field.typ.isArray {
      ArrayFieldIff(env, v, t, field, o, at, issue);
    } else if field.typ.isPrimitive {
      PrimitiveProblemIs(w, field.typ.typ, issue.problem);
    } else if TypeOf(w) == "object" && !w.Null? && v.Object? {
      IssuesIff(env, w, env.nested(t, field.name), o, here, issue);
    }
  }

  lemma ArrayProblemIs(w: Value, ft: FieldType, problem: Problem)
    ensures ArrayProblem(w, ft) == None <==> FitsArray(w, ft)
    ensures ArrayProblem(w, ft) == Some(problem) <==> !FitsArray(w, ft) && IsArrayProblem(w, ft, problem)
  {
  }

  lemma {:induction false} ArrayFieldIff(env: Env, v: Value, t: TypeClass, field: Field, o: Options, at: seq<Step>, issue: Issue)
    requires TypeOf(v) == "object" && field.typ.isArray && !IsHidden(field.name) && !Get(v, field.name).Undefined?
    ensures issue in OneField(env, v, t, field, o, at) <==> BlamedField(env, v, t, field, o, at + [Named(field.name)], issue)
    decreases v, 0, 0
  {
    var here, w := at + [Named(field.name)], Get(v, field.name);
    JustAt(issue, here);
    ArrayProblemIs(w, field.typ, issue.problem);
    if FitsArray(w, field.typ) && o.checkTypes && w.Array? {
      if field.typ.isPrimitive {
        PrimitiveElementsIff(w.elems, field.typ.typ, here, issue);
      } else {
        NestedElementsIff(env, w.elems, env.nested(t, field.name), o, here, issue);
      }
    }
  }

  /** The issues found are exactly the problems there are, each under the path where it is. */
  lemma {:induction false} IssuesIff(env: Env, v: Value, t: Option<TypeClass>, o: Options, at: seq<Step>, issue: Issue)
    ensures issue in Issues(env, v, t, o, at) <==>
              Below(issue, at) && Blames(env, v, t, o, issue.path[|at|..], issue.problem)
    decreases v, 3, 0
  {
    JustAt(issue, at);
    if t.Some? && env.schema(t.value).Some? {
      var fields := env.schema(t.value).value;
      if IsScalar(v) && IsWrapper(fields) {
        PrimitiveProblemIs(v, fields[0].typ.typ, issue.problem);
        JustBelow(issue, at, Named("data"));
      } else if TypeOf(v) == "object" && !v.Null? {
        UnknownKeysIff(fields, Keys(v), at, issue);
        FieldIssuesIff(env, v, t.value, fields, o, at, issue);
      }
    }
  }
}
