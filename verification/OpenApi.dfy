/** Schema generation of `lib/openapi.js`: message types to JSON schemas that share their nested types as components. */
module OpenApi {
  import opened MessageFields
  import opened Optional

  // ----- Message types -----

  datatype Message = Message(fields: seq<Field>, messageType: string)

  /** A nested message type. */
  datatype Ref = Ref(pkg: string, typ: string)

  datatype Part = Whole | Request | Response | Goal | Feedback | Result

  /** What the interface loader finds: messages by type name, and the parts of the exposed types. */
  datatype Env = Env(load: string -> Option<Message>, payload: (string, Part) -> Option<Message>)

  // ----- Schemas -----

  datatype Fragment =
    | Boolean
    | BigIntString(unsigned: bool)
    | Integer
    | Number
    | Text(maxLength: Option<nat>)
    | Anything
    | ComponentRef(component: string)
    | ArrayOf(items: Fragment, minItems: Option<nat>, maxItems: Option<nat>)

  datatype JsonSchema =
    | Unresolved(typeName: string)
    | Object(properties: map<string, Fragment>, required: seq<string>, rosType: string)

  function TypeName(r: Ref): string {
    r.pkg + "/msg/" + r.typ
  }

  function ComponentName(r: Ref): string {
    r.pkg + "__msg__" + r.typ
  }

  function PrimitiveSchema(typ: string, stringUpperBound: Option<nat>): Fragment {
    if typ == "bool" then Boolean
    else if typ == "int64" || typ == "uint64" then BigIntString(typ == "uint64")
    else if typ in ["int8", "uint8", "int16", "uint16", "int32", "uint32", "byte", "char"] then Integer
    else if typ in ["float32", "float64"] then Number
    else if typ == "string" || typ == "wstring" then
      Text(if stringUpperBound.Some? && stringUpperBound.value > 0 then stringUpperBound else None)
    else Anything
  }

  function ArrayFragment(ft: FieldType, items: Fragment): Fragment {
    if ft.isFixedSize && ft.arraySize.Some? then ArrayOf(items, ft.arraySize, ft.arraySize)
    else if ft.isUpperBound && ft.arraySize.Some? then ArrayOf(items, None, ft.arraySize)
    else ArrayOf(items, None, None)
  }

  /** The schema of a field, whatever is registered for it on the way. */
  function FragmentOf(ft: FieldType): Fragment
    decreases ft.isArray
  {
    if ft.isArray then ArrayFragment(ft, FragmentOf(ft.(isArray := false)))
    else if ft.isPrimitive then PrimitiveSchema(ft.typ, ft.stringUpperBound)
    else ComponentRef(ComponentName(Ref(ft.pkg, ft.typ)))
  }

  function Properties(fields: seq<Field>): map<string, Fragment> {
    if fields == [] then map[]
    else
      var init, last := Properties(fields[..|fields| - 1]), fields[|fields| - 1];
      if IsHidden(last.name) then init else init[last.name := FragmentOf(last.typ)]
  }

  function Required(fields: seq<Field>): seq<string> {
    if fields == [] then []
    else
      var last := fields[|fields| - 1];
      Required(fields[..|fields| - 1]) + if IsHidden(last.name) then [] else [last.name]
  }

  function ToJson(m: Message): JsonSchema {
    Object(Properties(m.fields), Required(m.fields), m.messageType)
  }

  function SchemaOf(env: Env, r: Ref): JsonSchema {
    match env.load(TypeName(r))
    case None => Unresolved(TypeName(r))
    case Some(m) => ToJson(m)
  }

  function PayloadSchema(env: Env, typeName: string, part: Part): JsonSchema {
    match env.payload(typeName, part)
    case None => Unresolved(typeName)
    case Some(m) => ToJson(m)
  }

  // ----- What a schema says of its message -----

  /** Some visible field has this name. */
  predicate Shown(m: Message, name: string) {
    exists i | 0 <= i < |m.fields| :: m.fields[i].name == name && !IsHidden(name)
  }

  /** The names at these places, which go up. */
  predicate NamesAt(names: seq<string>, fields: seq<Field>, places: seq<nat>) {
    && |places| == |names|
    && (forall k | 0 <= k < |names| :: places[k] < |fields| && names[k] == fields[places[k]].name)
    && forall k, l | 0 <= k < l < |places| :: places[k] < places[l]
  }

  /**
   The schema is that of an object of the message type. Its properties and its required properties are
   both the visible fields, the latter in their order; a property is what some field of its name is.
   */
  ghost predicate Describes(schema: JsonSchema, m: Message) {
    && schema.Object? && schema.rosType == m.messageType
    && (forall name :: name in schema.properties <==> Shown(m, name))
    && (forall name :: name in schema.required <==> Shown(m, name))
    && (exists places :: NamesAt(schema.required, m.fields, places))
    && forall name | name in schema.properties :: OfSomeField(schema.properties[name], m, name)
  }

  predicate OfSomeField(f: Fragment, m: Message, name: string) {
    exists i | 0 <= i < |m.fields| :: m.fields[i].name == name && f == FragmentOf(m.fields[i].typ)
  }

  lemma {:induction false} RequiredIff(m: Message, name: string)
    ensures name in Required(m.fields) <==> Shown(m, name)
    decreases |m.fields|
  {
    if m.fields != [] {
      var n := |m.fields| - 1;
      var init := m.(fields := m.fields[..n]);
      RequiredIff(init, name);
      if i :| 0 <= i < |m.fields| && m.fields[i].name == name && !IsHidden(name) {
        assert i < n ==> init.fields[i].name == name;
      }
    }
  }

  lemma {:induction false} PropertiesIff(m: Message, name: string)
    ensures name in Properties(m.fields) <==> Shown(m, name)
    decreases |m.fields|
  {
    if m.fields != [] {
      var n := |m.fields| - 1;
      var init := m.(fields := m.fields[..n]);
      PropertiesIff(init, name);
      if i :| 0 <= i < |m.fields| && m.fields[i].name == name && !IsHidden(name) {
        assert i < n ==> init.fields[i].name == name;
      }
    }
  }

  lemma {:induction false} RequiredPlaces(fields: seq<Field>) returns (places: seq<nat>)
    ensures NamesAt(Required(fields), fields, places)
  {
    if fields == [] {
      places := [];
    } else {
      var n := |fields| - 1;
      places := RequiredPlaces(fields[..n]);
      OneMoreName(Required(fields[..n]), fields, places);
      if !IsHidden(fields[n].name) {
        places := places + [n];
      }
    }
  }

  lemma OneMoreName(names: seq<string>, fields: seq<Field>, places: seq<nat>)
    requires fields != [] && NamesAt(names, fields[..|fields| - 1], places)
    ensures NamesAt(names, fields, places)
    ensures NamesAt(names + [fields[|fields| - 1].name], fields, places + [|fields| - 1])
  {
    var init := fields[..|fields| - 1];
    assert forall k | 0 <= k < |names| :: init[places[k]] == fields[places[k]];
  }

  lemma ToJsonDescribes(m: Message)
    ensures Describes(ToJson(m), m)
  {
    var schema := ToJson(m);
    forall name
      ensures name in schema.properties <==> Shown(m, name)
      ensures name in schema.required <==> Shown(m, name)
    {
      PropertiesIff(m, name);
      RequiredIff(m, name);
    }
    var places := RequiredPlaces(m.fields);
    forall name | name in schema.properties
      ensures OfSomeField(schema.properties[name], m, name)
    {
      PropertiesComeFromFields(m.fields, name);
    }
  }

  /** If no field name is repeated, each visible field is required once and has its own property. */
  lemma DescribedFieldByField(schema: JsonSchema, m: Message)
    requires Describes(schema, m) && DistinctFields(m)
    ensures forall i | 0 <= i < |m.fields| && !IsHidden(m.fields[i].name) ::
              m.fields[i].name in schema.properties && schema.properties[m.fields[i].name] == FragmentOf(m.fields[i].typ)
    ensures forall k, l | 0 <= k < l < |schema.required| :: schema.required[k] != schema.required[l]
  {
    forall i | 0 <= i < |m.fields| && !IsHidden(m.fields[i].name)
      ensures m.fields[i].name in schema.properties && schema.properties[m.fields[i].name] == FragmentOf(m.fields[i].typ)
    {
      assert Shown(m, m.fields[i].name);
      assert OfSomeField(schema.properties[m.fields[i].name], m, m.fields[i].name);
    }
    var places :| NamesAt(schema.required, m.fields, places);
  }

  /** The schema describes the message that was found, or says that there was none. */
  ghost predicate DescribesFound(schema: JsonSchema, found: Option<Message>, typeName: string) {
    match found
    case None => schema == Unresolved(typeName)
    case Some(m) => Describes(schema, m)
  }

  // ----- Nesting and reachability -----

  predicate Nests(ft: FieldType, r: Ref) {
    !ft.isPrimitive && r == Ref(ft.pkg, ft.typ)
  }

  /** Some field of the message that is not hidden has type `r` or an array of it. */
  predicate Uses(m: Message, r: Ref) {
    exists i | 0 <= i < |m.fields| :: !IsHidden(m.fields[i].name) && Nests(m.fields[i].typ, r)
  }

  predicate UsesType(env: Env, user: Ref, r: Ref) {
    var m := env.load(TypeName(user));
    m.Some? && Uses(m.value, r)
  }

  ghost predicate Path(env: Env, roots: iset<Ref>, p: seq<Ref>)
    requires p != []
  {
    if |p| == 1 then p[0] in roots
    else Path(env, roots, p[..|p| - 1]) && UsesType(env, p[|p| - 2], p[|p| - 1])
  }

  ghost predicate Reaches(env: Env, roots: iset<Ref>, r: Ref) {
    exists p: seq<Ref> :: p != [] && p[|p| - 1] == r && Path(env, roots, p)
  }

  lemma RootReached(env: Env, roots: iset<Ref>, r: Ref)
    requires r in roots
    ensures Reaches(env, roots, r)
  {
    assert Path(env, roots, [r]);
  }

  lemma UsedReached(env: Env, roots: iset<Ref>, user: Ref, r: Ref)
    requires Reaches(env, roots, user) && UsesType(env, user, r)
    ensures Reaches(env, roots, r)
  {
    var p: seq<Ref> :| p != [] && p[|p| - 1] == user && Path(env, roots, p);
    var q := p + [r];
    assert q[..|q| - 1] == p;
    assert Path(env, roots, q);
  }

  ghost function Reachable(env: Env, roots: iset<Ref>): iset<Ref> {
    iset r: Ref | Reaches(env, roots, r)
  }

  /** `rank` goes down along every use: there is no cycle among these types. */
  ghost predicate Acyclic(env: Env, types: iset<Ref>, rank: Ref -> nat) {
    forall user: Ref, r: Ref {:trigger UsesType(env, user, r)} | user in types && UsesType(env, user, r) ::
      rank(r) < rank(user)
  }

  ghost predicate ClosedUnderUse(env: Env, types: iset<Ref>) {
    forall user: Ref, r: Ref {:trigger UsesType(env, user, r)} | user in types && UsesType(env, user, r) :: r in types
  }

  lemma ReachableIsClosed(env: Env, roots: iset<Ref>)
    ensures roots <= Reachable(env, roots) && ClosedUnderUse(env, Reachable(env, roots))
  {
    forall r | r in roots
      ensures Reaches(env, roots, r)
    {
      RootReached(env, roots, r);
    }
    forall user: Ref, r: Ref | Reaches(env, roots, user) && UsesType(env, user, r)
      ensures Reaches(env, roots, r)
    {
      UsedReached(env, roots, user, r);
    }
  }

  ghost predicate RanksBelow(m: Message, rank: Ref -> nat, bound: nat) {
    forall r: Ref | Uses(m, r) :: rank(r) < bound
  }

  /** Any message has a bound on the ranks of the types it uses. */
  lemma {:induction false} RankBound(m: Message, rank: Ref -> nat) returns (bound: nat)
    ensures RanksBelow(m, rank, bound)
    decreases |m.fields|
  {
    if m.fields == [] {
      bound := 0;
    } else {
      var n := |m.fields| - 1;
      var init := m.(fields := m.fields[..n]);
      bound := RankBound(init, rank);
      var last := m.fields[n].typ;
      bound := bound + rank(Ref(last.pkg, last.typ)) + 1;
      forall r: Ref | Uses(m, r)
        ensures rank(r) < bound
      {
        var i :| 0 <= i < |m.fields| && !IsHidden(m.fields[i].name) && Nests(m.fields[i].typ, r);
        assert i < n ==> init.fields[i] == m.fields[i];
      }
    }
  }

  // ----- References of a schema -----

  function FragmentRefs(f: Fragment): set<string> {
    match f
    case ComponentRef(c) => {c}
    case ArrayOf(items, _, _) => FragmentRefs(items)
    case _ => {}
  }

  /** Every `$ref` in the schema resolves. */
  predicate Resolves(schema: JsonSchema, components: map<string, JsonSchema>) {
    schema.Object? ==> forall k | k in schema.properties :: FragmentRefs(schema.properties[k]) <= components.Keys
  }

  /** All the types a message uses have a component. */
  ghost predicate UsesRegistered(m: Message, components: map<string, JsonSchema>) {
    forall r: Ref | Uses(m, r) :: ComponentName(r) in components
  }

  lemma OneMoreField(m: Message, i: nat, components: map<string, JsonSchema>)
    requires i < |m.fields| && UsesRegistered(m.(fields := m.fields[..i]), components)
    requires var f := m.fields[i];
             !IsHidden(f.name) && !f.typ.isPrimitive ==> ComponentName(Ref(f.typ.pkg, f.typ.typ)) in components
    ensures UsesRegistered(m.(fields := m.fields[..i + 1]), components)
  {
    var before, after := m.(fields := m.fields[..i]), m.(fields := m.fields[..i + 1]);
    forall r: Ref | Uses(after, r)
      ensures ComponentName(r) in components
    {
      var k :| 0 <= k <= i && !IsHidden(after.fields[k].name) && Nests(after.fields[k].typ, r);
      assert k < i ==> before.fields[k] == after.fields[k] && Uses(before, r);
    }
  }

  lemma {:induction false} FragmentRefersToType(ft: FieldType)
    ensures FragmentRefs(FragmentOf(ft)) == if ft.isPrimitive then {} else {ComponentName(Ref(ft.pkg, ft.typ))}
    decreases ft.isArray
  {
    if ft.isArray {
      FragmentRefersToType(ft.(isArray := false));
    }
  }

  lemma {:induction false} PropertiesComeFromFields(fields: seq<Field>, k: string)
    requires k in Properties(fields)
    ensures exists i | 0 <= i < |fields| ::
              !IsHidden(fields[i].name) && fields[i].name == k && Properties(fields)[k] == FragmentOf(fields[i].typ)
  {
    var n := |fields| - 1;
    if IsHidden(fields[n].name) || fields[n].name != k {
      PropertiesComeFromFields(fields[..n], k);
      var i :| 0 <= i < n && !IsHidden(fields[i].name) && fields[i].name == k
               && Properties(fields[..n])[k] == FragmentOf(fields[i].typ);
    }
  }

  lemma UsesRegisteredResolves(m: Message, components: map<string, JsonSchema>)
    requires UsesRegistered(m, components)
    ensures Resolves(ToJson(m), components)
  {
    forall k | k in Properties(m.fields)
      ensures FragmentRefs(Properties(m.fields)[k]) <= components.Keys
    {
      PropertiesComeFromFields(m.fields, k);
      var i :| 0 <= i < |m.fields| && !IsHidden(m.fields[i].name)
               && Properties(m.fields)[k] == FragmentOf(m.fields[i].typ);
      var ft := m.fields[i].typ;
      FragmentRefersToType(ft);
      if !ft.isPrimitive {
        assert Uses(m, Ref(ft.pkg, ft.typ));
      }
    }
  }

  // ----- The component map -----

  /** The component is the schema of one of the types, and the types that one uses are registered too. */
  ghost predicate ComponentOf(env: Env, types: iset<Ref>, components: map<string, JsonSchema>, name: string, r: Ref)
    requires name in components
  {
    && r in types && ComponentName(r) == name && components[name] == SchemaOf(env, r)
    && UsesTypesRegistered(env, r, components)
  }

  ghost predicate UsesTypesRegistered(env: Env, user: Ref, components: map<string, JsonSchema>) {
    forall r: Ref {:trigger UsesType(env, user, r)} | UsesType(env, user, r) :: ComponentName(r) in components
  }

  /** `source` remembers which type each component was made from. */
  ghost predicate Sourced(env: Env, types: iset<Ref>, components: map<string, JsonSchema>, source: map<string, Ref>) {
    && source.Keys == components.Keys
    && forall name {:trigger ComponentOf(env, types, components, name, source[name])} | name in components ::
         ComponentOf(env, types, components, name, source[name])
  }

  /** The component map is closed under `$ref`. */
  predicate Closed(components: map<string, JsonSchema>) {
    forall name | name in components :: Resolves(components[name], components)
  }

  lemma SourcedIsClosed(env: Env, types: iset<Ref>, components: map<string, JsonSchema>, source: map<string, Ref>)
    requires Sourced(env, types, components, source)
    ensures Closed(components)
  {
    forall name | name in components
      ensures Resolves(components[name], components)
    {
      var r := source[name];
      assert ComponentOf(env, types, components, name, r);
      match env.load(TypeName(r))
      case None =>
      case Some(m) =>
        forall u: Ref | Uses(m, u)
          ensures ComponentName(u) in components
        {
          assert UsesType(env, r, u);
        }
        UsesRegisteredResolves(m, components);
    }
  }

  /** Filing a schema whose types are registered keeps the map sourced, also over a type of the same name. */
  lemma FiledStaysSourced(env: Env, types: iset<Ref>, before: map<string, JsonSchema>, source: map<string, Ref>, r: Ref)
    requires Sourced(env, types, before, source) && r in types && UsesTypesRegistered(env, r, before)
    ensures Sourced(env, types, before[ComponentName(r) := SchemaOf(env, r)], source[ComponentName(r) := r])
  {
    var after := before[ComponentName(r) := SchemaOf(env, r)];
    assert UsesTypesRegistered(env, r, after);
    forall other | other in before && other != ComponentName(r)
      ensures ComponentOf(env, types, after, other, source[other])
    {
      assert ComponentOf(env, types, before, other, source[other]);
    }
  }

  /** No two of the types share a component name. */
  ghost predicate Unambiguous(types: iset<Ref>) {
    forall r, s | r in types && s in types && ComponentName(r) == ComponentName(s) :: r == s
  }

  lemma {:induction false} PathRegistered(env: Env, roots: iset<Ref>, types: iset<Ref>, components: map<string, JsonSchema>,
                                          source: map<string, Ref>, p: seq<Ref>)
    requires Sourced(env, types, components, source) && Unambiguous(types)
    requires roots <= types && ClosedUnderUse(env, types)
    requires forall r | r in roots :: ComponentName(r) in components
    requires p != [] && Path(env, roots, p)
    ensures p[|p| - 1] in types && ComponentName(p[|p| - 1]) in components
    decreases |p|
  {
    if |p| > 1 {
      var user := p[|p| - 2];
      PathRegistered(env, roots, types, components, source, p[..|p| - 1]);
      assert ComponentOf(env, types, components, ComponentName(user), source[ComponentName(user)]);
    }
  }

  /** The components are exactly the types, each with its own schema. */
  ghost predicate Exact(env: Env, types: iset<Ref>, components: map<string, JsonSchema>) {
    && (forall r | r in types :: ComponentName(r) in components && components[ComponentName(r)] == SchemaOf(env, r))
    && forall name | name in components :: exists r :: r in types && ComponentName(r) == name
  }

  lemma RegisteredRootsAreExact(env: Env, roots: iset<Ref>, components: map<string, JsonSchema>, source: map<string, Ref>)
    requires Sourced(env, Reachable(env, roots), components, source) && Unambiguous(Reachable(env, roots))
    requires forall r | r in roots :: ComponentName(r) in components
    ensures Exact(env, Reachable(env, roots), components)
  {
    var types := Reachable(env, roots);
    ReachableIsClosed(env, roots);
    forall r | r in types
      ensures ComponentName(r) in components && components[ComponentName(r)] == SchemaOf(env, r)
    {
      var p: seq<Ref> :| p != [] && p[|p| - 1] == r && Path(env, roots, p);
      PathRegistered(env, roots, types, components, source, p);
      assert ComponentOf(env, types, components, ComponentName(r), source[ComponentName(r)]);
    }
    forall name | name in components
      ensures exists r :: r in types && ComponentName(r) == name
    {
      assert ComponentOf(env, types, components, name, source[name]);
    }
  }

  /** No field name is repeated, as rosidl sees to. */
  predicate DistinctFields(m: Message) {
    forall i, j | 0 <= i < j < |m.fields| :: m.fields[i].name != m.fields[j].name
  }

  ghost predicate AllFieldsDistinct(env: Env, types: iset<Ref>) {
    forall r {:trigger env.load(TypeName(r))} | r in types && env.load(TypeName(r)).Some? ::
      DistinctFields(env.load(TypeName(r)).value)
  }

  /** Types that share a component name have the same schema, and so can share the component. */
  ghost predicate SameSchemas(env: Env, types: iset<Ref>) {
    forall r, s {:trigger r in types, s in types} | r in types && s in types && ComponentName(r) == ComponentName(s) ::
      SchemaOf(env, r) == SchemaOf(env, s)
  }

  lemma {:induction false} FieldHasProperty(fields: seq<Field>, i: nat)
    requires i < |fields| && !IsHidden(fields[i].name)
    requires forall j | i < j < |fields| :: fields[j].name != fields[i].name
    ensures fields[i].name in Properties(fields) && Properties(fields)[fields[i].name] == FragmentOf(fields[i].typ)
    decreases |fields|
  {
    if i < |fields| - 1 {
      FieldHasProperty(fields[..|fields| - 1], i);
    }
  }

  /** A schema that resolves, of a message that repeats no field name, has a component for each type used. */
  lemma ResolvingCoversUses(m: Message, r: Ref, components: map<string, JsonSchema>)
    requires DistinctFields(m) && Uses(m, r) && Resolves(ToJson(m), components)
    ensures ComponentName(r) in components
  {
    var i :| 0 <= i < |m.fields| && !IsHidden(m.fields[i].name) && Nests(m.fields[i].typ, r);
    FieldHasProperty(m.fields, i);
    FragmentRefersToType(m.fields[i].typ);
    assert FragmentRefs(Properties(m.fields)[m.fields[i].name]) <= components.Keys;
  }

  lemma {:induction false} SharedPathRegistered(env: Env, roots: iset<Ref>, types: iset<Ref>,
                                                components: map<string, JsonSchema>, source: map<string, Ref>, p: seq<Ref>)
    requires Sourced(env, types, components, source) && Closed(components)
    requires SameSchemas(env, types) && AllFieldsDistinct(env, types)
    requires roots <= types && ClosedUnderUse(env, types)
    requires forall r | r in roots :: ComponentName(r) in components
    requires p != [] && Path(env, roots, p)
    ensures p[|p| - 1] in types && ComponentName(p[|p| - 1]) in components
    decreases |p|
  {
    if |p| > 1 {
      var user, r := p[|p| - 2], p[|p| - 1];
      SharedPathRegistered(env, roots, types, components, source, p[..|p| - 1]);
      var name := ComponentName(user);
      assert ComponentOf(env, types, components, name, source[name]);
      assert components[name] == SchemaOf(env, user);
      ResolvingCoversUses(env.load(TypeName(user)).value, r, components);
    }
  }

  /** Once all roots are registered, the components are exact precisely if types of one name have one schema. */
  lemma RegisteredRootsExactIff(env: Env, roots: iset<Ref>, components: map<string, JsonSchema>, source: map<string, Ref>)
    requires Sourced(env, Reachable(env, roots), components, source) && AllFieldsDistinct(env, Reachable(env, roots))
    requires forall r | r in roots :: ComponentName(r) in components
    ensures Exact(env, Reachable(env, roots), components) <==> SameSchemas(env, Reachable(env, roots))
  {
    var types := Reachable(env, roots);
    if SameSchemas(env, types) {
      ReachableIsClosed(env, roots);
      SourcedIsClosed(env, types, components, source);
      forall r | r in types
        ensures ComponentName(r) in components && components[ComponentName(r)] == SchemaOf(env, r)
      {
        var p: seq<Ref> :| p != [] && p[|p| - 1] == r && Path(env, roots, p);
        SharedPathRegistered(env, roots, types, components, source, p);
        assert ComponentOf(env, types, components, ComponentName(r), source[ComponentName(r)]);
      }
      forall name | name in components
        ensures exists r :: r in types && ComponentName(r) == name
      {
        assert ComponentOf(env, types, components, name, source[name]);
      }
    }
  }

  /** Every component describes one of the types under its name. */
  ghost predicate ComponentsDescribe(env: Env, types: iset<Ref>, components: map<string, JsonSchema>) {
    forall name | name in components :: exists r: Ref :: r in types && DescribedAs(env, r, name, components[name])
  }

  ghost predicate DescribedAs(env: Env, r: Ref, name: string, schema: JsonSchema) {
    && name == r.pkg + "__msg__" + r.typ
    && DescribesFound(schema, env.load(r.pkg + "/msg/" + r.typ), r.pkg + "/msg/" + r.typ)
  }

  lemma SchemaDescribes(env: Env, r: Ref)
    ensures DescribedAs(env, r, ComponentName(r), SchemaOf(env, r))
  {
    if env.load(TypeName(r)).Some? {
      ToJsonDescribes(env.load(TypeName(r)).value);
    }
  }

  lemma SourcedDescribes(env: Env, types: iset<Ref>, components: map<string, JsonSchema>, source: map<string, Ref>)
    requires Sourced(env, types, components, source)
    ensures ComponentsDescribe(env, types, components)
  {
    forall name | name in components
      ensures exists r: Ref :: r in types && DescribedAs(env, r, name, components[name])
    {
      assert ComponentOf(env, types, components, name, source[name]);
      SchemaDescribes(env, source[name]);
    }
  }

  /** In an exact map, each of the types is described under its name. */
  lemma ExactDescribes(env: Env, types: iset<Ref>, components: map<string, JsonSchema>, r: Ref)
    requires Exact(env, types, components) && r in types
    ensures var name := r.pkg + "__msg__" + r.typ; name in components && DescribedAs(env, r, name, components[name])
  {
    SchemaDescribes(env, r);
  }

  predicate NoUnderscore(s: string) {
    '_' !in s
  }

  /** Component names tell types apart whose names, as ROS demands, have no underscore. */
  lemma ComponentNamesInjective(r: Ref, s: Ref)
    requires NoUnderscore(r.typ) && NoUnderscore(s.typ) && ComponentName(r) == ComponentName(s)
    ensures r == s
  {
    LastUnderscore(r, s);
    LastUnderscore(s, r);
    var n := |r.pkg|;
    assert ComponentName(r)[..n] == r.pkg && ComponentName(s)[..n] == s.pkg;
    assert ComponentName(r)[n + 7..] == r.typ && ComponentName(s)[n + 7..] == s.typ;
  }

  lemma LastUnderscore(r: Ref, s: Ref)
    requires NoUnderscore(s.typ) && ComponentName(r) == ComponentName(s)
    ensures |r.typ| >= |s.typ|
  {
    var k := |r.pkg| + 6;
    assert ComponentName(r)[k] == '_';
  }

  /** With underscores in type names, two types can share a component name. */
  lemma ComponentNamesCanClash()
    ensures exists r: Ref, s: Ref :: r != s && ComponentName(r) == ComponentName(s)
  {
    var r, s := Ref("a", "b__msg__c"), Ref("a__msg__b", "c");
    assert ComponentName(r) == "a__msg__b__msg__c" == ComponentName(s);
  }

  // ----- The document -----

  datatype Kind = Call | Publish | Subscribe | Action

  datatype Operation = Operation(kind: Kind, name: string, typeName: string, payloads: seq<JsonSchema>)

  datatype Capability = Capability(name: string, typeName: string)

  datatype Capabilities = Capabilities(call: seq<Capability>, publish: seq<Capability>, subscribe: seq<Capability>,
                                       action: seq<Capability>)
  {
    function Of(kind: Kind): seq<Capability> {
      match kind
      case Call => call
      case Publish => publish
      case Subscribe => subscribe
      case Action => action
    }
  }

  function Segment(kind: Kind): string {
    match kind
    case Call => "/call"
    case Publish => "/publish"
    case Subscribe => "/subscribe"
    case Action => "/action"
  }

  function Route(basePath: string, kind: Kind, name: string): string {
    basePath + (Segment(kind) + name)
  }

  type Router = (Kind, string) -> string

  function RouterOf(basePath: string): Router {
    (kind, name) => Route(basePath, kind, name)
  }

  ghost predicate Injective(route: Router) {
    forall k, n, k', n' | route(k, n) == route(k', n') :: k == k' && n == n'
  }

  /** No two capabilities share a route. */
  lemma RoutesDistinct(basePath: string)
    ensures Injective(RouterOf(basePath))
  {
    forall k: Kind, n: string, k': Kind, n': string | Route(basePath, k, n) == Route(basePath, k', n')
      ensures k == k' && n == n'
    {
      var b := |basePath|;
      assert Route(basePath, k, n)[b + 1] == Segment(k)[1] && Route(basePath, k', n')[b + 1] == Segment(k')[1];
      assert Route(basePath, k, n)[b + |Segment(k)|..] == n && Route(basePath, k', n')[b + |Segment(k')|..] == n';
    }
  }

  function Parts(kind: Kind): seq<Part> {
    match kind
    case Call => [Request, Response]
    case Publish => [Whole]
    case Subscribe => [Whole]
    case Action => [Goal, Feedback, Result]
  }

  function OperationOf(env: Env, kind: Kind, c: Capability): Operation {
    Operation(kind, c.name, c.typeName, seq(|Parts(kind)|, i requires 0 <= i < |Parts(kind)| =>
                                              PayloadSchema(env, c.typeName, Parts(kind)[i])))
  }

  predicate PayloadUses(env: Env, typeName: string, part: Part, r: Ref) {
    var m := env.payload(typeName, part);
    m.Some? && Uses(m.value, r)
  }

  predicate CapabilityUses(env: Env, kind: Kind, c: Capability, r: Ref) {
    exists i | 0 <= i < |Parts(kind)| :: PayloadUses(env, c.typeName, Parts(kind)[i], r)
  }

  ghost predicate Exposed(env: Env, caps: Capabilities, r: Ref) {
    exists kind: Kind, i | 0 <= i < |caps.Of(kind)| :: CapabilityUses(env, kind, caps.Of(kind)[i], r)
  }

  predicate OperationResolves(op: Operation, components: map<string, JsonSchema>) {
    forall i {:trigger Resolves(op.payloads[i], components)} | 0 <= i < |op.payloads| :: Resolves(op.payloads[i], components)
  }

  /** The types nested directly in the exposed payloads. */
  ghost function Roots(env: Env, caps: Capabilities): iset<Ref> {
    iset r: Ref | Exposed(env, caps, r)
  }

  function PathsFor(env: Env, route: Router, kind: Kind, entries: seq<Capability>): map<string, Operation> {
    if entries == [] then map[]
    else
      var last := entries[|entries| - 1];
      PathsFor(env, route, kind, entries[..|entries| - 1])[route(kind, last.name) := OperationOf(env, kind, last)]
  }

  function AllPaths(env: Env, route: Router, caps: Capabilities): map<string, Operation> {
    map[] + PathsFor(env, route, Call, caps.call) + PathsFor(env, route, Publish, caps.publish)
    + PathsFor(env, route, Subscribe, caps.subscribe) + PathsFor(env, route, Action, caps.action)
  }

  /** The operation names its capability and has the schemas of these parts of the type, in this order. */
  ghost predicate Documents(op: Operation, env: Env, kind: Kind, c: Capability, parts: seq<Part>) {
    && op.kind == kind && op.name == c.name && op.typeName == c.typeName && |op.payloads| == |parts|
    && forall i | 0 <= i < |parts| :: DescribesFound(op.payloads[i], env.payload(c.typeName, parts[i]), c.typeName)
  }

  ghost predicate DocumentedAt(paths: map<string, Operation>, path: string, env: Env, kind: Kind, c: Capability, parts: seq<Part>) {
    path in paths && Documents(paths[path], env, kind, c, parts)
  }

  /** Each capability is documented under its route, with the payloads of its kind. */
  ghost predicate Published(env: Env, basePath: string, caps: Capabilities, paths: map<string, Operation>) {
    && (forall i | 0 <= i < |caps.call| ::
          DocumentedAt(paths, basePath + ("/call" + caps.call[i].name), env, Call, caps.call[i], [Request, Response]))
    && (forall i | 0 <= i < |caps.publish| ::
          DocumentedAt(paths, basePath + ("/publish" + caps.publish[i].name), env, Publish, caps.publish[i], [Whole]))
    && (forall i | 0 <= i < |caps.subscribe| ::
          DocumentedAt(paths, basePath + ("/subscribe" + caps.subscribe[i].name), env, Subscribe, caps.subscribe[i], [Whole]))
    && (forall i | 0 <= i < |caps.action| ::
          DocumentedAt(paths, basePath + ("/action" + caps.action[i].name), env, Action, caps.action[i],
                       [Goal, Feedback, Result]))
  }

  lemma OperationDocuments(env: Env, kind: Kind, c: Capability)
    ensures Documents(OperationOf(env, kind, c), env, kind, c, Parts(kind))
  {
    forall i | 0 <= i < |Parts(kind)|
      ensures DescribesFound(PayloadSchema(env, c.typeName, Parts(kind)[i]), env.payload(c.typeName, Parts(kind)[i]), c.typeName)
    {
      if env.payload(c.typeName, Parts(kind)[i]).Some? {
        ToJsonDescribes(env.payload(c.typeName, Parts(kind)[i]).value);
      }
    }
  }

  lemma ListedIsPublished(env: Env, basePath: string, caps: Capabilities, paths: map<string, Operation>)
    requires Lists(env, RouterOf(basePath), caps, paths)
    ensures Published(env, basePath, caps, paths)
  {
    forall kind: Kind, i | 0 <= i < |caps.Of(kind)|
      ensures DocumentedAt(paths, basePath + (Segment(kind) + caps.Of(kind)[i].name), env, kind, caps.Of(kind)[i], Parts(kind))
    {
      OperationDocuments(env, kind, caps.Of(kind)[i]);
      assert RouterOf(basePath)(kind, caps.Of(kind)[i].name) == basePath + (Segment(kind) + caps.Of(kind)[i].name);
    }
    assert forall i | 0 <= i < |caps.call| :: caps.Of(Call)[i] == caps.call[i];
    assert forall i | 0 <= i < |caps.publish| :: caps.Of(Publish)[i] == caps.publish[i];
    assert forall i | 0 <= i < |caps.subscribe| :: caps.Of(Subscribe)[i] == caps.subscribe[i];
    assert forall i | 0 <= i < |caps.action| :: caps.Of(Action)[i] == caps.action[i];
  }

  /** The names of each kind are the keys of an object. */
  predicate DistinctNames(entries: seq<Capability>) {
    forall i, j | 0 <= i < j < |entries| :: entries[i].name != entries[j].name
  }

  /** The paths of one kind are the routes of its capabilities, each with its own operation. */
  lemma {:induction false} PathsForEntries(env: Env, route: Router, kind: Kind, entries: seq<Capability>, i: nat)
    requires DistinctNames(entries) && Injective(route) && i < |entries|
    ensures route(kind, entries[i].name) in PathsFor(env, route, kind, entries)
    ensures PathsFor(env, route, kind, entries)[route(kind, entries[i].name)] == OperationOf(env, kind, entries[i])
    decreases |entries|
  {
    if i < |entries| - 1 {
      PathsForEntries(env, route, kind, entries[..|entries| - 1], i);
    }
  }

  lemma {:induction false} PathsForOnly(env: Env, route: Router, kind: Kind, entries: seq<Capability>, path: string)
    requires path in PathsFor(env, route, kind, entries)
    ensures exists i | 0 <= i < |entries| :: path == route(kind, entries[i].name)
  {
    var n := |entries| - 1;
    if path != route(kind, entries[n].name) {
      PathsForOnly(env, route, kind, entries[..n], path);
      var i :| 0 <= i < n && path == route(kind, entries[..n][i].name);
      assert path == route(kind, entries[i].name);
    }
  }

  predicate AllDistinct(caps: Capabilities) {
    DistinctNames(caps.call) && DistinctNames(caps.publish) && DistinctNames(caps.subscribe) && DistinctNames(caps.action)
  }

  /** Every capability has a path of its own, and there are no other paths. */
  ghost predicate Lists(env: Env, route: Router, caps: Capabilities, paths: map<string, Operation>) {
    && (forall kind: Kind, i | 0 <= i < |caps.Of(kind)| ::
          var path := route(kind, caps.Of(kind)[i].name);
          path in paths && paths[path] == OperationOf(env, kind, caps.Of(kind)[i]))
    && forall path | path in paths ::
         exists kind: Kind, i | 0 <= i < |caps.Of(kind)| :: path == route(kind, caps.Of(kind)[i].name)
  }

  /** The route of a capability is not among the paths of another kind. */
  lemma OnlyOwnKind(env: Env, route: Router, caps: Capabilities, kind: Kind, name: string, other: Kind)
    requires Injective(route) && kind != other
    ensures route(kind, name) !in PathsFor(env, route, other, caps.Of(other))
  {
    if route(kind, name) in PathsFor(env, route, other, caps.Of(other)) {
      PathsForOnly(env, route, other, caps.Of(other), route(kind, name));
    }
  }

  lemma OwnPath(env: Env, route: Router, caps: Capabilities, kind: Kind, i: nat)
    requires AllDistinct(caps) && Injective(route) && i < |caps.Of(kind)|
    ensures var path := route(kind, caps.Of(kind)[i].name);
            path in AllPaths(env, route, caps)
            && AllPaths(env, route, caps)[path] == OperationOf(env, kind, caps.Of(kind)[i])
  {
    PathsForEntries(env, route, kind, caps.Of(kind), i);
    forall other: Kind | other != kind
      ensures route(kind, caps.Of(kind)[i].name) !in PathsFor(env, route, other, caps.Of(other))
    {
      OnlyOwnKind(env, route, caps, kind, caps.Of(kind)[i].name, other);
    }
    assert Call != kind ==> route(kind, caps.Of(kind)[i].name) !in PathsFor(env, route, Call, caps.Of(Call));
    assert Publish != kind ==> route(kind, caps.Of(kind)[i].name) !in PathsFor(env, route, Publish, caps.Of(Publish));
    assert Subscribe != kind ==> route(kind, caps.Of(kind)[i].name) !in PathsFor(env, route, Subscribe, caps.Of(Subscribe));
    assert Action != kind ==> route(kind, caps.Of(kind)[i].name) !in PathsFor(env, route, Action, caps.Of(Action));
  }

  lemma AllPathsListed(env: Env, route: Router, caps: Capabilities)
    requires AllDistinct(caps) && Injective(route)
    ensures Lists(env, route, caps, AllPaths(env, route, caps))
  {
    var paths := AllPaths(env, route, caps);
    forall kind: Kind, i | 0 <= i < |caps.Of(kind)|
      ensures var path := route(kind, caps.Of(kind)[i].name);
              path in paths && paths[path] == OperationOf(env, kind, caps.Of(kind)[i])
    {
      OwnPath(env, route, caps, kind, i);
    }
    forall path | path in paths
      ensures exists kind: Kind, i | 0 <= i < |caps.Of(kind)| :: path == route(kind, caps.Of(kind)[i].name)
    {
      var kind := if path in PathsFor(env, route, Call, caps.call) then Call
                  else if path in PathsFor(env, route, Publish, caps.publish) then Publish
                  else if path in PathsFor(env, route, Subscribe, caps.subscribe) then Subscribe
                  else Action;
      PathsForOnly(env, route, kind, caps.Of(kind), path);
      var i :| 0 <= i < |caps.Of(kind)| && path == route(kind, caps.Of(kind)[i].name);
    }
  }

  /** All the types a capability uses directly have a component. */
  ghost predicate Covered(env: Env, kind: Kind, c: Capability, components: map<string, JsonSchema>) {
    forall u: Ref {:trigger CapabilityUses(env, kind, c, u)} | CapabilityUses(env, kind, c, u) :: ComponentName(u) in components
  }

  ghost predicate AllCovered(env: Env, kind: Kind, entries: seq<Capability>, components: map<string, JsonSchema>) {
    forall i {:trigger Covered(env, kind, entries[i], components)} | 0 <= i < |entries| ::
      Covered(env, kind, entries[i], components)
  }

  /** Every `$ref` in the payloads of the paths resolves. */
  predicate PathsResolve(paths: map<string, Operation>, components: map<string, JsonSchema>) {
    forall path {:trigger OperationResolves(paths[path], components)} | path in paths ::
      OperationResolves(paths[path], components)
  }

  lemma MoreComponents(env: Env, kind: Kind, entries: seq<Capability>, paths: map<string, Operation>,
                       before: map<string, JsonSchema>, after: map<string, JsonSchema>)
    requires before.Keys <= after.Keys
    ensures AllCovered(env, kind, entries, before) ==> AllCovered(env, kind, entries, after)
    ensures PathsResolve(paths, before) ==> PathsResolve(paths, after)
  {
    if AllCovered(env, kind, entries, before) {
      forall i | 0 <= i < |entries|
        ensures Covered(env, kind, entries[i], after)
      {
        assert Covered(env, kind, entries[i], before);
      }
    }
    if PathsResolve(paths, before) {
      forall path | path in paths
        ensures OperationResolves(paths[path], after)
      {
        assert OperationResolves(paths[path], before);
        forall i | 0 <= i < |paths[path].payloads|
          ensures Resolves(paths[path].payloads[i], after)
        {
          assert Resolves(paths[path].payloads[i], before);
        }
      }
    }
  }

  ghost predicate Within(env: Env, kind: Kind, c: Capability, types: iset<Ref>) {
    forall u: Ref {:trigger CapabilityUses(env, kind, c, u)} | CapabilityUses(env, kind, c, u) :: u in types
  }

  ghost predicate AllWithin(env: Env, kind: Kind, entries: seq<Capability>, types: iset<Ref>) {
    forall i {:trigger Within(env, kind, entries[i], types)} | 0 <= i < |entries| :: Within(env, kind, entries[i], types)
  }

  lemma OneMorePath(base: map<string, Operation>, env: Env, route: Router, kind: Kind, entries: seq<Capability>, i: nat)
    requires i < |entries|
    ensures base + PathsFor(env, route, kind, entries[..i + 1])
         == (base + PathsFor(env, route, kind, entries[..i]))[route(kind, entries[i].name) := OperationOf(env, kind, entries[i])]
  {
    assert entries[..i + 1][..i] == entries[..i];
  }

  class Builder {
    const env: Env
    var components: map<string, JsonSchema>
    ghost var source: map<string, Ref>
    var paths: map<string, Operation>

    constructor (env: Env)
      ensures this.env == env && components == map[] && source == map[] && paths == map[]
    {
      this.env := env;
      components, source, paths := map[], map[], map[];
    }

    /** Only reachable types are registered, and with each the types it uses. */
    ghost predicate Sound(types: iset<Ref>)
      reads this
    {
      Sourced(env, types, components, source)
    }

    /** `registerComponent`. A component is filed only after all it refers to. */
    method RegisterComponent(r: Ref, ghost types: iset<Ref>, ghost rank: Ref -> nat)
      requires Sound(types) && Acyclic(env, types, rank) && ClosedUnderUse(env, types) && r in types
      modifies `components, `source
      ensures Sound(types) && old(components.Keys) <= components.Keys && ComponentName(r) in components
      decreases rank(r), 3
    {
      if ComponentName(r) in components {
        return;
      }
      var loaded := env.load(TypeName(r));
      match loaded {
        case None =>
          FiledStaysSourced(env, types, components, source, r);
          components := components[ComponentName(r) := Unresolved(TypeName(r))];
          source := source[ComponentName(r) := r];
        case Some(m) =>
          forall u: Ref | Uses(m, u)
            ensures u in types && rank(u) < rank(r)
          {
            assert UsesType(env, r, u);
          }
          var schema := MessageSchema(m, types, rank, rank(r));
          FiledStaysSourced(env, types, components, source, r);
          components := components[ComponentName(r) := schema];
          source := source[ComponentName(r) := r];
      }
    }

    /** `messageSchemaToJsonSchema`. */
    method MessageSchema(m: Message, ghost types: iset<Ref>, ghost rank: Ref -> nat, ghost bound: nat)
      returns (schema: JsonSchema)
      requires Sound(types) && Acyclic(env, types, rank) && ClosedUnderUse(env, types)
      requires RanksBelow(m, rank, bound) && forall u: Ref | Uses(m, u) :: u in types
      modifies `components, `source
      ensures Sound(types) && old(components.Keys) <= components.Keys
      ensures schema == ToJson(m) && Describes(schema, m) && UsesRegistered(m, components)
      decreases bound, 2
    {
      var properties, required := map[], [];
      for i := 0 to |m.fields|
        invariant Sound(types) && old(components.Keys) <= components.Keys
        invariant properties == Properties(m.fields[..i]) && required == Required(m.fields[..i])
        invariant UsesRegistered(m.(fields := m.fields[..i]), components)
      {
        var field := m.fields[i];
        assert m.fields[..i + 1][..i] == m.fields[..i];
        if !IsHidden(field.name) {
          assert !field.typ.isPrimitive ==> Uses(m, Ref(field.typ.pkg, field.typ.typ));
          var f := FieldSchema(field.typ, types, rank, bound);
          properties := properties[field.name := f];
          required := required + [field.name];
        }
        OneMoreField(m, i, components);
      }
      assert m.fields[..|m.fields|] == m.fields;
      schema := Object(properties, required, m.messageType);
      ToJsonDescribes(m);
    }

    /** `rosFieldTypeToJsonSchema`. */
    method FieldSchema(ft: FieldType, ghost types: iset<Ref>, ghost rank: Ref -> nat, ghost bound: nat)
      returns (f: Fragment)
      requires Sound(types) && Acyclic(env, types, rank) && ClosedUnderUse(env, types)
      requires !ft.isPrimitive ==> var r := Ref(ft.pkg, ft.typ); r in types && rank(r) < bound
      modifies `components, `source
      ensures Sound(types) && old(components.Keys) <= components.Keys
      ensures f == FragmentOf(ft) && FragmentRefs(f) <= components.Keys
      ensures !ft.isPrimitive ==> ComponentName(Ref(ft.pkg, ft.typ)) in components
      decreases bound, 1, ft.isArray
    {
      if ft.isArray {
        var items := FieldSchema(ft.(isArray := false), types, rank, bound);
        return ArrayFragment(ft, items);
      }
      if ft.isPrimitive {
        return PrimitiveSchema(ft.typ, ft.stringUpperBound);
      }
      RegisterComponent(Ref(ft.pkg, ft.typ), types, rank);
      return ComponentRef(ComponentName(Ref(ft.pkg, ft.typ)));
    }

    /** `topLevelSchema`. */
    method TopLevelSchema(typeName: string, part: Part, ghost types: iset<Ref>, ghost rank: Ref -> nat)
      returns (schema: JsonSchema)
      requires Sound(types) && Acyclic(env, types, rank) && ClosedUnderUse(env, types)
      requires forall u: Ref | PayloadUses(env, typeName, part, u) :: u in types
      modifies `components, `source
      ensures Sound(types) && old(components.Keys) <= components.Keys
      ensures schema == PayloadSchema(env, typeName, part) && Resolves(schema, components)
      ensures DescribesFound(schema, env.payload(typeName, part), typeName)
      ensures forall u: Ref | PayloadUses(env, typeName, part, u) :: ComponentName(u) in components
    {
      match env.payload(typeName, part) {
        case None =>
          return Unresolved(typeName);
        case Some(m) =>
          ghost var bound := RankBound(m, rank);
          forall u: Ref | Uses(m, u)
            ensures u in types
          {
            assert PayloadUses(env, typeName, part, u);
          }
          schema := MessageSchema(m, types, rank, bound);
          UsesRegisteredResolves(m, components);
      }
    }

    method DocumentCapability(kind: Kind, c: Capability, ghost types: iset<Ref>, ghost rank: Ref -> nat)
      returns (op: Operation)
      requires Sound(types) && Acyclic(env, types, rank) && ClosedUnderUse(env, types)
      requires Within(env, kind, c, types)
      modifies `components, `source
      ensures Sound(types) && old(components.Keys) <= components.Keys
      ensures op == OperationOf(env, kind, c) && OperationResolves(op, components)
      ensures Covered(env, kind, c, components)
    {
      var payloads := [];
      for i := 0 to |Parts(kind)|
        invariant Sound(types) && old(components.Keys) <= components.Keys
        invariant payloads == OperationOf(env, kind, c).payloads[..i]
        invariant forall k | 0 <= k < i :: Resolves(payloads[k], components)
        invariant forall k, u: Ref | 0 <= k < i && PayloadUses(env, c.typeName, Parts(kind)[k], u) ::
                    ComponentName(u) in components
      {
        forall u: Ref | PayloadUses(env, c.typeName, Parts(kind)[i], u)
          ensures u in types
        {
          assert CapabilityUses(env, kind, c, u);
        }
        var schema := TopLevelSchema(c.typeName, Parts(kind)[i], types, rank);
        payloads := payloads + [schema];
      }
      return Operation(kind, c.name, c.typeName, payloads);
    }

    method DocumentPath(route: Router, kind: Kind, c: Capability, ghost types: iset<Ref>, ghost rank: Ref -> nat)
      requires Sound(types) && PathsResolve(paths, components) && Acyclic(env, types, rank) && ClosedUnderUse(env, types)
      requires Within(env, kind, c, types)
      modifies this
      ensures Sound(types) && PathsResolve(paths, components) && old(components.Keys) <= components.Keys
      ensures paths == old(paths)[route(kind, c.name) := OperationOf(env, kind, c)]
      ensures Covered(env, kind, c, components)
    {
      ghost var before := components;
      var op := DocumentCapability(kind, c, types, rank);
      MoreComponents(env, kind, [], paths, before, components);
      paths := paths[route(kind, c.name) := op];
    }

    /** One of the four loops of `buildOpenApiDocument`. */
    method DocumentKind(route: Router, kind: Kind, entries: seq<Capability>, ghost types: iset<Ref>, ghost rank: Ref -> nat)
      requires Sound(types) && PathsResolve(paths, components) && Acyclic(env, types, rank) && ClosedUnderUse(env, types)
      requires AllWithin(env, kind, entries, types)
      modifies this
      ensures Sound(types) && PathsResolve(paths, components) && old(components.Keys) <= components.Keys
      ensures paths == old(paths) + PathsFor(env, route, kind, entries)
      ensures AllCovered(env, kind, entries, components)
    {
      for i := 0 to |entries|
        invariant Sound(types) && PathsResolve(paths, components) && old(components.Keys) <= components.Keys
        invariant paths == old(paths) + PathsFor(env, route, kind, entries[..i])
        invariant AllCovered(env, kind, entries[..i], components)
      {
        ghost var before := components;
        OneMorePath(old(paths), env, route, kind, entries, i);
        DocumentPath(route, kind, entries[i], types, rank);
        MoreComponents(env, kind, entries[..i], map[], before, components);
      }
      assert entries[..|entries|] == entries;
    }

    method DocumentAll(route: Router, caps: Capabilities, ghost types: iset<Ref>, ghost rank: Ref -> nat)
      requires Sound(types) && Acyclic(env, types, rank) && ClosedUnderUse(env, types)
      requires paths == map[]
      requires forall kind: Kind :: AllWithin(env, kind, caps.Of(kind), types)
      modifies this
      ensures Sound(types) && PathsResolve(paths, components)
      ensures paths == AllPaths(env, route, caps)
      ensures forall kind: Kind :: AllCovered(env, kind, caps.Of(kind), components)
    {
      DocumentKind(route, Call, caps.Of(Call), types, rank);
      ghost var c0 := components;
      DocumentKind(route, Publish, caps.Of(Publish), types, rank);
      ghost var c1 := components;
      DocumentKind(route, Subscribe, caps.Of(Subscribe), types, rank);
      ghost var c2 := components;
      DocumentKind(route, Action, caps.Of(Action), types, rank);
      StillCovered(env, caps, c0, c1, c2, components);
    }
  }

  /** The roots are exactly what the capabilities use directly. */
  lemma RootsCovered(env: Env, caps: Capabilities, components: map<string, JsonSchema>)
    requires forall kind: Kind :: AllCovered(env, kind, caps.Of(kind), components)
    ensures forall r | r in Roots(env, caps) :: ComponentName(r) in components
  {
    forall r | r in Roots(env, caps)
      ensures ComponentName(r) in components
    {
      var kind: Kind, i :| 0 <= i < |caps.Of(kind)| && CapabilityUses(env, kind, caps.Of(kind)[i], r);
      assert Covered(env, kind, caps.Of(kind)[i], components);
    }
  }

  lemma CapabilitiesWithinReach(env: Env, caps: Capabilities, kind: Kind)
    ensures AllWithin(env, kind, caps.Of(kind), Reachable(env, Roots(env, caps)))
  {
    ReachableIsClosed(env, Roots(env, caps));
    forall i, u: Ref | 0 <= i < |caps.Of(kind)| && CapabilityUses(env, kind, caps.Of(kind)[i], u)
      ensures u in Reachable(env, Roots(env, caps))
    {
      assert u in Roots(env, caps);
    }
  }

  /**
   `buildOpenApiDocument`: every capability gets its path, every `$ref` of the document resolves, and
   the components are exactly the types reachable from the payloads, each with its own schema, precisely
   if those of them that share a name share a schema.
   */
  method BuildOpenApiDocument(env: Env, basePath: string, caps: Capabilities, ghost rank: Ref -> nat)
    returns (paths: map<string, Operation>, components: map<string, JsonSchema>)
    requires AllDistinct(caps)
    requires Acyclic(env, Reachable(env, Roots(env, caps)), rank)
    ensures Lists(env, RouterOf(basePath), caps, paths) && Published(env, basePath, caps, paths)
    ensures PathsResolve(paths, components) && Closed(components)
    ensures ComponentsDescribe(env, Reachable(env, Roots(env, caps)), components)
    ensures var types := Reachable(env, Roots(env, caps));
            && (Unambiguous(types) ==> Exact(env, types, components))
            && (AllFieldsDistinct(env, types) ==> (Exact(env, types, components) <==> SameSchemas(env, types)))
  {
    var builder := new Builder(env);
    var route := RouterOf(basePath);
    ghost var roots := Roots(env, caps);
    ghost var types := Reachable(env, roots);
    ReachableIsClosed(env, roots);
    forall kind: Kind
      ensures AllWithin(env, kind, caps.Of(kind), types)
    {
      CapabilitiesWithinReach(env, caps, kind);
    }
    builder.DocumentAll(route, caps, types, rank);
    paths, components := builder.paths, builder.components;
    Finished(env, basePath, caps, paths, components, builder.source);
  }

  lemma StillCovered(env: Env, caps: Capabilities, c0: map<string, JsonSchema>, c1: map<string, JsonSchema>,
                     c2: map<string, JsonSchema>, c3: map<string, JsonSchema>)
    requires c0.Keys <= c1.Keys <= c2.Keys <= c3.Keys
    requires AllCovered(env, Call, caps.call, c0) && AllCovered(env, Publish, caps.publish, c1)
    requires AllCovered(env, Subscribe, caps.subscribe, c2) && AllCovered(env, Action, caps.action, c3)
    ensures forall kind: Kind :: AllCovered(env, kind, caps.Of(kind), c3)
  {
    MoreComponents(env, Call, caps.call, map[], c0, c3);
    MoreComponents(env, Publish, caps.publish, map[], c1, c3);
    MoreComponents(env, Subscribe, caps.subscribe, map[], c2, c3);
    forall kind: Kind
      ensures AllCovered(env, kind, caps.Of(kind), c3)
    {
      match kind
      case Call =>
      case Publish =>
      case Subscribe =>
      case Action =>
    }
  }

  lemma Finished(env: Env, basePath: string, caps: Capabilities, paths: map<string, Operation>,
                 components: map<string, JsonSchema>, source: map<string, Ref>)
    requires AllDistinct(caps) && paths == AllPaths(env, RouterOf(basePath), caps)
    requires Sourced(env, Reachable(env, Roots(env, caps)), components, source)
    requires forall kind: Kind :: AllCovered(env, kind, caps.Of(kind), components)
    ensures Lists(env, RouterOf(basePath), caps, paths) && Published(env, basePath, caps, paths) && Closed(components)
    ensures ComponentsDescribe(env, Reachable(env, Roots(env, caps)), components)
    ensures var types := Reachable(env, Roots(env, caps));
            && (Unambiguous(types) ==> Exact(env, types, components))
            && (AllFieldsDistinct(env, types) ==> (Exact(env, types, components) <==> SameSchemas(env, types)))
  {
    RoutesDistinct(basePath);
    AllPathsListed(env, RouterOf(basePath), caps);
    ListedIsPublished(env, basePath, caps, paths);
    SourcedIsClosed(env, Reachable(env, Roots(env, caps)), components, source);
    SourcedDescribes(env, Reachable(env, Roots(env, caps)), components, source);
    RootsCovered(env, caps, components);
    if Unambiguous(Reachable(env, Roots(env, caps))) {
      RegisteredRootsAreExact(env, Roots(env, caps), components, source);
    }
    if AllFieldsDistinct(env, Reachable(env, Roots(env, caps))) {
      RegisteredRootsExactIff(env, Roots(env, caps), components, source);
    }
  }

  /** Two messages of different shapes, reachable from one payload, whose types share a component name. */
  lemma Clashing(r: Ref, s: Ref) returns (env: Env, caps: Capabilities)
    requires r == Ref("a", "b__msg__c") && s == Ref("a__msg__b", "c")
    ensures AllDistinct(caps) && Exposed(env, caps, r) && Exposed(env, caps, s)
    ensures forall user: Ref, u: Ref :: !UsesType(env, user, u)
    ensures forall name | env.load(name).Some? :: DistinctFields(env.load(name).value)
    ensures SchemaOf(env, r) != SchemaOf(env, s)
  {
    var flag := FieldType("", "bool", true, None, false, false, false, None);
    var full, empty := Message([Field("on", flag)], "a/msg/b__msg__c"), Message([], "a__msg__b/msg/c");
    var one, two := flag.(pkg := "a", typ := "b__msg__c", isPrimitive := false), flag.(pkg := "a__msg__b", typ := "c", isPrimitive := false);
    var payload := Message([Field("x", one), Field("y", two)], "p/msg/T");
    env := Env(name => if name == "a/msg/b__msg__c" then Some(full) else Some(empty), (name, part) => Some(payload));
    var c := Capability("/t", "p/msg/T");
    caps := Capabilities([], [c], [], []);
    assert TypeName(r) == "a/msg/b__msg__c" && TypeName(s) == "a__msg__b/msg/c" && TypeName(s)[1] != TypeName(r)[1];
    assert Nests(payload.fields[0].typ, r) && Nests(payload.fields[1].typ, s);
    assert Uses(payload, r) && Uses(payload, s);
    assert PayloadUses(env, c.typeName, Parts(Publish)[0], r) && PayloadUses(env, c.typeName, Parts(Publish)[0], s);
    assert CapabilityUses(env, Publish, caps.Of(Publish)[0], r) && CapabilityUses(env, Publish, caps.Of(Publish)[0], s);
    assert full.fields[..0] == [] && Required(full.fields) == ["on"];
  }

  /** The types are as they should be, and yet no component map is exact. */
  ghost predicate NeverExact(env: Env, types: iset<Ref>, rank: Ref -> nat) {
    && Acyclic(env, types, rank) && AllFieldsDistinct(env, types)
    && forall components: map<string, JsonSchema> :: !Exact(env, types, components)
  }

  lemma ClashIsNeverExact(env: Env, types: iset<Ref>, rank: Ref -> nat, r: Ref, s: Ref)
    requires r in types && s in types && ComponentName(r) == ComponentName(s) && SchemaOf(env, r) != SchemaOf(env, s)
    requires forall user: Ref, u: Ref :: !UsesType(env, user, u)
    requires forall name | env.load(name).Some? :: DistinctFields(env.load(name).value)
    ensures NeverExact(env, types, rank)
  {
  }

  lemma ExposedIsReachable(env: Env, caps: Capabilities, r: Ref)
    requires Exposed(env, caps, r)
    ensures r in Reachable(env, Roots(env, caps))
  {
    RootReached(env, Roots(env, caps), r);
  }

  lemma SharedName(r: Ref, s: Ref)
    requires r == Ref("a", "b__msg__c") && s == Ref("a__msg__b", "c")
    ensures ComponentName(r) == ComponentName(s)
  {
    assert ComponentName(r) == "a__msg__b__msg__c" == ComponentName(s);
  }

  lemma ExposedClashIsNeverExact(env: Env, caps: Capabilities, rank: Ref -> nat, r: Ref, s: Ref)
    requires Exposed(env, caps, r) && Exposed(env, caps, s)
    requires ComponentName(r) == ComponentName(s) && SchemaOf(env, r) != SchemaOf(env, s)
    requires forall user: Ref, u: Ref :: !UsesType(env, user, u)
    requires forall name | env.load(name).Some? :: DistinctFields(env.load(name).value)
    ensures NeverExact(env, Reachable(env, Roots(env, caps)), rank)
  {
    ExposedIsReachable(env, caps, r);
    ExposedIsReachable(env, caps, s);
    ClashIsNeverExact(env, Reachable(env, Roots(env, caps)), rank, r, s);
  }

  /** For some capabilities no document can be exact, whatever the ranks: one of the clashing types is missing. */
  lemma DocumentCanBeInexact(rank: Ref -> nat) returns (env: Env, caps: Capabilities)
    ensures AllDistinct(caps) && NeverExact(env, Reachable(env, Roots(env, caps)), rank)
  {
    var r, s := Ref("a", "b__msg__c"), Ref("a__msg__b", "c");
    SharedName(r, s);
    env, caps := Clashing(r, s);
    ExposedClashIsNeverExact(env, caps, rank, r, s);
  }
}
