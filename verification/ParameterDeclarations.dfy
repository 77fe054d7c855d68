/** What declaring parameters promises, with descriptors under any names and any pre-callbacks. */
module ParameterDeclarations {
  import opened JavaScript
  import opened Optional
  import opened Parameters
  import opened ParameterStore
  import opened ParameterUpdates
  import opened ParameterProperties

  // ----- Registering descriptors -----

  predicate Named(ds: seq<Descriptor>, name: string) {
    exists i | 0 <= i < |ds| :: ds[i].name == name
  }

  lemma NamedAppend(ds: seq<Descriptor>, name: string)
    requires ds != []
    ensures Named(ds, name) <==> Named(ds[..|ds| - 1], name) || ds[|ds| - 1].name == name
  {
    if i :| 0 <= i < |ds| && ds[i].name == name {
      assert i < |ds| - 1 ==> ds[..|ds| - 1][i].name == name;
    }
    var init := ds[..|ds| - 1];
    if i :| 0 <= i < |init| && init[i].name == name {
      assert ds[i].name == name;
    }
  }

  /** The last descriptor of a name. */
  function LastNamed(ds: seq<Descriptor>, name: string): (d: Descriptor)
    requires Named(ds, name)
    ensures d.name == name
  {
    var last := ds[|ds| - 1];
    if last.name == name then last
    else
      NamedAppend(ds, name);
      LastNamed(ds[..|ds| - 1], name)
  }

  function Filed(st: Store, ds: seq<Descriptor>): Store {
    st.(descriptors := Register(st.descriptors, ds))
  }

  /** Registering files the last descriptor of each name under it and touches no other name. */
  lemma {:induction false} RegisterEffect(m: map<string, Descriptor>, ds: seq<Descriptor>, name: string)
    ensures name in Register(m, ds) <==> name in m || Named(ds, name)
    ensures name in Register(m, ds) ==> Register(m, ds)[name] == if Named(ds, name) then LastNamed(ds, name) else m[name]
  {
    if ds != [] {
      RegisterEffect(m, ds[..|ds| - 1], name);
      NamedAppend(ds, name);
    }
  }

  lemma {:induction false} UnregisterEffect(m: map<string, Descriptor>, ds: seq<Descriptor>, name: string)
    ensures name in Unregister(m, ds) <==> name in m && !Named(ds, name)
    ensures name in Unregister(m, ds) ==> Unregister(m, ds)[name] == m[name]
  {
    if ds != [] {
      UnregisterEffect(m, ds[..|ds| - 1], name);
      NamedAppend(ds, name);
    }
  }

  /** None of the descriptors to be registered carries the name of a parameter declared before. */
  ghost predicate NoForeignName(st: Store, ds: seq<Descriptor>) {
    forall name | name in st.parameters :: !Named(ds, name)
  }

  /** The descriptors a declaration registers; they need not carry the names of the parameters. */
  function NewDescriptors(overrides: map<string, Parameter>, ps: seq<Parameter>, given: seq<Descriptor>,
                          ignoreOverrides: bool): seq<Descriptor>
    requires given == [] || |given| == |ps|
  {
    DescriptorsFor(AllChosen(overrides, ps, ignoreOverrides), given)
  }

  // ----- The store -----

  /** Descriptors filed under old names that no applied entry mentions fit the old parameters. */
  ghost predicate OldOnesFit(st: Store, ds: seq<Descriptor>, applied: seq<Parameter>) {
    forall name | name in st.parameters && Named(ds, name) && !Mentions(applied, name) ::
      Holds(LastNamed(ds, name), st.parameters[name])
  }

  lemma FiledEffect(st: Store, ds: seq<Descriptor>)
    ensures forall name: string :: name in Filed(st, ds).descriptors <==> name in st.descriptors || Named(ds, name)
    ensures forall name | name in Filed(st, ds).descriptors ::
              Filed(st, ds).descriptors[name] == if Named(ds, name) then LastNamed(ds, name) else st.descriptors[name]
  {
    forall name: string
      ensures name in Filed(st, ds).descriptors <==> name in st.descriptors || Named(ds, name)
      ensures name in Filed(st, ds).descriptors ==>
                Filed(st, ds).descriptors[name] == if Named(ds, name) then LastNamed(ds, name) else st.descriptors[name]
    {
      RegisterEffect(st.descriptors, ds, name);
    }
  }

  /** Removals depend on what is stored, not on descriptors. */
  lemma FilingMovesNoRemoval(st: Store, ds: seq<Descriptor>, batch: seq<Parameter>, name: string)
    ensures Removes(Filed(st, ds), batch, name) <==> Removes(st, batch, name)
    ensures StoredAfter(Filed(st, ds), batch, name) <==> StoredAfter(st, batch, name)
  {
    forall i | 0 <= i < |batch|
      ensures RemovesAt(Filed(st, ds), batch, i, name) <==> RemovesAt(st, batch, i, name)
    {
    }
  }

  /**
   Validated entries, applied after descriptors were filed, leave a good store good exactly if they
   revive no name and each descriptor filed under an old name that they do not mention fits.
   */
  lemma FiledAndAppliedGoodIff(st: Store, ds: seq<Descriptor>, applied: seq<Parameter>, declare: bool, st': Store)
    requires GoodStore(st) && ValidatesAll(Filed(st, ds), applied, declare)
    requires Commit(Filed(st, ds), applied) == Done(st')
    ensures GoodStore(st') <==> NoRevival(st, applied) && OldOnesFit(st, ds, applied)
  {
    CommitEffect(Filed(st, ds), applied);
    FiledEffect(st, ds);
    if GoodStore(st') {
      GoodMeansFitting(st, ds, applied, st');
    }
    if NoRevival(st, applied) && OldOnesFit(st, ds, applied) {
      forall name | name in st'.parameters
        ensures StoredWell(st', name)
      {
        FilingMovesNoRemoval(st, ds, applied, name);
        if Mentions(applied, name) {
          LastValidates(Filed(st, ds), applied, declare, name);
        } else {
          assert StoredWell(st, name);
        }
      }
    }
  }

  lemma GoodMeansFitting(st: Store, ds: seq<Descriptor>, applied: seq<Parameter>, st': Store)
    requires GoodStore(st') && BatchEffect(Filed(st, ds), applied, st')
    ensures NoRevival(st, applied) && OldOnesFit(st, ds, applied)
  {
    FiledEffect(st, ds);
    forall name: string | Mentions(applied, name) && LastOf(applied, name).kind != NOT_SET
      ensures !Removes(st, applied, name)
    {
      FilingMovesNoRemoval(st, ds, applied, name);
      assert StoredWell(st', name);
    }
    forall name | name in st.parameters && Named(ds, name) && !Mentions(applied, name)
      ensures Holds(LastNamed(ds, name), st.parameters[name])
    {
      assert StoredWell(st', name);
    }
  }

  /**
   A declaration that is rejected after it registered its descriptors leaves the parameters alone;
   it leaves the store good exactly if no descriptor had the name of another, declared parameter,
   and then the descriptors of all declared parameters are what they were.
   */
  lemma RejectedDeclarationHarmlessIff(s: State, overrides: map<string, Parameter>, ps: seq<Parameter>,
                                       given: seq<Descriptor>, ignoreOverrides: bool)
    requires GoodStore(s.store) && TimeSourceLast(s.hooks)
    requires Declarable(s.store, AllChosen(overrides, ps, ignoreOverrides), given)
    requires Declare(s, overrides, ps, given, ignoreOverrides).Rejected?
    ensures var s' := Declare(s, overrides, ps, given, ignoreOverrides).state;
            var ds := NewDescriptors(overrides, ps, given, ignoreOverrides);
            && s'.store.parameters == s.store.parameters && s'.active == s.active && s'.hooks == s.hooks && s'.pre == s.pre
            && (GoodStore(s'.store) <==> NoForeignName(s.store, ds))
            && (NoForeignName(s.store, ds) ==> forall name | name in s.store.parameters ::
                  DescriptorOf(s'.store, name) == DescriptorOf(s.store, name))
  {
    var ds := NewDescriptors(overrides, ps, given, ignoreOverrides);
    var chosen := AllChosen(overrides, ps, ignoreOverrides);
    RejectedSetChangesNothing(Registered(s, ds), chosen, true);
    var m := Register(s.store.descriptors, ds);
    var s' := Declare(s, overrides, ps, given, ignoreOverrides).state;
    assert s'.store.descriptors == Unregister(m, ds);
    forall name: string
      ensures name in s'.store.descriptors <==> name in s.store.descriptors && !Named(ds, name)
      ensures name in s'.store.descriptors ==> s'.store.descriptors[name] == s.store.descriptors[name]
    {
      RegisterEffect(s.store.descriptors, ds, name);
      UnregisterEffect(m, ds, name);
    }
    forall name | name in s.store.parameters
      ensures StoredWell(s'.store, name) <==> !Named(ds, name)
    {
      assert StoredWell(s.store, name);
    }
  }

  /** A descriptor under the name of a declared parameter, and a declaration that is rejected: the descriptor is gone. */
  lemma RejectedDeclarationHarms()
    ensures exists s: State, ps, given :: GoodStore(s.store) && TimeSourceLast(s.hooks)
              && Declarable(s.store, AllChosen(map[], ps, true), given)
              && Declare(s, map[], ps, given, true).Rejected?
              && !GoodStore(Declare(s, map[], ps, given, true).state.store)
  {
    var five, one := Parameter("a", INTEGER, BigInt(5)), Parameter("b", INTEGER, BigInt(1));
    var d := FromParameter(five);
    var s := State(Store(map["a" := five], map["a" := d]), [], [TimeSourceHook], false, 0);
    var ps, ds := [one], [d];
    assert "a"[0] == 'a' && !IsBlank("a") && "b"[0] == 'b' && !IsBlank("b");
    assert StoredWell(s.store, "a");
    assert AllChosen(map[], ps, true) == ps && DescriptorsFor(ps, ds) == ds;
    var r := Registered(s, ds);
    RegisterEffect(s.store.descriptors, ds, "b");
    assert !Named(ds, "b");
    assert RunPre([], 0, ps) == PreRun(Some(ps), 0);
    assert !Validates(r.store, ps[0], true);
    RejectedDeclarationHarmlessIff(s, map[], ps, ds, true);
    assert ds[0].name == "a" && Named(ds, "a");
  }

  /**
   An accepted declaration applies its final list, whatever that names; it leaves a good store good
   exactly if the list revives no name and each descriptor filed under the name of a declared
   parameter that the list does not mention fits that parameter.
   */
  lemma AcceptedDeclarationIff(s: State, overrides: map<string, Parameter>, ps: seq<Parameter>,
                               given: seq<Descriptor>, ignoreOverrides: bool)
    requires GoodStore(s.store) && TimeSourceLast(s.hooks)
    requires Declare(s, overrides, ps, given, ignoreOverrides).Accepted?
    ensures FinalBatch(s, AllChosen(overrides, ps, ignoreOverrides)).Some?
    ensures var s' := Declare(s, overrides, ps, given, ignoreOverrides).state;
            var ds := NewDescriptors(overrides, ps, given, ignoreOverrides);
            var final := FinalBatch(s, AllChosen(overrides, ps, ignoreOverrides)).value;
            && BatchEffect(Filed(s.store, ds), final, s'.store) && s'.active == Probe(s.active, final)
            && s'.pre == s.pre && s'.hooks == s.hooks
            && (GoodStore(s'.store) <==> NoRevival(s.store, final) && OldOnesFit(s.store, ds, final))
  {
    var ds := NewDescriptors(overrides, ps, given, ignoreOverrides);
    var chosen := AllChosen(overrides, ps, ignoreOverrides);
    var s' := Declare(s, overrides, ps, given, ignoreOverrides).state;
    AcceptedSetAppliesFinalBatch(Registered(s, ds), chosen, true);
    FiledAndAppliedGoodIff(s.store, ds, FinalBatch(s, chosen).value, true, s'.store);
  }

  /** No entry names a parameter declared before. */
  predicate Fresh(st: Store, batch: seq<Parameter>) {
    forall i | 0 <= i < |batch| :: batch[i].name !in st.parameters
  }

  /** Declaring new, distinct names never leaves a batch half applied. */
  lemma FreshCommits(st: Store, batch: seq<Parameter>)
    requires Fresh(st, batch) && DistinctNames(batch)
    ensures Commit(st, batch).Done?
  {
    CommitThrowsIff(st, batch);
  }

  /** Declaring a read-only name and removing it in one list throws, and leaves it declared. */
  lemma DeclarationCanAbort()
    ensures exists s: State, ps, given :: GoodStore(s.store) && TimeSourceLast(s.hooks)
              && Declare(s, map[], ps, given, true).Aborted?
              && Declare(s, map[], ps, given, true).state.store.parameters != s.store.parameters
  {
    var five, gone := Parameter("a", INTEGER, BigInt(5)), Parameter("a", NOT_SET, Undefined);
    var d := Descriptor("a", INTEGER, true, None);
    var s := State(Store(map[], map[]), [], [TimeSourceHook], false, 0);
    var ps, ds := [five, gone], [d, d];
    assert "a"[0] == 'a' && !IsBlank("a");
    assert AllChosen(map[], ps, true) == ps && DescriptorsFor(ps, ds) == ds;
    var st := Registered(s, ds).store;
    assert ds[..1] == [d] && [d][..0] == [] && Register(map[], [d]) == map["a" := d];
    assert st == Store(map[], map["a" := d]);
    assert ValidatesAll(st, ps, true);
    HooksEffect([TimeSourceHook], 0, false, ps);
    assert RunHooks([TimeSourceHook], 0, false, ps).ok by {
      assert RunHooks([TimeSourceHook], 0, false, ps) == RunHooks([], 0, Probe(false, ps), ps);
    }
    assert RunPre([], 0, ps) == PreRun(Some(ps), 0);
    assert ps[..1] == [five] && [five][..0] == [];
    assert Commit(st, [five]) == Done(Store(map["a" := five], map["a" := d]));
    assert Commit(st, ps) == Threw(Store(map["a" := five], map["a" := d]));
    assert "a" in Declare(s, map[], ps, ds, true).state.store.parameters;
  }

  // ----- Read-only parameters -----

  /** The parameter and its descriptor are what they were. */
  ghost predicate Untouched(st: Store, st': Store, name: string)
    requires name in st.parameters
  {
    && name in st'.parameters && st'.parameters[name] == st.parameters[name]
    && DescriptorOf(st', name) == DescriptorOf(st, name)
  }

  /** The applied entries leave the name as it is, and so do the filed descriptors. */
  ghost predicate Leaves(st: Store, ds: seq<Descriptor>, applied: seq<Parameter>, name: string)
    requires name in st.parameters
  {
    && (Mentions(applied, name) ==> LastOf(applied, name) == st.parameters[name])
    && !Removes(st, applied, name)
    && (Named(ds, name) ==> LastNamed(ds, name) == DescriptorOf(st, name))
  }

  /** A declaration that passes leaves the name as it is, and one that fails had no descriptor for it. */
  ghost predicate Spares(s: State, ds: seq<Descriptor>, chosen: seq<Parameter>, name: string)
    requires name in s.store.parameters
  {
    if Passes(Registered(s, ds), chosen, true)
    then Leaves(s.store, ds, Applied(Filed(s.store, ds), FinalBatch(s, chosen).value), name)
    else !Named(ds, name)
  }

  lemma FiledAndAppliedLeavesIff(st: Store, ds: seq<Descriptor>, applied: seq<Parameter>, st': Store, name: string)
    requires ReadOnly(st, name) && Commit(Filed(st, ds), applied) == Done(st')
    ensures Untouched(st, st', name) <==> Leaves(st, ds, applied, name)
  {
    CommitEffect(Filed(st, ds), applied);
    FiledEffect(st, ds);
    FilingMovesNoRemoval(st, ds, applied, name);
    if Mentions(applied, name) {
      var i :| 0 <= i < |applied| && applied[i] == LastOf(applied, name);
      assert LastOf(applied, name).kind == NOT_SET ==> RemovesAt(st, applied, i, name);
    }
  }

  /**
   Exactly when a declaration leaves a read-only parameter with its value and descriptor. Validation
   does not look at the flag while declaring, so a pre-callback can bring the parameter in.
   */
  lemma DeclarationSparesReadOnlyIff(s: State, overrides: map<string, Parameter>, ps: seq<Parameter>,
                                     given: seq<Descriptor>, ignoreOverrides: bool, name: string)
    requires ReadOnly(s.store, name) && Declarable(s.store, AllChosen(overrides, ps, ignoreOverrides), given)
    ensures var s' := Declare(s, overrides, ps, given, ignoreOverrides).state;
            Untouched(s.store, s'.store, name) <==>
              Spares(s, NewDescriptors(overrides, ps, given, ignoreOverrides), AllChosen(overrides, ps, ignoreOverrides), name)
  {
    var ds := NewDescriptors(overrides, ps, given, ignoreOverrides);
    var chosen := AllChosen(overrides, ps, ignoreOverrides);
    var s' := Declare(s, overrides, ps, given, ignoreOverrides).state;
    SetOutcome(Registered(s, ds), chosen, true);
    if Passes(Registered(s, ds), chosen, true) {
      FiledAndAppliedLeavesIff(s.store, ds, Applied(Filed(s.store, ds), FinalBatch(s, chosen).value), s'.store, name);
    } else {
      RegisterEffect(s.store.descriptors, ds, name);
      UnregisterEffect(Register(s.store.descriptors, ds), ds, name);
    }
  }

  /** Without pre-callbacks and with descriptors under the names of their parameters, nothing old is touched. */
  lemma PlainDeclarationSpares(s: State, ds: seq<Descriptor>, chosen: seq<Parameter>, name: string)
    requires name in s.store.parameters && s.pre == [] && Fresh(s.store, chosen)
    requires |ds| == |chosen| && forall i | 0 <= i < |ds| :: ds[i].name == chosen[i].name
    ensures Spares(s, ds, chosen, name)
  {
    assert !Named(ds, name);
    var applied := Applied(Filed(s.store, ds), chosen);
    assert !Mentions(applied, name) && !Removes(s.store, applied, name);
  }

  /** A node with a read-only parameter, and a pre-callback that puts an entry for it behind every list. */
  lemma Smuggling(six: Parameter) returns (s: State, ps: seq<Parameter>)
    requires six == Parameter("a", INTEGER, BigInt(6))
    ensures GoodStore(s.store) && TimeSourceLast(s.hooks) && ReadOnly(s.store, "a") && s.store.parameters["a"] != six
    ensures AllChosen(map[], ps, true) == ps && Declarable(s.store, ps, [])
    ensures Passes(Registered(s, DescriptorsFor(ps, [])), ps, true) && FinalBatch(s, ps) == Some(ps + [six])
    ensures forall i | 0 <= i < |ps| :: ps[i].kind != NOT_SET
  {
    var five, one := Parameter("a", INTEGER, BigInt(5)), Parameter("b", INTEGER, BigInt(1));
    var d, e := Descriptor("a", INTEGER, true, None), FromParameter(one);
    var smuggle := PreHook(0, (calls, batch) => Some(batch + [six]));
    s := State(Store(map["a" := five], map["a" := d]), [smuggle], [TimeSourceHook], false, 0);
    ps := [one];
    assert "a"[0] == 'a' && !IsBlank("a") && "b"[0] == 'b' && !IsBlank("b");
    assert StoredWell(s.store, "a");
    assert AllChosen(map[], ps, true) == ps && DescriptorsFor(ps, []) == [e];
    var final := ps + [six];
    assert smuggle.run(0, ps) == Some(final) && s.pre[1..] == [];
    assert RunPre(s.pre, 0, ps) == RunPre([], 1, final) == PreRun(Some(final), 1);
    assert [e][..0] == [] && Register(map["a" := d], [e]) == map["a" := d]["b" := e];
    assert ValidatesAll(Filed(s.store, [e]), final, true);
    assert RunHooks([TimeSourceHook], 1, false, final).ok by {
      assert RunHooks([TimeSourceHook], 1, false, final) == RunHooks([], 1, Probe(false, final), final);
    }
  }

  /** A pre-callback that adds an entry for a read-only parameter overwrites it while another is declared. */
  lemma DeclarationOverwritesReadOnly()
    ensures exists s: State, ps :: GoodStore(s.store) && TimeSourceLast(s.hooks) && ReadOnly(s.store, "a")
              && Declare(s, map[], ps, [], true).Accepted?
              && !Untouched(s.store, Declare(s, map[], ps, [], true).state.store, "a")
  {
    var six := Parameter("a", INTEGER, BigInt(6));
    var s, ps := Smuggling(six);
    var r, final := Registered(s, DescriptorsFor(ps, [])), ps + [six];
    CommitThrowsIff(r.store, final);
    AppliedIsCommitted(r.store, final);
    SetOutcome(r, ps, true);
    DeclarationSparesReadOnlyIff(s, map[], ps, [], true, "a");
    assert final[|ps|].name == "a" && LastOf(final, "a") == six;
  }
}
