/**
 What one call comes to, said of the callbacks, entries, overrides and descriptors themselves and not
 of the loops that go through them.
 */
module ParameterOutcomes {
  import opened JavaScript
  import opened Optional
  import opened Parameters
  import opened ParameterStore
  import opened ParameterUpdates
  import opened ParameterProperties
  import opened ParameterDeclarations

  // ----- Pre-callbacks -----

  /** What goes into and comes out of each pre-callback: one list more than there are callbacks. */
  predicate Pipeline(pre: seq<PreHook>, calls: nat, lists: seq<seq<Parameter>>) {
    |lists| == |pre| + 1 && forall i | 0 <= i < |pre| :: Passed(pre, calls, lists, i)
  }

  /** Callback `i` has turned list `i` into the next one, which is an array and not empty. */
  predicate Passed(pre: seq<PreHook>, calls: nat, lists: seq<seq<Parameter>>, i: nat)
    requires i < |pre| < |lists|
  {
    pre[i].run(calls + i, lists[i]) == Some(lists[i + 1]) && lists[i + 1] != []
  }

  /** There is a pipeline from the list that was given to the one that comes out, and else none at all. */
  lemma {:induction false} PipelineExists(pre: seq<PreHook>, calls: nat, batch: seq<Parameter>) returns (lists: seq<seq<Parameter>>)
    requires RunPre(pre, calls, batch).batch.Some?
    ensures Pipeline(pre, calls, lists) && lists[0] == batch
    ensures RunPre(pre, calls, batch) == PreRun(Some(lists[|pre|]), calls + |pre|)
  {
    if pre == [] {
      lists := [batch];
    } else {
      var r := pre[0].run(calls, batch).value;
      var more := PipelineExists(pre[1..], calls + 1, r);
      lists := [batch] + more;
      forall i | 0 <= i < |pre|
        ensures Passed(pre, calls, lists, i)
      {
        assert i > 0 ==> Passed(pre[1..], calls + 1, more, i - 1);
      }
    }
  }

  lemma {:induction false} PipelineRuns(pre: seq<PreHook>, calls: nat, lists: seq<seq<Parameter>>)
    requires Pipeline(pre, calls, lists)
    ensures RunPre(pre, calls, lists[0]) == PreRun(Some(lists[|pre|]), calls + |pre|)
    decreases |pre|
  {
    if pre != [] {
      assert Passed(pre, calls, lists, 0);
      var rest, more, next := pre[1..], lists[1..], calls + 1;
      forall i | 0 <= i < |rest|
        ensures Passed(rest, next, more, i)
      {
        assert Passed(pre, calls, lists, i + 1);
      }
      PipelineRuns(rest, next, more);
    }
  }

  ghost predicate Leads(s: State, batch: seq<Parameter>, lists: seq<seq<Parameter>>) {
    Pipeline(s.pre, s.calls, lists) && lists[0] == batch
  }

  /** The list that reaches validation is what comes out of the pipeline, if there is one. */
  lemma FinalBatchIff(s: State, batch: seq<Parameter>, final: seq<Parameter>)
    ensures FinalBatch(s, batch) == Some(final) <==> exists lists :: Leads(s, batch, lists) && lists[|s.pre|] == final
  {
    if FinalBatch(s, batch) == Some(final) {
      var lists := PipelineExists(s.pre, s.calls, batch);
      assert Leads(s, batch, lists);
    }
    if lists :| Leads(s, batch, lists) && lists[|s.pre|] == final {
      PipelineRuns(s.pre, s.calls, lists);
    }
  }

  // ----- Entries -----

  /** Descriptors are filed under their names. */
  predicate WellFiled(st: Store) {
    forall name | name in st.descriptors :: st.descriptors[name].name == name
  }

  /**
   The entry is a valid parameter, may be changed, and, unless it is there to remove its name, has a
   valid descriptor of its type and obeys it.
   */
  predicate Fits(st: Store, p: Parameter, declare: bool) {
    && ValidParameter(p)
    && (p.name in st.descriptors && st.descriptors[p.name].readOnly ==> declare)
    && (p.kind == NOT_SET || (p.name in st.descriptors && ValidDescriptor(st.descriptors[p.name])
                              && Holds(st.descriptors[p.name], p)))
  }

  lemma ValidatesIff(st: Store, p: Parameter, declare: bool)
    requires WellFiled(st)
    ensures Validates(st, p, declare) <==> Fits(st, p, declare)
  {
  }

  predicate AllFit(st: Store, batch: seq<Parameter>, declare: bool) {
    forall i | 0 <= i < |batch| :: Fits(st, batch[i], declare)
  }

  // ----- Setting -----

  /** The lists go through, the last one fits and no callback vetoes it. */
  ghost predicate GoesThrough(s: State, batch: seq<Parameter>, declare: bool, lists: seq<seq<Parameter>>) {
    && Leads(s, batch, lists) && AllFit(s.store, lists[|s.pre|], declare)
    && NobodyVetoes(s.hooks, s.calls + |s.pre|, lists[|s.pre|])
  }

  lemma PassesIff(s: State, batch: seq<Parameter>, declare: bool)
    requires WellFiled(s.store)
    ensures Passes(s, batch, declare) <==> exists lists :: GoesThrough(s, batch, declare, lists)
  {
    if Passes(s, batch, declare) {
      var lists := PipelineExists(s.pre, s.calls, batch);
      assert GoesThrough(s, batch, declare, lists);
    }
    if lists :| GoesThrough(s, batch, declare, lists) {
      PipelineRuns(s.pre, s.calls, lists);
    }
  }

  /** Outside declarations a batch is accepted exactly if it goes through, and else nothing is stored. */
  lemma SetAcceptedIff(s: State, batch: seq<Parameter>)
    requires WellFiled(s.store)
    ensures SetAtomically(s, batch, false).Accepted? <==> exists lists :: GoesThrough(s, batch, false, lists)
    ensures !SetAtomically(s, batch, false).Accepted? ==>
              SetAtomically(s, batch, false).Rejected? && SetAtomically(s, batch, false).state.store == s.store
  {
    SetOutcome(s, batch, false);
    SetNeverAborts(s, batch);
    PassesIff(s, batch, false);
  }

  /** One veto is enough: the batch is rejected and nothing is stored. */
  lemma VetoRejects(s: State, batch: seq<Parameter>, declare: bool, lists: seq<seq<Parameter>>, i: nat)
    requires Leads(s, batch, lists) && i < |s.hooks| && !Assents(s.hooks, i, s.calls + |s.pre|, lists[|s.pre|])
    ensures SetAtomically(s, batch, declare).Rejected? && SetAtomically(s, batch, declare).state.store == s.store
  {
    PipelineRuns(s.pre, s.calls, lists);
    SetOutcome(s, batch, declare);
  }

  /** A callback that vetoes any change of a stored parameter keeps it as it is. */
  lemma VetoProtects() returns (s: State, batch: seq<Parameter>)
    ensures AllFit(s.store, batch, false) && |batch| == 1
    ensures batch[0].name in s.store.parameters && s.store.parameters[batch[0].name] != batch[0]
    ensures SetAtomically(s, batch, false).Rejected? && SetAtomically(s, batch, false).state.store == s.store
  {
    var five, six := Parameter("a", INTEGER, BigInt(5)), Parameter("a", INTEGER, BigInt(6));
    var veto := UserHook(0, (calls, list) => false);
    s := State(Store(map["a" := five], map["a" := FromParameter(five)]), [], [veto, TimeSourceHook], false, 0);
    batch := [six];
    assert "a"[0] == 'a' && !IsBlank("a");
    assert !Assents(s.hooks, 0, 0, batch);
    assert Leads(s, batch, [batch]);
    VetoRejects(s, batch, false, [batch], 0);
  }

  // ----- Declaring -----

  /** The parameters that a declaration is about: an override takes the place of what was given. */
  predicate Overridden(overrides: map<string, Parameter>, ps: seq<Parameter>, ignoreOverrides: bool, chosen: seq<Parameter>) {
    && |chosen| == |ps|
    && forall i | 0 <= i < |ps| ::
         if ps[i].name in overrides && !ignoreOverrides then chosen[i] == overrides[ps[i].name] else chosen[i] == ps[i]
  }

  /** Their descriptors: those given, or else writable ones of the same name and type without a range. */
  ghost predicate Described(chosen: seq<Parameter>, given: seq<Descriptor>, ds: seq<Descriptor>) {
    && |ds| == |chosen|
    && (given != [] ==> ds == given)
    && (given == [] ==> forall i | 0 <= i < |ds| :: ds[i] == Descriptor(chosen[i].name, chosen[i].kind, false, None))
  }

  /** Something to declare is declared already, or has a descriptor that is not valid. */
  predicate Blocked(st: Store, chosen: seq<Parameter>, ds: seq<Descriptor>)
    requires |ds| == |chosen|
  {
    exists i | 0 <= i < |chosen| :: chosen[i].name in st.parameters || !ValidDescriptor(ds[i])
  }

  /** The state with the descriptors filed. */
  function WithFiled(s: State, ds: seq<Descriptor>): State {
    s.(store := Filed(s.store, ds))
  }

  /** What `declareParameters` does, given the parameters and descriptors it is about. */
  lemma DeclareMeaning(s: State, overrides: map<string, Parameter>, ps: seq<Parameter>, given: seq<Descriptor>,
                       ignoreOverrides: bool, chosen: seq<Parameter>, ds: seq<Descriptor>)
    requires Overridden(overrides, ps, ignoreOverrides, chosen) && Described(chosen, given, ds)
    ensures Blocked(s.store, chosen, ds) ==> Declare(s, overrides, ps, given, ignoreOverrides) == Rejected(s)
    ensures !Blocked(s.store, chosen, ds) ==>
              var inner, outer := SetAtomically(WithFiled(s, ds), chosen, true), Declare(s, overrides, ps, given, ignoreOverrides);
              && (inner.Rejected? <==> outer.Rejected?) && (!inner.Rejected? ==> outer == inner)
              && (inner.Rejected? ==> outer.state.store.parameters == s.store.parameters)
  {
    assert AllChosen(overrides, ps, ignoreOverrides) == chosen;
    assert DescriptorsFor(chosen, given) == ds;
    SetOutcome(WithFiled(s, ds), chosen, true);
  }

  /** Parameters and descriptors that do not match in number are refused, and nothing changes. */
  lemma MismatchRefused(s: State, overrides: map<string, Parameter>, ps: seq<Parameter>, given: seq<Descriptor>,
                        ignoreOverrides: bool)
    requires given != [] && |given| != |ps|
    ensures Declare(s, overrides, ps, given, ignoreOverrides) == Rejected(s)
  {
  }

  /** The parameter is declared with the descriptor. */
  ghost predicate DeclaredAs(st: Store, p: Parameter, d: Descriptor) {
    && p.name in st.parameters && st.parameters[p.name] == p
    && p.name in st.descriptors && st.descriptors[p.name] == d
  }

  /**
   Without pre-callbacks, an accepted declaration of distinct names, each with its own descriptor, has
   declared each of them, with the override where there is one, and left all older ones alone.
   */
  lemma DeclaredAreStored(s: State, overrides: map<string, Parameter>, ps: seq<Parameter>, given: seq<Descriptor>,
                          ignoreOverrides: bool, chosen: seq<Parameter>, ds: seq<Descriptor>)
    requires Overridden(overrides, ps, ignoreOverrides, chosen) && Described(chosen, given, ds)
    requires s.pre == [] && DistinctNames(chosen) && forall i | 0 <= i < |ds| :: ds[i].name == chosen[i].name
    requires Declare(s, overrides, ps, given, ignoreOverrides).Accepted?
    ensures var st := Declare(s, overrides, ps, given, ignoreOverrides).state.store;
            && (forall i | 0 <= i < |chosen| && chosen[i].kind != NOT_SET :: DeclaredAs(st, chosen[i], ds[i]))
            && (forall name | name in s.store.parameters ::
                  name in st.parameters && st.parameters[name] == s.store.parameters[name])
            && (forall name | name in st.parameters && name !in s.store.parameters :: Mentions(chosen, name))
  {
    var outer := Declare(s, overrides, ps, given, ignoreOverrides);
    DeclareMeaning(s, overrides, ps, given, ignoreOverrides, chosen, ds);
    var filed := WithFiled(s, ds);
    assert !Blocked(s.store, chosen, ds);
    AcceptedIsCommitted(filed, chosen);
    CommitEffect(filed.store, chosen);
    forall i | 0 <= i < |chosen| && chosen[i].kind != NOT_SET
      ensures DeclaredAs(outer.state.store, chosen[i], ds[i])
    {
      SoleEntry(filed.store, chosen, ds, i);
      FiledEffect(s.store, ds);
    }
  }

  lemma AcceptedIsCommitted(s: State, batch: seq<Parameter>)
    requires s.pre == [] && SetAtomically(s, batch, true).Accepted?
    ensures Commit(s.store, batch) == Done(SetAtomically(s, batch, true).state.store)
  {
    assert RunPre(s.pre, s.calls, batch) == PreRun(Some(batch), s.calls);
  }

  /** The only entry of its name is its last, and removes nothing if it sets a value. */
  lemma {:induction false} SoleEntry(st: Store, chosen: seq<Parameter>, ds: seq<Descriptor>, i: nat)
    requires i < |chosen| == |ds| && DistinctNames(chosen) && chosen[i].kind != NOT_SET
    requires forall k | 0 <= k < |ds| :: ds[k].name == chosen[k].name
    ensures Mentions(chosen, chosen[i].name) && LastOf(chosen, chosen[i].name) == chosen[i]
    ensures !Removes(st, chosen, chosen[i].name)
    ensures Named(ds, chosen[i].name) && LastNamed(ds, chosen[i].name) == ds[i]
  {
    var j :| 0 <= j < |chosen| && chosen[j] == LastOf(chosen, chosen[i].name);
    assert ds[i].name == chosen[i].name;
    SoleDescriptor(ds, i);
  }

  lemma {:induction false} SoleDescriptor(ds: seq<Descriptor>, i: nat)
    requires i < |ds| && forall k | 0 <= k < |ds| && k != i :: ds[k].name != ds[i].name
    ensures Named(ds, ds[i].name) && LastNamed(ds, ds[i].name) == ds[i]
    decreases |ds|
  {
    assert Named(ds, ds[i].name);
    if i < |ds| - 1 {
      SoleDescriptor(ds[..|ds| - 1], i);
    }
  }

  // ----- Callback lists -----

  /** The callback added last gets the list first. */
  lemma NewestRunsFirst(s: State, hook: PreHook, batch: seq<Parameter>)
    ensures match hook.run(s.calls, batch)
            case None => FinalBatch(AddPre(s, hook), batch) == None
            case Some(list) => FinalBatch(AddPre(s, hook), batch)
                               == if list == [] then None else FinalBatch(s.(calls := s.calls + 1), list)
  {
    var pre := AddPre(s, hook).pre;
    assert pre[0] == hook && pre[1..] == s.pre;
  }

  /** Removing takes the first callback that is the given one, and else changes nothing. */
  lemma {:induction false} WithoutPreIs(pre: seq<PreHook>, id: nat, i: nat)
    requires i <= |pre| && (forall k | 0 <= k < i :: pre[k].id != id) && (i < |pre| ==> pre[i].id == id)
    ensures WithoutPre(pre, id) == if i < |pre| then pre[..i] + pre[i + 1..] else pre
  {
    if 0 < i {
      WithoutPreIs(pre[1..], id, i - 1);
    }
  }

  lemma {:induction false} WithoutHookIs(hooks: seq<SetHook>, id: nat, i: nat)
    requires i <= |hooks| && (forall k | 0 <= k < i :: hooks[k].TimeSourceHook? || hooks[k].id != id)
    requires i < |hooks| ==> hooks[i].UserHook? && hooks[i].id == id
    ensures WithoutHook(hooks, id) == if i < |hooks| then hooks[..i] + hooks[i + 1..] else hooks
  {
    if 0 < i {
      WithoutHookIs(hooks[1..], id, i - 1);
    }
  }
}
