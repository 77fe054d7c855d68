/** What setting and declaring parameters promise, for every batch, callback and run. */
module ParameterProperties {
  import opened JavaScript
  import opened Optional
  import opened Parameters
  import opened ParameterStore
  import opened ParameterUpdates

  // ----- One batch -----

  /** The hook of the time source is registered first, and later ones are put in front of it. */
  predicate TimeSourceLast(hooks: seq<SetHook>) {
    && |hooks| > 0 && hooks[|hooks| - 1].TimeSourceHook?
    && forall i | 0 <= i < |hooks| - 1 :: hooks[i].UserHook?
  }

  lemma {:induction false} HooksEffect(hooks: seq<SetHook>, calls: nat, active: bool, batch: seq<Parameter>)
    requires TimeSourceLast(hooks)
    ensures var r := RunHooks(hooks, calls, active, batch);
            r.active == if r.ok then Probe(active, batch) else active
  {
    if |hooks| > 1 {
      if hooks[0].run(calls, batch) {
        HooksEffect(hooks[1..], calls + 1, active, batch);
      }
    } else {
      assert RunHooks(hooks, calls, active, batch) == RunHooks([], calls, Probe(active, batch), batch);
    }
  }

  /** The callbacks of users among the first `n` hooks. */
  function UserHooksBefore(hooks: seq<SetHook>, n: nat): nat
    requires n <= |hooks|
  {
    if n == 0 then 0 else UserHooksBefore(hooks, n - 1) + if hooks[n - 1].UserHook? then 1 else 0
  }

  lemma {:induction false} UserHooksShift(hooks: seq<SetHook>, n: nat)
    requires n < |hooks|
    ensures UserHooksBefore(hooks, n + 1) == UserHooksBefore(hooks[1..], n) + if hooks[0].UserHook? then 1 else 0
  {
    if n > 0 {
      UserHooksShift(hooks, n - 1);
    }
  }

  /** The callback at `i` lets the list pass, with all callbacks of users before it called once each. */
  predicate Assents(hooks: seq<SetHook>, i: nat, calls: nat, batch: seq<Parameter>)
    requires i < |hooks|
  {
    hooks[i].UserHook? ==> hooks[i].run(calls + UserHooksBefore(hooks, i), batch)
  }

  predicate NobodyVetoes(hooks: seq<SetHook>, calls: nat, batch: seq<Parameter>) {
    forall i | 0 <= i < |hooks| :: Assents(hooks, i, calls, batch)
  }

  /** The list passes exactly if every callback of a user says so, and then each has been called once. */
  lemma {:induction false} HooksPassIff(hooks: seq<SetHook>, calls: nat, active: bool, batch: seq<Parameter>)
    ensures var r := RunHooks(hooks, calls, active, batch);
            && (r.ok <==> NobodyVetoes(hooks, calls, batch))
            && (r.ok ==> r.calls == calls + UserHooksBefore(hooks, |hooks|))
  {
    if hooks != [] {
      var rest := hooks[1..];
      var next := if hooks[0].UserHook? then calls + 1 else calls;
      forall i | 0 <= i < |rest|
        ensures Assents(rest, i, next, batch) <==> Assents(hooks, i + 1, calls, batch)
      {
        UserHooksShift(hooks, i);
      }
      UserHooksShift(hooks, |rest|);
      assert NobodyVetoes(hooks, calls, batch) <==> Assents(hooks, 0, calls, batch) && NobodyVetoes(rest, next, batch) by {
        forall i | 0 < i < |hooks|
          ensures Assents(hooks, i, calls, batch) <==> Assents(rest, i - 1, next, batch)
        {
        }
      }
      HooksPassIff(rest, next, if hooks[0].UserHook? then active else Probe(active, batch), batch);
    }
  }

  /** The callbacks behind the first that vetoes are not called any more. */
  lemma {:induction false} VetoEndsRound(hooks: seq<SetHook>, calls: nat, active: bool, batch: seq<Parameter>, i: nat)
    requires i < |hooks| && !Assents(hooks, i, calls, batch) && forall k | 0 <= k < i :: Assents(hooks, k, calls, batch)
    ensures RunHooks(hooks, calls, active, batch).calls == calls + UserHooksBefore(hooks, i) + 1
  {
    if i > 0 {
      var rest, next := hooks[1..], if hooks[0].UserHook? then calls + 1 else calls;
      assert Assents(hooks, 0, calls, batch);
      forall k | 0 <= k < i
        ensures Assents(rest, k, next, batch) <==> Assents(hooks, k + 1, calls, batch)
      {
        UserHooksShift(hooks, k);
      }
      UserHooksShift(hooks, i - 1);
      VetoEndsRound(rest, next, if hooks[0].UserHook? then active else Probe(active, batch), batch, i - 1);
    }
  }

  /** The pre-callbacks deliver a list, it validates, and nobody vetoes it. */
  predicate Passes(s: State, batch: seq<Parameter>, declare: bool) {
    var pre := RunPre(s.pre, s.calls, batch);
    && pre.batch.Some? && ValidatesAll(s.store, pre.batch.value, declare)
    && NobodyVetoes(s.hooks, pre.calls, pre.batch.value)
  }

  /** A batch that does not pass leaves the store alone; of one that passes the applied entries are stored. */
  lemma SetOutcome(s: State, batch: seq<Parameter>, declare: bool)
    ensures !SetAtomically(s, batch, declare).Rejected? <==> Passes(s, batch, declare)
    ensures var s' := SetAtomically(s, batch, declare).state;
            && s'.pre == s.pre && s'.hooks == s.hooks
            && (!Passes(s, batch, declare) ==> s'.store == s.store)
            && (Passes(s, batch, declare) ==>
                  var applied := Applied(s.store, FinalBatch(s, batch).value);
                  && Commit(s.store, applied) == Done(s'.store) && ValidatesAll(s.store, applied, declare)
                  && (SetAtomically(s, batch, declare).Accepted? <==> applied == FinalBatch(s, batch).value))
    ensures TimeSourceLast(s.hooks) ==>
              SetAtomically(s, batch, declare).state.active
              == if Passes(s, batch, declare) then Probe(s.active, FinalBatch(s, batch).value) else s.active
  {
    var pre := RunPre(s.pre, s.calls, batch);
    if pre.batch.Some? {
      HooksPassIff(s.hooks, pre.calls, s.active, pre.batch.value);
      AppliedIsCommitted(s.store, pre.batch.value);
      if TimeSourceLast(s.hooks) {
        HooksEffect(s.hooks, pre.calls, s.active, pre.batch.value);
      }
    }
  }

  /** All or nothing: a rejected batch leaves the parameters, the descriptors and the time source alone. */
  lemma RejectedSetChangesNothing(s: State, batch: seq<Parameter>, declare: bool)
    requires TimeSourceLast(s.hooks) && SetAtomically(s, batch, declare).Rejected?
    ensures SetAtomically(s, batch, declare).state == s.(calls := SetAtomically(s, batch, declare).state.calls)
  {
    var pre := RunPre(s.pre, s.calls, batch);
    if pre.batch.Some? {
      HooksEffect(s.hooks, pre.calls, s.active, pre.batch.value);
    }
  }

  /** All or nothing: an accepted batch changes exactly what the final list of the pre-callbacks names. */
  lemma AcceptedSetAppliesFinalBatch(s: State, batch: seq<Parameter>, declare: bool)
    requires TimeSourceLast(s.hooks) && SetAtomically(s, batch, declare).Accepted?
    ensures FinalBatch(s, batch).Some?
    ensures var final, s' := FinalBatch(s, batch).value, SetAtomically(s, batch, declare).state;
            && ValidatesAll(s.store, final, declare)
            && Commit(s.store, final) == Done(s'.store) && BatchEffect(s.store, final, s'.store)
            && s'.active == Probe(s.active, final)
            && s'.pre == s.pre && s'.hooks == s.hooks
  {
    var pre := RunPre(s.pre, s.calls, batch);
    HooksEffect(s.hooks, pre.calls, s.active, pre.batch.value);
    CommitEffect(s.store, pre.batch.value);
  }

  /** Outside declarations no batch is ever half applied. */
  lemma SetNeverAborts(s: State, batch: seq<Parameter>)
    ensures !SetAtomically(s, batch, false).Aborted?
  {
    var final := FinalBatch(s, batch);
    if final.Some? && ValidatesAll(s.store, final.value, false) {
      ValidatedCommits(s.store, final.value);
    }
  }

  lemma {:induction false} SetsAndDeletions(batch: seq<Parameter>)
    ensures multiset(Sets(batch)) + multiset(Deletions(batch)) == multiset(batch)
  {
    if batch != [] {
      var init, last := batch[..|batch| - 1], batch[|batch| - 1];
      SetsAndDeletions(init);
      assert batch == init + [last];
    }
  }

  /** `a` is the entries of `b` at these places, which go up. */
  predicate Picks(a: seq<Parameter>, b: seq<Parameter>, places: seq<nat>) {
    && |places| == |a|
    && (forall k | 0 <= k < |a| :: places[k] < |b| && a[k] == b[places[k]])
    && forall k, l | 0 <= k < l < |places| :: places[k] < places[l]
  }

  lemma OneMorePick(a: seq<Parameter>, b: seq<Parameter>, places: seq<nat>)
    requires b != [] && Picks(a, b[..|b| - 1], places)
    ensures Picks(a, b, places) && Picks(a + [b[|b| - 1]], b, places + [|b| - 1])
  {
    var init := b[..|b| - 1];
    assert forall k | 0 <= k < |a| :: init[places[k]] == b[places[k]];
  }

  lemma {:induction false} SetsInOrder(batch: seq<Parameter>) returns (sets: seq<nat>, deletions: seq<nat>)
    ensures Picks(Sets(batch), batch, sets) && Picks(Deletions(batch), batch, deletions)
  {
    if batch == [] {
      sets, deletions := [], [];
    } else {
      var n := |batch| - 1;
      sets, deletions := SetsInOrder(batch[..n]);
      OneMorePick(Sets(batch[..n]), batch, sets);
      OneMorePick(Deletions(batch[..n]), batch, deletions);
      if batch[n].kind != NOT_SET {
        sets := sets + [n];
      } else {
        deletions := deletions + [n];
      }
    }
  }

  /** Each list of the published event keeps the order of the final list. */
  lemma EventKeepsOrder(s: State, batch: seq<Parameter>, declare: bool) returns (added: seq<nat>, changed: seq<nat>, deleted: seq<nat>)
    requires SetAtomically(s, batch, declare).Accepted?
    ensures var e, final := SetAtomically(s, batch, declare).event, FinalBatch(s, batch).value;
            Picks(e.added, final, added) && Picks(e.changed, final, changed) && Picks(e.deleted, final, deleted)
  {
    var sets;
    sets, deleted := SetsInOrder(FinalBatch(s, batch).value);
    added, changed := if declare then sets else [], if declare then [] else sets;
  }

  /** The three lists of the published event divide the final list among themselves. */
  lemma EventDividesBatch(s: State, batch: seq<Parameter>, declare: bool)
    requires SetAtomically(s, batch, declare).Accepted?
    ensures var e := SetAtomically(s, batch, declare).event;
            && multiset(e.added) + multiset(e.changed) + multiset(e.deleted) == multiset(FinalBatch(s, batch).value)
            && (forall i | 0 <= i < |e.added| :: declare && e.added[i].kind != NOT_SET)
            && (forall i | 0 <= i < |e.changed| :: !declare && e.changed[i].kind != NOT_SET)
            && (forall i | 0 <= i < |e.deleted| :: e.deleted[i].kind == NOT_SET)
  {
    SetsAndDeletions(FinalBatch(s, batch).value);
  }

  // ----- Simulated time -----

  /** If `use_sim_time` is declared as a bool, the time source shows its value. */
  predicate InSync(st: Store, active: bool) {
    USE_SIM_TIME in st.parameters && st.parameters[USE_SIM_TIME].kind == BOOL ==>
      st.parameters[USE_SIM_TIME].value == Bool(active)
  }

  /** The first entry for `use_sim_time`, which the hook reads, and the last, which is stored, agree. */
  predicate EntriesAgree(active: bool, batch: seq<Parameter>) {
    Mentions(batch, USE_SIM_TIME) && LastOf(batch, USE_SIM_TIME).kind == BOOL ==>
      LastOf(batch, USE_SIM_TIME).value == Bool(Probe(active, batch))
  }

  lemma {:induction false} UnmentionedProbe(active: bool, batch: seq<Parameter>)
    requires !Mentions(batch, USE_SIM_TIME)
    ensures Probe(active, batch) == active
  {
    if batch != [] {
      assert forall i | 0 <= i < |batch[1..]| :: batch[1..][i] == batch[i + 1];
      UnmentionedProbe(active, batch[1..]);
    }
  }

  /** An accepted batch keeps the time source in step exactly if its entries for it agree. */
  lemma SetKeepsSyncIff(s: State, batch: seq<Parameter>, declare: bool)
    requires TimeSourceLast(s.hooks) && InSync(s.store, s.active) && SetAtomically(s, batch, declare).Accepted?
    ensures var s' := SetAtomically(s, batch, declare).state;
            InSync(s'.store, s'.active) <==> EntriesAgree(s.active, FinalBatch(s, batch).value)
  {
    AcceptedSetAppliesFinalBatch(s, batch, declare);
    var final := FinalBatch(s, batch).value;
    if !Mentions(final, USE_SIM_TIME) {
      UnmentionedProbe(s.active, final);
    }
  }

  /** The hook reads the first entry for `use_sim_time`. */
  lemma {:induction false} ProbeReadsFirst(active: bool, batch: seq<Parameter>, i: nat)
    requires i < |batch| && batch[i].name == USE_SIM_TIME && forall k | 0 <= k < i :: batch[k].name != USE_SIM_TIME
    ensures Probe(active, batch) ==
            if batch[i].kind == BOOL && batch[i].value.Bool? then batch[i].value.b else active
  {
    if i > 0 {
      ProbeReadsFirst(active, batch[1..], i - 1);
    }
  }

  lemma DistinctNamesAgree(st: Store, active: bool, batch: seq<Parameter>, declare: bool)
    requires DistinctNames(batch) && ValidatesAll(st, batch, declare)
    ensures EntriesAgree(active, batch)
  {
    if Mentions(batch, USE_SIM_TIME) {
      var last := LastOf(batch, USE_SIM_TIME);
      var i :| 0 <= i < |batch| && batch[i] == last;
      assert batch[i].name == USE_SIM_TIME;
      ProbeReadsFirst(active, batch, i);
      assert Validates(st, batch[i], declare);
    }
  }

  /** Naming `use_sim_time` twice in one batch can leave the time source out of step. */
  lemma DuplicatesBreakSync()
    ensures exists s: State, batch :: TimeSourceLast(s.hooks) && InSync(s.store, s.active)
              && SetAtomically(s, batch, false).Accepted?
              && !InSync(SetAtomically(s, batch, false).state.store, SetAtomically(s, batch, false).state.active)
  {
    var on, off := Parameter(USE_SIM_TIME, BOOL, Bool(true)), Parameter(USE_SIM_TIME, BOOL, Bool(false));
    var st := Store(map[USE_SIM_TIME := off], map[USE_SIM_TIME := FromParameter(off)]);
    var s := State(st, [], [TimeSourceHook], false, 0);
    var batch := [on, off];
    assert USE_SIM_TIME[0] == 'u' && !IsBlank(USE_SIM_TIME);
    assert RunPre([], 0, batch) == PreRun(Some(batch), 0);
    assert ValidatesAll(st, batch, false);
    HooksEffect([TimeSourceHook], 0, false, batch);
    assert RunHooks([TimeSourceHook], 0, false, batch).ok by {
      assert RunHooks([TimeSourceHook], 0, false, batch) == RunHooks([], 0, true, batch);
    }
    ValidatedCommits(st, batch);
    SetKeepsSyncIff(s, batch, false);
    assert batch[1].name == USE_SIM_TIME;
  }
}
