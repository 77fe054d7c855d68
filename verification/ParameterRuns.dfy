/** Whole lives of a node's parameters: any sequence of calls that sets, declares, undeclares or changes callbacks. */
module ParameterRuns {
  import opened JavaScript
  import opened Optional
  import opened Parameters
  import opened ParameterStore
  import opened ParameterUpdates
  import opened ParameterProperties
  import opened ParameterDeclarations

  datatype Op =
    | SetOp(batch: seq<Parameter>)
    | DeclareOp(ps: seq<Parameter>, given: seq<Descriptor>, ignoreOverrides: bool)
    | UndeclareOp(name: string)
    | AddPreOp(pre: PreHook)
    | RemovePreOp(id: nat)
    | AddHookOp(hook: SetHook)
    | RemoveHookOp(id: nat)

  /** The state after a call, whether it returned or threw. */
  function Step(s: State, overrides: map<string, Parameter>, op: Op): State {
    match op
    case SetOp(batch) => SetAtomically(s, batch, false).state
    case DeclareOp(ps, given, ignoreOverrides) => Declare(s, overrides, ps, given, ignoreOverrides).state
    case UndeclareOp(name) => s.(store := Undeclare(s.store, name).store)
    case AddPreOp(pre) => AddPre(s, pre)
    case RemovePreOp(id) => s.(pre := WithoutPre(s.pre, id))
    case AddHookOp(hook) => AddHook(s, hook)
    case RemoveHookOp(id) => s.(hooks := WithoutHook(s.hooks, id))
  }

  ghost predicate Sound(s: State) {
    GoodStore(s.store) && TimeSourceLast(s.hooks) && InSync(s.store, s.active)
  }

  // ----- One step -----

  /**
   `use_sim_time` as stored after the applied entries is what the hook has read from the whole list:
   its last applied entry if there is one, and else what was stored before.
   */
  predicate StaysInStep(st: Store, active: bool, final: seq<Parameter>, applied: seq<Parameter>) {
    if Mentions(applied, USE_SIM_TIME) then
      LastOf(applied, USE_SIM_TIME).kind == BOOL ==>
        LastOf(applied, USE_SIM_TIME).value == Bool(Probe(active, final))
    else
      USE_SIM_TIME in st.parameters && st.parameters[USE_SIM_TIME].kind == BOOL ==> Probe(active, final) == active
  }

  /**
   What a batch, and the descriptors filed before it, must be like. If it passes, what is applied of it
   revives no name, leaves no old parameter under a descriptor that does not fit, and agrees with the
   time source; if it does not, no descriptor has the name of a declared parameter.
   */
  ghost predicate CivilBatch(s: State, ds: seq<Descriptor>, batch: seq<Parameter>, declare: bool) {
    if Passes(Registered(s, ds), batch, declare) then
      var final := FinalBatch(s, batch).value;
      var applied := Applied(Filed(s.store, ds), final);
      NoRevival(s.store, applied) && OldOnesFit(s.store, ds, applied) && StaysInStep(s.store, s.active, final, applied)
    else NoForeignName(s.store, ds)
  }

  /** What the callers owe, call by call; a veto callback has to come from a user. */
  ghost predicate Civil(s: State, overrides: map<string, Parameter>, op: Op) {
    match op
    case SetOp(batch) => CivilBatch(s, [], batch, false)
    case DeclareOp(ps, given, ignoreOverrides) =>
      var chosen := AllChosen(overrides, ps, ignoreOverrides);
      Declarable(s.store, chosen, given) ==> CivilBatch(s, DescriptorsFor(chosen, given), chosen, true)
    case AddHookOp(hook) => hook.UserHook?
    case _ => true
  }

  lemma StaysInStepIff(st: Store, ds: seq<Descriptor>, active: bool, final: seq<Parameter>, applied: seq<Parameter>, st': Store)
    requires InSync(st, active) && BatchEffect(Filed(st, ds), applied, st')
    requires forall i | 0 <= i < |applied| :: applied[i].kind == BOOL ==> applied[i].value.Bool?
    ensures InSync(st', Probe(active, final)) <==> StaysInStep(st, active, final, applied)
  {
    if Mentions(applied, USE_SIM_TIME) {
      assert LastOf(applied, USE_SIM_TIME) in applied;
      assert USE_SIM_TIME in st'.parameters <==> LastOf(applied, USE_SIM_TIME).kind != NOT_SET;
    }
  }

  /** A batch that passes keeps the state sound exactly if it is civil. */
  lemma PassingSoundIff(s: State, ds: seq<Descriptor>, batch: seq<Parameter>, declare: bool)
    requires Sound(s) && Passes(Registered(s, ds), batch, declare)
    ensures Sound(SetAtomically(Registered(s, ds), batch, declare).state) <==> CivilBatch(s, ds, batch, declare)
  {
    var s' := SetAtomically(Registered(s, ds), batch, declare).state;
    var final := FinalBatch(s, batch).value;
    var applied := Applied(Filed(s.store, ds), final);
    SetOutcome(Registered(s, ds), batch, declare);
    FiledAndAppliedGoodIff(s.store, ds, applied, declare, s'.store);
    CommitEffect(Filed(s.store, ds), applied);
    forall i | 0 <= i < |applied|
      ensures applied[i].kind == BOOL ==> applied[i].value.Bool?
    {
      assert Validates(Filed(s.store, ds), applied[i], declare);
    }
    StaysInStepIff(s.store, ds, s.active, final, applied, s'.store);
  }

  lemma SetSoundIff(s: State, batch: seq<Parameter>)
    requires Sound(s)
    ensures Sound(SetAtomically(s, batch, false).state) <==> CivilBatch(s, [], batch, false)
  {
    assert Registered(s, []) == s;
    SetOutcome(s, batch, false);
    if Passes(s, batch, false) {
      PassingSoundIff(s, [], batch, false);
    }
  }

  lemma DeclareSoundIff(s: State, overrides: map<string, Parameter>, ps: seq<Parameter>, given: seq<Descriptor>,
                        ignoreOverrides: bool)
    requires Sound(s)
    ensures Sound(Declare(s, overrides, ps, given, ignoreOverrides).state) <==>
              Civil(s, overrides, DeclareOp(ps, given, ignoreOverrides))
  {
    var chosen := AllChosen(overrides, ps, ignoreOverrides);
    if Declarable(s.store, chosen, given) {
      var ds := DescriptorsFor(chosen, given);
      SetOutcome(Registered(s, ds), chosen, true);
      if Passes(Registered(s, ds), chosen, true) {
        PassingSoundIff(s, ds, chosen, true);
      } else {
        RejectedDeclarationHarmlessIff(s, overrides, ps, given, ignoreOverrides);
      }
    }
  }

  lemma {:induction false} RemovalKeepsTimeSourceLast(hooks: seq<SetHook>, id: nat)
    requires TimeSourceLast(hooks)
    ensures TimeSourceLast(WithoutHook(hooks, id))
  {
    if |hooks| > 1 && !Is(hooks[0], id) {
      assert forall i | 0 <= i < |hooks[1..]| :: hooks[1..][i] == hooks[i + 1];
      RemovalKeepsTimeSourceLast(hooks[1..], id);
    }
  }

  lemma UndeclareStaysSound(s: State, name: string)
    requires Sound(s)
    ensures Sound(s.(store := Undeclare(s.store, name).store))
  {
    var st' := Undeclare(s.store, name).store;
    forall other | other in st'.parameters
      ensures StoredWell(st', other)
    {
      assert StoredWell(s.store, other);
    }
  }

  /** Whatever the outcome of a call, it keeps the state sound exactly if it is civil. */
  lemma StepSoundIff(s: State, overrides: map<string, Parameter>, op: Op)
    requires Sound(s)
    ensures Sound(Step(s, overrides, op)) <==> Civil(s, overrides, op)
  {
    match op
    case SetOp(batch) => SetSoundIff(s, batch);
    case DeclareOp(ps, given, ignoreOverrides) => DeclareSoundIff(s, overrides, ps, given, ignoreOverrides);
    case UndeclareOp(name) => UndeclareStaysSound(s, name);
    case AddHookOp(hook) => FrontHook(s.hooks, hook);
    case RemoveHookOp(id) => RemovalKeepsTimeSourceLast(s.hooks, id);
    case _ =>
  }

  lemma FrontHook(hooks: seq<SetHook>, hook: SetHook)
    requires TimeSourceLast(hooks)
    ensures TimeSourceLast([hook] + hooks) <==> hook.UserHook?
  {
    var more := [hook] + hooks;
    assert forall i | 0 <= i < |hooks| :: more[i + 1] == hooks[i];
    assert more[0] == hook;
  }

  /** May the call touch the read-only parameter? Only a declaration can. */
  ghost predicate Sparing(s: State, overrides: map<string, Parameter>, op: Op, name: string)
    requires name in s.store.parameters
  {
    match op
    case DeclareOp(ps, given, ignoreOverrides) =>
      var chosen := AllChosen(overrides, ps, ignoreOverrides);
      Declarable(s.store, chosen, given) ==> Spares(s, DescriptorsFor(chosen, given), chosen, name)
    case _ => true
  }

  lemma ReadOnlyStepIff(s: State, overrides: map<string, Parameter>, op: Op, name: string)
    requires ReadOnly(s.store, name)
    ensures Untouched(s.store, Step(s, overrides, op).store, name) <==> Sparing(s, overrides, op, name)
  {
    match op
    case SetOp(batch) =>
      SetOutcome(s, batch, false);
      if Passes(s, batch, false) {
        var applied := Applied(s.store, FinalBatch(s, batch).value);
        ReadOnlyNotMentioned(s.store, applied, name);
        UnmentionedKept(s.store, applied, name);
      }
    case DeclareOp(ps, given, ignoreOverrides) =>
      if Declarable(s.store, AllChosen(overrides, ps, ignoreOverrides), given) {
        DeclarationSparesReadOnlyIff(s, overrides, ps, given, ignoreOverrides, name);
      }
    case _ =>
  }

  /** Undeclaring takes parameter and descriptor, and does nothing for unknown and read-only names. */
  lemma UndeclareEffect(s: State, overrides: map<string, Parameter>, name: string)
    ensures var st, st' := s.store, Step(s, overrides, UndeclareOp(name)).store;
            if name in st.parameters && !(name in st.descriptors && st.descriptors[name].readOnly)
            then st'.parameters == st.parameters - {name} && st'.descriptors == st.descriptors - {name}
            else st' == st
    ensures Step(s, overrides, UndeclareOp(name)) == s.(store := Step(s, overrides, UndeclareOp(name)).store)
  {
  }

  /** The calls that change a callback list change nothing else. */
  lemma ListOpsEffect(s: State, overrides: map<string, Parameter>, pre: PreHook, hook: SetHook, id: nat)
    ensures Step(s, overrides, AddPreOp(pre)) == s.(pre := [pre] + s.pre)
    ensures Step(s, overrides, AddHookOp(hook)) == s.(hooks := [hook] + s.hooks)
    ensures Step(s, overrides, RemovePreOp(id)) == s.(pre := WithoutPre(s.pre, id))
    ensures Step(s, overrides, RemoveHookOp(id)) == s.(hooks := WithoutHook(s.hooks, id))
  {
  }

  // ----- Whole runs -----

  function Run(s: State, overrides: map<string, Parameter>, ops: seq<Op>): State
    decreases ops
  {
    if ops == [] then s else Run(Step(s, overrides, ops[0]), overrides, ops[1..])
  }

  ghost predicate CivilRun(s: State, overrides: map<string, Parameter>, ops: seq<Op>)
    decreases ops
  {
    ops != [] ==> Civil(s, overrides, ops[0]) && CivilRun(Step(s, overrides, ops[0]), overrides, ops[1..])
  }

  lemma RunPrefix(s: State, overrides: map<string, Parameter>, ops: seq<Op>, k: nat)
    requires 0 < k <= |ops|
    ensures Run(s, overrides, ops[..k]) == Run(Step(s, overrides, ops[0]), overrides, ops[1..][..k - 1])
  {
    assert ops[..k][1..] == ops[1..][..k - 1];
  }

  /** From `next` on the rest of the run goes as the whole run does from `s` on. */
  ghost predicate Follows(s: State, next: State, overrides: map<string, Parameter>, ops: seq<Op>)
    requires ops != []
  {
    forall k {:trigger ops[..k + 1]} {:trigger ops[1..][..k]} | 0 <= k <= |ops[1..]| ::
      Run(s, overrides, ops[..k + 1]) == Run(next, overrides, ops[1..][..k])
  }

  lemma StepFollows(s: State, overrides: map<string, Parameter>, ops: seq<Op>)
    requires ops != []
    ensures Follows(s, Step(s, overrides, ops[0]), overrides, ops)
  {
    forall k | 0 <= k <= |ops[1..]|
      ensures Run(s, overrides, ops[..k + 1]) == Run(Step(s, overrides, ops[0]), overrides, ops[1..][..k])
    {
      RunPrefix(s, overrides, ops, k + 1);
    }
  }

  ghost predicate SoundAt(s: State, overrides: map<string, Parameter>, ops: seq<Op>, k: nat)
    requires k <= |ops|
  {
    Sound(Run(s, overrides, ops[..k]))
  }

  /**
   At every point of a run, each stored parameter has a descriptor of its name and type that its value
   obeys, and the time source shows `use_sim_time` wherever that is declared as a bool, exactly if
   every call of the run is civil.
   */
  lemma {:induction false} RunSoundIff(s: State, overrides: map<string, Parameter>, ops: seq<Op>)
    requires Sound(s)
    ensures CivilRun(s, overrides, ops) <==> forall k | 0 <= k <= |ops| :: SoundAt(s, overrides, ops, k)
    decreases ops
  {
    if ops == [] {
      assert SoundAt(s, overrides, ops, 0);
    } else {
      var next := Step(s, overrides, ops[0]);
      StepSoundIff(s, overrides, ops[0]);
      forall k | 0 < k <= |ops|
        ensures SoundAt(s, overrides, ops, k) <==> SoundAt(next, overrides, ops[1..], k - 1)
      {
        RunPrefix(s, overrides, ops, k);
      }
      assert SoundAt(s, overrides, ops, 1) <==> Sound(next);
      if Civil(s, overrides, ops[0]) {
        RunSoundIff(next, overrides, ops[1..]);
        StepFollows(s, overrides, ops);
        SoundTail(s, next, overrides, ops);
      }
    }
  }

  lemma SoundTail(s: State, next: State, overrides: map<string, Parameter>, ops: seq<Op>)
    requires Sound(s) && ops != [] && Follows(s, next, overrides, ops)
    ensures (forall k | 0 <= k <= |ops| :: SoundAt(s, overrides, ops, k)) <==>
            forall k | 0 <= k <= |ops[1..]| :: SoundAt(next, overrides, ops[1..], k)
  {
    assert SoundAt(s, overrides, ops, 0);
    forall k | 0 <= k <= |ops[1..]|
      ensures SoundAt(s, overrides, ops, k + 1) <==> SoundAt(next, overrides, ops[1..], k)
    {
      assert |ops[..k + 1]| == k + 1;
    }
    if forall k | 0 <= k <= |ops[1..]| :: SoundAt(next, overrides, ops[1..], k) {
      forall k | 0 < k <= |ops|
        ensures SoundAt(s, overrides, ops, k)
      {
        assert SoundAt(next, overrides, ops[1..], k - 1);
      }
    }
  }

  lemma RunStaysSound(s: State, overrides: map<string, Parameter>, ops: seq<Op>)
    requires Sound(s) && CivilRun(s, overrides, ops)
    ensures Sound(Run(s, overrides, ops))
  {
    RunSoundIff(s, overrides, ops);
    assert SoundAt(s, overrides, ops, |ops|) && ops[..|ops|] == ops;
  }

  ghost predicate SparingRun(s: State, overrides: map<string, Parameter>, ops: seq<Op>, name: string)
    decreases ops
  {
    ops != [] ==>
      && name in s.store.parameters && Sparing(s, overrides, ops[0], name)
      && SparingRun(Step(s, overrides, ops[0]), overrides, ops[1..], name)
  }

  ghost predicate UntouchedAt(st: Store, s: State, overrides: map<string, Parameter>, ops: seq<Op>, k: nat, name: string)
    requires name in st.parameters && k <= |ops|
  {
    Untouched(st, Run(s, overrides, ops[..k]).store, name)
  }

  /** A read-only parameter keeps its value and descriptor all through a run exactly if every call spares it. */
  lemma {:induction false} ReadOnlyForeverIff(st: Store, s: State, overrides: map<string, Parameter>, ops: seq<Op>, name: string)
    requires name in st.parameters && Untouched(st, s.store, name) && ReadOnly(s.store, name)
    ensures SparingRun(s, overrides, ops, name) <==>
              forall k | 0 <= k <= |ops| :: UntouchedAt(st, s, overrides, ops, k, name)
    decreases ops
  {
    if ops == [] {
      assert UntouchedAt(st, s, overrides, ops, 0, name);
    } else {
      var next, rest := Step(s, overrides, ops[0]), ops[1..];
      ReadOnlyStepIff(s, overrides, ops[0], name);
      assert UntouchedAt(st, s, overrides, ops, 1, name) <==> Untouched(st, next.store, name) by {
        RunPrefix(s, overrides, ops, 1);
      }
      if Sparing(s, overrides, ops[0], name) {
        ReadOnlyForeverIff(st, next, overrides, rest, name);
        StepFollows(s, overrides, ops);
        UntouchedTail(st, s, next, overrides, ops, name);
      }
    }
  }

  lemma UntouchedTail(st: Store, s: State, next: State, overrides: map<string, Parameter>, ops: seq<Op>, name: string)
    requires name in st.parameters && Untouched(st, s.store, name) && ops != [] && Follows(s, next, overrides, ops)
    ensures (forall k | 0 <= k <= |ops| :: UntouchedAt(st, s, overrides, ops, k, name)) <==>
            forall k | 0 <= k <= |ops[1..]| :: UntouchedAt(st, next, overrides, ops[1..], k, name)
  {
    assert UntouchedAt(st, s, overrides, ops, 0, name);
    forall k | 0 <= k <= |ops[1..]|
      ensures UntouchedAt(st, s, overrides, ops, k + 1, name) <==> UntouchedAt(st, next, overrides, ops[1..], k, name)
    {
      assert |ops[..k + 1]| == k + 1;
    }
    if forall k | 0 <= k <= |ops[1..]| :: UntouchedAt(st, next, overrides, ops[1..], k, name) {
      forall k | 0 < k <= |ops|
        ensures UntouchedAt(st, s, overrides, ops, k, name)
      {
        assert UntouchedAt(st, next, overrides, ops[1..], k - 1, name);
      }
    }
  }

  // ----- A rule that is easy to keep -----

  /**
   After the pre-callbacks, a batch names nothing twice, and a declaration names nothing declared
   before, nor do its descriptors.
   */
  ghost predicate Tidy(s: State, overrides: map<string, Parameter>, op: Op) {
    match op
    case SetOp(batch) => FinalBatch(s, batch).Some? ==> DistinctNames(FinalBatch(s, batch).value)
    case DeclareOp(ps, given, ignoreOverrides) =>
      var chosen := AllChosen(overrides, ps, ignoreOverrides);
      Declarable(s.store, chosen, given) ==>
        && NoForeignName(s.store, DescriptorsFor(chosen, given))
        && (FinalBatch(s, chosen).Some? ==>
              DistinctNames(FinalBatch(s, chosen).value) && Fresh(s.store, FinalBatch(s, chosen).value))
    case AddHookOp(hook) => hook.UserHook?
    case _ => true
  }

  lemma DistinctIsCivil(s: State, ds: seq<Descriptor>, batch: seq<Parameter>, declare: bool)
    requires Passes(Registered(s, ds), batch, declare) && DistinctNames(FinalBatch(s, batch).value)
    requires NoForeignName(s.store, ds) && Applied(Filed(s.store, ds), FinalBatch(s, batch).value) == FinalBatch(s, batch).value
    ensures CivilBatch(s, ds, batch, declare)
  {
    var final := FinalBatch(s, batch).value;
    DistinctNamesReviveNothing(s.store, final);
    if Mentions(final, USE_SIM_TIME) {
      DistinctNamesAgree(Filed(s.store, ds), s.active, final, declare);
    } else {
      UnmentionedProbe(s.active, final);
    }
  }

  /** Tidy calls are civil, and touch no parameter declared before. */
  lemma TidyIsCivil(s: State, overrides: map<string, Parameter>, op: Op)
    requires Tidy(s, overrides, op)
    ensures Civil(s, overrides, op)
    ensures forall name | name in s.store.parameters :: Sparing(s, overrides, op, name)
  {
    match op
    case SetOp(batch) =>
      assert Registered(s, []) == s && Filed(s.store, []) == s.store;
      if Passes(s, batch, false) {
        ValidatedCommits(s.store, FinalBatch(s, batch).value);
        AppliedIsCommitted(s.store, FinalBatch(s, batch).value);
        DistinctIsCivil(s, [], batch, false);
      }
    case DeclareOp(ps, given, ignoreOverrides) =>
      var chosen := AllChosen(overrides, ps, ignoreOverrides);
      if Declarable(s.store, chosen, given) {
        var ds := DescriptorsFor(chosen, given);
        if Passes(Registered(s, ds), chosen, true) {
          var final := FinalBatch(s, chosen).value;
          FreshCommits(Filed(s.store, ds), final);
          AppliedIsCommitted(Filed(s.store, ds), final);
          DistinctIsCivil(s, ds, chosen, true);
          forall name | name in s.store.parameters
            ensures Leaves(s.store, ds, final, name)
          {
            assert !Mentions(final, name) && !Removes(s.store, final, name);
          }
        }
      }
    case _ =>
  }

  // ----- Where runs start -----

  /** Overrides are kept by the names of their parameters. */
  predicate Keyed(overrides: map<string, Parameter>) {
    forall name | name in overrides :: overrides[name].name == name
  }

  predicate AllValid(overrides: map<string, Parameter>) {
    forall name | name in overrides :: ValidParameter(overrides[name])
  }

  function WithWallTime(st: Store, p: Parameter): Store {
    CommitOne(st.(descriptors := st.descriptors[USE_SIM_TIME := FromParameter(p)]), p).store
  }

  lemma WithWallTimeGood(st: Store, p: Parameter)
    requires GoodStore(st) && USE_SIM_TIME !in st.parameters && ValidParameter(p) && p.name == USE_SIM_TIME
    ensures GoodStore(WithWallTime(st, p))
  {
    forall name | name in st.parameters
      ensures StoredWell(st, name)
    {
    }
  }

  lemma AttachedSound(s: State)
    requires GoodStore(s.store) && s.hooks == []
    ensures Sound(Attached(s))
  {
    assert USE_SIM_TIME in s.store.parameters ==> StoredWell(s.store, USE_SIM_TIME);
  }

  /** Without callbacks, declaring `use_sim_time` files the parameter and its own descriptor. */
  lemma DeclareWallTime(s: State, overrides: map<string, Parameter>)
    requires s.pre == [] && s.hooks == [] && USE_SIM_TIME !in s.store.parameters && Keyed(overrides)
    ensures var p, r := Chosen(overrides, WALL_TIME, false), Declare(s, overrides, [WALL_TIME], [], false);
            && (r.Accepted? <==> ValidParameter(p))
            && (r.Accepted? ==> r.state == s.(store := WithWallTime(s.store, p)))
  {
    assert USE_SIM_TIME[0] == 'u' && !IsBlank(USE_SIM_TIME);
    var chosen := AllChosen(overrides, [WALL_TIME], false);
    var p := Chosen(overrides, WALL_TIME, false);
    assert chosen == [p] && p.name == USE_SIM_TIME;
    var ds := DescriptorsFor(chosen, []);
    assert ds == [FromParameter(p)] && ds[..0] == [] && chosen[..0] == [];
    assert Register(s.store.descriptors, ds) == s.store.descriptors[USE_SIM_TIME := FromParameter(p)];
    var st := Registered(s, ds).store;
    assert Commit(st, chosen) == CommitOne(st, p);
    assert ValidatesAll(st, chosen, true) <==> Validates(st, chosen[0], true);
  }

  lemma AttachEffect(s: State, overrides: map<string, Parameter>)
    requires GoodStore(s.store) && s.pre == [] && s.hooks == [] && Keyed(overrides)
    ensures var s' := Attach(s, overrides);
            && (s'.Some? ==> Sound(s'.value))
            && (USE_SIM_TIME in s.store.parameters || (USE_SIM_TIME in overrides ==> ValidParameter(overrides[USE_SIM_TIME]))
                <==> s'.Some?)
  {
    if USE_SIM_TIME in s.store.parameters {
      AttachedSound(s);
    } else {
      assert USE_SIM_TIME[0] == 'u' && !IsBlank(USE_SIM_TIME);
      var p := Chosen(overrides, WALL_TIME, false);
      DeclareWallTime(s, overrides);
      if ValidParameter(p) {
        WithWallTimeGood(s.store, p);
        AttachedSound(s.(store := WithWallTime(s.store, p)));
      }
    }
  }

  /** A node starts unless an override it needs is invalid, and then its runs start out sound. */
  lemma NewNodeSound(overrides: map<string, Parameter>, autoDeclare: bool)
    requires Keyed(overrides)
    ensures var s := NewNode(overrides, autoDeclare);
            && (s.Some? ==> Sound(s.value))
            && (s.Some? <==> if autoDeclare then AllValid(overrides)
                             else USE_SIM_TIME in overrides ==> ValidParameter(overrides[USE_SIM_TIME]))
  {
    if autoDeclare && AllValid(overrides) {
      var st := AutoDeclared(overrides);
      forall name | name in st.parameters
        ensures StoredWell(st, name)
      {
      }
      AttachEffect(State(st, [], [], false, 0), overrides);
    } else if !autoDeclare {
      AttachEffect(State(Store(map[], map[]), [], [], false, 0), overrides);
    }
  }

  /** What an override says `use_sim_time` is, or else wall time. */
  function SimTimeParameter(overrides: map<string, Parameter>): Parameter {
    if USE_SIM_TIME in overrides then overrides[USE_SIM_TIME] else Parameter(USE_SIM_TIME, BOOL, Bool(false))
  }

  /**
   A new node has the overrides, if they are to be declared, and `use_sim_time`, unless an override
   unsets it; each with a plain descriptor of its own. Its only callback is that of the time source.
   */
  lemma NewNodeStores(overrides: map<string, Parameter>, autoDeclare: bool)
    requires Keyed(overrides) && NewNode(overrides, autoDeclare).Some?
    ensures var s, p := NewNode(overrides, autoDeclare).value, SimTimeParameter(overrides);
            && (forall name: string :: name in s.store.parameters <==>
                  (autoDeclare && name in overrides) || (name == USE_SIM_TIME && p.kind != NOT_SET))
            && (forall name | name in s.store.parameters ::
                  s.store.parameters[name] == if name == USE_SIM_TIME then p else overrides[name])
            && (forall name | name in s.store.parameters && name in s.store.descriptors ::
                  s.store.descriptors[name] == Descriptor(name, s.store.parameters[name].kind, false, None))
            && s.pre == [] && s.hooks == [TimeSourceHook] && s.calls == 0
            && (s.active <==> p.kind == BOOL && p.value == Bool(true))
  {
    NewNodeSound(overrides, autoDeclare);
    var empty := State(if autoDeclare then AutoDeclared(overrides) else Store(map[], map[]), [], [], false, 0);
    if USE_SIM_TIME !in empty.store.parameters {
      DeclareWallTime(empty, overrides);
    }
  }

  /** From its construction on, the life of a node is sound exactly as long as every call is civil. */
  lemma NodeLifeSoundIff(overrides: map<string, Parameter>, autoDeclare: bool, ops: seq<Op>)
    requires Keyed(overrides) && NewNode(overrides, autoDeclare).Some?
    ensures var start := NewNode(overrides, autoDeclare).value;
            CivilRun(start, overrides, ops) <==> forall k | 0 <= k <= |ops| :: SoundAt(start, overrides, ops, k)
  {
    NewNodeSound(overrides, autoDeclare);
    RunSoundIff(NewNode(overrides, autoDeclare).value, overrides, ops);
  }

  lemma NodeLifeSound(overrides: map<string, Parameter>, autoDeclare: bool, ops: seq<Op>)
    requires Keyed(overrides) && NewNode(overrides, autoDeclare).Some?
    ensures var start := NewNode(overrides, autoDeclare).value;
            CivilRun(start, overrides, ops) ==> Sound(Run(start, overrides, ops))
  {
    NewNodeSound(overrides, autoDeclare);
    if CivilRun(NewNode(overrides, autoDeclare).value, overrides, ops) {
      RunStaysSound(NewNode(overrides, autoDeclare).value, overrides, ops);
    }
  }
}
