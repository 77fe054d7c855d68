/**
 Setting, declaring and undeclaring the parameters of a node as functions of its state, with the
 callback lists of `lib/node.js` and the hook of `lib/time_source.js`.

 User callbacks are total functions that may answer differently at each call, so they also get a
 running count of the calls made so far.
 */
module ParameterUpdates {
  import opened JavaScript
  import opened Optional
  import opened Parameters
  import opened ParameterStore

  const USE_SIM_TIME := "use_sim_time"

  /** `None` stands for a result that is not an array. */
  datatype PreHook = PreHook(id: nat, run: (nat, seq<Parameter>) -> Option<seq<Parameter>>)

  /** A veto callback; the time source has registered one of its own, which never vetoes. */
  datatype SetHook = UserHook(id: nat, run: (nat, seq<Parameter>) -> bool) | TimeSourceHook

  datatype Event = Event(added: seq<Parameter>, changed: seq<Parameter>, deleted: seq<Parameter>)

  datatype State = State(store: Store, pre: seq<PreHook>, hooks: seq<SetHook>, active: bool, calls: nat)

  // ----- The callback pipeline -----

  datatype PreRun = PreRun(batch: Option<seq<Parameter>>, calls: nat)

  /** Each callback gets the result of the one before; a bad or empty result rejects the batch. */
  function RunPre(pre: seq<PreHook>, calls: nat, batch: seq<Parameter>): PreRun {
    if pre == [] then PreRun(Some(batch), calls)
    else
      var r := pre[0].run(calls, batch);
      if r.None? || r.value == [] then PreRun(None, calls + 1)
      else RunPre(pre[1..], calls + 1, r.value)
  }

  /** `onParameterEvent`: the first entry for `use_sim_time` counts, if it is a bool. */
  function Probe(active: bool, batch: seq<Parameter>): bool {
    if batch == [] then active
    else if batch[0].name == USE_SIM_TIME then
      if batch[0].kind == BOOL && batch[0].value.Bool? then batch[0].value.b else active
    else Probe(active, batch[1..])
  }

  datatype HookRun = HookRun(ok: bool, active: bool, calls: nat)

  function RunHooks(hooks: seq<SetHook>, calls: nat, active: bool, batch: seq<Parameter>): HookRun {
    if hooks == [] then HookRun(true, active, calls)
    else match hooks[0]
      case TimeSourceHook => RunHooks(hooks[1..], calls, Probe(active, batch), batch)
      case UserHook(_, run) =>
        if run(calls, batch) then RunHooks(hooks[1..], calls + 1, active, batch)
        else HookRun(false, active, calls + 1)
  }

  // ----- Setting -----

  function Sets(batch: seq<Parameter>): (r: seq<Parameter>)
    ensures forall i | 0 <= i < |r| :: r[i].kind != NOT_SET
  {
    if batch == [] then []
    else Sets(batch[..|batch| - 1]) + if batch[|batch| - 1].kind != NOT_SET then [batch[|batch| - 1]] else []
  }

  function Deletions(batch: seq<Parameter>): (r: seq<Parameter>)
    ensures forall i | 0 <= i < |r| :: r[i].kind == NOT_SET
  {
    if batch == [] then []
    else Deletions(batch[..|batch| - 1]) + if batch[|batch| - 1].kind == NOT_SET then [batch[|batch| - 1]] else []
  }

  function EventOf(batch: seq<Parameter>, declare: bool): Event {
    Event(if declare then Sets(batch) else [], if declare then [] else Sets(batch), Deletions(batch))
  }

  datatype SetResult =
    | Accepted(state: State, event: Event)
    | Rejected(state: State)
    | Aborted(state: State)   // an exception left the commit loop

  /** `_setParametersAtomically`. */
  function SetAtomically(s: State, batch: seq<Parameter>, declare: bool): SetResult {
    var pre := RunPre(s.pre, s.calls, batch);
    var s1 := s.(calls := pre.calls);
    if pre.batch.None? || !ValidatesAll(s.store, pre.batch.value, declare) then Rejected(s1)
    else
      var final := pre.batch.value;
      var hooks := RunHooks(s.hooks, pre.calls, s.active, final);
      var s2 := s.(active := hooks.active, calls := hooks.calls);
      if !hooks.ok then Rejected(s2)
      else
        var r := Commit(s.store, final);
        if r.Threw? then Aborted(s2.(store := r.store))
        else Accepted(s2.(store := r.store), EventOf(final, declare))
  }

  /** The batch that reaches validation, if any does. */
  function FinalBatch(s: State, batch: seq<Parameter>): Option<seq<Parameter>> {
    RunPre(s.pre, s.calls, batch).batch
  }

  // ----- Declaring -----

  function Chosen(overrides: map<string, Parameter>, p: Parameter, ignoreOverrides: bool): Parameter {
    if !ignoreOverrides && p.name in overrides then overrides[p.name] else p
  }

  function AllChosen(overrides: map<string, Parameter>, ps: seq<Parameter>, ignoreOverrides: bool): (r: seq<Parameter>)
    ensures |r| == |ps|
  {
    seq(|ps|, i requires 0 <= i < |ps| => Chosen(overrides, ps[i], ignoreOverrides))
  }

  function DescriptorsFor(chosen: seq<Parameter>, given: seq<Descriptor>): (r: seq<Descriptor>)
    requires given == [] || |given| == |chosen|
    ensures |r| == |chosen|
  {
    if given != [] then given else seq(|chosen|, i requires 0 <= i < |chosen| => FromParameter(chosen[i]))
  }

  /** Nothing to declare is declared already, and every descriptor is valid by itself. */
  predicate Declarable(st: Store, chosen: seq<Parameter>, given: seq<Descriptor>) {
    && (given == [] || |given| == |chosen|)
    && (forall i | 0 <= i < |chosen| :: chosen[i].name !in st.parameters)
    && forall i | 0 <= i < |chosen| :: ValidDescriptor(DescriptorsFor(chosen, given)[i])
  }

  function Register(descriptors: map<string, Descriptor>, ds: seq<Descriptor>): map<string, Descriptor> {
    if ds == [] then descriptors
    else Register(descriptors, ds[..|ds| - 1])[ds[|ds| - 1].name := ds[|ds| - 1]]
  }

  function Unregister(descriptors: map<string, Descriptor>, ds: seq<Descriptor>): map<string, Descriptor> {
    if ds == [] then descriptors
    else Unregister(descriptors, ds[..|ds| - 1]) - {ds[|ds| - 1].name}
  }

  /** `declareParameters`; every result but `Accepted` is an exception for the caller. */
  function Declare(s: State, overrides: map<string, Parameter>, ps: seq<Parameter>, given: seq<Descriptor>,
                   ignoreOverrides: bool): SetResult {
    var chosen := AllChosen(overrides, ps, ignoreOverrides);
    if !Declarable(s.store, chosen, given) then Rejected(s)
    else
      var ds := DescriptorsFor(chosen, given);
      var r := SetAtomically(Registered(s, ds), chosen, true);
      if r.Rejected? then Rejected(Unregistered(r.state, ds)) else r
  }

  function Registered(s: State, ds: seq<Descriptor>): State {
    s.(store := s.store.(descriptors := Register(s.store.descriptors, ds)))
  }

  function Unregistered(s: State, ds: seq<Descriptor>): State {
    s.(store := s.store.(descriptors := Unregister(s.store.descriptors, ds)))
  }

  // ----- Callback lists -----

  /** `unshift`. */
  function AddPre(s: State, hook: PreHook): State {
    s.(pre := [hook] + s.pre)
  }

  function AddHook(s: State, hook: SetHook): State {
    s.(hooks := [hook] + s.hooks)
  }

  /** `indexOf` and `splice`: only the first callback that is the given one goes. */
  function WithoutPre(pre: seq<PreHook>, id: nat): seq<PreHook> {
    if pre == [] then [] else if pre[0].id == id then pre[1..] else [pre[0]] + WithoutPre(pre[1..], id)
  }

  /** Users cannot name the hook of the time source. */
  predicate Is(hook: SetHook, id: nat) {
    hook.UserHook? && hook.id == id
  }

  function WithoutHook(hooks: seq<SetHook>, id: nat): seq<SetHook> {
    if hooks == [] then [] else if Is(hooks[0], id) then hooks[1..] else [hooks[0]] + WithoutHook(hooks[1..], id)
  }

  // ----- A new node -----

  /** `automaticallyDeclareParametersFromOverrides`. */
  function AutoDeclared(overrides: map<string, Parameter>): Store {
    Store(overrides, map name | name in overrides :: FromParameter(overrides[name]))
  }

  const WALL_TIME := Parameter(USE_SIM_TIME, BOOL, Bool(false))

  /** The rest of `attachNode`: take over the value of `use_sim_time` and register the hook. */
  function Attached(s: State): State {
    var st := s.store;
    var active := if USE_SIM_TIME in st.parameters && st.parameters[USE_SIM_TIME].kind == BOOL
                     && st.parameters[USE_SIM_TIME].value.Bool?
                  then st.parameters[USE_SIM_TIME].value.b else s.active;
    AddHook(s.(active := active), TimeSourceHook)
  }

  /** `attachNode`, which first declares `use_sim_time` if need be. */
  function Attach(s: State, overrides: map<string, Parameter>): Option<State> {
    if USE_SIM_TIME in s.store.parameters then Some(Attached(s))
    else
      var r := Declare(s, overrides, [WALL_TIME], [], false);
      if r.Accepted? then Some(Attached(r.state)) else None
  }

  /** The parameter part of `_init`; `None` if the constructor throws. */
  function NewNode(overrides: map<string, Parameter>, autoDeclare: bool): Option<State> {
    if autoDeclare && exists name | name in overrides :: !ValidParameter(overrides[name]) then None
    else Attach(State(if autoDeclare then AutoDeclared(overrides) else Store(map[], map[]), [], [], false, 0), overrides)
  }
}
