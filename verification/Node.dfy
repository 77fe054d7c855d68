/** The parameter methods of `lib/node.js` on a node's own fields, proved against `ParameterUpdates`. */
module Nodes {
  import opened JavaScript
  import opened Optional
  import opened Parameters
  import opened ParameterStore
  import opened ParameterUpdates
  import opened ParameterRuns
  import opened TimeSources

  /** A result object with `successful` set or not, or an exception. */
  datatype Reply = Successful(event: Event) | Unsuccessful | Exception

  class Node {
    var parameters: map<string, Parameter>
    var descriptors: map<string, Descriptor>
    var overrides: map<string, Parameter>
    var pre: seq<PreHook>
    var hooks: seq<SetHook>
    var calls: nat
    const timeSource: TimeSource

    ghost predicate Valid()
      reads this, timeSource, timeSource.clocks
    {
      timeSource.Valid()
    }

    constructor (overrides: map<string, Parameter>)
      ensures Valid() && fresh(timeSource) && timeSource.clocks == []
      ensures this.overrides == overrides && View() == State(Store(map[], map[]), [], [], false, 0)
    {
      this.overrides := overrides;
      parameters, descriptors, pre, hooks, calls := map[], map[], [], [], 0;
      timeSource := new TimeSource();
    }

    function Stored(): Store
      reads this
    {
      Store(parameters, descriptors)
    }

    /** The state that the specification works on. */
    ghost function View(): State
      reads this, timeSource
    {
      State(Stored(), pre, hooks, timeSource.active, calls)
    }

    ghost predicate Shows(reply: Reply, expected: SetResult)
      reads this, timeSource
    {
      View() == expected.state &&
      match expected
      case Accepted(_, event) => reply == Successful(event)
      case Rejected(_) => reply == Unsuccessful
      case Aborted(_) => reply == Exception
    }

    method AddPreSetParametersCallback(hook: PreHook)
      modifies `pre
      ensures View() == AddPre(old(View()), hook) && pre == [hook] + old(pre)
    {
      pre := [hook] + pre;
    }

    method AddOnSetParametersCallback(hook: SetHook)
      modifies `hooks
      ensures View() == AddHook(old(View()), hook) && hooks == [hook] + old(hooks)
    {
      hooks := [hook] + hooks;
    }

    method RemovePreSetParametersCallback(id: nat)
      modifies `pre
      ensures View() == old(View()).(pre := WithoutPre(old(pre), id))
    {
      for i := 0 to |pre|
        invariant pre == old(pre) && WithoutPre(pre, id) == pre[..i] + WithoutPre(pre[i..], id)
      {
        assert pre[..i + 1] == pre[..i] + [pre[i]] && pre[i..][1..] == pre[i + 1..];
        if pre[i].id == id {
          pre := pre[..i] + pre[i + 1..];
          return;
        }
      }
      assert pre[..|pre|] + [] == pre;
    }

    method RemoveOnSetParametersCallback(id: nat)
      modifies `hooks
      ensures View() == old(View()).(hooks := WithoutHook(old(hooks), id))
    {
      for i := 0 to |hooks|
        invariant hooks == old(hooks) && WithoutHook(hooks, id) == hooks[..i] + WithoutHook(hooks[i..], id)
      {
        assert hooks[..i + 1] == hooks[..i] + [hooks[i]] && hooks[i..][1..] == hooks[i + 1..];
        if Is(hooks[i], id) {
          hooks := hooks[..i] + hooks[i + 1..];
          return;
        }
      }
      assert hooks[..|hooks|] + [] == hooks;
    }

    /** Threw if the parameter is read-only. */
    method UndeclareParameter(name: string) returns (threw: bool)
      modifies `parameters, `descriptors
      ensures Undeclare(old(Stored()), name) == if threw then Threw(Stored()) else Done(Stored())
    {
      threw := false;
      if name in parameters {
        if DescriptorOf(Stored(), name).readOnly {
          threw := true;
        } else {
          parameters := parameters - {name};
          descriptors := descriptors - {name};
        }
      }
    }

    method ValidateParameters(batch: seq<Parameter>, declare: bool) returns (ok: bool)
      ensures ok <==> ValidatesAll(Stored(), batch, declare)
    {
      for i := 0 to |batch|
        invariant forall k | 0 <= k < i :: Validates(Stored(), batch[k], declare)
      {
        var p := batch[i];
        if !ValidParameter(p) {
          return false;
        }
        var d := DescriptorOf(Stored(), p.name);
        if !declare && d.readOnly {
          return false;
        }
        if p.kind != NOT_SET && !Accepts(d, p) {
          return false;
        }
      }
      return true;
    }

    /** The pre-callbacks, each on the result of the one before. */
    method RunPreCallbacks(batch: seq<Parameter>) returns (final: Option<seq<Parameter>>)
      modifies `calls
      ensures PreRun(final, calls) == RunPre(pre, old(calls), batch)
    {
      var current := batch;
      for i := 0 to |pre|
        invariant RunPre(pre[i..], calls, current) == RunPre(pre, old(calls), batch)
      {
        var r := pre[i].run(calls, current);
        calls := calls + 1;
        if r.None? || r.value == [] {
          return None;
        }
        current := r.value;
      }
      return Some(current);
    }

    method RunSetCallbacks(batch: seq<Parameter>) returns (ok: bool)
      requires Valid()
      modifies `calls, timeSource, timeSource.clocks
      ensures Valid() && timeSource.clocks == old(timeSource.clocks) && timeSource.attached == old(timeSource.attached)
      ensures HookRun(ok, timeSource.active, calls) == RunHooks(hooks, old(calls), old(timeSource.active), batch)
    {
      for i := 0 to |hooks|
        invariant Valid() && timeSource.clocks == old(timeSource.clocks) && timeSource.attached == old(timeSource.attached)
        invariant RunHooks(hooks[i..], calls, timeSource.active, batch)
               == RunHooks(hooks, old(calls), old(timeSource.active), batch)
      {
        match hooks[i] {
          case TimeSourceHook =>
            timeSource.OnParameterEvent(batch);
          case UserHook(_, run) =>
            var accepted := run(calls, batch);
            calls := calls + 1;
            if !accepted {
              return false;
            }
        }
      }
      return true;
    }

    /** The commit loop, which also sorts the entries into the lists of the event. */
    method CommitParameters(batch: seq<Parameter>, declare: bool) returns (reply: Reply)
      modifies `parameters, `descriptors
      ensures match Commit(old(Stored()), batch)
              case Done(st) => Stored() == st && reply == Successful(EventOf(batch, declare))
              case Threw(st) => Stored() == st && reply == Exception
    {
      var added, changed, deleted := [], [], [];
      for i := 0 to |batch|
        invariant Commit(old(Stored()), batch[..i]) == Done(Stored())
        invariant Event(added, changed, deleted) == EventOf(batch[..i], declare)
      {
        assert batch[..i + 1][..i] == batch[..i];
        if batch[i].kind == NOT_SET {
          var threw := UndeclareParameter(batch[i].name);
          if threw {
            CommitStops(old(Stored()), batch, i + 1);
            return Exception;
          }
          deleted := deleted + [batch[i]];
        } else {
          parameters := parameters[batch[i].name := batch[i]];
          if declare {
            added := added + [batch[i]];
          } else {
            changed := changed + [batch[i]];
          }
        }
      }
      assert batch[..|batch|] == batch;
      return Successful(Event(added, changed, deleted));
    }

    /** `_setParametersAtomically`. */
    method SetParametersAtomically(batch: seq<Parameter>, declare: bool) returns (reply: Reply)
      requires Valid()
      modifies this, timeSource, timeSource.clocks
      ensures Valid() && timeSource.clocks == old(timeSource.clocks) && timeSource.attached == old(timeSource.attached)
      ensures overrides == old(overrides)
      ensures Shows(reply, SetAtomically(old(View()), batch, declare))
    {
      var final := RunPreCallbacks(batch);
      if final.None? {
        return Unsuccessful;
      }
      var ok := ValidateParameters(final.value, declare);
      if !ok {
        return Unsuccessful;
      }
      ok := RunSetCallbacks(final.value);
      if !ok {
        return Unsuccessful;
      }
      reply := CommitParameters(final.value, declare);
    }

    /** The first loop of `declareParameters`; `None` if it throws or has met a declared parameter. */
    method ChooseParameters(ps: seq<Parameter>, given: seq<Descriptor>, ignoreOverrides: bool)
      returns (chosen: Option<(seq<Parameter>, seq<Descriptor>)>)
      requires given == [] || |given| == |ps|
      ensures var all := AllChosen(overrides, ps, ignoreOverrides);
              chosen == if Declarable(Stored(), all, given) then Some((all, DescriptorsFor(all, given))) else None
    {
      ghost var all := AllChosen(overrides, ps, ignoreOverrides);
      ghost var wanted := DescriptorsFor(all, given);
      var declared, ds, collision := [], [], false;
      for i := 0 to |ps|
        invariant collision <==> exists k | 0 <= k < i :: all[k].name in parameters
        invariant !collision ==> declared == all[..i] && ds == wanted[..i]
        invariant !collision ==> forall k | 0 <= k < i :: ValidDescriptor(wanted[k])
      {
        var p := if !ignoreOverrides && ps[i].name in overrides then overrides[ps[i].name] else ps[i];
        assert p == all[i];
        if p.name in parameters {
          collision := true;
        } else {
          var d := if |given| > 0 then given[i] else FromParameter(p);
          assert d == wanted[i];
          if !ValidDescriptor(d) {
            return None;
          }
          ds := ds + [d];
          declared := declared + [p];
        }
      }
      assert all[..|ps|] == all && wanted[..|ps|] == wanted;
      return if collision then None else Some((declared, ds));
    }

    method RegisterDescriptors(ds: seq<Descriptor>)
      modifies `descriptors
      ensures descriptors == Register(old(descriptors), ds)
    {
      for i := 0 to |ds|
        invariant descriptors == Register(old(descriptors), ds[..i])
      {
        assert ds[..i + 1][..i] == ds[..i];
        descriptors := descriptors[ds[i].name := ds[i]];
      }
      assert ds[..|ds|] == ds;
    }

    method UnregisterDescriptors(ds: seq<Descriptor>)
      modifies `descriptors
      ensures descriptors == Unregister(old(descriptors), ds)
    {
      for i := 0 to |ds|
        invariant descriptors == Unregister(old(descriptors), ds[..i])
      {
        assert ds[..i + 1][..i] == ds[..i];
        descriptors := descriptors - {ds[i].name};
      }
      assert ds[..|ds|] == ds;
    }

    /** `declareParameters`, whose callers see an exception for every failure. */
    method DeclareParameters(ps: seq<Parameter>, given: seq<Descriptor>, ignoreOverrides: bool) returns (threw: bool)
      requires Valid()
      modifies this, timeSource, timeSource.clocks
      ensures Valid() && timeSource.clocks == old(timeSource.clocks) && timeSource.attached == old(timeSource.attached)
      ensures overrides == old(overrides)
      ensures var expected := Declare(old(View()), old(overrides), ps, given, ignoreOverrides);
              View() == expected.state && (threw <==> !expected.Accepted?)
    {
      if |given| > 0 && |ps| != |given| {
        return true;
      }
      var chosen := ChooseParameters(ps, given, ignoreOverrides);
      if chosen.None? {
        return true;
      }
      var (declared, ds) := chosen.value;
      RegisterDescriptors(ds);
      var reply := SetParametersAtomically(declared, true);
      if reply.Unsuccessful? {
        UnregisterDescriptors(ds);
      }
      return !reply.Successful?;
    }

    method Perform(op: Op)
      requires Valid()
      modifies this, timeSource, timeSource.clocks
      ensures Valid() && timeSource.clocks == old(timeSource.clocks) && timeSource.attached == old(timeSource.attached)
      ensures overrides == old(overrides) && View() == Step(old(View()), overrides, op)
    {
      match op {
        case SetOp(batch) =>
          var reply := SetParametersAtomically(batch, false);
        case DeclareOp(ps, given, ignoreOverrides) =>
          var threw := DeclareParameters(ps, given, ignoreOverrides);
        case UndeclareOp(name) =>
          var threw := UndeclareParameter(name);
        case AddPreOp(hook) => AddPreSetParametersCallback(hook);
        case RemovePreOp(id) => RemovePreSetParametersCallback(id);
        case AddHookOp(hook) => AddOnSetParametersCallback(hook);
        case RemoveHookOp(id) => RemoveOnSetParametersCallback(id);
      }
    }

    method PerformAll(ops: seq<Op>)
      requires Valid()
      modifies this, timeSource, timeSource.clocks
      ensures Valid() && timeSource.clocks == old(timeSource.clocks) && timeSource.attached == old(timeSource.attached)
      ensures overrides == old(overrides) && View() == Run(old(View()), overrides, ops)
    {
      for i := 0 to |ops|
        invariant Valid() && timeSource.clocks == old(timeSource.clocks) && timeSource.attached == old(timeSource.attached)
        invariant overrides == old(overrides) && Run(View(), overrides, ops[i..]) == Run(old(View()), overrides, ops)
      {
        Perform(ops[i]);
      }
    }

    /** Fails at an invalid override, where the constructor of the node throws. */
    method DeclareOverrides() returns (ok: bool)
      requires Stored() == Store(map[], map[])
      modifies `parameters, `descriptors
      ensures ok <==> forall name | name in overrides :: ValidParameter(overrides[name])
      ensures ok ==> Stored() == AutoDeclared(overrides)
    {
      var todo := overrides.Keys;
      while todo != {}
        invariant todo <= overrides.Keys
        invariant forall name | name in overrides && name !in todo :: ValidParameter(overrides[name])
        invariant parameters == map name | name in overrides && name !in todo :: overrides[name]
        invariant descriptors == map name | name in overrides && name !in todo :: FromParameter(overrides[name])
      {
        var name :| name in todo;
        if !ValidParameter(overrides[name]) {
          return false;
        }
        parameters := parameters[name := overrides[name]];
        descriptors := descriptors[name := FromParameter(overrides[name])];
        todo := todo - {name};
      }
      return true;
    }

    /** `attachNode` of the time source on this node. */
    method AttachTimeSource() returns (threw: bool)
      requires Valid() && timeSource.clocks == []
      modifies this, timeSource
      ensures Valid() && overrides == old(overrides)
      ensures var expected := Attach(old(View()), old(overrides));
              && (threw <==> expected.None?)
              && (!threw ==> timeSource.attached && timeSource.clocks == [] && View() == expected.value)
    {
      if USE_SIM_TIME !in parameters {
        threw := DeclareParameters([WALL_TIME], [], false);
        if threw {
          return;
        }
      }
      var useSimTime := None;
      if USE_SIM_TIME in parameters && parameters[USE_SIM_TIME].kind == BOOL && parameters[USE_SIM_TIME].value.Bool? {
        useSimTime := Some(parameters[USE_SIM_TIME].value.b);
      }
      timeSource.AttachNode(useSimTime);
      hooks := [TimeSourceHook] + hooks;
      return false;
    }

    /** The parameter part of `_init`; `null` if the constructor throws. */
    static method Init(overrides: map<string, Parameter>, autoDeclare: bool) returns (node: Node?)
      ensures match NewNode(overrides, autoDeclare)
              case None => node == null
              case Some(s) =>
                && node != null && node.Valid() && node.View() == s && node.overrides == overrides
                && node.timeSource.attached && |node.timeSource.clocks| == 1
                && fresh(node) && fresh(node.timeSource) && fresh(node.timeSource.clocks[0])
    {
      node := new Node(overrides);
      if autoDeclare {
        var ok := node.DeclareOverrides();
        if !ok {
          return null;
        }
      }
      var threw := node.AttachTimeSource();
      if threw {
        return null;
      }
      var clock := new Clock();
      node.timeSource.AttachClock(clock);
    }
  }

  /** From any state, without a look at where that came from. */
  method PerformFrom(node: Node, ghost start: State, ops: seq<Op>)
    requires node.Valid() && node.View() == start
    modifies node, node.timeSource, node.timeSource.clocks
    ensures node.Valid() && node.timeSource.attached == old(node.timeSource.attached)
    ensures node.View() == Run(start, old(node.overrides), ops)
  {
    node.PerformAll(ops);
  }

  method StartAndPerform(overrides: map<string, Parameter>, autoDeclare: bool, ops: seq<Op>) returns (node: Node?)
    ensures node == null <==> NewNode(overrides, autoDeclare).None?
    ensures node != null ==>
              && node.View() == Run(NewNode(overrides, autoDeclare).value, overrides, ops)
              && node.Valid() && node.timeSource.attached
  {
    node := Node.Init(overrides, autoDeclare);
    if node != null {
      PerformFrom(node, NewNode(overrides, autoDeclare).value, ops);
    }
  }

  /**
   A node through any run of calls: it ends in the state that the specification gives, which is sound
   if the calls were civil; the clock topic is subscribed to exactly while simulated time is on, and
   every clock shows the flag and the last time.
   */
  method RunNode(overrides: map<string, Parameter>, autoDeclare: bool, ops: seq<Op>) returns (node: Node?)
    requires Keyed(overrides)
    ensures node == null <==> NewNode(overrides, autoDeclare).None?
    ensures node != null ==> var start := NewNode(overrides, autoDeclare).value;
              var end := Run(start, overrides, ops);
              && node.View() == end && (CivilRun(start, overrides, ops) ==> Sound(end))
              && node.Valid() && (node.timeSource.subscribed <==> node.timeSource.active)
  {
    node := StartAndPerform(overrides, autoDeclare, ops);
    if node != null {
      NodeLifeSound(overrides, autoDeclare, ops);
    }
  }
}
