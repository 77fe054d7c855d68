/**
 `HandleManager`: sizing and filling the wait set, and collecting what became ready
 (`src/handle_manager.cpp`, with the set-up code of `WaitForReadyCallbacks` in `src/executor.cpp`).
 An rcl wait set is six rows of slots; adding to a full row fails, and waiting clears every slot
 whose entity is not ready.
 */
module HandleManagers {
  import opened Optional

  type Ptr = nat

  const NULL: Ptr := 0

  datatype Kind = Subscriptions | GuardConditions | Timers | Clients | Services | Events

  datatype PerKind<T> =
    PerKind(subscriptions: T, guards: T, timers: T, clients: T, services: T, events: T)
  {
    function At(k: Kind): T {
      match k
      case Subscriptions => subscriptions
      case GuardConditions => guards
      case Timers => timers
      case Clients => clients
      case Services => services
      case Events => events
    }

    function Put(k: Kind, x: T): (r: PerKind<T>)
      ensures forall j: Kind :: r.At(j) == if j == k then x else At(j)
    {
      match k
      case Subscriptions => this.(subscriptions := x)
      case GuardConditions => this.(guards := x)
      case Timers => this.(timers := x)
      case Clients => this.(clients := x)
      case Services => this.(services := x)
      case Events => this.(events := x)
    }
  }

  function Same<T>(x: T): PerKind<T> {
    PerKind(x, x, x, x, x, x)
  }

  lemma PutOwn<T>(p: PerKind<T>, k: Kind)
    ensures p.Put(k, p.At(k)) == p
  {
    match k
    case Subscriptions =>
    case GuardConditions =>
    case Timers =>
    case Clients =>
    case Services =>
    case Events =>
  }

  lemma PutTwice<T>(p: PerKind<T>, k: Kind, x: T, y: T)
    ensures p.Put(k, x).Put(k, y) == p.Put(k, y)
  {
  }

  /** A handle and the rcl entity it points to. */
  datatype Handle = Handle(id: nat, ptr: Ptr)

  /** An action client or server, and the rcl entities it is made of; it has no events. */
  datatype Action = Action(handle: Handle, subscriptions: seq<Ptr>, guards: seq<Ptr>, timers: seq<Ptr>,
                           clients: seq<Ptr>, services: seq<Ptr>)
  {
    function Parts(k: Kind): seq<Ptr> {
      match k
      case Subscriptions => subscriptions
      case GuardConditions => guards
      case Timers => timers
      case Clients => clients
      case Services => services
      case Events => []
    }

    predicate AnyReady(ready: set<Ptr>) {
      exists k: Kind, i | 0 <= i < |Parts(k)| :: Parts(k)[i] in ready
    }
  }

  function Ptrs(handles: seq<Handle>): (ps: seq<Ptr>)
    ensures |ps| == |handles| && forall i | 0 <= i < |ps| :: ps[i] == handles[i].ptr
  {
    seq(|handles|, i requires 0 <= i < |handles| => handles[i].ptr)
  }

  function PartsOf(actions: seq<Action>, k: Kind): seq<Ptr> {
    if actions == [] then [] else PartsOf(actions[..|actions| - 1], k) + actions[|actions| - 1].Parts(k)
  }

  /** The slots of a row after waiting. */
  function Masked(row: seq<Ptr>, ready: set<Ptr>): (r: seq<Option<Ptr>>)
    ensures |r| == |row|
    ensures forall i | 0 <= i < |r| :: r[i] == if row[i] in ready then Some(row[i]) else None
  {
    seq(|row|, i requires 0 <= i < |row| => if row[i] in ready then Some(row[i]) else None)
  }

  /** How many of `n` entities fit where there is room for `room`. */
  function Fitting(room: int, n: nat): nat {
    if room <= 0 then 0 else if room <= n then room else n
  }

  /** A row has got a first part of what was wanted. */
  predicate Grown(before: seq<Ptr>, row: seq<Ptr>, wanted: seq<Ptr>) {
    before <= row <= before + wanted
  }

  lemma GrownMore(before: seq<Ptr>, row: seq<Ptr>, first: seq<Ptr>, rest: seq<Ptr>)
    requires Grown(before, row, first)
    ensures Grown(before, row, first + rest)
  {
    assert before + (first + rest) == before + first + rest;
  }

  lemma GrownAfter(before: seq<Ptr>, first: seq<Ptr>, row: seq<Ptr>, rest: seq<Ptr>)
    requires Grown(before + first, row, rest)
    ensures Grown(before, row, first + rest)
  {
    assert before + (first + rest) == before + first + rest;
  }

  lemma Regrouped(before: seq<Ptr>, a: seq<Ptr>, b: seq<Ptr>, c: seq<Ptr>)
    ensures before + a + (b + c) == before + (a + b + c)
  {
  }

  class WaitSet {
    var size: PerKind<nat>
    var rows: PerKind<seq<Ptr>>

    constructor ()
      ensures size == Same(0) && rows == Same([])
    {
      size, rows := Same(0), Same([]);
    }

    method Resize(counts: PerKind<nat>)
      modifies this
      ensures size == counts && rows == Same([])
    {
      size, rows := counts, Same([]);
    }

    /** Fails exactly when the row is full, and then changes nothing. */
    method Add(k: Kind, p: Ptr) returns (ok: bool)
      modifies this`rows
      ensures ok == (|old(rows).At(k)| < size.At(k))
      ensures rows == if ok then old(rows).Put(k, old(rows).At(k) + [p]) else old(rows)
    {
      ok := |rows.At(k)| < size.At(k);
      if ok {
        rows := rows.Put(k, rows.At(k) + [p]);
      }
    }

    /** Adds entities to one row until one does not fit; those before it stay. */
    method AddRow(k: Kind, ps: seq<Ptr>) returns (ok: bool)
      modifies this`rows
      ensures var n := Fitting(size.At(k) - |old(rows).At(k)|, |ps|);
              ok == (n == |ps|) && rows == old(rows).Put(k, old(rows).At(k) + ps[..n])
    {
      PutOwn(rows, k);
      ghost var n := Fitting(size.At(k) - |rows.At(k)|, |ps|);
      assert rows.At(k) + ps[..0] == rows.At(k);
      for i := 0 to |ps|
        invariant i <= n && rows == old(rows).Put(k, old(rows).At(k) + ps[..i])
      {
        assert old(rows).At(k) + ps[..i + 1] == old(rows).At(k) + ps[..i] + [ps[i]];
        PutTwice(old(rows), k, old(rows).At(k) + ps[..i], old(rows).At(k) + ps[..i + 1]);
        var added := Add(k, ps[i]);
        if !added {
          return false;
        }
      }
      ok := true;
    }

    /** The same, row by row. */
    method Extend(k: Kind, ps: seq<Ptr>) returns (ok: bool)
      modifies this`rows
      ensures |old(rows).At(k)| + |ps| <= size.At(k) ==> ok
      ensures ok ==> rows.At(k) == old(rows).At(k) + ps
      ensures Grown(old(rows).At(k), rows.At(k), ps)
      ensures forall j: Kind | j != k :: rows.At(j) == old(rows).At(j)
    {
      ok := AddRow(k, ps);
      assert ps[..|ps|] == ps;
    }

    /** `rcl_action_wait_set_add_action_client` and `..._server`: every part of the action. */
    method AddAction(a: Action) returns (ok: bool)
      modifies this`rows
      ensures (forall k: Kind :: |old(rows).At(k)| + |a.Parts(k)| <= size.At(k)) ==> ok
      ensures ok ==> forall k: Kind :: rows.At(k) == old(rows).At(k) + a.Parts(k)
      ensures forall k: Kind :: Grown(old(rows).At(k), rows.At(k), a.Parts(k))
    {
      ok := Extend(Subscriptions, a.subscriptions);
      if ok { ok := Extend(GuardConditions, a.guards); }
      if ok { ok := Extend(Timers, a.timers); }
      if ok { ok := Extend(Clients, a.clients); }
      if ok { ok := Extend(Services, a.services); }
    }

    method AddActions(actions: seq<Action>) returns (ok: bool)
      modifies this`rows
      ensures (forall k: Kind :: |old(rows).At(k)| + |PartsOf(actions, k)| <= size.At(k)) ==> ok
      ensures ok ==> forall k: Kind :: rows.At(k) == old(rows).At(k) + PartsOf(actions, k)
      ensures forall k: Kind :: Grown(old(rows).At(k), rows.At(k), PartsOf(actions, k))
    {
      for i := 0 to |actions|
        invariant forall k: Kind :: rows.At(k) == old(rows).At(k) + PartsOf(actions[..i], k)
      {
        PartsOfPrefix(actions, i);
        ghost var before := rows;
        ok := AddAction(actions[i]);
        if !ok {
          forall k: Kind
            ensures Grown(old(rows).At(k), rows.At(k), PartsOf(actions, k))
          {
            GrownPart(old(rows).At(k), rows.At(k), actions, i, k);
          }
          return;
        }
      }
      assert actions[..|actions|] == actions;
      ok := true;
    }
  }

  class HandleManager {
    var own: PerKind<seq<Handle>>   // one vector per kind of entity
    var actionClients: seq<Action>
    var actionServers: seq<Action>
    var sum: nat
    var readyHandles: seq<Handle>

    constructor ()
      ensures own == Same([]) && actionClients == [] && actionServers == [] && sum == 0 && readyHandles == []
    {
      own, actionClients, actionServers, sum, readyHandles := Same([]), [], [], 0, [];
    }

    /** The entities of a kind that the waiter has to wait for. */
    function Wanted(k: Kind): seq<Ptr>
      reads this
    {
      Ptrs(own.At(k)) + PartsOf(actionClients, k) + PartsOf(actionServers, k)
    }

    /** Counts the entities of every kind on top of what the caller has counted already. */
    method GetEntityCounts(base: PerKind<nat>) returns (counts: PerKind<nat>)
      ensures forall k: Kind :: counts.At(k) == base.At(k) + |Wanted(k)|
    {
      counts := base;
      for i := 0 to |actionClients|
        invariant forall k: Kind :: counts.At(k) == base.At(k) + |PartsOf(actionClients[..i], k)|
      {
        counts := Plus(counts, actionClients[i]);
        assert actionClients[..i + 1][..i] == actionClients[..i];
      }
      assert actionClients[..|actionClients|] == actionClients;
      for i := 0 to |actionServers|
        invariant forall k: Kind ::
          counts.At(k) == base.At(k) + |PartsOf(actionClients, k)| + |PartsOf(actionServers[..i], k)|
      {
        counts := Plus(counts, actionServers[i]);
        assert actionServers[..i + 1][..i] == actionServers[..i];
      }
      assert actionServers[..|actionServers|] == actionServers;
      counts := PerKind(
        counts.subscriptions + |own.subscriptions|, counts.guards + |own.guards|,
        counts.timers + |own.timers|, counts.clients + |own.clients|,
        counts.services + |own.services|, counts.events + |own.events|);
    }

    /** Room in every row for what is wanted of that kind. */
    predicate Fits(ws: WaitSet)
      reads this, ws
    {
      forall k: Kind :: |ws.rows.At(k)| + |Wanted(k)| <= ws.size.At(k)
    }

    /** True stands for `RCL_RET_OK`. With enough room nothing fails, and a failure keeps what was added before it. */
    method AddHandlesToWaitSet(ws: WaitSet) returns (ok: bool)
      modifies ws`rows
      ensures old(Fits(ws)) ==> ok && forall k: Kind :: ws.rows.At(k) == old(ws.rows).At(k) + Wanted(k)
      ensures forall k: Kind :: Grown(old(ws.rows).At(k), ws.rows.At(k), Wanted(k))
    {
      NoEventParts(actionClients);
      NoEventParts(actionServers);
      ok := AddOwnHandles(ws);
      ghost var first := ws.rows;
      if !ok {
        GrowsToWanted(old(ws.rows), first, ws.rows);
        return;
      }
      var complete;
      ok, complete := AddActionHandles(ws);
      if !complete {
        GrowsToWanted(old(ws.rows), first, ws.rows);
        return;
      }
      ghost var second := ws.rows;
      ok := ws.Extend(Events, Ptrs(own.events));
      EventsFinish(old(ws.rows), second, ws.rows);
    }

    /** A failure to add an action client returns `false`, which reads as `RCL_RET_OK`. */
    method AddActionHandles(ws: WaitSet) returns (ok: bool, complete: bool)
      modifies ws`rows
      ensures (forall k: Kind ::
                 |old(ws.rows).At(k)| + |PartsOf(actionClients, k) + PartsOf(actionServers, k)| <= ws.size.At(k)) ==>
                complete
      ensures complete ==> ok && forall k: Kind ::
                  ws.rows.At(k) == old(ws.rows).At(k) + (PartsOf(actionClients, k) + PartsOf(actionServers, k))
      ensures forall k: Kind ::
                Grown(old(ws.rows).At(k), ws.rows.At(k), PartsOf(actionClients, k) + PartsOf(actionServers, k))
    {
      complete := ws.AddActions(actionClients);
      ok := true;
      if complete {
        ghost var first := ws.rows;
        complete := ws.AddActions(actionServers);
        ok := complete;
        forall k: Kind
          ensures Grown(old(ws.rows).At(k), ws.rows.At(k), PartsOf(actionClients, k) + PartsOf(actionServers, k))
        {
          GrownAfter(old(ws.rows).At(k), PartsOf(actionClients, k), ws.rows.At(k), PartsOf(actionServers, k));
        }
      } else {
        forall k: Kind
          ensures Grown(old(ws.rows).At(k), ws.rows.At(k), PartsOf(actionClients, k) + PartsOf(actionServers, k))
        {
          GrownMore(old(ws.rows).At(k), ws.rows.At(k), PartsOf(actionClients, k), PartsOf(actionServers, k));
        }
      }
    }

    /** The five leading loops of `AddHandlesToWaitSet`. */
    method AddOwnHandles(ws: WaitSet) returns (ok: bool)
      modifies ws`rows
      ensures (forall k: Kind | !k.Events? :: |old(ws.rows).At(k)| + |own.At(k)| <= ws.size.At(k)) ==> ok
      ensures ok ==> forall k: Kind :: ws.rows.At(k) == old(ws.rows).At(k) + OwnFirst(k)
      ensures forall k: Kind :: Grown(old(ws.rows).At(k), ws.rows.At(k), OwnFirst(k))
    {
      ok := ws.Extend(Timers, Ptrs(own.timers));
      if ok { ok := ws.Extend(Subscriptions, Ptrs(own.subscriptions)); }
      if ok { ok := ws.Extend(Clients, Ptrs(own.clients)); }
      if ok { ok := ws.Extend(Services, Ptrs(own.services)); }
      if ok { ok := ws.Extend(GuardConditions, Ptrs(own.guards)); }
    }

    /** All own entities but the events, which come last. */
    function OwnFirst(k: Kind): seq<Ptr>
      reads this
    {
      if k.Events? then [] else Ptrs(own.At(k))
    }

    /** The events come last and have a row of their own. */
    lemma EventsFinish(before: PerKind<seq<Ptr>>, second: PerKind<seq<Ptr>>, rows: PerKind<seq<Ptr>>)
      requires PartsOf(actionClients, Events) == PartsOf(actionServers, Events) == []
      requires forall k: Kind ::
                 second.At(k) == before.At(k) + OwnFirst(k) + (PartsOf(actionClients, k) + PartsOf(actionServers, k))
      requires forall k: Kind | k != Events :: rows.At(k) == second.At(k)
      requires Grown(second.At(Events), rows.At(Events), Ptrs(own.events))
      ensures second.At(Events) == before.At(Events)
      ensures forall k: Kind :: Grown(before.At(k), rows.At(k), Wanted(k))
      ensures rows.At(Events) == second.At(Events) + Ptrs(own.events) ==>
                forall k: Kind :: rows.At(k) == before.At(k) + Wanted(k)
    {
      assert second.At(Events) == before.At(Events) && Wanted(Events) == Ptrs(own.events);
      forall k: Kind | k != Events
        ensures rows.At(k) == before.At(k) + Wanted(k)
      {
        Regrouped(before.At(k), Ptrs(own.At(k)), PartsOf(actionClients, k), PartsOf(actionServers, k));
      }
    }

    /** What a failure on the way leaves behind is a first part of what is wanted. */
    lemma GrowsToWanted(before: PerKind<seq<Ptr>>, first: PerKind<seq<Ptr>>, rows: PerKind<seq<Ptr>>)
      requires PartsOf(actionClients, Events) == PartsOf(actionServers, Events) == []
      requires forall k: Kind :: Grown(before.At(k), first.At(k), OwnFirst(k))
      requires
        || rows == first
        || forall k: Kind ::
            && first.At(k) == before.At(k) + OwnFirst(k)
            && Grown(first.At(k), rows.At(k), PartsOf(actionClients, k) + PartsOf(actionServers, k))
      ensures forall k: Kind :: Grown(before.At(k), rows.At(k), Wanted(k))
    {
      forall k: Kind
        ensures Grown(before.At(k), rows.At(k), Wanted(k))
      {
        var parts := PartsOf(actionClients, k) + PartsOf(actionServers, k);
        assert Wanted(k) == Ptrs(own.At(k)) + parts;
        if rows == first {
          GrownMore(before.At(k), rows.At(k), OwnFirst(k), parts);
        } else {
          GrownAfter(before.At(k), OwnFirst(k), rows.At(k), parts);
        }
        if k.Events? {
          assert OwnFirst(k) + parts == [];
        }
      }
    }

    /**
     The body of the read-locked scope up to `rcl_wait`: whatever is registered, the capacities
     asked for are the numbers of entities added, kind by kind, so no step of it can fail.
     */
    method FillWaitSet(ws: WaitSet, background: bool, interrupt: Ptr) returns (ok: bool)
      modifies ws
      ensures ok
      ensures forall k: Kind :: ws.rows.At(k) == Wanted(k) + Interrupt(k, background, interrupt)
      ensures forall k: Kind :: ws.size.At(k) == |ws.rows.At(k)|
      ensures WaitsForAll(ws.rows)
      ensures ws.rows.guards == Wanted(GuardConditions) + if background then [interrupt] else []
    {
      ok := ResizeAndFill(ws, background, interrupt);
      RowsWaitForAll(ws.rows);
      assert ws.rows.At(GuardConditions) == ws.rows.guards;
    }

    method ResizeAndFill(ws: WaitSet, background: bool, interrupt: Ptr) returns (ok: bool)
      modifies ws
      ensures ok
      ensures forall k: Kind :: ws.rows.At(k) == Wanted(k) + Interrupt(k, background, interrupt)
      ensures forall k: Kind :: ws.size.At(k) == |ws.rows.At(k)|
    {
      var base := Same(0).Put(GuardConditions, if background then 1 else 0);
      var counts := GetEntityCounts(base);
      ws.Resize(counts);
      assert forall k: Kind :: ws.rows.At(k) == [];
      ok := AddHandlesToWaitSet(ws);
      assert ok && forall k: Kind :: ws.rows.At(k) == Wanted(k);
      if ok && background {
        ok := ws.Add(GuardConditions, interrupt);
      }
    }

    /** Every registered handle and every part of every action has an entry in the row of its kind. */
    ghost predicate WaitsForAll(rows: PerKind<seq<Ptr>>)
      reads this`own, this`actionClients, this`actionServers
    {
      && AllIn(own.timers, rows.timers) && AllIn(own.subscriptions, rows.subscriptions) && AllIn(own.clients, rows.clients)
      && AllIn(own.services, rows.services) && AllIn(own.guards, rows.guards) && AllIn(own.events, rows.events)
      && (forall a | a in actionClients :: PartsIn(a, rows)) && forall a | a in actionServers :: PartsIn(a, rows)
    }

    lemma RowsWaitForAll(rows: PerKind<seq<Ptr>>)
      requires forall k: Kind :: Wanted(k) <= rows.At(k)
      ensures WaitsForAll(rows)
    {
      forall k: Kind
        ensures AllIn(own.At(k), rows.At(k))
      {
        assert forall i | 0 <= i < |own.At(k)| :: rows.At(k)[i] == own.At(k)[i].ptr;
      }
      assert AllIn(own.At(Timers), rows.At(Timers)) && AllIn(own.At(Subscriptions), rows.At(Subscriptions));
      assert AllIn(own.At(Clients), rows.At(Clients)) && AllIn(own.At(Services), rows.At(Services));
      assert AllIn(own.At(GuardConditions), rows.At(GuardConditions)) && AllIn(own.At(Events), rows.At(Events));
      forall k: Kind, p | p in PartsOf(actionClients, k) || p in PartsOf(actionServers, k)
        ensures p in rows.At(k)
      {
        assert p in Wanted(k);
      }
      PartsReachRows(actionClients, rows);
      PartsReachRows(actionServers, rows);
    }

    /** The handles that are due, given which entities are ready. */
    ghost function Due(ready: set<Ptr>): seq<Handle>
      reads this
    {
      Filter(own.subscriptions, ready) + Filter(own.clients, ready) + Filter(own.services, ready)
      + Filter(own.timers, ready) + Filter(own.guards, ready) + Filter(own.events, ready)
      + FilterActions(actionClients, ready) + FilterActions(actionServers, ready)
    }

    /** The rows of the wait set hold what the handles pointed to when it was filled. */
    ghost predicate Awaited(waited: PerKind<seq<Ptr>>)
      reads this
    {
      forall k: Kind :: WaitedFor(own.At(k), waited.At(k))
    }

    /**
     What is stored is every due handle, as often as it is registered, and no other; nothing is touched
     when no handle is due. Pointers may have been cleared while waiting.
     */
    method CollectReadyHandles(waited: PerKind<seq<Ptr>>, ready: set<Ptr>)
      requires Awaited(waited) && NULL !in ready
      modifies this`readyHandles
      ensures readyHandles == if old(Due(ready)) == [] then old(readyHandles) else old(Due(ready))
      ensures if SomethingDue(own, actionClients, actionServers, ready)
              then ExactlyDue(readyHandles, own, actionClients, actionServers, ready)
              else readyHandles == old(readyHandles)
    {
      DueIsExact(ready);
      var found := FindReadyHandles(waited, ready);
      if found != [] {
        readyHandles := found;
      }
    }

    /** Goes through the rows one after the other, and then through the actions. */
    method FindReadyHandles(waited: PerKind<seq<Ptr>>, ready: set<Ptr>) returns (found: seq<Handle>)
      requires Awaited(waited) && NULL !in ready
      ensures found == Due(ready)
    {
      found := CollectKind(Subscriptions, waited, ready, []);
      assert found == Filter(own.subscriptions, ready);
      found := CollectKind(Clients, waited, ready, found);
      found := CollectKind(Services, waited, ready, found);
      found := CollectKind(Timers, waited, ready, found);
      found := CollectKind(GuardConditions, waited, ready, found);
      found := CollectKind(Events, waited, ready, found);
      found := CollectActions(actionClients, ready, found);
      found := CollectActions(actionServers, ready, found);
    }

    /** The list of due handles holds each of them, each as often as it is registered, and nothing else. */
    lemma DueIsExact(ready: set<Ptr>)
      ensures ExactlyDue(Due(ready), own, actionClients, actionServers, ready)
      ensures Due(ready) == [] <==> !SomethingDue(own, actionClients, actionServers, ready)
    {
      forall h
        ensures DueExactly(Due(ready), own, actionClients, actionServers, h, ready)
      {
        TimesInDue(h, ready);
        DueIfTimes(own, actionClients, actionServers, h, ready);
        InMultiset(Due(ready), h);
      }
      NothingDue(Due(ready), own, actionClients, actionServers, ready);
    }

    lemma TimesInDue(h: Handle, ready: set<Ptr>)
      ensures multiset(Due(ready))[h] == TimesDue(own, actionClients, actionServers, h, ready)
    {
      FilterIsExact(own.subscriptions, ready, h);
      FilterIsExact(own.clients, ready, h);
      FilterIsExact(own.services, ready, h);
      FilterIsExact(own.timers, ready, h);
      FilterIsExact(own.guards, ready, h);
      FilterIsExact(own.events, ready, h);
      FilterActionsIsExact(actionClients, ready, h);
      FilterActionsIsExact(actionServers, ready, h);
    }

    /** The kinds in the order in which they are collected. */
    static function Order(): seq<Kind> {
      [Subscriptions, Clients, Services, Timers, GuardConditions, Events]
    }

    ghost function DueUpTo(n: nat, ready: set<Ptr>): seq<Handle>
      requires n <= 6
      reads this`own
    {
      if n == 0 then [] else DueUpTo(n - 1, ready) + Filter(own.At(Order()[n - 1]), ready)
    }

    lemma {:induction false} DueUpToGrows(m: nat, n: nat, ready: set<Ptr>)
      requires m <= n <= 6
      ensures DueUpTo(m, ready) <= DueUpTo(n, ready)
    {
      if m < n {
        DueUpToGrows(m, n - 1, ready);
      }
    }

    lemma DueByOrder(ready: set<Ptr>)
      ensures DueUpTo(6, ready) <= Due(ready)
    {
      assert DueUpTo(1, ready) == Filter(own.subscriptions, ready);
      assert DueUpTo(2, ready) == DueUpTo(1, ready) + Filter(own.clients, ready);
      assert DueUpTo(3, ready) == DueUpTo(2, ready) + Filter(own.services, ready);
      assert DueUpTo(4, ready) == DueUpTo(3, ready) + Filter(own.timers, ready);
      assert DueUpTo(5, ready) == DueUpTo(4, ready) + Filter(own.guards, ready);
      assert DueUpTo(6, ready) == DueUpTo(5, ready) + Filter(own.events, ready);
    }

    /** Where a handle of the kind at place `n` of the order ends up. */
    lemma DuePlace(n: nat, h: Handle, ready: set<Ptr>) returns (p: nat)
      requires n < 6 && h in own.At(Order()[n]) && h.ptr in ready
      ensures |DueUpTo(n, ready)| <= p < |DueUpTo(n + 1, ready)| <= |Due(ready)| && Due(ready)[p] == h
    {
      var own := Filter(own.At(Order()[n]), ready);
      FilterIsExact(this.own.At(Order()[n]), ready, h);
      InMultiset(own, h);
      var x :| 0 <= x < |own| && own[x] == h;
      p := |DueUpTo(n, ready)| + x;
      DueUpToGrows(n + 1, 6, ready);
      DueByOrder(ready);
      assert DueUpTo(n + 1, ready)[p] == h;
    }

    /** Due subscriptions come before due clients, and so on in the order of the kinds. */
    lemma DueKindsInOrder(a: nat, b: nat, h: Handle, g: Handle, ready: set<Ptr>) returns (p: nat, q: nat)
      requires a < b < 6 && h in own.At(Order()[a]) && g in own.At(Order()[b]) && h.ptr in ready && g.ptr in ready
      ensures p < q < |Due(ready)| && Due(ready)[p] == h && Due(ready)[q] == g
    {
      p := DuePlace(a, h, ready);
      q := DuePlace(b, g, ready);
      DueUpToGrows(a + 1, b, ready);
    }

    method CollectKind(k: Kind, waited: PerKind<seq<Ptr>>, ready: set<Ptr>, soFar: seq<Handle>)
      returns (found: seq<Handle>)
      requires WaitedFor(own.At(k), waited.At(k)) && NULL !in ready
      ensures found == soFar + Filter(own.At(k), ready)
    {
      MatchesAreFiltered(own.At(k), waited.At(k), ready);
      found := CollectByType(Masked(waited.At(k), ready), own.At(k), soFar);
    }

    method TakeReadyHandles() returns (taken: seq<Handle>)
      modifies this`readyHandles
      ensures taken == old(readyHandles) && readyHandles == []
    {
      taken := readyHandles;
      readyHandles := [];
    }

    /** Replaces all vectors and exchanges the sum; `wake` says whether the waiter gets a token. */
    method SynchronizeHandles(vectors: PerKind<seq<Handle>>, clients: seq<Action>, servers: seq<Action>)
      returns (wake: bool)
      modifies this`own, this`actionClients, this`actionServers, this`sum
      ensures own == vectors && actionClients == clients && actionServers == servers
      ensures sum == 0 <==> own == Same([]) && actionClients == [] && actionServers == []
      ensures sum == |vectors.timers| + |vectors.subscriptions| + |vectors.clients| + |vectors.services|
                     + |vectors.guards| + |vectors.events| + |clients| + |servers|
      ensures wake <==> old(sum) == 0 && sum > 0
    {
      own, actionClients, actionServers := vectors, clients, servers;
      var now := |own.timers| + |own.subscriptions| + |own.clients| + |own.services| + |own.guards|
                 + |actionClients| + |actionServers| + |own.events|;
      wake := sum == 0 && now > 0;
      sum := now;
    }
  }

  function Plus(counts: PerKind<nat>, a: Action): PerKind<nat> {
    PerKind(counts.subscriptions + |a.subscriptions|, counts.guards + |a.guards|,
            counts.timers + |a.timers|, counts.clients + |a.clients|,
            counts.services + |a.services|, counts.events)
  }

  /** What the first actions need is part of what all need, and the next action comes right after. */
  lemma {:induction false} PartsOfPrefix(actions: seq<Action>, i: nat)
    requires i < |actions|
    ensures forall k: Kind :: PartsOf(actions[..i + 1], k) == PartsOf(actions[..i], k) + actions[i].Parts(k)
    ensures forall k: Kind :: |PartsOf(actions[..i + 1], k)| <= |PartsOf(actions, k)|
    decreases |actions|
  {
    assert actions[..i + 1][..i] == actions[..i];
    if i + 1 == |actions| {
      assert actions[..i + 1] == actions;
    } else {
      var shorter := actions[..|actions| - 1];
      PartsOfPrefix(shorter, i);
      assert shorter[..i + 1] == actions[..i + 1];
    }
  }

  predicate AllIn(handles: seq<Handle>, row: seq<Ptr>) {
    forall i | 0 <= i < |handles| :: handles[i].ptr in row
  }

  predicate PartsIn(a: Action, rows: PerKind<seq<Ptr>>) {
    && (forall i | 0 <= i < |a.timers| :: a.timers[i] in rows.timers)
    && (forall i | 0 <= i < |a.subscriptions| :: a.subscriptions[i] in rows.subscriptions)
    && (forall i | 0 <= i < |a.clients| :: a.clients[i] in rows.clients)
    && (forall i | 0 <= i < |a.services| :: a.services[i] in rows.services)
    && (forall i | 0 <= i < |a.guards| :: a.guards[i] in rows.guards)
  }

  lemma PartsReachRows(actions: seq<Action>, rows: PerKind<seq<Ptr>>)
    requires forall k: Kind, p | p in PartsOf(actions, k) :: p in rows.At(k)
    ensures forall a | a in actions :: PartsIn(a, rows)
  {
    forall j | 0 <= j < |actions|
      ensures PartsIn(actions[j], rows)
    {
      forall k: Kind, i | 0 <= i < |actions[j].Parts(k)|
        ensures actions[j].Parts(k)[i] in rows.At(k)
      {
        PartsOfHolds(actions, j, k, i);
      }
      PartsByKind(actions[j], rows);
    }
  }

  lemma PartsByKind(a: Action, rows: PerKind<seq<Ptr>>)
    requires forall k: Kind, i | 0 <= i < |a.Parts(k)| :: a.Parts(k)[i] in rows.At(k)
    ensures PartsIn(a, rows)
  {
    assert forall i | 0 <= i < |a.timers| :: a.Parts(Timers)[i] == a.timers[i];
    assert forall i | 0 <= i < |a.subscriptions| :: a.Parts(Subscriptions)[i] == a.subscriptions[i];
    assert forall i | 0 <= i < |a.clients| :: a.Parts(Clients)[i] == a.clients[i];
    assert forall i | 0 <= i < |a.services| :: a.Parts(Services)[i] == a.services[i];
    assert forall i | 0 <= i < |a.guards| :: a.Parts(GuardConditions)[i] == a.guards[i];
  }

  lemma {:induction false} PartsOfHolds(actions: seq<Action>, j: nat, k: Kind, i: nat)
    requires j < |actions| && i < |actions[j].Parts(k)|
    ensures actions[j].Parts(k)[i] in PartsOf(actions, k)
    decreases |actions|
  {
    if j < |actions| - 1 {
      PartsOfHolds(actions[..|actions| - 1], j, k, i);
    }
  }

  /** What is added while a list of actions is being worked off. */
  lemma GrownPart(before: seq<Ptr>, row: seq<Ptr>, actions: seq<Action>, i: nat, k: Kind)
    requires i < |actions|
    requires Grown(before + PartsOf(actions[..i], k), row, actions[i].Parts(k))
    ensures Grown(before, row, PartsOf(actions, k))
  {
    GrownAfter(before, PartsOf(actions[..i], k), row, actions[i].Parts(k));
    PartsOfPrefix(actions, i);
    PartsArePrefix(actions, i + 1, k);
  }

  lemma {:induction false} PartsArePrefix(actions: seq<Action>, n: nat, k: Kind)
    requires n <= |actions|
    ensures PartsOf(actions[..n], k) <= PartsOf(actions, k)
    decreases |actions|
  {
    if n == |actions| {
      assert actions[..n] == actions;
    } else {
      var shorter := actions[..|actions| - 1];
      PartsArePrefix(shorter, n, k);
      assert shorter[..n] == actions[..n];
    }
  }

  lemma {:induction false} NoEventParts(actions: seq<Action>)
    ensures PartsOf(actions, Events) == []
  {
    if actions != [] {
      NoEventParts(actions[..|actions| - 1]);
    }
  }

  function Interrupt(k: Kind, background: bool, interrupt: Ptr): seq<Ptr> {
    if k.GuardConditions? && background then [interrupt] else []
  }

  ghost predicate NoDuplicates(ps: seq<Ptr>) {
    forall i, j | 0 <= i < j < |ps| :: ps[i] != ps[j]
  }

  // ----- Collection -----

  /** The handles whose entity is ready, in order. */
  function Filter(handles: seq<Handle>, ready: set<Ptr>): seq<Handle> {
    if handles == [] then []
    else (if handles[0].ptr in ready then [handles[0]] else []) + Filter(handles[1..], ready)
  }

  /** A handle is due as often as it is registered if its entity is ready, and not at all otherwise. */
  lemma {:induction false} FilterIsExact(handles: seq<Handle>, ready: set<Ptr>, h: Handle)
    ensures multiset(Filter(handles, ready))[h] == if h.ptr in ready then multiset(handles)[h] else 0
  {
    if handles != [] {
      FilterIsExact(handles[1..], ready, h);
      assert handles == [handles[0]] + handles[1..];
    }
  }

  // ----- What is due -----

  /** The handle is registered in one of the six vectors and its entity is ready, or it is that of a ready action. */
  ghost predicate IsDue(own: PerKind<seq<Handle>>, clients: seq<Action>, servers: seq<Action>, h: Handle, ready: set<Ptr>) {
    || (h.ptr in ready &&
        (h in own.timers || h in own.subscriptions || h in own.clients || h in own.services || h in own.guards
         || h in own.events))
    || HasReady(clients, h, ready) || HasReady(servers, h, ready)
  }

  /** How often it is. */
  ghost function TimesDue(own: PerKind<seq<Handle>>, clients: seq<Action>, servers: seq<Action>, h: Handle,
                          ready: set<Ptr>): nat
  {
    (if h.ptr in ready then
       multiset(own.timers)[h] + multiset(own.subscriptions)[h] + multiset(own.clients)[h]
       + multiset(own.services)[h] + multiset(own.guards)[h] + multiset(own.events)[h]
     else 0)
    + TimesReady(clients, h, ready) + TimesReady(servers, h, ready)
  }

  ghost predicate SomethingDue(own: PerKind<seq<Handle>>, clients: seq<Action>, servers: seq<Action>, ready: set<Ptr>) {
    exists h :: IsDue(own, clients, servers, h, ready)
  }

  ghost predicate DueExactly(found: seq<Handle>, own: PerKind<seq<Handle>>, clients: seq<Action>, servers: seq<Action>,
                             h: Handle, ready: set<Ptr>) {
    && (h in found <==> IsDue(own, clients, servers, h, ready))
    && multiset(found)[h] == TimesDue(own, clients, servers, h, ready)
  }

  /** Found is every handle that is due, as often as it is, and no other. */
  ghost predicate ExactlyDue(found: seq<Handle>, own: PerKind<seq<Handle>>, clients: seq<Action>, servers: seq<Action>,
                             ready: set<Ptr>) {
    forall h :: DueExactly(found, own, clients, servers, h, ready)
  }

  lemma DueIfTimes(own: PerKind<seq<Handle>>, clients: seq<Action>, servers: seq<Action>, h: Handle, ready: set<Ptr>)
    ensures TimesDue(own, clients, servers, h, ready) > 0 <==> IsDue(own, clients, servers, h, ready)
  {
    ReadyTimes(clients, h, ready);
    ReadyTimes(servers, h, ready);
  }

  lemma NothingDue(found: seq<Handle>, own: PerKind<seq<Handle>>, clients: seq<Action>, servers: seq<Action>, ready: set<Ptr>)
    requires ExactlyDue(found, own, clients, servers, ready)
    ensures found == [] <==> !SomethingDue(own, clients, servers, ready)
  {
    if found != [] {
      assert DueExactly(found, own, clients, servers, found[0], ready);
    }
    if h :| IsDue(own, clients, servers, h, ready) {
      assert DueExactly(found, own, clients, servers, h, ready);
    }
  }

  lemma InMultiset<T>(s: seq<T>, x: T)
    ensures x in s <==> multiset(s)[x] > 0
  {
    assert x in s <==> x in multiset(s);
  }

  predicate Rising(places: seq<nat>) {
    forall k, l | 0 <= k < l < |places| :: places[k] < places[l]
  }

  /** These handles, in this order. */
  predicate Picks(picked: seq<Handle>, handles: seq<Handle>, places: seq<nat>) {
    |places| == |picked| && forall k | 0 <= k < |places| :: places[k] < |handles| && handles[places[k]] == picked[k]
  }

  function Later(places: seq<nat>): (r: seq<nat>)
    ensures |r| == |places| && forall k | 0 <= k < |r| :: r[k] == places[k] + 1
  {
    if places == [] then [] else [places[0] + 1] + Later(places[1..])
  }

  /** Handles that are due keep the order in which they are registered. */
  lemma {:induction false} FilterKeepsOrder(handles: seq<Handle>, ready: set<Ptr>) returns (places: seq<nat>)
    ensures Picks(Filter(handles, ready), handles, places) && Rising(places)
  {
    if handles == [] {
      places := [];
    } else {
      var rest := FilterKeepsOrder(handles[1..], ready);
      OneEarlier(handles, Filter(handles[1..], ready), rest);
      places := Later(rest);
      if handles[0].ptr in ready {
        OneInFront(handles, Filter(handles[1..], ready), places);
        places := [0] + places;
      }
    }
  }

  lemma OneEarlier(handles: seq<Handle>, picked: seq<Handle>, places: seq<nat>)
    requires handles != [] && Picks(picked, handles[1..], places) && Rising(places)
    ensures Picks(picked, handles, Later(places)) && Rising(Later(places))
  {
    forall k | 0 <= k < |places|
      ensures handles[Later(places)[k]] == picked[k]
    {
      assert handles[1..][places[k]] == picked[k];
    }
  }

  lemma OneInFront(handles: seq<Handle>, picked: seq<Handle>, places: seq<nat>)
    requires handles != [] && Picks(picked, handles, places) && Rising(places) && forall k | 0 <= k < |places| :: places[k] > 0
    ensures Picks([handles[0]] + picked, handles, [0] + places) && Rising([0] + places)
  {
  }

  /** Some part of the action, of whatever kind, is ready. */
  predicate ReadyPart(a: Action, ready: set<Ptr>) {
    || (exists i | 0 <= i < |a.timers| :: a.timers[i] in ready)
    || (exists i | 0 <= i < |a.subscriptions| :: a.subscriptions[i] in ready)
    || (exists i | 0 <= i < |a.clients| :: a.clients[i] in ready)
    || (exists i | 0 <= i < |a.services| :: a.services[i] in ready)
    || (exists i | 0 <= i < |a.guards| :: a.guards[i] in ready)
  }

  lemma AnyReadyIff(a: Action, ready: set<Ptr>)
    ensures a.AnyReady(ready) <==> ReadyPart(a, ready)
  {
    assert a.Parts(Timers) == a.timers && a.Parts(Subscriptions) == a.subscriptions && a.Parts(Clients) == a.clients;
    assert a.Parts(Services) == a.services && a.Parts(GuardConditions) == a.guards && a.Parts(Events) == [];
    if k: Kind, i :| 0 <= i < |a.Parts(k)| && a.Parts(k)[i] in ready {
      match k
      case Subscriptions => assert a.subscriptions[i] in ready;
      case GuardConditions => assert a.guards[i] in ready;
      case Timers => assert a.timers[i] in ready;
      case Clients => assert a.clients[i] in ready;
      case Services => assert a.services[i] in ready;
      case Events =>
    }
  }

  predicate HasReady(actions: seq<Action>, h: Handle, ready: set<Ptr>) {
    exists i | 0 <= i < |actions| :: actions[i].handle == h && ReadyPart(actions[i], ready)
  }

  /** How many of the actions have this handle and a ready part. */
  function TimesReady(actions: seq<Action>, h: Handle, ready: set<Ptr>): nat {
    if actions == [] then 0
    else (if actions[0].handle == h && ReadyPart(actions[0], ready) then 1 else 0) + TimesReady(actions[1..], h, ready)
  }

  lemma {:induction false} ReadyTimes(actions: seq<Action>, h: Handle, ready: set<Ptr>)
    ensures TimesReady(actions, h, ready) > 0 <==> HasReady(actions, h, ready)
  {
    if actions != [] {
      ReadyTimes(actions[1..], h, ready);
      if i :| 0 <= i < |actions| && actions[i].handle == h && ReadyPart(actions[i], ready) {
        assert i > 0 ==> actions[1..][i - 1] == actions[i];
      }
    }
  }

  lemma {:induction false} FilterActionsIsExact(actions: seq<Action>, ready: set<Ptr>, h: Handle)
    ensures multiset(FilterActions(actions, ready))[h] == TimesReady(actions, h, ready)
  {
    if actions != [] {
      AnyReadyIff(actions[0], ready);
      FilterActionsIsExact(actions[1..], ready, h);
    }
  }

  function FilterActions(actions: seq<Action>, ready: set<Ptr>): seq<Handle> {
    if actions == [] then []
    else (if actions[0].AnyReady(ready) then [actions[0].handle] else []) + FilterActions(actions[1..], ready)
  }

  /** The handles pointing to one entity, in order. */
  function Pointing(handles: seq<Handle>, p: Ptr): seq<Handle> {
    if handles == [] then []
    else (if handles[0].ptr == p then [handles[0]] else []) + Pointing(handles[1..], p)
  }

  function Matches(slots: seq<Option<Ptr>>, handles: seq<Handle>): seq<Handle> {
    if slots == [] then []
    else (if slots[0].Some? then Pointing(handles, slots[0].value) else []) + Matches(slots[1..], handles)
  }

  /** The nested loops: every remaining slot against every handle. */
  method CollectByType(slots: seq<Option<Ptr>>, handles: seq<Handle>, soFar: seq<Handle>) returns (found: seq<Handle>)
    ensures found == soFar + Matches(slots, handles)
  {
    found := soFar;
    for i := 0 to |slots|
      invariant found + Matches(slots[i..], handles) == soFar + Matches(slots, handles)
    {
      assert slots[i..][1..] == slots[i + 1..];
      if slots[i].Some? {
        ghost var before := found;
        for j := 0 to |handles|
          invariant found + Pointing(handles[j..], slots[i].value) == before + Pointing(handles, slots[i].value)
        {
          assert handles[j..][1..] == handles[j + 1..];
          if slots[i].value == handles[j].ptr {
            found := found + [handles[j]];
          }
        }
        assert found == before + Pointing(handles, slots[i].value);
      }
    }
  }

  method CollectActions(actions: seq<Action>, ready: set<Ptr>, soFar: seq<Handle>) returns (found: seq<Handle>)
    ensures found == soFar + FilterActions(actions, ready)
  {
    found := soFar;
    for i := 0 to |actions|
      invariant found + FilterActions(actions[i..], ready) == soFar + FilterActions(actions, ready)
    {
      assert actions[i..][1..] == actions[i + 1..];
      if actions[i].AnyReady(ready) {
        found := found + [actions[i].handle];
      }
    }
  }

  /** An entity no handle points to matches nothing. */
  lemma {:induction false} StrangersMatchNothing(slots: seq<Option<Ptr>>, handles: seq<Handle>)
    requires forall i, j | 0 <= i < |slots| && 0 <= j < |handles| :: slots[i] != Some(handles[j].ptr)
    ensures Matches(slots, handles) == []
  {
    if slots != [] {
      if slots[0].Some? {
        NonePointing(handles, slots[0].value);
      }
      StrangersMatchNothing(slots[1..], handles);
    }
  }

  lemma {:induction false} NonePointing(handles: seq<Handle>, p: Ptr)
    requires forall j | 0 <= j < |handles| :: handles[j].ptr != p
    ensures Pointing(handles, p) == []
  {
    if handles != [] {
      NonePointing(handles[1..], p);
    }
  }

  /**
   A row as it was filled: the handles' own entities first, all distinct and none null. The pointer of
   a handle may have been cleared since.
   */
  ghost predicate WaitedFor(handles: seq<Handle>, row: seq<Ptr>) {
    && |handles| <= |row| && NoDuplicates(row) && NULL !in row
    && forall i | 0 <= i < |handles| :: handles[i].ptr == row[i] || handles[i].ptr == NULL
  }

  /** What `FillWaitSet` puts into a row is waited for, whichever pointers are cleared afterwards. */
  lemma FilledIsWaitedFor(filled: seq<Handle>, rest: seq<Ptr>, cleared: set<nat>, handles: seq<Handle>)
    requires NoDuplicates(Ptrs(filled) + rest) && NULL !in Ptrs(filled) + rest
    requires |handles| == |filled|
    requires forall i | 0 <= i < |filled| ::
               handles[i] == if filled[i].id in cleared then filled[i].(ptr := NULL) else filled[i]
    ensures WaitedFor(handles, Ptrs(filled) + rest)
  {
    assert forall i | 0 <= i < |filled| :: (Ptrs(filled) + rest)[i] == filled[i].ptr;
  }

  lemma {:induction false} OnePointing(handles: seq<Handle>, row: seq<Ptr>, i: nat)
    requires WaitedFor(handles, row) && i < |handles|
    ensures Pointing(handles, row[i]) == if handles[i].ptr == row[i] then [handles[i]] else []
  {
    if i == 0 {
      assert forall j | 0 <= j < |handles[1..]| :: handles[1..][j] == handles[j + 1] && row[j + 1] != row[0];
      NonePointing(handles[1..], row[0]);
    } else {
      assert handles[0].ptr == NULL || row[0] != row[i];
      OnePointing(handles[1..], row[1..], i - 1);
    }
  }

  /** From position `n` on, the slots match the ready handles in order. */
  lemma {:induction false} OwnSlotsMatch(handles: seq<Handle>, row: seq<Ptr>, n: nat, ready: set<Ptr>)
    requires WaitedFor(handles, row) && NULL !in ready && n <= |handles|
    ensures Matches(Masked(row, ready)[n..], handles) == Filter(handles[n..], ready)
    decreases |handles| - n
  {
    var slots := Masked(row, ready);
    if n < |handles| {
      OwnSlotsMatch(handles, row, n + 1, ready);
      OnePointing(handles, row, n);
      assert slots[n..][1..] == slots[n + 1..] && handles[n..][1..] == handles[n + 1..];
    } else {
      StrangersMatchNothing(slots[n..], handles);
    }
  }

  /** The nested loops collect exactly the ready handles of the vector: in order, each once. */
  lemma MatchesAreFiltered(handles: seq<Handle>, row: seq<Ptr>, ready: set<Ptr>)
    requires WaitedFor(handles, row) && NULL !in ready
    ensures Matches(Masked(row, ready), handles) == Filter(handles, ready)
  {
    OwnSlotsMatch(handles, row, 0, ready);
    assert Masked(row, ready)[0..] == Masked(row, ready) && handles[0..] == handles;
  }
}
