/**
 The callback index of `lib/parameter_event_handler.js` against a plain list of registrations.

 Callbacks may add and remove callbacks and destroy the handler while an event is being dispatched.
 */
module ParameterEventHandlers {
  import opened JavaScript
  import opened Optional

  // ----- Names and keys -----

  predicate NulFree(s: string) {
    '\0' !in s
  }

  /** What arrives in an event has gone through C strings. */
  type Name = s: string | NulFree(s) witness ""

  function TrimStart(s: string): string {
    if s != [] && IsSpace(s[0]) then TrimStart(s[1..]) else s
  }

  function TrimEnd(s: string): string {
    if s != [] && IsSpace(s[|s| - 1]) then TrimEnd(s[..|s| - 1]) else s
  }

  function Trim(s: string): string {
    TrimEnd(TrimStart(s))
  }

  /** `normalizeNodeName`: one leading slash goes. */
  function Normalize(node: string): (r: string)
    ensures NulFree(node) ==> NulFree(r)
  {
    if node != "" && node[0] == '/' then node[1..] else node
  }

  /** One slash in front goes, and nothing else. */
  lemma NormalizeIs(node: string)
    ensures Normalize("/" + node) == node
    ensures (node == "" || node[0] != '/') ==> Normalize(node) == node
  {
    assert ("/" + node)[1..] == node;
  }

  /** A name is its trimmed form between spaces, and the trimmed form has none at its ends. */
  lemma {:induction false} TrimIs(s: string) returns (before: string, after: string)
    ensures s == before + Trim(s) + after && IsBlank(before) && IsBlank(after)
    ensures Trim(s) != "" ==> !IsSpace(Trim(s)[0]) && !IsSpace(Trim(s)[|Trim(s)| - 1])
    ensures IsBlank(s) <==> Trim(s) == ""
  {
    before := TrimStartIs(s);
    after := TrimEndIs(TrimStart(s));
    var t := TrimStart(s);
    if Trim(s) != "" {
      assert Trim(s)[0] == t[0];
      assert s[|before|] == t[0];
    }
  }

  lemma {:induction false} TrimStartIs(s: string) returns (before: string)
    ensures s == before + TrimStart(s) && IsBlank(before) && (TrimStart(s) != "" ==> !IsSpace(TrimStart(s)[0]))
  {
    if s != [] && IsSpace(s[0]) {
      before := TrimStartIs(s[1..]);
      before := [s[0]] + before;
    } else {
      before := "";
    }
  }

  lemma {:induction false} TrimEndIs(s: string) returns (after: string)
    ensures s == TrimEnd(s) + after && IsBlank(after)
    ensures TrimEnd(s) != "" ==> !IsSpace(TrimEnd(s)[|TrimEnd(s)| - 1])
  {
    if s != [] && IsSpace(s[|s| - 1]) {
      after := TrimEndIs(s[..|s| - 1]);
      after := after + [s[|s| - 1]];
    } else {
      after := "";
    }
  }

  function Key(param: string, node: string): string {
    param + "\0" + node
  }

  /** The key of names that arrive in an event belongs to no other pair of names, whatever those are. */
  lemma KeyIsInjective(p: string, n: string, p': Name, n': Name)
    ensures Key(p, n) == Key(p', n') <==> p == p' && n == n'
  {
    if Key(p, n) == Key(p', n') {
      assert Key(p', n')[|p|] == '\0';
      assert |p| == |p'|;
      assert Key(p, n)[..|p|] == p && Key(p', n')[..|p'|] == p';
      assert Key(p, n)[|p| + 1..] == n && Key(p', n')[|p'| + 1..] == n';
    }
  }

  /** Two registrations can share a key when both have NUL in a name. */
  lemma KeysCanClash()
    ensures exists p: string, n, p': string, n' :: Key(p, n) == Key(p', n') && p != p'
  {
    assert Key("a\0b", "c") == "a\0b\0c" == Key("a", "b\0c");
  }

  // ----- The plain list -----

  datatype Handle = Handle(id: nat, param: string, node: string, callback: nat)

  datatype EventHandle = EventHandle(id: nat, callback: nat)

  datatype Message = Message(name: Name, value: int)

  datatype Event = Event(node: Name, added: seq<Message>, changed: seq<Message>, deleted: seq<Message>)

  datatype Call = ParameterCall(handle: Handle, message: Message) | EventCall(eventHandle: EventHandle, event: Event)

  /** What user code may do to the handler. */
  datatype Edit =
    | AddParameter(param: string, node: string, callback: nat)
    | RemoveParameter(handle: Handle)
    | AddEvent(eventCallback: nat)
    | RemoveEvent(eventHandle: EventHandle)
    | Destroy

  /** What a callback does at a call, given all calls before it. */
  type Reactions = (Call, seq<Call>) -> seq<Edit>

  /** Live registrations, newest first, and all calls made. */
  datatype State = State(live: seq<Handle>, events: seq<EventHandle>, destroyed: bool, nextId: nat, log: seq<Call>)

  function Without<T(==)>(s: seq<T>, x: T): seq<T> {
    if s == [] then [] else if s[0] == x then s[1..] else [s[0]] + Without(s[1..], x)
  }

  /** `None` if the edit throws. */
  function Apply(s: State, edit: Edit): Option<State> {
    if edit == Destroy then Some(s.(live := [], events := [], destroyed := true))
    else if s.destroyed then None
    else match edit
      case AddParameter(param, node, callback) =>
        if IsBlank(param) || IsBlank(node) then None
        else Some(s.(live := [Handle(s.nextId, Trim(param), Normalize(node), callback)] + s.live, nextId := s.nextId + 1))
      case RemoveParameter(h) => if h in s.live then Some(s.(live := Without(s.live, h))) else None
      case AddEvent(callback) =>
        Some(s.(events := [EventHandle(s.nextId, callback)] + s.events, nextId := s.nextId + 1))
      case RemoveEvent(h) => if h in s.events then Some(s.(events := Without(s.events, h))) else None
  }

  /** A callback runs until its first exception, which the handler swallows. */
  function ApplyAll(s: State, edits: seq<Edit>): State
    decreases edits
  {
    if edits == [] then s
    else match Apply(s, edits[0])
      case None => s
      case Some(s') => ApplyAll(s', edits[1..])
  }

  function Invoke(s: State, react: Reactions, call: Call): State {
    ApplyAll(s.(log := s.log + [call]), react(call, s.log))
  }

  function InvokeAll(s: State, react: Reactions, calls: seq<Call>): State
    decreases calls
  {
    if calls == [] then s else InvokeAll(Invoke(s, react, calls[0]), react, calls[1..])
  }

  /** A linear scan of all registrations. */
  function Scan(live: seq<Handle>, param: string, node: string): seq<Handle> {
    if live == [] then []
    else (if live[0].param == param && live[0].node == node then [live[0]] else []) + Scan(live[1..], param, node)
  }

  function ParameterCalls(handles: seq<Handle>, m: Message): (calls: seq<Call>)
    ensures |calls| == |handles| && forall i | 0 <= i < |calls| :: calls[i] == ParameterCall(handles[i], m)
  {
    seq(|handles|, i requires 0 <= i < |handles| => ParameterCall(handles[i], m))
  }

  function EventCalls(handles: seq<EventHandle>, e: Event): (calls: seq<Call>)
    ensures |calls| == |handles| && forall i | 0 <= i < |calls| :: calls[i] == EventCall(handles[i], e)
  {
    seq(|handles|, i requires 0 <= i < |handles| => EventCall(handles[i], e))
  }

  /** For each message the callbacks that are registered when its turn comes. */
  function Dispatch(s: State, react: Reactions, node: string, messages: seq<Message>): State
    decreases messages
  {
    if messages == [] then s
    else
      var calls := ParameterCalls(Scan(s.live, messages[0].name, node), messages[0]);
      Dispatch(InvokeAll(s, react, calls), react, node, messages[1..])
  }

  function HandleEvent(s: State, react: Reactions, e: Event): State {
    var s' := Dispatch(s, react, Normalize(e.node), e.added + e.changed);
    InvokeAll(s', react, EventCalls(s'.events, e))
  }

  // ----- What scans and edits are -----

  /** A scan finds every registration for the two names, as often as it is live, and no other. */
  lemma {:induction false} ScanIsExact(live: seq<Handle>, param: string, node: string, h: Handle)
    ensures multiset(Scan(live, param, node))[h] == if h.param == param && h.node == node then multiset(live)[h] else 0
  {
    if live != [] {
      assert live == [live[0]] + live[1..];
      ScanIsExact(live[1..], param, node, h);
    }
  }

  /** What a scan finds is in the order of the registrations. */
  lemma {:induction false} ScanKeepsOrder(a: seq<Handle>, b: seq<Handle>, param: string, node: string)
    ensures Scan(a + b, param, node) == Scan(a, param, node) + Scan(b, param, node)
  {
    if a == [] {
      assert a + b == b;
    } else {
      assert (a + b)[1..] == a[1..] + b;
      ScanKeepsOrder(a[1..], b, param, node);
    }
  }

  /** Removing takes the first one that is equal, and nothing else. */
  lemma {:induction false} WithoutIs<T>(s: seq<T>, x: T, i: nat)
    requires i <= |s| && (forall k | 0 <= k < i :: s[k] != x) && (i < |s| ==> s[i] == x)
    ensures Without(s, x) == if i < |s| then s[..i] + s[i + 1..] else s
  {
    if 0 < i {
      WithoutIs(s[1..], x, i - 1);
    }
  }

  /** A callback gets as far with its edits as none throws; what it did until then stays. */
  predicate GetsThrough(states: seq<State>, edits: seq<Edit>) {
    && 0 < |states| <= |edits| + 1
    && (forall i | 0 <= i < |states| - 1 :: Apply(states[i], edits[i]) == Some(states[i + 1]))
    && (|states| <= |edits| ==> Apply(states[|states| - 1], edits[|states| - 1]) == None)
  }

  lemma {:induction false} EditsGetThrough(s: State, edits: seq<Edit>) returns (states: seq<State>)
    ensures GetsThrough(states, edits) && states[0] == s && states[|states| - 1] == ApplyAll(s, edits)
    decreases edits
  {
    states := [s];
    if edits != [] && Apply(s, edits[0]).Some? {
      var more := EditsGetThrough(Apply(s, edits[0]).value, edits[1..]);
      states := [s] + more;
    }
  }

  // ----- What the calls of an event are -----

  lemma {:induction false} EditsCallNothing(s: State, edits: seq<Edit>)
    ensures ApplyAll(s, edits).log == s.log
    decreases edits
  {
    if edits != [] && Apply(s, edits[0]).Some? {
      EditsCallNothing(Apply(s, edits[0]).value, edits[1..]);
    }
  }

  /** A list of callbacks, once picked, is called as it is, whatever the callbacks change. */
  lemma {:induction false} PickedAreCalled(s: State, react: Reactions, calls: seq<Call>)
    ensures InvokeAll(s, react, calls).log == s.log + calls
    decreases calls
  {
    if calls != [] {
      EditsCallNothing(s.(log := s.log + [calls[0]]), react(calls[0], s.log));
      PickedAreCalled(Invoke(s, react, calls[0]), react, calls[1..]);
    }
  }

  /** A call is noted, and then the callback gets through its edits. */
  ghost predicate Called(s: State, s': State, react: Reactions, call: Call) {
    exists path: seq<State> :: GetsThrough(path, react(call, s.log)) && path[0] == s.(log := s.log + [call]) && path[|path| - 1] == s'
  }

  /** The calls are made one after the other, whatever the callbacks edit. */
  ghost predicate InTurn(states: seq<State>, react: Reactions, calls: seq<Call>) {
    |states| == |calls| + 1 && forall i | 0 <= i < |calls| :: Called(states[i], states[i + 1], react, calls[i])
  }

  ghost predicate OneByOne(s: State, s': State, react: Reactions, calls: seq<Call>) {
    exists states: seq<State> :: InTurn(states, react, calls) && states[0] == s && states[|calls|] == s'
  }

  lemma InvokeIsCall(s: State, react: Reactions, call: Call)
    ensures Called(s, Invoke(s, react, call), react, call)
  {
    var path := EditsGetThrough(s.(log := s.log + [call]), react(call, s.log));
  }

  lemma {:induction false} CalledInTurn(s: State, react: Reactions, calls: seq<Call>) returns (states: seq<State>)
    ensures InTurn(states, react, calls) && states[0] == s && states[|calls|] == InvokeAll(s, react, calls)
    decreases calls
  {
    if calls == [] {
      states := [s];
    } else {
      InvokeIsCall(s, react, calls[0]);
      var more := CalledInTurn(Invoke(s, react, calls[0]), react, calls[1..]);
      states := [s] + more;
    }
  }

  lemma InvokedOneByOne(s: State, react: Reactions, calls: seq<Call>)
    ensures OneByOne(s, InvokeAll(s, react, calls), react, calls)
  {
    var states := CalledInTurn(s, react, calls);
  }

  /** For message `i`, the callbacks are called that a scan finds when its turn comes. */
  ghost predicate Round(states: seq<State>, react: Reactions, messages: seq<Message>, node: string, i: nat)
    requires i < |messages| && i + 1 < |states|
  {
    OneByOne(states[i], states[i + 1], react, ParameterCalls(Scan(states[i].live, messages[i].name, node), messages[i]))
  }

  ghost predicate Rounds(states: seq<State>, react: Reactions, messages: seq<Message>, node: string) {
    |states| == |messages| + 1 && forall i | 0 <= i < |messages| :: Round(states, react, messages, node, i)
  }

  lemma {:induction false} DispatchRounds(s: State, react: Reactions, node: string, messages: seq<Message>)
    returns (states: seq<State>)
    ensures Rounds(states, react, messages, node) && states[0] == s && states[|messages|] == Dispatch(s, react, node, messages)
    decreases messages
  {
    if messages == [] {
      states := [s];
    } else {
      var calls := ParameterCalls(Scan(s.live, messages[0].name, node), messages[0]);
      InvokedOneByOne(s, react, calls);
      var rest := messages[1..];
      var more := DispatchRounds(InvokeAll(s, react, calls), react, node, rest);
      states := [s] + more;
      forall i | 0 <= i < |messages|
        ensures Round(states, react, messages, node, i)
      {
        assert i > 0 ==> Round(more, react, rest, node, i - 1);
      }
    }
  }

  /**
   Whatever callbacks do to the handler: one round per new parameter, then one per changed one, and none
   per deleted one; then the event callbacks that are registered by that time.
   */
  lemma EventRounds(s: State, react: Reactions, e: Event) returns (states: seq<State>)
    ensures Rounds(states, react, e.added + e.changed, Normalize(e.node)) && states[0] == s
    ensures var last := states[|e.added + e.changed|];
            OneByOne(last, HandleEvent(s, react, e), react, EventCalls(last.events, e))
  {
    states := DispatchRounds(s, react, Normalize(e.node), e.added + e.changed);
    var last := states[|e.added + e.changed|];
    InvokedOneByOne(last, react, EventCalls(last.events, e));
  }

  predicate Gone(s: State) {
    s.destroyed && s.live == [] && s.events == []
  }

  /** A destroyed handler calls nobody. */
  lemma DestroyedIsSilent(s: State, react: Reactions, e: Event)
    requires Gone(s)
    ensures HandleEvent(s, react, e) == s
  {
    DestroyedDispatch(s, react, Normalize(e.node), e.added + e.changed);
  }

  lemma {:induction false} DestroyedDispatch(s: State, react: Reactions, node: string, messages: seq<Message>)
    requires Gone(s)
    ensures Dispatch(s, react, node, messages) == s
    decreases messages
  {
    if messages != [] {
      assert ParameterCalls(Scan(s.live, messages[0].name, node), messages[0]) == [];
      DestroyedDispatch(s, react, node, messages[1..]);
    }
  }

  function ScanCalls(live: seq<Handle>, node: string, messages: seq<Message>): seq<Call> {
    if messages == [] then []
    else ParameterCalls(Scan(live, messages[0].name, node), messages[0]) + ScanCalls(live, node, messages[1..])
  }

  predicate Passive(react: Reactions, calls: seq<Call>, log: seq<Call>) {
    forall i | 0 <= i < |calls| :: react(calls[i], log + calls[..i]) == []
  }

  lemma {:induction false} PassiveInvokeAll(s: State, react: Reactions, calls: seq<Call>)
    requires Passive(react, calls, s.log)
    ensures InvokeAll(s, react, calls) == s.(log := s.log + calls)
    decreases calls
  {
    if calls == [] {
      assert s.log + calls == s.log;
    } else {
      assert s.log + calls[..0] == s.log;
      var s' := s.(log := s.log + [calls[0]]);
      assert Invoke(s, react, calls[0]) == s';
      forall i | 0 <= i < |calls[1..]|
        ensures react(calls[1..][i], s'.log + calls[1..][..i]) == []
      {
        assert calls[..i + 1] == [calls[0]] + calls[1..][..i];
        assert s'.log + calls[1..][..i] == s.log + calls[..i + 1];
      }
      PassiveInvokeAll(s', react, calls[1..]);
      assert s'.log + calls[1..] == s.log + calls;
    }
  }

  /** Of two lists of calls one after the other, both are passive where they start. */
  lemma PassiveParts(react: Reactions, first: seq<Call>, rest: seq<Call>, log: seq<Call>)
    requires Passive(react, first + rest, log)
    ensures Passive(react, first, log) && Passive(react, rest, log + first)
  {
    var all := first + rest;
    forall i | 0 <= i < |first|
      ensures react(first[i], log + first[..i]) == []
    {
      assert all[..i] == first[..i] && all[i] == first[i];
    }
    forall i | 0 <= i < |rest|
      ensures react(rest[i], log + first + rest[..i]) == []
    {
      var k := |first| + i;
      assert log + first + rest[..i] == log + all[..k] && all[k] == rest[i];
    }
  }

  lemma {:induction false} PassiveDispatch(s: State, react: Reactions, node: string, messages: seq<Message>)
    requires Passive(react, ScanCalls(s.live, node, messages), s.log)
    ensures Dispatch(s, react, node, messages) == s.(log := s.log + ScanCalls(s.live, node, messages))
    decreases messages
  {
    if messages == [] {
      assert s.log + [] == s.log;
    } else {
      var first := ParameterCalls(Scan(s.live, messages[0].name, node), messages[0]);
      var rest := ScanCalls(s.live, node, messages[1..]);
      PassiveParts(react, first, rest, s.log);
      PassiveInvokeAll(s, react, first);
      PassiveDispatch(s.(log := s.log + first), react, node, messages[1..]);
      assert s.log + first + rest == s.log + (first + rest);
    }
  }

  /**
   Callbacks that leave the handler alone are called as one scan of all registrations per new or
   changed parameter gives them, and then all event callbacks follow.
   */
  lemma PassiveEvent(s: State, react: Reactions, e: Event)
    requires var calls := ScanCalls(s.live, Normalize(e.node), e.added + e.changed) + EventCalls(s.events, e);
             Passive(react, calls, s.log)
    ensures HandleEvent(s, react, e) ==
            s.(log := s.log + ScanCalls(s.live, Normalize(e.node), e.added + e.changed) + EventCalls(s.events, e))
  {
    var first, rest := ScanCalls(s.live, Normalize(e.node), e.added + e.changed), EventCalls(s.events, e);
    PassiveParts(react, first, rest, s.log);
    PassiveDispatch(s, react, Normalize(e.node), e.added + e.changed);
    PassiveInvokeAll(s.(log := s.log + first), react, rest);
  }

  // ----- The index -----

  type Index = map<string, seq<Handle>>

  function KeyOf(h: Handle): string {
    Key(h.param, h.node)
  }

  function Lookup(index: Index, key: string): seq<Handle> {
    if key in index then index[key] else []
  }

  function ScanKey(live: seq<Handle>, key: string): seq<Handle> {
    if live == [] then [] else (if KeyOf(live[0]) == key then [live[0]] else []) + ScanKey(live[1..], key)
  }

  /** Under each key the live registrations with that key, newest first; no empty list is kept. */
  ghost predicate Indexes(index: Index, live: seq<Handle>) {
    && (forall key: string :: Lookup(index, key) == ScanKey(live, key))
    && (forall key | key in index :: index[key] != [])
  }

  lemma {:induction false} ScanKeyIsScan(live: seq<Handle>, param: Name, node: Name)
    ensures ScanKey(live, Key(param, node)) == Scan(live, param, node)
  {
    if live != [] {
      KeyIsInjective(live[0].param, live[0].node, param, node);
      ScanKeyIsScan(live[1..], param, node);
    }
  }

  lemma {:induction false} ScanKeyMembers(live: seq<Handle>, key: string, h: Handle)
    ensures h in ScanKey(live, key) <==> h in live && KeyOf(h) == key
  {
    if live != [] {
      ScanKeyMembers(live[1..], key, h);
    }
  }

  lemma {:induction false} ScanKeyWithout(live: seq<Handle>, key: string, h: Handle)
    ensures ScanKey(Without(live, h), key) ==
            if KeyOf(h) == key then Without(ScanKey(live, key), h) else ScanKey(live, key)
  {
    if live != [] {
      var rest, tail := live[1..], ScanKey(live[1..], key);
      assert ScanKey(live, key) == if KeyOf(live[0]) == key then [live[0]] + tail else tail;
      if live[0] != h {
        ScanKeyWithout(rest, key, h);
        assert ([live[0]] + tail)[1..] == tail;
        assert Without(live, h)[1..] == Without(rest, h);
      }
    }
  }

  /** What the index holds is exactly what is live. */
  lemma IndexHoldsLive(index: Index, live: seq<Handle>, h: Handle)
    requires Indexes(index, live)
    ensures h in live <==> KeyOf(h) in index && h in index[KeyOf(h)]
  {
    ScanKeyMembers(live, KeyOf(h), h);
    assert Lookup(index, KeyOf(h)) == ScanKey(live, KeyOf(h));
  }

  lemma AddedIndexes(index: Index, live: seq<Handle>, h: Handle)
    requires Indexes(index, live)
    ensures Indexes(index[KeyOf(h) := [h] + Lookup(index, KeyOf(h))], [h] + live)
  {
    var index' := index[KeyOf(h) := [h] + Lookup(index, KeyOf(h))];
    forall key: string
      ensures Lookup(index', key) == ScanKey([h] + live, key)
    {
      assert Lookup(index, key) == ScanKey(live, key);
      assert ([h] + live)[1..] == live;
    }
  }

  lemma RemovedIndexes(index: Index, live: seq<Handle>, h: Handle)
    requires Indexes(index, live) && KeyOf(h) in index
    ensures var rest := Without(index[KeyOf(h)], h);
            Indexes(if rest == [] then index - {KeyOf(h)} else index[KeyOf(h) := rest], Without(live, h))
  {
    var rest := Without(index[KeyOf(h)], h);
    var index' := if rest == [] then index - {KeyOf(h)} else index[KeyOf(h) := rest];
    forall key: string
      ensures Lookup(index', key) == ScanKey(Without(live, h), key)
    {
      assert Lookup(index, key) == ScanKey(live, key);
      ScanKeyWithout(live, key, h);
    }
  }

  // ----- The handler -----

  class ParameterEventHandler {
    var parameterCallbacks: Index
    var eventCallbacks: seq<EventHandle>
    var destroyed: bool
    var nextId: nat
    const react: Reactions
    ghost var live: seq<Handle>
    /** All calls so far; a callback may remember any of them. */
    var log: seq<Call>

    ghost predicate Valid()
      reads this
    {
      Indexes(parameterCallbacks, live) && (destroyed ==> live == [] && eventCallbacks == [])
    }

    ghost function View(): State
      reads this
    {
      State(live, eventCallbacks, destroyed, nextId, log)
    }

    constructor (react: Reactions)
      ensures Valid() && View() == State([], [], false, 0, []) && this.react == react
    {
      this.react := react;
      parameterCallbacks, eventCallbacks, destroyed, nextId := map[], [], false, 0;
      live, log := [], [];
    }

    /** `None` if it throws. */
    method AddParameterCallback(param: string, node: string, callback: nat) returns (handle: Option<Handle>)
      requires Valid()
      modifies this
      ensures Valid()
      ensures match Apply(old(View()), AddParameter(param, node, callback))
              case None => handle == None && View() == old(View())
              case Some(s) => View() == s && live != [] && handle == Some(live[0])
      ensures if old(destroyed) || IsBlank(param) || IsBlank(node) then handle == None
              else handle == Some(Handle(old(nextId), Trim(param), Normalize(node), callback))
                   && live == [handle.value] + old(live)
    {
      if destroyed || IsBlank(param) || IsBlank(node) {
        return None;
      }
      var h := Handle(nextId, Trim(param), Normalize(node), callback);
      AddedIndexes(parameterCallbacks, live, h);
      parameterCallbacks := parameterCallbacks[KeyOf(h) := [h] + Lookup(parameterCallbacks, KeyOf(h))];
      nextId := nextId + 1;
      live := [h] + live;
      return Some(h);
    }

    method RemoveParameterCallback(handle: Handle) returns (threw: bool)
      requires Valid()
      modifies this
      ensures Valid()
      ensures match Apply(old(View()), RemoveParameter(handle))
              case None => threw && View() == old(View())
              case Some(s) => !threw && View() == s
      ensures threw <==> old(destroyed) || handle !in old(live)
      ensures live == if threw then old(live) else Without(old(live), handle)
    {
      var key := KeyOf(handle);
      IndexHoldsLive(parameterCallbacks, live, handle);
      if destroyed || key !in parameterCallbacks {
        return true;
      }
      var callbacks := parameterCallbacks[key];
      if handle !in callbacks {
        return true;
      }
      RemovedIndexes(parameterCallbacks, live, handle);
      callbacks := Without(callbacks, handle);
      if callbacks == [] {
        parameterCallbacks := parameterCallbacks - {key};
      } else {
        parameterCallbacks := parameterCallbacks[key := callbacks];
      }
      live := Without(live, handle);
      return false;
    }

    method AddParameterEventCallback(callback: nat) returns (handle: Option<EventHandle>)
      requires Valid()
      modifies this
      ensures Valid()
      ensures match Apply(old(View()), AddEvent(callback))
              case None => handle == None && View() == old(View())
              case Some(s) => View() == s && eventCallbacks != [] && handle == Some(eventCallbacks[0])
      ensures if old(destroyed) then handle == None
              else handle == Some(EventHandle(old(nextId), callback)) && eventCallbacks == [handle.value] + old(eventCallbacks)
    {
      if destroyed {
        return None;
      }
      var h := EventHandle(nextId, callback);
      eventCallbacks := [h] + eventCallbacks;
      nextId := nextId + 1;
      return Some(h);
    }

    method RemoveParameterEventCallback(handle: EventHandle) returns (threw: bool)
      requires Valid()
      modifies this
      ensures Valid()
      ensures match Apply(old(View()), RemoveEvent(handle))
              case None => threw && View() == old(View())
              case Some(s) => !threw && View() == s
      ensures threw <==> old(destroyed) || handle !in old(eventCallbacks)
      ensures eventCallbacks == if threw then old(eventCallbacks) else Without(old(eventCallbacks), handle)
    {
      if destroyed || handle !in eventCallbacks {
        return true;
      }
      eventCallbacks := Without(eventCallbacks, handle);
      return false;
    }

    method DestroyHandler()
      requires Valid()
      modifies this
      ensures Valid() && Some(View()) == Apply(old(View()), Destroy)
      ensures destroyed && live == [] && eventCallbacks == []
    {
      if destroyed {
        return;
      }
      parameterCallbacks, eventCallbacks, destroyed := map[], [], true;
      live := [];
    }

    /** One thing a callback does to the handler. */
    method Perform(edit: Edit) returns (threw: bool)
      requires Valid()
      modifies this
      ensures Valid()
      ensures match Apply(old(View()), edit)
              case None => threw && View() == old(View())
              case Some(s) => !threw && View() == s
    {
      threw := false;
      match edit {
        case AddParameter(param, node, callback) =>
          var h := AddParameterCallback(param, node, callback);
          threw := h.None?;
        case RemoveParameter(h) =>
          threw := RemoveParameterCallback(h);
        case AddEvent(callback) =>
          var h := AddParameterEventCallback(callback);
          threw := h.None?;
        case RemoveEvent(h) =>
          threw := RemoveParameterEventCallback(h);
        case Destroy =>
          DestroyHandler();
      }
    }

    /** Runs a callback; an exception ends it and goes no further. */
    method InvokeCallback(call: Call)
      requires Valid()
      modifies this
      ensures Valid() && View() == Invoke(old(View()), react, call)
    {
      var edits := react(call, log);
      log := log + [call];
      for i := 0 to |edits|
        invariant Valid()
        invariant ApplyAll(View(), edits[i..]) == Invoke(old(View()), react, call)
      {
        var threw := Perform(edits[i]);
        if threw {
          return;
        }
      }
    }

    method InvokeCallbacks(calls: seq<Call>)
      requires Valid()
      modifies this
      ensures Valid() && View() == InvokeAll(old(View()), react, calls)
    {
      for i := 0 to |calls|
        invariant Valid() && InvokeAll(View(), react, calls[i..]) == InvokeAll(old(View()), react, calls)
      {
        InvokeCallback(calls[i]);
      }
    }

    /** `#handleEvent`: one look-up per message instead of a scan. */
    method HandleParameterEvent(e: Event)
      requires Valid()
      modifies this
      ensures Valid() && View() == HandleEvent(old(View()), react, e)
    {
      var node, messages := Normalize(e.node), e.added + e.changed;
      for i := 0 to |messages|
        invariant Valid() && Dispatch(View(), react, node, messages[i..]) == Dispatch(old(View()), react, node, messages)
      {
        var key := Key(messages[i].name, node);
        ScanKeyIsScan(live, messages[i].name, node);
        assert Lookup(parameterCallbacks, key) == ScanKey(live, key);
        if key in parameterCallbacks {
          var snapshot := parameterCallbacks[key];
          InvokeCallbacks(ParameterCalls(snapshot, messages[i]));
        } else {
          assert ParameterCalls([], messages[i]) == [];
        }
      }
      InvokeCallbacks(EventCalls(eventCallbacks, e));
    }
  }

  // ----- Runs -----

  datatype Op = User(edit: Edit) | Incoming(event: Event)

  function Step(s: State, react: Reactions, op: Op): State {
    match op
    case User(edit) => (match Apply(s, edit) case None => s case Some(s') => s')
    case Incoming(event) => HandleEvent(s, react, event)
  }

  function Run(s: State, react: Reactions, ops: seq<Op>): State
    decreases ops
  {
    if ops == [] then s else Run(Step(s, react, ops[0]), react, ops[1..])
  }

  /** Any run of edits and events on the index ends where the same run on the plain list ends. */
  method RunHandler(react: Reactions, ops: seq<Op>) returns (handler: ParameterEventHandler)
    ensures handler.Valid() && handler.View() == Run(State([], [], false, 0, []), react, ops)
    ensures forall key | key in handler.parameterCallbacks :: handler.parameterCallbacks[key] != []
    ensures forall h :: h in handler.live <==> KeyOf(h) in handler.parameterCallbacks
                                               && h in handler.parameterCallbacks[KeyOf(h)]
  {
    handler := new ParameterEventHandler(react);
    for i := 0 to |ops|
      invariant handler.Valid() && handler.react == react && fresh(handler)
      invariant Run(handler.View(), react, ops[i..]) == Run(State([], [], false, 0, []), react, ops)
    {
      match ops[i] {
        case User(edit) =>
          var threw := handler.Perform(edit);
        case Incoming(event) =>
          handler.HandleParameterEvent(event);
      }
    }
    forall h
      ensures h in handler.live <==> KeyOf(h) in handler.parameterCallbacks && h in handler.parameterCallbacks[KeyOf(h)]
    {
      IndexHoldsLive(handler.parameterCallbacks, handler.live, h);
    }
  }
}
