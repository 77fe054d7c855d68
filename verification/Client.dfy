/**
 Pending requests of a service client (`lib/client.js`).

 The history of a client is the list of all that happened to it; a request is known by the position
 of its send in the history. What each caller gets is defined on the history alone.
 */
module Clients {
  import opened Optional

  // ----- Histories -----

  /**
   Sequence numbers come from the middleware; `None` stands for a request that fails validation or
   cannot be sent. `signal` is the signal of the caller, if any, and whether it is aborted already.
   */
  datatype Event =
    | Send(sent: Option<int>)
    | SendAsync(sent: Option<int>, signal: Option<bool>, timeout: bool)
    | Response(answered: int, payload: int)
    | Abort(request: nat)
    | Timeout(timedOut: nat)

  datatype Settlement = Resolved(payload: int) | Aborted | TimedOut | Failed

  /** A plain send that throws leaves no request behind. */
  predicate IsSend(e: Event) {
    (e.Send? && e.sent.Some?) || e.SendAsync?
  }

  /** The sequence number that a send takes up. */
  function Number(e: Event): Option<int> {
    match e
    case Send(sent) => sent
    case SendAsync(sent, signal, _) => if signal == Some(true) then None else sent
    case _ => None
  }

  /** How a send ends at once, if it does. */
  function AtOnce(e: Event): Option<Settlement> {
    if !e.SendAsync? then None
    else if e.signal == Some(true) then Some(Aborted)
    else if e.sent == None then Some(Failed)
    else None
  }

  /** How `e` settles the request sent at `k`, if nothing did before. */
  function Settles(send: Event, k: nat, e: Event): Option<Settlement> {
    match e
    case Response(n, payload) => if Number(send) == Some(n) then Some(Resolved(payload)) else None
    case Abort(j) => if j == k && send.SendAsync? && send.signal.Some? then Some(Aborted) else None
    case Timeout(j) => if j == k && send.SendAsync? && send.timeout then Some(TimedOut) else None
    case _ => None
  }

  predicate SendAt(h: seq<Event>, k: nat) {
    k < |h| && IsSend(h[k])
  }

  function Outcome(h: seq<Event>, k: nat): Option<Settlement>
    requires SendAt(h, k)
  {
    if k == |h| - 1 then AtOnce(h[k])
    else
      var before := Outcome(h[..|h| - 1], k);
      if before.Some? then before else Settles(h[k], k, h[|h| - 1])
  }

  predicate Outstanding(h: seq<Event>, k: nat) {
    SendAt(h, k) && Outcome(h, k).None?
  }

  /** The middleware never hands out a sequence number twice. */
  ghost predicate Fresh(h: seq<Event>) {
    forall i, j | 0 <= i < j < |h| && Number(h[i]).Some? :: Number(h[i]) != Number(h[j])
  }

  /** Signals and timeouts belong to requests that were sent before and have them. */
  predicate Belongs(h: seq<Event>, e: Event) {
    match e
    case Abort(k) => k < |h| && h[k].SendAsync? && h[k].signal.Some?
    case Timeout(k) => k < |h| && h[k].SendAsync? && h[k].timeout
    case _ => true
  }

  predicate WellFormed(h: seq<Event>) {
    forall i | 0 <= i < |h| :: Belongs(h[..i], h[i])
  }

  // ----- What the outcome means -----

  lemma OneMoreEvent(h: seq<Event>, e: Event, k: nat)
    requires SendAt(h, k)
    ensures Outcome(h + [e], k) == if Outcome(h, k).Some? then Outcome(h, k) else Settles(h[k], k, e)
  {
    assert (h + [e])[..|h|] == h;
  }

  /** A request settles at most once: later events do not change how it ended. */
  lemma {:induction false} SettledForGood(h: seq<Event>, more: seq<Event>, k: nat)
    requires SendAt(h, k) && Outcome(h, k).Some?
    ensures Outcome(h + more, k) == Outcome(h, k)
  {
    if more == [] {
      assert h + more == h;
    } else {
      var init := more[..|more| - 1];
      SettledForGood(h, init, k);
      OneMoreEvent(h + init, more[|more| - 1], k);
      assert h + more == (h + init) + [more[|more| - 1]];
    }
  }

  predicate NothingBefore(h: seq<Event>, k: nat, j: nat)
    requires k < j <= |h|
  {
    forall i | k < i < j :: Settles(h[k], k, h[i]).None?
  }

  /** A request that does not end at once ends with the first event that can settle it. */
  lemma {:induction false} OutcomeIsFirst(h: seq<Event>, k: nat, x: Settlement)
    requires SendAt(h, k) && AtOnce(h[k]).None?
    ensures Outcome(h, k) == Some(x) <==>
              exists j | k < j < |h| :: Settles(h[k], k, h[j]) == Some(x) && NothingBefore(h, k, j)
    ensures Outcome(h, k).None? <==> NothingBefore(h, k, |h|)
    decreases |h|
  {
    if k < |h| - 1 {
      var init := h[..|h| - 1];
      OutcomeIsFirst(init, k, x);
      assert init[k] == h[k];
      forall j | k < j <= |init|
        ensures NothingBefore(init, k, j) <==> NothingBefore(h, k, j)
      {
        assert forall i | k < i < j :: init[i] == h[i];
      }
      assert NothingBefore(h, k, |h|) <==> NothingBefore(h, k, |init|) && Settles(h[k], k, h[|init|]).None?;
      if Outcome(init, k) == Some(x) {
        var j :| k < j < |init| && Settles(init[k], k, init[j]) == Some(x) && NothingBefore(init, k, j);
        assert h[j] == init[j] && NothingBefore(h, k, j);
      }
      if Outcome(h, k) == Some(x) && Outcome(init, k).None? {
        assert Settles(h[k], k, h[|init|]) == Some(x) && NothingBefore(h, k, |init|);
      }
      if j :| k < j < |h| && Settles(h[k], k, h[j]) == Some(x) && NothingBefore(h, k, j) {
        if j < |init| {
          assert Settles(init[k], k, init[j]) == Some(x) && NothingBefore(init, k, j);
        }
      }
    }
  }

  /** A caller only ever gets a response with the number of its own request, sent before. */
  lemma ResponseIsOwn(h: seq<Event>, k: nat, payload: int)
    requires SendAt(h, k) && Outcome(h, k) == Some(Resolved(payload))
    ensures Number(h[k]).Some?
    ensures exists j | k < j < |h| :: h[j] == Response(Number(h[k]).value, payload) && NothingBefore(h, k, j)
  {
    if AtOnce(h[k]).Some? {
      SettledAtOnce(h, k);
    } else {
      OutcomeIsFirst(h, k, Resolved(payload));
      var j :| k < j < |h| && Settles(h[k], k, h[j]) == Some(Resolved(payload)) && NothingBefore(h, k, j);
      assert h[j] == Response(Number(h[k]).value, payload);
    }
  }

  lemma SettledAtOnce(h: seq<Event>, k: nat)
    requires SendAt(h, k) && AtOnce(h[k]).Some?
    ensures Outcome(h, k) == AtOnce(h[k])
  {
    assert (h[..k + 1])[k] == h[k];
    SettledForGood(h[..k + 1], h[k + 1..], k);
    assert h[..k + 1] + h[k + 1..] == h;
  }

  /** No response to its number, abort or timeout has come for request `k` after its send and before `j`. */
  predicate Undisturbed(h: seq<Event>, k: nat, j: nat)
    requires SendAt(h, k) && j <= |h|
  {
    forall i | k < i < j ::
      h[i] != Abort(k) && h[i] != Timeout(k) && (h[i].Response? ==> h[k].sent != Some(h[i].answered))
  }

  lemma UndisturbedIff(h: seq<Event>, k: nat, j: nat)
    requires WellFormed(h) && SendAt(h, k) && AtOnce(h[k]).None? && k < j <= |h|
    ensures Undisturbed(h, k, j) <==> NothingBefore(h, k, j)
  {
    forall i | k < i < j
      ensures Settles(h[k], k, h[i]).None? <==>
                h[i] != Abort(k) && h[i] != Timeout(k) && (h[i].Response? ==> h[k].sent != Some(h[i].answered))
    {
      assert Belongs(h[..i], h[i]);
    }
  }

  /** A request that does not end at once is rejected as aborted exactly if its signal comes before all else. */
  lemma AbortedIff(h: seq<Event>, k: nat)
    requires WellFormed(h) && SendAt(h, k) && AtOnce(h[k]).None?
    ensures Outcome(h, k) == Some(Aborted) <==> exists j | k < j < |h| :: h[j] == Abort(k) && Undisturbed(h, k, j)
  {
    OutcomeByEvent(h, k, Aborted);
  }

  /** It is rejected as timed out exactly if its timeout comes before all else. */
  lemma TimedOutIff(h: seq<Event>, k: nat)
    requires WellFormed(h) && SendAt(h, k) && AtOnce(h[k]).None?
    ensures Outcome(h, k) == Some(TimedOut) <==> exists j | k < j < |h| :: h[j] == Timeout(k) && Undisturbed(h, k, j)
  {
    OutcomeByEvent(h, k, TimedOut);
  }

  /** It gets a payload exactly if a response to its number with that payload comes before all else. */
  lemma ResolvedIff(h: seq<Event>, k: nat, payload: int)
    requires WellFormed(h) && SendAt(h, k) && AtOnce(h[k]).None?
    ensures Outcome(h, k) == Some(Resolved(payload)) <==>
              exists j | k < j < |h| ::
                h[j].Response? && h[k].sent == Some(h[j].answered) && h[j].payload == payload && Undisturbed(h, k, j)
  {
    OutcomeByEvent(h, k, Resolved(payload));
  }

  /** The event that brings about the outcome `x` of request `k`. */
  predicate Brings(h: seq<Event>, k: nat, j: nat, x: Settlement)
    requires SendAt(h, k) && j < |h|
  {
    match x
    case Resolved(payload) => h[j].Response? && h[k].sent == Some(h[j].answered) && h[j].payload == payload
    case Aborted => h[j] == Abort(k)
    case TimedOut => h[j] == Timeout(k)
    case Failed => false
  }

  lemma OutcomeByEvent(h: seq<Event>, k: nat, x: Settlement)
    requires WellFormed(h) && SendAt(h, k) && AtOnce(h[k]).None?
    ensures Outcome(h, k) == Some(x) <==> exists j | k < j < |h| :: Brings(h, k, j, x) && Undisturbed(h, k, j)
  {
    OutcomeIsFirst(h, k, x);
    forall j | k < j < |h|
      ensures Settles(h[k], k, h[j]) == Some(x) && NothingBefore(h, k, j) <==> Brings(h, k, j, x) && Undisturbed(h, k, j)
    {
      UndisturbedIff(h, k, j);
      assert Belongs(h[..j], h[j]);
    }
  }

  /** How a request ends that ends with its send: aborted beforehand, or not sent at all. */
  lemma EndedAtOnceIff(h: seq<Event>, k: nat)
    requires SendAt(h, k) && h[k].SendAsync?
    ensures h[k].signal == Some(true) ==> Outcome(h, k) == Some(Aborted)
    ensures h[k].signal != Some(true) && h[k].sent == None ==> Outcome(h, k) == Some(Failed)
    ensures AtOnce(h[k]).None? <==> h[k].signal != Some(true) && h[k].sent.Some?
  {
    if AtOnce(h[k]).Some? {
      SettledAtOnce(h, k);
    }
  }

  /** Distinct callers never share a response. */
  lemma OneCallerPerResponse(h: seq<Event>, k: nat, k': nat, e: Event)
    requires Fresh(h) && SendAt(h, k) && SendAt(h, k') && e.Response?
    requires Settles(h[k], k, e).Some? && Settles(h[k'], k', e).Some?
    ensures k == k'
  {
  }

  // ----- The client -----

  class AsyncRequest {
    const id: nat
    const hasSignal: bool
    const hasTimeout: bool
    var sequenceNumber: Option<int>
    var isResolved: bool
    var isTimeout: bool
    var listening: bool   // to the signal of the caller or the timeout, whichever comes first
    var timing: bool      // to the timeout

    constructor (id: nat, hasSignal: bool, hasTimeout: bool)
      ensures this.id == id && this.hasSignal == hasSignal && this.hasTimeout == hasTimeout
      ensures sequenceNumber == None && !isResolved && !isTimeout && !listening && timing == hasTimeout
    {
      this.id, this.hasSignal, this.hasTimeout := id, hasSignal, hasTimeout;
      sequenceNumber, isResolved, isTimeout, listening, timing := None, false, false, false, hasTimeout;
    }

    /** As it should be for the request sent at `id`. */
    ghost predicate Follows(h: seq<Event>)
      requires SendAt(h, id)
      reads this
    {
      && h[id].SendAsync? && hasSignal == h[id].signal.Some? && hasTimeout == h[id].timeout
      && isResolved == Outcome(h, id).Some?
      && (isResolved ==> !listening && !timing)
      && (!isResolved ==> sequenceNumber == Number(h[id]) && sequenceNumber.Some?
                          && listening == (hasSignal || hasTimeout) && timing == hasTimeout && !isTimeout)
    }
  }

  /** A callback in the map: one given to `sendRequest`, or the one that settles a promise. */
  datatype Callback = Plain(id: nat) | Settle(request: AsyncRequest)

  function IdOf(c: Callback): nat {
    match c
    case Plain(id) => id
    case Settle(request) => request.id
  }

  class Client {
    var pending: map<int, Callback>
    var history: seq<Event>
    var requests: map<nat, AsyncRequest>
    ghost var results: map<nat, seq<Settlement>>   // every call of a callback, `resolve` or `reject`, by send

    ghost predicate Seen(k: nat)
      requires SendAt(history, k)
      reads this
    {
      k in results && results[k] == if Outcome(history, k).Some? then [Outcome(history, k).value] else []
    }

    ghost predicate Known(k: nat)
      requires SendAt(history, k)
      reads this, requests.Values
    {
      (k in requests <==> history[k].SendAsync?)
      && (k in requests ==> requests[k].id == k && requests[k].Follows(history))
    }

    /** The entry under `n` belongs to the outstanding request with that number. */
    ghost predicate Entry(n: int)
      requires n in pending
      reads this
    {
      var k := IdOf(pending[n]);
      && Outstanding(history, k) && Number(history[k]) == Some(n)
      && pending[n] == if history[k].Send? then Plain(k) else if k in requests then Settle(requests[k]) else pending[n]
    }

    /** All is well, except perhaps for the request sent at `x`. */
    ghost predicate ValidBut(x: int)
      reads this, requests.Values
    {
      && Fresh(history)
      && (forall k: nat | SendAt(history, k) && k != x :: Seen(k) && Known(k))
      && (forall k | k in requests :: SendAt(history, k))
      && (forall n | n in pending :: Entry(n))
      && (forall k: nat | Outstanding(history, k) && k != x ::
            Number(history[k]).Some? && Number(history[k]).value in pending)
    }

    /** The keys of the map are exactly the numbers of the outstanding requests. */
    ghost predicate Valid()
      reads this, requests.Values
    {
      ValidBut(-1)
    }

    constructor ()
      ensures Valid() && history == [] && pending == map[] && requests == map[]
    {
      pending, history, requests, results := map[], [], map[], map[];
    }

    /** `sendRequest`; the number comes from the middleware, and without one it throws. */
    method SendRequest(sent: Option<int>) returns (threw: bool)
      requires Valid() && Fresh(history + [Send(sent)])
      modifies this
      ensures Valid() && history == old(history) + [Send(sent)] && requests == old(requests)
      ensures threw == sent.None? && (threw ==> pending == old(pending) && results == old(results))
      ensures !threw ==> pending == old(pending)[sent.value := Plain(|old(history)|)]
    {
      threw := sent.None?;
      if threw {
        Ignore(Send(sent));
      } else {
        File(sent.value);
      }
    }

    /** The middleware has taken a plain request as number `n`. */
    method File(n: int)
      requires Valid() && Fresh(history + [Send(Some(n))])
      modifies this
      ensures Valid() && history == old(history) + [Send(Some(n))] && requests == old(requests)
      ensures pending == old(pending)[n := Plain(|old(history)|)]
    {
      var k := |history|;
      SendChangesNoOutcome(history, Send(Some(n)));
      pending := pending[n := Plain(k)];
      history, results := history + [Send(Some(n))], results[k := []];
      forall i: nat | SendAt(history, i)
        ensures Seen(i) && Known(i)
      {
        assert i < k ==> SendAt(old(history), i) && old(Seen(i)) && old(Known(i));
      }
    }

    method Cleanup(r: AsyncRequest)
      modifies `pending, r
      ensures pending == if r.sequenceNumber.Some? then old(pending) - {r.sequenceNumber.value} else old(pending)
      ensures r.isResolved && !r.listening && !r.timing
      ensures r.sequenceNumber == old(r.sequenceNumber) && r.isTimeout == old(r.isTimeout)
    {
      if r.sequenceNumber.Some? {
        pending := pending - {r.sequenceNumber.value};
      }
      r.listening := false;
      r.timing := false;
      r.isResolved := true;
    }

    /** A call of `resolve` or `reject`. */
    ghost method Record(k: nat, x: Settlement)
      requires k in results
      modifies `results
      ensures results == old(results)[k := old(results)[k] + [x]]
    {
      results := results[k := results[k] + [x]];
    }

    /** A request that has been created and neither sent nor settled. */
    ghost predicate Unsent(r: AsyncRequest)
      reads this, requests.Values, r
    {
      && ValidBut(r.id) && r.id in requests && requests[r.id] == r && r.id in results && results[r.id] == []
      && SendAt(history, r.id) && history[r.id].SendAsync?
      && r.hasSignal == history[r.id].signal.Some? && r.hasTimeout == history[r.id].timeout
      && Outcome(history, r.id) == AtOnce(history[r.id]) && (forall n | n in pending :: IdOf(pending[n]) != r.id)
      && r.sequenceNumber == None && !r.isResolved && !r.isTimeout && !r.listening && r.timing == r.hasTimeout
    }

    method NewRequest(sent: Option<int>, signal: Option<bool>, timeout: bool) returns (r: AsyncRequest)
      requires Valid() && Fresh(history + [SendAsync(sent, signal, timeout)])
      modifies this
      ensures fresh(r) && r.id == |old(history)| && Unsent(r)
      ensures results == old(results)[|old(history)| := []] && pending == old(pending)
      ensures history == old(history) + [SendAsync(sent, signal, timeout)] && requests == old(requests)[|old(history)| := r]
    {
      var e, k := SendAsync(sent, signal, timeout), |history|;
      SendChangesNoOutcome(history, e);
      r := new AsyncRequest(k, signal.Some?, timeout);
      history, requests, results := history + [e], requests[k := r], results[k := []];
      forall i: nat | SendAt(history, i) && i < k
        ensures Seen(i) && Known(i)
      {
        assert SendAt(old(history), i) && old(Seen(i)) && old(Known(i));
      }
      forall n | n in pending
        ensures Entry(n) && IdOf(pending[n]) != k
      {
        assert old(Entry(n));
      }
    }

    method Finish(r: AsyncRequest, x: Settlement)
      requires Unsent(r) && AtOnce(history[r.id]) == Some(x)
      modifies `pending, `results, r
      ensures Valid() && results == old(results)[r.id := [x]] && pending == old(pending)
    {
      Cleanup(r);
      Record(r.id, x);
      forall i: nat | SendAt(history, i)
        ensures Seen(i) && Known(i)
      {
        assert i != r.id ==> old(Seen(i)) && old(Known(i));
      }
    }

    method Await(r: AsyncRequest, n: int)
      requires Unsent(r) && AtOnce(history[r.id]) == None && Number(history[r.id]) == Some(n)
      modifies `pending, r
      ensures Valid() && pending == old(pending)[n := Settle(r)]
    {
      r.listening := r.hasSignal || r.hasTimeout;
      r.sequenceNumber := Some(n);
      pending := pending[n := Settle(r)];
      forall i: nat | SendAt(history, i)
        ensures Seen(i) && Known(i)
      {
        assert i != r.id ==> old(Seen(i)) && old(Known(i));
      }
    }

    /** `sendRequestAsync`. */
    method SendRequestAsync(sent: Option<int>, signal: Option<bool>, timeout: bool) returns (r: AsyncRequest)
      requires Valid() && Fresh(history + [SendAsync(sent, signal, timeout)])
      modifies this
      ensures Valid() && history == old(history) + [SendAsync(sent, signal, timeout)] && fresh(r)
      ensures requests == old(requests)[|old(history)| := r]
      ensures results == old(results)[|old(history)| :=
                if signal == Some(true) then [Aborted] else if sent.None? then [Failed] else []]
      ensures pending == if signal != Some(true) && sent.Some? then old(pending)[sent.value := Settle(r)] else old(pending)
    {
      LastUpdateCounts(results, |history|, [], [Aborted]);
      LastUpdateCounts(results, |history|, [], [Failed]);
      r := NewRequest(sent, signal, timeout);
      if signal == Some(true) {
        Finish(r, Aborted);
      } else if sent.Some? {
        Await(r, sent.value);
      } else {
        Finish(r, Failed);
      }
    }

    /** Ends the outstanding request `k` when `e` happens, which settles no other. */
    ghost predicate Ends(k: nat, e: Event, x: Settlement)
      reads this
    {
      EndsIn(history, k, e, x)
    }

    /** The request has been sent and not settled; its listeners may be about to change. */
    ghost predicate Waiting(r: AsyncRequest)
      reads this, requests.Values, r
    {
      && ValidBut(r.id) && r.id in requests && requests[r.id] == r
      && Outstanding(history, r.id) && Seen(r.id) && history[r.id].SendAsync?
      && r.hasSignal == history[r.id].signal.Some? && r.hasTimeout == history[r.id].timeout
      && !r.isResolved && r.sequenceNumber.Some? && r.sequenceNumber == Number(history[r.id])
    }

    /** `cleanup`, followed by `resolve` or `reject`. */
    method Conclude(r: AsyncRequest, e: Event, ghost x: Settlement)
      requires Waiting(r) && Ends(r.id, e, x)
      modifies this, r
      ensures Valid() && history == old(history) + [e] && requests == old(requests)
      ensures results == old(results)[r.id := [x]]
      ensures pending == old(pending) - {old(r.sequenceNumber).value}
    {
      Ended(history, r.id, e, x);
      Cleanup(r);
      Record(r.id, x);
      history := history + [e];
      forall i: nat | SendAt(history, i)
        ensures Seen(i) && Known(i)
      {
        assert SendAt(old(history), i);
        if i != r.id {
          assert old(Seen(i)) && old(Known(i));
        }
      }
      forall n | n in pending
        ensures Entry(n)
      {
        assert old(Entry(n));
      }
    }

    method OnAbort(r: AsyncRequest, e: Event)
      requires Waiting(r) && Ends(r.id, e, if r.isTimeout then TimedOut else Aborted)
      modifies this, r
      ensures Valid() && history == old(history) + [e] && requests == old(requests)
      ensures results == old(results)[r.id := [if old(r.isTimeout) then TimedOut else Aborted]]
    {
      if !r.isResolved {
        Conclude(r, e, if r.isTimeout then TimedOut else Aborted);
      }
    }

    /** What happens to a callback given to `sendRequest`. */
    method Answer(k: nat, e: Event, x: Settlement)
      requires Valid() && Ends(k, e, x) && history[k].Send? && history[k].sent.Some?
      modifies this
      ensures Valid() && history == old(history) + [e] && requests == old(requests)
      ensures results == old(results)[k := [x]] && pending == old(pending) - {old(history)[k].sent.value}
    {
      Ended(history, k, e, x);
      pending := pending - {history[k].sent.value};
      Record(k, x);
      history := history + [e];
      forall i: nat | SendAt(history, i)
        ensures Seen(i) && Known(i)
      {
        assert SendAt(old(history), i) && old(Seen(i)) && old(Known(i));
      }
      forall n | n in pending
        ensures Entry(n)
      {
        assert old(Entry(n));
      }
    }

    /** An event that settles nothing. */
    method Ignore(e: Event)
      requires Valid() && !IsSend(e)
      requires forall i: nat | Outstanding(history, i) :: Settles(history[i], i, e).None?
      modifies this
      ensures Valid() && history == old(history) + [e] && requests == old(requests)
      ensures pending == old(pending) && results == old(results)
    {
      Happens(history, e);
      history := history + [e];
      forall i: nat | SendAt(history, i)
        ensures Seen(i) && Known(i)
      {
        assert SendAt(old(history), i) && old(Seen(i)) && old(Known(i));
      }
    }

    /** `processResponse`; a response nobody waits for is dropped. */
    method ProcessResponse(n: int, payload: int)
      requires Valid()
      modifies this, requests.Values
      ensures Valid() && history == old(history) + [Response(n, payload)] && requests == old(requests)
      ensures pending == old(pending) - {n}
      ensures results == if n in old(pending) then old(results)[IdOf(old(pending)[n]) := [Resolved(payload)]] else old(results)
    {
      var e := Response(n, payload);
      if n in pending {
        assert Entry(n);
        var callback := pending[n];
        match callback {
          case Plain(k) => Answer(k, e, Resolved(payload));
          case Settle(r) =>
            assert Known(r.id);
            if !r.isResolved {
              Conclude(r, e, Resolved(payload));
            }
        }
      } else {
        Ignore(e);
      }
    }

    /** The signal of the caller aborts. */
    method SignalAborts(r: AsyncRequest)
      requires Valid() && r.id in requests && requests[r.id] == r && r.hasSignal
      modifies this, r
      ensures Valid() && history == old(history) + [Abort(r.id)] && requests == old(requests)
      ensures results == if old(Outstanding(history, r.id)) then old(results)[r.id := [Aborted]] else old(results)
    {
      assert Known(r.id);
      if r.listening {
        r.listening := false;
        OnAbort(r, Abort(r.id));
      } else {
        Ignore(Abort(r.id));
      }
    }

    /** The time is up: the listener of the timeout runs before that of the combined signal. */
    method TimeoutFires(r: AsyncRequest)
      requires Valid() && r.id in requests && requests[r.id] == r && r.hasTimeout
      modifies this, r
      ensures Valid() && history == old(history) + [Timeout(r.id)] && requests == old(requests)
      ensures results == if old(Outstanding(history, r.id)) then old(results)[r.id := [TimedOut]] else old(results)
    {
      assert Known(r.id);
      if r.timing {
        r.timing := false;
        r.isTimeout := true;
      }
      if r.listening {
        r.listening := false;
        OnAbort(r, Timeout(r.id));
      } else {
        Ignore(Timeout(r.id));
      }
    }

    /** Whatever happens next. */
    method Perform(e: Event)
      requires Valid() && Fresh(history + [e]) && Belongs(history, e)
      modifies this, requests.Values
      ensures Valid() && history == old(history) + [e]
      ensures forall k | k in requests :: (k in old(requests) && requests[k] == old(requests)[k]) || fresh(requests[k])
    {
      match e {
        case Send(sent) =>
          var threw := SendRequest(sent);
        case SendAsync(sent, signal, timeout) =>
          var r := SendRequestAsync(sent, signal, timeout);
        case Response(n, payload) => ProcessResponse(n, payload);
        case Abort(k) =>
          assert SendAt(history, k) && Known(k);
          SignalAborts(requests[k]);
        case Timeout(k) =>
          assert SendAt(history, k) && Known(k);
          TimeoutFires(requests[k]);
      }
    }
  }

  lemma LastUpdateCounts<T>(m: map<nat, T>, k: nat, x: T, y: T)
    ensures m[k := x][k := y] == m[k := y]
  {
  }

  /** Only a send starts a request. */
  lemma Happens(h: seq<Event>, e: Event)
    requires !IsSend(e)
    ensures forall k: nat | SendAt(h, k) ::
              Outcome(h + [e], k) == if Outcome(h, k).Some? then Outcome(h, k) else Settles(h[k], k, e)
    ensures forall k: nat :: SendAt(h + [e], k) <==> SendAt(h, k)
  {
    forall k: nat | SendAt(h, k)
      ensures Outcome(h + [e], k) == if Outcome(h, k).Some? then Outcome(h, k) else Settles(h[k], k, e)
    {
      OneMoreEvent(h, e, k);
    }
  }

  ghost predicate EndsIn(h: seq<Event>, k: nat, e: Event, x: Settlement) {
    && Outstanding(h, k) && !IsSend(e) && Settles(h[k], k, e) == Some(x)
    && forall i: nat | Outstanding(h, i) && i != k :: Settles(h[i], i, e).None?
  }

  lemma Ended(h: seq<Event>, k: nat, e: Event, x: Settlement)
    requires EndsIn(h, k, e, x)
    ensures forall i: nat :: SendAt(h + [e], i) <==> SendAt(h, i)
    ensures forall i: nat | SendAt(h, i) :: Outcome(h + [e], i) == if i == k then Some(x) else Outcome(h, i)
    ensures forall i: nat :: Outstanding(h + [e], i) <==> Outstanding(h, i) && i != k
  {
    Happens(h, e);
  }

  /** A send settles no earlier request. */
  lemma SendChangesNoOutcome(h: seq<Event>, e: Event)
    requires IsSend(e)
    ensures forall k: nat | SendAt(h, k) :: SendAt(h + [e], k) && Outcome(h + [e], k) == Outcome(h, k)
    ensures Outcome(h + [e], |h|) == AtOnce(e)
  {
    forall k: nat | SendAt(h, k)
      ensures Outcome(h + [e], k) == Outcome(h, k)
    {
      OneMoreEvent(h, e, k);
    }
  }

  // ----- Runs -----

  /** The numbers of the requests that nothing has settled yet. */
  ghost function OutstandingNumbers(h: seq<Event>): iset<int> {
    iset n | exists k: nat :: Outstanding(h, k) && Number(h[k]) == Some(n)
  }

  /**
   In every interleaving of sends, responses, aborts and timeouts, each caller has been called back
   exactly as the history says, and the keys of the map are exactly the outstanding requests.
   */
  method RunClient(events: seq<Event>) returns (client: Client)
    requires Fresh(events) && WellFormed(events)
    ensures client.Valid() && client.history == events
    ensures forall k: nat | SendAt(events, k) :: client.Seen(k)
    ensures forall n :: n in client.pending <==> n in OutstandingNumbers(events)
  {
    client := new Client();
    for i := 0 to |events|
      invariant client.Valid() && client.history == events[..i]
      invariant fresh(client) && forall k | k in client.requests :: fresh(client.requests[k])
    {
      assert events[..i + 1] == events[..i] + [events[i]];
      client.Perform(events[i]);
    }
    assert events[..|events|] == events;
    forall n
      ensures n in client.pending <==> n in OutstandingNumbers(events)
    {
      if n in client.pending {
        assert client.Entry(n);
      }
    }
  }
}
