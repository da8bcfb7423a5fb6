/** The browse rendezvous queue (`browse.py`). Each method of `BrowsePullQueue` is one stretch of code between
    awaits, so any interleaving of calls, polls, deliveries and timeouts is a sequence of these methods. */
module Browse {
  import opened Lists

  datatype Request = Request(id: string, host: string, nonce: string, issuedAt: int, expiresAt: int, path: string)
  datatype Listing = Listing(requestId: string, entries: seq<string>)

  /** A queue item; the ticket tells apart two calls that use the same request id at different times. */
  datatype Item = Item(ticket: nat, request: Request)

  datatype Outcome = Pending | Resolved(result: Listing) | Failed | Cancelled
  datatype Future = Future(ticket: nat, outcome: Outcome)

  datatype CorrelationError = Unknown | WrongHost | AlreadyResolved | DuplicateInFlight

  // ---------------------------------------------------------------- history

  datatype Claim = Claim(host: string, at: int)
  datatype Delivery = Delivery(host: string, result: Listing)

  /** What has happened to one call: who claimed its request, what was accepted for it, how it returned. */
  datatype Call = Call(
    request: Request,
    host: string,
    claims: seq<Claim>,
    deliveries: seq<Delivery>,
    returned: seq<Option<Listing>>)

  datatype State = State(
    queues: map<string, seq<Item>>,
    results: map<string, Future>,
    hosts: map<string, string>,
    calls: seq<Call>)

  // The history of the call with ticket `t` grows by one event.

  function AddClaim(calls: seq<Call>, t: nat, c: Claim): seq<Call>
  {
    if t < |calls| then calls[t := calls[t].(claims := calls[t].claims + [c])] else calls
  }

  function AddDelivery(calls: seq<Call>, t: nat, d: Delivery): seq<Call>
  {
    if t < |calls| then calls[t := calls[t].(deliveries := calls[t].deliveries + [d])] else calls
  }

  function AddReturn(calls: seq<Call>, t: nat, r: Option<Listing>): seq<Call>
  {
    if t < |calls| then calls[t := calls[t].(returned := calls[t].returned + [r])] else calls
  }

  function QueueFor(q: map<string, seq<Item>>, host: string): seq<Item>
  {
    if host in q then q[host] else []
  }

  function Begin(s: State, request: Request, host: string): State
  {
    if request.id in s.results then s
    else
      var t := |s.calls|;
      State(s.queues[host := QueueFor(s.queues, host) + [Item(t, request)]],
            s.results[request.id := Future(t, Pending)],
            s.hosts[request.id := host],
            s.calls + [Call(request, host, [], [], [])])
  }

  /** The timer fires, or the caller is cancelled: a pending future is cancelled, a done one is not. */
  function TimeOut(s: State, id: string): State
    requires id in s.results
  {
    if s.results[id].outcome.Pending? then s.(results := s.results[id := s.results[id].(outcome := Cancelled)]) else s
  }

  /** A timer that fires between the resolution and the call's next step still wins. */
  function ReturnValue(o: Outcome, timerFired: bool): Option<Listing>
  {
    if o.Resolved? && !timerFired then Some(o.result) else None
  }

  function Finish(s: State, id: string, timerFired: bool): State
    requires id in s.results
  {
    var f := s.results[id];
    State(s.queues, s.results - {id}, s.hosts - {id}, AddReturn(s.calls, f.ticket, ReturnValue(f.outcome, timerFired)))
  }

  function PollOnce(s: State, host: string, now: int): State
  {
    var q := QueueFor(s.queues, host);
    if q == [] then s
    else
      var item := q[0];
      var id := item.request.id;
      var rest := s.queues[host := q[1..]];
      if item.request.expiresAt <= now then
        if id in s.results && s.results[id].outcome.Pending?
        then s.(queues := rest, results := s.results[id := s.results[id].(outcome := Failed)])
        else s.(queues := rest)
      else
        s.(queues := rest, calls := AddClaim(s.calls, item.ticket, Claim(host, now)))
  }

  function Refusal(s: State, host: string, result: Listing): Option<CorrelationError>
  {
    var id := result.requestId;
    if id !in s.results || id !in s.hosts then Some(Unknown)
    else if s.hosts[id] != host then Some(WrongHost)
    else if !s.results[id].outcome.Pending? then Some(AlreadyResolved)
    else None
  }

  function Deliver(s: State, host: string, result: Listing): State
  {
    if Refusal(s, host, result).Some? then s
    else
      var id := result.requestId;
      var f := s.results[id];
      s.(results := s.results[id := f.(outcome := Resolved(result))],
         calls := AddDelivery(s.calls, f.ticket, Delivery(host, result)))
  }

  // ---------------------------------------------------------------- the invariant

  ghost predicate CallOk(c: Call)
  {
    && |c.claims| <= 1 && |c.deliveries| <= 1 && |c.returned| <= 1
    && (c.claims != [] ==> c.claims[0].host == c.host && c.claims[0].at < c.request.expiresAt)
    && (c.deliveries != [] ==> c.deliveries[0].host == c.host && c.deliveries[0].result.requestId == c.request.id)
    && (c.returned != [] && c.returned[0].Some? ==>
          c.deliveries != [] && c.deliveries[0].result == c.returned[0].value)
  }

  ghost predicate FutureOk(s: State, id: string)
    requires id in s.results && id in s.hosts
  {
    var f := s.results[id];
    && f.ticket < |s.calls|
    && var c := s.calls[f.ticket];
       && c.request.id == id && c.host == s.hosts[id] && c.returned == []
       && c.deliveries == if f.outcome.Resolved? then [Delivery(c.host, f.outcome.result)] else []
  }

  ghost predicate ItemOk(s: State, host: string, item: Item)
  {
    && item.ticket < |s.calls|
    && s.calls[item.ticket].host == host && s.calls[item.ticket].request == item.request
    && s.calls[item.ticket].claims == []
  }

  ghost predicate QueueOk(s: State, host: string, q: seq<Item>)
  {
    && (forall i :: 0 <= i < |q| ==> ItemOk(s, host, q[i]))
    && (forall i, j :: 0 <= i < j < |q| ==> q[i].ticket < q[j].ticket)
  }

  /** A call that has not returned is the one in flight under its request id. */
  ghost predicate InFlight(s: State, t: nat)
    requires t < |s.calls|
  {
    s.calls[t].request.id in s.results && s.results[s.calls[t].request.id].ticket == t
  }

  ghost predicate CallsOk(s: State)
  {
    forall t :: 0 <= t < |s.calls| ==> CallOk(s.calls[t])
  }

  ghost predicate FuturesOk(s: State)
  {
    && s.results.Keys == s.hosts.Keys
    && (forall id :: id in s.results ==> FutureOk(s, id))
    && (forall t :: 0 <= t < |s.calls| && s.calls[t].returned == [] ==> InFlight(s, t))
  }

  ghost predicate QueuesOk(s: State)
  {
    forall h :: h in s.queues ==> QueueOk(s, h, s.queues[h])
  }

  ghost predicate Inv(s: State)
  {
    CallsOk(s) && FuturesOk(s) && QueuesOk(s)
  }

  /** Nothing that a queue relies on has changed. */
  ghost predicate SameClaims(s: State, r: State)
  {
    && |s.calls| <= |r.calls|
    && forall t :: 0 <= t < |s.calls| ==>
         r.calls[t].host == s.calls[t].host && r.calls[t].request == s.calls[t].request
         && r.calls[t].claims == s.calls[t].claims
  }

  lemma {:induction false} QueueKept(s: State, r: State, host: string, q: seq<Item>)
    requires QueueOk(s, host, q) && SameClaims(s, r)
    ensures QueueOk(r, host, q)
  {
    forall i | 0 <= i < |q| ensures ItemOk(r, host, q[i]) { assert ItemOk(s, host, q[i]); }
  }

  lemma {:induction false} QueuesKept(s: State, r: State)
    requires QueuesOk(s) && SameClaims(s, r) && r.queues == s.queues
    ensures QueuesOk(r)
  {
    forall h | h in r.queues ensures QueueOk(r, h, r.queues[h]) { QueueKept(s, r, h, s.queues[h]); }
  }

  /** One future's outcome changes from pending, with the delivery recorded if it is a result. */
  lemma {:induction false} SettleKeeps(s: State, r: State, id: string, o: Outcome)
    requires FuturesOk(s) && id in s.results && s.results[id].outcome.Pending? && FutureOk(s, id)
    requires r.hosts == s.hosts && r.results == s.results[id := s.results[id].(outcome := o)]
    requires var t := s.results[id].ticket; var c := s.calls[t];
             r.calls == s.calls[t := c.(deliveries := if o.Resolved? then [Delivery(c.host, o.result)] else [])]
    ensures FuturesOk(r)
  {
    forall i | i in r.results ensures FutureOk(r, i) { assert FutureOk(s, i); }
    forall t | 0 <= t < |r.calls| && r.calls[t].returned == [] ensures InFlight(r, t) { assert InFlight(s, t); }
  }

  lemma {:induction false} BeginKeeps(s: State, request: Request, host: string)
    requires Inv(s)
    ensures Inv(Begin(s, request, host))
  {
    if request.id !in s.results {
      BeginFutures(s, request, host);
      BeginQueues(s, request, host);
    }
  }

  lemma {:induction false} BeginFutures(s: State, request: Request, host: string)
    requires FuturesOk(s) && request.id !in s.results
    ensures FuturesOk(Begin(s, request, host))
  {
    var r := Begin(s, request, host);
    forall id | id in r.results ensures FutureOk(r, id) {
      if id != request.id { assert FutureOk(s, id); }
    }
    BeginInFlight(s, request, host);
  }

  lemma {:induction false} BeginInFlight(s: State, request: Request, host: string)
    requires FuturesOk(s) && request.id !in s.results
    ensures var r := Begin(s, request, host);
            forall t :: 0 <= t < |r.calls| && r.calls[t].returned == [] ==> InFlight(r, t)
  {
    var r := Begin(s, request, host);
    forall t | 0 <= t < |r.calls| && r.calls[t].returned == [] ensures InFlight(r, t) {
      if t < |s.calls| { assert InFlight(s, t); }
    }
  }

  lemma {:induction false} QueueGrows(s: State, host: string, q: seq<Item>, item: Item)
    requires QueueOk(s, host, q) && ItemOk(s, host, item)
    requires forall i :: 0 <= i < |q| ==> q[i].ticket < item.ticket
    ensures QueueOk(s, host, q + [item])
  {
    forall i | 0 <= i < |q + [item]| ensures ItemOk(s, host, (q + [item])[i]) {
      if i < |q| { assert ItemOk(s, host, q[i]); }
    }
  }

  lemma {:induction false} BeginQueues(s: State, request: Request, host: string)
    requires QueuesOk(s) && request.id !in s.results
    ensures QueuesOk(Begin(s, request, host))
  {
    var r, q := Begin(s, request, host), QueueFor(s.queues, host);
    QueuedOk(s, host);
    assert SameClaims(s, r);
    forall i | 0 <= i < |q| ensures q[i].ticket < |s.calls| { assert ItemOk(s, host, q[i]); }
    QueueKept(s, r, host, q);
    QueueGrows(r, host, q, Item(|s.calls|, request));
    forall h | h in r.queues && h != host ensures QueueOk(r, h, r.queues[h]) { QueueKept(s, r, h, s.queues[h]); }
  }

  lemma {:induction false} TimeOutKeeps(s: State, id: string)
    requires Inv(s) && id in s.results
    ensures Inv(TimeOut(s, id))
  {
    if s.results[id].outcome.Pending? {
      var r := TimeOut(s, id);
      assert FutureOk(s, id);
      assert r.calls == s.calls[s.results[id].ticket := s.calls[s.results[id].ticket].(deliveries := [])];
      SettleKeeps(s, r, id, Cancelled);
      QueuesKept(s, r);
    }
  }

  lemma {:induction false} FinishKeeps(s: State, id: string, timerFired: bool)
    requires Inv(s) && id in s.results && !s.results[id].outcome.Pending?
    ensures Inv(Finish(s, id, timerFired))
  {
    FinishFutures(s, id, timerFired);
    FinishCalls(s, id, timerFired);
    FinishQueues(s, id, timerFired);
  }

  lemma {:induction false} FinishQueues(s: State, id: string, timerFired: bool)
    requires QueuesOk(s) && id in s.results
    ensures QueuesOk(Finish(s, id, timerFired))
  {
    var r := Finish(s, id, timerFired);
    assert SameClaims(s, r) && r.queues == s.queues;
    QueuesKept(s, r);
  }

  /** The call of a settled future has not returned; what it returns is what was delivered. */
  lemma {:induction false} FinishCalls(s: State, id: string, timerFired: bool)
    requires CallsOk(s) && FuturesOk(s) && id in s.results && !s.results[id].outcome.Pending?
    ensures CallsOk(Finish(s, id, timerFired))
  {
    assert FutureOk(s, id);
    ReturnOk(s.calls[s.results[id].ticket], s.results[id].outcome, timerFired);
  }

  lemma {:induction false} ReturnOk(c: Call, o: Outcome, timerFired: bool)
    requires CallOk(c) && c.returned == []
    requires c.deliveries == if o.Resolved? then [Delivery(c.host, o.result)] else []
    ensures CallOk(c.(returned := c.returned + [ReturnValue(o, timerFired)]))
  {
    assert c.returned + [ReturnValue(o, timerFired)] == [ReturnValue(o, timerFired)];
  }

  lemma {:induction false} FinishFutures(s: State, id: string, timerFired: bool)
    requires FuturesOk(s) && id in s.results
    ensures FuturesOk(Finish(s, id, timerFired))
  {
    var r := Finish(s, id, timerFired);
    forall i | i in r.results ensures FutureOk(r, i) { assert FutureOk(s, i); }
    forall t | 0 <= t < |r.calls| && r.calls[t].returned == [] ensures InFlight(r, t) { assert InFlight(s, t); }
  }

  lemma {:induction false} QueuedOk(s: State, host: string)
    requires QueuesOk(s)
    ensures QueueOk(s, host, QueueFor(s.queues, host))
  {
  }

  lemma {:induction false} PollKeeps(s: State, host: string, now: int)
    requires Inv(s)
    ensures Inv(PollOnce(s, host, now))
  {
    var q := QueueFor(s.queues, host);
    QueuedOk(s, host);
    if q != [] {
      assert ItemOk(s, host, q[0]);
      var cut := s.(queues := s.queues[host := q[1..]]);
      CutQueues(s, host);
      if q[0].request.expiresAt <= now {
        PollExpired(s, cut, host, now);
      } else {
        PollClaims(s, cut, host, now);
      }
    }
  }

  lemma {:induction false} CutQueues(s: State, host: string)
    requires QueuesOk(s) && host in s.queues && s.queues[host] != []
    ensures var cut := s.(queues := s.queues[host := s.queues[host][1..]]);
            && QueuesOk(cut)
            && forall h, i :: h in cut.queues && 0 <= i < |cut.queues[h]| ==>
                 cut.queues[h][i].ticket != s.queues[host][0].ticket
  {
  }

  lemma {:induction false} PollExpired(s: State, cut: State, host: string, now: int)
    requires CallsOk(s) && FuturesOk(s) && host in s.queues && s.queues[host] != []
    requires s.queues[host][0].request.expiresAt <= now
    requires cut == s.(queues := s.queues[host := s.queues[host][1..]]) && QueuesOk(cut)
    ensures Inv(PollOnce(s, host, now))
  {
    QueuesKept(cut, PollOnce(s, host, now));
    ExpiredFutures(s, host, now);
  }

  lemma {:induction false} ExpiredFutures(s: State, host: string, now: int)
    requires FuturesOk(s) && host in s.queues && s.queues[host] != []
    requires s.queues[host][0].request.expiresAt <= now
    ensures FuturesOk(PollOnce(s, host, now))
  {
    var r := PollOnce(s, host, now);
    var id := s.queues[host][0].request.id;
    if id in s.results && s.results[id].outcome.Pending? {
      assert FutureOk(s, id);
      assert r.calls == s.calls[s.results[id].ticket := s.calls[s.results[id].ticket].(deliveries := [])];
      SettleKeeps(s, r, id, Failed);
    } else {
      SameFutures(s, r);
    }
  }

  lemma {:induction false} SameFutures(s: State, r: State)
    requires FuturesOk(s) && r.results == s.results && r.hosts == s.hosts && |r.calls| == |s.calls|
    requires forall t :: 0 <= t < |s.calls| ==>
               r.calls[t].host == s.calls[t].host && r.calls[t].request == s.calls[t].request
               && r.calls[t].returned == s.calls[t].returned && r.calls[t].deliveries == s.calls[t].deliveries
    ensures FuturesOk(r)
  {
  }

  lemma {:induction false} PollClaims(s: State, cut: State, host: string, now: int)
    requires Inv(s) && host in s.queues && s.queues[host] != [] && s.queues[host][0].request.expiresAt > now
    requires cut == s.(queues := s.queues[host := s.queues[host][1..]]) && QueuesOk(cut)
    requires ItemOk(s, host, s.queues[host][0])
    requires forall h, i :: h in cut.queues && 0 <= i < |cut.queues[h]| ==>
               cut.queues[h][i].ticket != s.queues[host][0].ticket
    ensures Inv(PollOnce(s, host, now))
  {
    var r := PollOnce(s, host, now);
    var head := s.queues[host][0];
    SameFutures(s, r);
    assert CallOk(s.calls[head.ticket]);
    forall h | h in r.queues ensures QueueOk(r, h, r.queues[h]) {
      var q := cut.queues[h];
      assert QueueOk(cut, h, q);
      forall i | 0 <= i < |q| ensures ItemOk(r, h, q[i]) { assert ItemOk(cut, h, q[i]); }
    }
  }

  lemma {:induction false} DeliverShape(s: State, host: string, result: Listing)
    requires Inv(s) && Refusal(s, host, result).None?
    ensures DeliveredAs(s, Deliver(s, host, result), result)
  {
    assert FutureOk(s, result.requestId);
    var c := s.calls[s.results[result.requestId].ticket];
    assert c.deliveries + [Delivery(host, result)] == [Delivery(c.host, result)];
  }

  /** The pending future of the result's request resolves and its call records the delivery. */
  ghost predicate DeliveredAs(s: State, r: State, result: Listing)
  {
    var id := result.requestId;
    && id in s.results && s.results[id].outcome.Pending? && s.results[id].ticket < |s.calls|
    && var t := s.results[id].ticket; var c := s.calls[t];
       && r.queues == s.queues && r.hosts == s.hosts
       && r.results == s.results[id := s.results[id].(outcome := Resolved(result))]
       && r.calls == s.calls[t := c.(deliveries := [Delivery(c.host, result)])]
  }

  lemma {:induction false} DeliveredKeeps(s: State, r: State, result: Listing)
    requires Inv(s) && DeliveredAs(s, r, result)
    ensures Inv(r)
  {
    DeliveredFutures(s, r, result);
    DeliveredCalls(s, r, result);
    DeliveredQueues(s, r, result);
  }

  lemma {:induction false} DeliveredQueues(s: State, r: State, result: Listing)
    requires QueuesOk(s) && DeliveredAs(s, r, result)
    ensures QueuesOk(r)
  {
  }

  lemma {:induction false} DeliveredFutures(s: State, r: State, result: Listing)
    requires FuturesOk(s) && DeliveredAs(s, r, result)
    ensures FuturesOk(r)
  {
    assert FutureOk(s, result.requestId);
    SettleKeeps(s, r, result.requestId, Resolved(result));
  }

  lemma {:induction false} DeliveredCalls(s: State, r: State, result: Listing)
    requires CallsOk(s) && FuturesOk(s) && DeliveredAs(s, r, result)
    ensures CallsOk(r)
  {
  }

  lemma {:induction false} DeliverKeeps(s: State, host: string, result: Listing)
    requires Inv(s)
    ensures Inv(Deliver(s, host, result))
  {
    if Refusal(s, host, result).None? {
      DeliverShape(s, host, result);
      DeliveredKeeps(s, Deliver(s, host, result), result);
    }
  }

  // ---------------------------------------------------------------- the queue object

  class BrowsePullQueue {
    var queues: map<string, seq<Item>>
    var results: map<string, Future>
    var requestHost: map<string, string>
    var tickets: nat
    ghost var calls: seq<Call>

    ghost function Contents(): State
      reads this
    {
      State(queues, results, requestHost, calls)
    }

    constructor ()
      ensures Contents() == Empty() && tickets == 0
    {
      queues, results, requestHost, tickets := map[], map[], map[], 0;
      calls := [];
    }

    /** The part of `enqueue_and_wait` before the wait. */
    method Enqueue(request: Request, host: string) returns (error: Option<CorrelationError>)
      requires tickets == |calls|
      modifies this
      ensures tickets == |calls|
      ensures Contents() == Begin(old(Contents()), request, host)
      ensures error == if request.id in old(results) then Some(DuplicateInFlight) else None
    {
      if request.id in results { return Some(DuplicateInFlight); }
      results := results[request.id := Future(tickets, Pending)];
      requestHost := requestHost[request.id := host];
      queues := queues[host := QueueFor(queues, host) + [Item(tickets, request)]];
      calls := calls + [Call(request, host, [], [], [])];
      tickets := tickets + 1;
      return None;
    }

    method Expire(id: string)
      requires id in results
      modifies this`results
      ensures Contents() == TimeOut(old(Contents()), id)
    {
      if results[id].outcome.Pending? {
        results := results[id := results[id].(outcome := Cancelled)];
      }
    }

    /** The part of `enqueue_and_wait` after the wait: both map entries go, whatever the outcome. */
    method Complete(id: string, timerFired: bool) returns (value: Option<Listing>)
      requires id in results && !results[id].outcome.Pending?
      modifies this`results, this`requestHost, this`calls
      ensures |calls| == |old(calls)|
      ensures Contents() == Finish(old(Contents()), id, timerFired)
      ensures value == ReturnValue(old(results)[id].outcome, timerFired)
    {
      value := ReturnValue(results[id].outcome, timerFired);
      calls := AddReturn(calls, results[id].ticket, value);
      results, requestHost := results - {id}, requestHost - {id};
    }

    /** One turn of the loop in `poll`: `None` when the queue is empty or its head had expired. */
    method Poll(host: string, now: int) returns (claimed: Option<Request>)
      modifies this`queues, this`results, this`calls
      ensures |calls| == |old(calls)|
      ensures Contents() == PollOnce(old(Contents()), host, now)
      ensures var q := QueueFor(old(queues), host);
              claimed == if q != [] && q[0].request.expiresAt > now then Some(q[0].request) else None
    {
      var q := QueueFor(queues, host);
      if q == [] { return None; }
      var item := q[0];
      queues := queues[host := q[1..]];
      if item.request.expiresAt <= now {
        var id := item.request.id;
        if id in results && results[id].outcome.Pending? {
          results := results[id := results[id].(outcome := Failed)];
        }
        return None;
      }
      calls := AddClaim(calls, item.ticket, Claim(host, now));
      return Some(item.request);
    }

    method Post(host: string, result: Listing) returns (error: Option<CorrelationError>)
      modifies this`results, this`calls
      ensures |calls| == |old(calls)|
      ensures Contents() == Deliver(old(Contents()), host, result) && error == Refusal(old(Contents()), host, result)
    {
      var id := result.requestId;
      if id !in results || id !in requestHost { return Some(Unknown); }
      if requestHost[id] != host { return Some(WrongHost); }
      if !results[id].outcome.Pending? { return Some(AlreadyResolved); }
      calls := AddDelivery(calls, results[id].ticket, Delivery(host, result));
      results := results[id := results[id].(outcome := Resolved(result))];
      return None;
    }
  }

  // ---------------------------------------------------------------- whole runs

  datatype Action =
    | Enqueued(request: Request, host: string)
    | TimerFired(id: string)
    | Completed(id: string, late: bool)
    | Polled(host: string, now: int)
    | Delivered(host: string, result: Listing)

  function Empty(): State
  {
    State(map[], map[], map[], [])
  }

  /** A timer belongs to a call in flight, and a call goes on only once its future is done. */
  predicate Enabled(s: State, a: Action)
  {
    match a
    case TimerFired(id) => id in s.results
    case Completed(id, _) => id in s.results && !s.results[id].outcome.Pending?
    case _ => true
  }

  function Next(s: State, a: Action): State
    requires Enabled(s, a)
  {
    match a
    case Enqueued(request, host) => Begin(s, request, host)
    case TimerFired(id) => TimeOut(s, id)
    case Completed(id, late) => Finish(s, id, late)
    case Polled(host, now) => PollOnce(s, host, now)
    case Delivered(host, result) => Deliver(s, host, result)
  }

  /** `trace` is an interleaving: it starts empty and each state follows from the one before by an enabled action. */
  ghost predicate IsRun(trace: seq<State>, acts: seq<Action>)
  {
    && |trace| == |acts| + 1 && trace[0] == Empty()
    && forall i :: 0 <= i < |acts| ==> Enabled(trace[i], acts[i]) && trace[i + 1] == Next(trace[i], acts[i])
  }

  lemma {:induction false} NextKeeps(s: State, a: Action)
    requires Inv(s) && Enabled(s, a)
    ensures Inv(Next(s, a))
  {
    match a
    case Enqueued(request, host) => BeginKeeps(s, request, host);
    case TimerFired(id) => TimeOutKeeps(s, id);
    case Completed(id, late) => FinishKeeps(s, id, late);
    case Polled(host, now) => PollKeeps(s, host, now);
    case Delivered(host, result) => DeliverKeeps(s, host, result);
  }

  lemma {:induction false} RunKeeps(trace: seq<State>, acts: seq<Action>, n: nat)
    requires IsRun(trace, acts) && n < |trace|
    ensures Inv(trace[n])
  {
    if n > 0 {
      RunKeeps(trace, acts, n - 1);
      NextKeeps(trace[n - 1], acts[n - 1]);
    }
  }

  /** In every reachable state: a call's request was claimed at most once, by the host it was meant for and before it
      expired; at most one delivery was accepted for it, from that host and for its id; it returned at most once, and
      a value it returned is the delivered one. */
  lemma {:induction false} CallsSettleOnce(trace: seq<State>, acts: seq<Action>, n: nat, t: nat)
    requires IsRun(trace, acts) && n < |trace| && t < |trace[n].calls|
    ensures CallOk(trace[n].calls[t])
  {
    RunKeeps(trace, acts, n);
  }

  ghost predicate Open(s: State, t: nat, id: string)
  {
    t < |s.calls| && s.calls[t].request.id == id && s.calls[t].returned == []
  }

  /** The two maps always have the same keys, namely the ids of the calls that have not returned: a finished call
      leaves no entry, and no two calls under one id are open at once. */
  lemma {:induction false} MapsHoldOpenCalls(trace: seq<State>, acts: seq<Action>, n: nat)
    requires IsRun(trace, acts) && n < |trace|
    ensures trace[n].results.Keys == trace[n].hosts.Keys
    ensures forall id :: id in trace[n].results <==> exists t :: Open(trace[n], t, id)
    ensures forall t, u, id :: Open(trace[n], t, id) && Open(trace[n], u, id) ==> t == u
  {
    RunKeeps(trace, acts, n);
    var s := trace[n];
    forall id ensures id in s.results <==> exists t :: Open(s, t, id) {
      if id in s.results {
        assert FutureOk(s, id);
        assert Open(s, s.results[id].ticket, id);
      }
      if t :| Open(s, t, id) { assert InFlight(s, t); }
    }
    forall t, u, id | Open(s, t, id) && Open(s, u, id) ensures t == u {
      assert InFlight(s, t) && InFlight(s, u);
    }
  }

  /** Call `t` is open under `id`, was enqueued for `host`, and its future is pending. */
  ghost predicate Awaiting(s: State, t: nat, host: string, id: string)
  {
    Open(s, t, id) && s.calls[t].host == host && id in s.results && s.results[id].outcome.Pending?
  }

  /** A listing is accepted exactly when a call is open under its id, was enqueued for the host that posts it, and has
      neither been answered, nor expired, nor timed out. */
  lemma {:induction false} AcceptedIff(trace: seq<State>, acts: seq<Action>, n: nat, host: string, result: Listing)
    requires IsRun(trace, acts) && n < |trace|
    ensures Refusal(trace[n], host, result).None? <==>
            exists t :: Awaiting(trace[n], t, host, result.requestId)
  {
    RunKeeps(trace, acts, n);
    var s, id := trace[n], result.requestId;
    if id in s.results {
      assert FutureOk(s, id);
      assert Open(s, s.results[id].ticket, id);
      assert Refusal(s, host, result).None? ==> Awaiting(s, s.results[id].ticket, host, id);
    }
    forall t | Awaiting(s, t, host, id) ensures Refusal(s, host, result).None? { assert InFlight(s, t); }
  }

  /** What a call returns: the listing that was delivered for it, unless nothing was, or the timer fired before the call
      went on. */
  lemma {:induction false} CompletedReturns(trace: seq<State>, acts: seq<Action>, n: nat)
    requires IsRun(trace, acts) && n < |acts| && acts[n].Completed?
    ensures exists t: nat :: Open(trace[n], t, acts[n].id) && t < |trace[n + 1].calls| &&
              trace[n + 1].calls[t] == trace[n].calls[t].(returned :=
                [if trace[n].calls[t].deliveries != [] && !acts[n].late then Some(trace[n].calls[t].deliveries[0].result)
                 else None])
  {
    RunKeeps(trace, acts, n);
    var s, id := trace[n], acts[n].id;
    assert FutureOk(s, id);
    var t := s.results[id].ticket;
    assert Open(s, t, id);
    assert trace[n + 1] == Finish(s, id, acts[n].late);
    assert s.calls[t].returned == [] && [] + [ReturnValue(s.results[id].outcome, acts[n].late)]
        == [ReturnValue(s.results[id].outcome, acts[n].late)];
  }

  /** How a delivery is refused: its id is not in flight; it is, but for another host; it is, but the call has been
      answered, has expired or has timed out. */
  lemma {:induction false} RefusedIff(trace: seq<State>, acts: seq<Action>, n: nat, host: string, result: Listing)
    requires IsRun(trace, acts) && n < |trace|
    ensures var s, id := trace[n], result.requestId; var refusal := Refusal(s, host, result);
            && (refusal == Some(Unknown) <==> !exists t: nat :: Open(s, t, id))
            && (refusal == Some(WrongHost) <==> exists t: nat :: Open(s, t, id) && s.calls[t].host != host)
            && (refusal == Some(AlreadyResolved)
                <==> exists t: nat :: Open(s, t, id) && s.calls[t].host == host && !Awaiting(s, t, host, id))
  {
    RunKeeps(trace, acts, n);
    var s, id := trace[n], result.requestId;
    if id in s.results {
      assert FutureOk(s, id);
      assert Open(s, s.results[id].ticket, id);
    }
    forall t: nat | Open(s, t, id) ensures id in s.results && s.results[id].ticket == t { assert InFlight(s, t); }
  }

  ghost predicate DistinctIds(s: State)
  {
    forall t, u :: 0 <= t < u < |s.calls| ==> s.calls[t].request.id != s.calls[u].request.id
  }

  /** While request ids are never used twice, the future that an expired queue item fails is its own call's. */
  lemma {:induction false} ExpiryFailsItsOwn(trace: seq<State>, acts: seq<Action>, n: nat, host: string)
    requires IsRun(trace, acts) && n < |trace| && DistinctIds(trace[n])
    requires QueueFor(trace[n].queues, host) != []
    ensures var item := QueueFor(trace[n].queues, host)[0];
            item.request.id in trace[n].results ==> trace[n].results[item.request.id].ticket == item.ticket
  {
    RunKeeps(trace, acts, n);
    var s := trace[n];
    var item := QueueFor(s.queues, host)[0];
    QueuedOk(s, host);
    assert ItemOk(s, host, item);
    assert item.request.id in s.results ==> FutureOk(s, item.request.id);
  }

  /** A poll takes the first item of its own host's queue, which is the oldest, and leaves every other item where it
      was. */
  lemma {:induction false} PollTakesOldest(trace: seq<State>, acts: seq<Action>, n: nat, host: string, now: int)
    requires IsRun(trace, acts) && n < |trace| && QueueFor(trace[n].queues, host) != []
    ensures var q := QueueFor(trace[n].queues, host);
            forall i :: 0 < i < |q| ==> q[0].ticket < q[i].ticket
    ensures forall h :: QueueFor(PollOnce(trace[n], host, now).queues, h)
                        == QueueFor(trace[n].queues, h)[if h == host then 1 else 0..]
  {
    RunKeeps(trace, acts, n);
    OrderedQueue(trace[n], host);
    QueuesAfterPoll(trace[n], host, now);
  }

  lemma {:induction false} OrderedQueue(s: State, host: string)
    requires QueuesOk(s)
    ensures var q := QueueFor(s.queues, host); forall i, j :: 0 <= i < j < |q| ==> q[i].ticket < q[j].ticket
  {
  }

  lemma {:induction false} QueuesAfterPoll(s: State, host: string, now: int)
    requires QueueFor(s.queues, host) != []
    ensures forall h :: QueueFor(PollOnce(s, host, now).queues, h) == QueueFor(s.queues, h)[if h == host then 1 else 0..]
  {
  }

  /** The host polls once at each of the given times. */
  function PollAll(s: State, host: string, times: seq<int>): State
    decreases |times|
  {
    if times == [] then s else PollAll(PollOnce(s, host, times[0]), host, times[1..])
  }

  /** Item `i` of the queue carries `id` and has expired when it is polled. */
  ghost predicate StaleTwin(q: seq<Item>, times: seq<int>, id: string, i: int)
    requires |q| <= |times|
  {
    0 <= i < |q| && q[i].request.id == id && q[i].request.expiresAt <= times[i]
  }

  ghost predicate NoTwin(q: seq<Item>, times: seq<int>, id: string)
    requires |q| <= |times|
  {
    forall i :: !StaleTwin(q, times, id, i)
  }

  /** The request with ticket `t` is the last in its host's queue and its call is in flight. */
  ghost predicate LastInQueue(s: State, host: string, t: nat, request: Request)
  {
    var q := QueueFor(s.queues, host);
    && q != [] && q[|q| - 1] == Item(t, request) && (forall i :: 0 <= i < |q| - 1 ==> q[i].ticket != t)
    && request.id in s.results && s.results[request.id].ticket == t && t < |s.calls|
  }

  lemma {:induction false} OnePollAhead(s: State, host: string, t: nat, request: Request, now: int)
    requires LastInQueue(s, host, t, request) && |QueueFor(s.queues, host)| > 1
    ensures var q := QueueFor(s.queues, host); var r := PollOnce(s, host, now);
            && LastInQueue(r, host, t, request) && QueueFor(r.queues, host) == q[1..] && r.calls[t] == s.calls[t]
            && |r.calls| == |s.calls| && r.hosts == s.hosts && r.results.Keys == s.results.Keys
            && r.results[request.id].outcome ==
                 if q[0].request.id == request.id && q[0].request.expiresAt <= now && s.results[request.id].outcome.Pending?
                 then Failed else s.results[request.id].outcome
  {
    var q := QueueFor(s.queues, host);
    var r := PollOnce(s, host, now);
    assert r.queues == s.queues[host := q[1..]];
    assert q[1..][|q| - 2] == q[|q| - 1];
    assert forall i :: 0 <= i < |q| - 2 ==> q[1..][i] == q[i + 1];
  }

  /** As many polls as there are items: the last one claims the request, and its call is still waiting exactly when no
      item ahead was a stale twin. */
  lemma {:induction false} PollsReach(s: State, host: string, t: nat, request: Request, times: seq<int>)
    requires LastInQueue(s, host, t, request) && |times| == |QueueFor(s.queues, host)|
    requires times[|times| - 1] < request.expiresAt
    ensures var q := QueueFor(s.queues, host); var r := PollAll(s, host, times);
            && QueueFor(r.queues, host) == [] && r.hosts == s.hosts && r.results.Keys == s.results.Keys
            && |r.calls| == |s.calls| && r.results[request.id].ticket == t
            && r.calls[t] == s.calls[t].(claims := s.calls[t].claims + [Claim(host, times[|times| - 1])])
            && (r.results[request.id].outcome.Pending? <==>
                  s.results[request.id].outcome.Pending? && NoTwin(q, times, request.id))
    decreases |times|
  {
    var q := QueueFor(s.queues, host);
    var r := PollOnce(s, host, times[0]);
    if |q| == 1 {
      assert times[1..] == [] && PollAll(s, host, times) == r;
      assert r.queues == s.queues[host := q[1..]];
    } else {
      OnePollAhead(s, host, t, request, times[0]);
      PollsReach(r, host, t, request, times[1..]);
      TwinsSplit(q, times, request.id);
    }
  }

  lemma {:induction false} TwinsSplit(q: seq<Item>, times: seq<int>, id: string)
    requires q != [] && |times| == |q|
    ensures NoTwin(q, times, id) <==> !StaleTwin(q, times, id, 0) && NoTwin(q[1..], times[1..], id)
  {
    if NoTwin(q, times, id) {
      forall i ensures !StaleTwin(q[1..], times[1..], id, i) { assert !StaleTwin(q, times, id, i + 1); }
    } else {
      var i :| StaleTwin(q, times, id, i);
      assert i > 0 ==> StaleTwin(q[1..], times[1..], id, i - 1);
    }
  }

  /** The rendezvous works: a request is enqueued behind any number of others, its host polls once for each of them and
      once more in time, and answers. The answer is accepted if and only if no item ahead was an expired one under the
      same request id; then the call returns that answer and its map entries are gone. */
  lemma {:induction false} RoundTrip(s: State, request: Request, host: string, times: seq<int>, answer: Listing)
    requires Inv(s) && request.id !in s.results && answer.requestId == request.id
    requires |times| == |QueueFor(s.queues, host)| + 1 && times[|times| - 1] < request.expiresAt
    ensures var claimed := PollAll(Begin(s, request, host), host, times);
            var t := |s.calls|;
            && (Refusal(claimed, host, answer).None? <==>
                  NoTwin(QueueFor(s.queues, host), times, request.id))
            && (Refusal(claimed, host, answer).None? ==>
                  && Enabled(Deliver(claimed, host, answer), Completed(request.id, false))
                  && var done := Finish(Deliver(claimed, host, answer), request.id, false);
                     && done.results.Keys == s.results.Keys && done.hosts.Keys == s.hosts.Keys
                     && |done.calls| == t + 1
                     && done.calls[t] == Call(request, host, [Claim(host, times[|times| - 1])],
                                              [Delivery(host, answer)], [Some(answer)]))
  {
    ClaimedInTurn(s, request, host, times);
    var claimed := PollAll(Begin(s, request, host), host, times);
    if Refusal(claimed, host, answer).None? { AnsweredInTurn(s, claimed, request, host, times[|times| - 1], answer); }
  }

  /** A call that times out before it is polled leaves its item in the queue. */
  lemma {:induction false} TimesOutUnpolled(a: Request, host: string) returns (s1: State, s2: State, s3: State)
    ensures s1 == Next(Empty(), Enqueued(a, host))
    ensures Enabled(s1, TimerFired(a.id)) && s2 == Next(s1, TimerFired(a.id))
    ensures Enabled(s2, Completed(a.id, false)) && s3 == Next(s2, Completed(a.id, false))
    ensures s3 == State(map[host := [Item(0, a)]], map[], map[], [Call(a, host, [], [], [None])])
  {
    var first := Call(a, host, [], [], []);
    s1 := State(map[host := [Item(0, a)]], map[a.id := Future(0, Pending)], map[a.id := host], [first]);
    s2 := s1.(results := map[a.id := Future(0, Cancelled)]);
    s3 := State(s1.queues, map[], map[], [Call(a, host, [], [], [None])]);
    assert [] + [Item(0, a)] == [Item(0, a)] && [] + [first] == [first];
    assert first.(returned := first.returned + [None]) == s3.calls[0] by { assert first.returned + [None] == [None]; }
    assert s2.calls[0 := s3.calls[0]] == s3.calls;
    assert s2.results - {a.id} == map[] && s2.hosts - {a.id} == map[];
  }

  /** A run that fails a live call: a first call times out and leaves its item in the queue, a second one uses the same
      request id, and the poll that finds the first item expired fails the future of the second. */
  lemma {:induction false} TwinFails(a: Request, b: Request, host: string, now: int)
      returns (trace: seq<State>, acts: seq<Action>)
    requires a.id == b.id && a.expiresAt <= now < b.expiresAt
    ensures acts == [Enqueued(a, host), TimerFired(a.id), Completed(a.id, false), Enqueued(b, host), Polled(host, now)]
    ensures IsRun(trace, acts)
    ensures trace[4].results == map[b.id := Future(1, Pending)] && trace[5].results == map[b.id := Future(1, Failed)]
    ensures QueueFor(trace[5].queues, host) == [Item(1, b)]
  {
    var s1, s2, s3 := TimesOutUnpolled(a, host);
    var x, y := Item(0, a), Item(1, b);
    var s4 := State(map[host := [x, y]], map[b.id := Future(1, Pending)], map[b.id := host],
                    s3.calls + [Call(b, host, [], [], [])]);
    var s5 := s4.(queues := map[host := [y]], results := map[b.id := Future(1, Failed)]);
    assert [x] + [y] == [x, y] && [x, y][1..] == [y];
    assert Next(s3, Enqueued(b, host)) == s4;
    assert Next(s4, Polled(host, now)) == s5;
    trace := [Empty(), s1, s2, s3, s4, s5];
    acts := [Enqueued(a, host), TimerFired(a.id), Completed(a.id, false), Enqueued(b, host), Polled(host, now)];
  }

  lemma {:induction false} AnsweredInTurn(s: State, claimed: State, request: Request, host: string, at: int,
                                          answer: Listing)
    requires s.results.Keys == s.hosts.Keys && request.id !in s.results && answer.requestId == request.id
    requires claimed.results.Keys == s.results.Keys + {request.id} && claimed.hosts == s.hosts[request.id := host]
    requires claimed.results[request.id].ticket == |s.calls| && |claimed.calls| == |s.calls| + 1
    requires claimed.calls[|s.calls|] == Call(request, host, [Claim(host, at)], [], [])
    requires Refusal(claimed, host, answer).None?
    ensures Enabled(Deliver(claimed, host, answer), Completed(request.id, false))
    ensures var done := Finish(Deliver(claimed, host, answer), request.id, false);
            && done.results.Keys == s.results.Keys && done.hosts.Keys == s.hosts.Keys && |done.calls| == |s.calls| + 1
            && done.calls[|s.calls|] == Call(request, host, [Claim(host, at)], [Delivery(host, answer)], [Some(answer)])
  {
    AnswerReturns(claimed, host, |s.calls|, request.id, answer);
    assert s.results.Keys + {request.id} - {request.id} == s.results.Keys;
  }

  lemma {:induction false} BeganLast(s: State, request: Request, host: string)
    requires Inv(s) && request.id !in s.results
    ensures var began := Begin(s, request, host);
            && LastInQueue(began, host, |s.calls|, request)
            && QueueFor(began.queues, host) == QueueFor(s.queues, host) + [Item(|s.calls|, request)]
  {
    var q := QueueFor(s.queues, host);
    QueuedOk(s, host);
    forall i | 0 <= i < |q| ensures q[i].ticket != |s.calls| { assert ItemOk(s, host, q[i]); }
  }

  lemma {:induction false} ClaimedInTurn(s: State, request: Request, host: string, times: seq<int>)
    requires Inv(s) && request.id !in s.results
    requires |times| == |QueueFor(s.queues, host)| + 1 && times[|times| - 1] < request.expiresAt
    ensures var r := PollAll(Begin(s, request, host), host, times);
            && r.results.Keys == s.results.Keys + {request.id} && r.hosts == s.hosts[request.id := host]
            && r.results[request.id].ticket == |s.calls| && |r.calls| == |s.calls| + 1
            && r.calls[|s.calls|] == Call(request, host, [Claim(host, times[|times| - 1])], [], [])
            && (r.results[request.id].outcome.Pending? <==>
                  NoTwin(QueueFor(s.queues, host), times, request.id))
  {
    var t, began := |s.calls|, Begin(s, request, host);
    BeganLast(s, request, host);
    PollsReach(began, host, t, request, times);
    SameTwins(QueueFor(s.queues, host), Item(t, request), times);
    assert [] + [Claim(host, times[|times| - 1])] == [Claim(host, times[|times| - 1])];
  }

  /** The request itself is polled in time, so only the items ahead matter. */
  lemma {:induction false} SameTwins(q: seq<Item>, last: Item, times: seq<int>)
    requires |times| == |q| + 1 && times[|times| - 1] < last.request.expiresAt
    ensures NoTwin(q + [last], times, last.request.id) <==> NoTwin(q, times, last.request.id)
  {
    var all := q + [last];
    forall i ensures StaleTwin(all, times, last.request.id, i) <==> StaleTwin(q, times, last.request.id, i) {
      if 0 <= i < |q| { assert all[i] == q[i]; }
    }
  }

  lemma {:induction false} AnswerReturns(s: State, host: string, t: nat, id: string, answer: Listing)
    requires answer.requestId == id && Refusal(s, host, answer).None? && s.results[id].ticket == t && t < |s.calls|
    requires s.calls[t].deliveries == [] && s.calls[t].returned == []
    ensures Enabled(Deliver(s, host, answer), Completed(id, false))
    ensures var done := Finish(Deliver(s, host, answer), id, false);
            && done.results.Keys == s.results.Keys - {id} && done.hosts.Keys == s.hosts.Keys - {id}
            && |done.calls| == |s.calls|
            && done.calls[t] == s.calls[t].(deliveries := [Delivery(host, answer)], returned := [Some(answer)])
  {
    var d := Deliver(s, host, answer);
    assert [] + [Delivery(host, answer)] == [Delivery(host, answer)] && [] + [Some(answer)] == [Some(answer)];
    assert d.calls[t] == s.calls[t].(deliveries := [Delivery(host, answer)]);
  }

  // ---------------------------------------------------------------- verification and nonces

  datatype Signed = Signed(request: Request, algorithm: string, keyId: string, signature: string)
  datatype Verdict = Accepted(request: Request) | BadSignature | HasExpired | NotYetValid | WrongScope | Replayed

  /** One presentation of a request to the agent. */
  datatype Presentation = Presentation(signed: Signed, now: int)

  /** The agent's insert-or-fail nonce store. */
  class NonceStore {
    var used: set<string>

    constructor ()
      ensures used == {}
    {
      used := {};
    }

    method Consume(nonce: string) returns (ok: bool)
      modifies this
      ensures ok <==> nonce !in old(used)
      ensures used == old(used) + {nonce}
    {
      ok := nonce !in used;
      used := used + {nonce};
    }
  }

  method VerifyBrowseRequest(signed: Signed, verifies: Signed -> bool, store: NonceStore, expectedHost: string,
                             now: int)
    returns (verdict: Verdict)
    modifies store
    ensures verdict == Judge(verifies, expectedHost, old(store.used), Presentation(signed, now))
    ensures store.used == UsedAfter(verifies, expectedHost, old(store.used), Presentation(signed, now))
  {
    if !verifies(signed) { return BadSignature; }
    var request := signed.request;
    if request.expiresAt <= now { return HasExpired; }
    if request.issuedAt > now { return NotYetValid; }
    if request.host != expectedHost { return WrongScope; }
    var unused := store.Consume(request.nonce);
    if !unused { return Replayed; }
    return Accepted(request);
  }

  /** Signature, time window and host scope are all right. */
  predicate Genuine(verifies: Signed -> bool, host: string, p: Presentation)
  {
    && verifies(p.signed)
    && p.signed.request.issuedAt <= p.now < p.signed.request.expiresAt
    && p.signed.request.host == host
  }

  function Judge(verifies: Signed -> bool, host: string, used: set<string>, p: Presentation): Verdict
  {
    if !verifies(p.signed) then BadSignature
    else if p.signed.request.expiresAt <= p.now then HasExpired
    else if p.signed.request.issuedAt > p.now then NotYetValid
    else if p.signed.request.host != host then WrongScope
    else if p.signed.request.nonce in used then Replayed
    else Accepted(p.signed.request)
  }

  /** Which verdict a presentation gets: the first test that fails names it. */
  lemma {:induction false} VerdictIff(verifies: Signed -> bool, host: string, used: set<string>, p: Presentation)
    ensures var v, q := Judge(verifies, host, used, p), p.signed.request;
            var inTime := q.issuedAt <= p.now < q.expiresAt;
            && (v == BadSignature <==> !verifies(p.signed))
            && (v == HasExpired <==> verifies(p.signed) && q.expiresAt <= p.now)
            && (v == NotYetValid <==> verifies(p.signed) && p.now < q.expiresAt && p.now < q.issuedAt)
            && (v == WrongScope <==> verifies(p.signed) && inTime && q.host != host)
            && (v == Replayed <==> verifies(p.signed) && inTime && q.host == host && q.nonce in used)
            && (v.Accepted? <==> verifies(p.signed) && inTime && q.host == host && q.nonce !in used)
            && (v.Accepted? ==> v.request == q)
  {
  }

  /** Only a genuine request touches its nonce. */
  function UsedAfter(verifies: Signed -> bool, host: string, used: set<string>, p: Presentation): set<string>
  {
    if Genuine(verifies, host, p) then used + {p.signed.request.nonce} else used
  }

  function UsedAfterAll(verifies: Signed -> bool, host: string, ps: seq<Presentation>): set<string>
  {
    if ps == [] then {}
    else UsedAfter(verifies, host, UsedAfterAll(verifies, host, ps[..|ps| - 1]), ps[|ps| - 1])
  }

  ghost predicate PresentedBefore(verifies: Signed -> bool, host: string, ps: seq<Presentation>, n: nat, nonce: string)
    requires n <= |ps|
  {
    exists i :: 0 <= i < n && Genuine(verifies, host, ps[i]) && ps[i].signed.request.nonce == nonce
  }

  lemma {:induction false} UsedNonces(verifies: Signed -> bool, host: string, ps: seq<Presentation>, n: nat,
                                      nonce: string)
    requires n <= |ps|
    ensures nonce in UsedAfterAll(verifies, host, ps[..n]) <==> PresentedBefore(verifies, host, ps, n, nonce)
  {
    if n > 0 {
      assert ps[..n][..n - 1] == ps[..n - 1];
      UsedNonces(verifies, host, ps, n - 1, nonce);
    }
  }

  /** Whatever is presented, in whatever order: a presentation is accepted exactly when it is genuine and no genuine one
      with its nonce came before. So a nonce is accepted at most once, and forged, expired or misdirected requests
      never use one up. */
  lemma {:induction false} AcceptedIffFirstGenuine(verifies: Signed -> bool, host: string, ps: seq<Presentation>,
                                                   n: nat)
    requires n < |ps|
    ensures Judge(verifies, host, UsedAfterAll(verifies, host, ps[..n]), ps[n]).Accepted? <==>
            Genuine(verifies, host, ps[n]) && !PresentedBefore(verifies, host, ps, n, ps[n].signed.request.nonce)
  {
    UsedNonces(verifies, host, ps, n, ps[n].signed.request.nonce);
  }
}
