/** Runs of a resolver (evdns.c) from its creation: whatever is called in whatever order, its requests are where
    DnsResolverSpec says, and were sent as often as it says. */
module DnsResolverRuns {
  import opened DnsRequests
  import opened DnsResolver
  import opened DnsResolverSpec

  // A queue and a set of requests in flight are those of the view, by number.
  ghost predicate Matches(waiting: seq<Request>, flying: set<Request>, reqs: seq<Request>, v: View)
  {
    && InPlace(v) && |reqs| == v.count && NoDup(reqs) && |waiting| == |v.waiting| && |flying| == |v.flying|
    && (forall i :: 0 <= i < |waiting| ==> v.waiting[i] < |reqs| && waiting[i] == reqs[v.waiting[i]])
    && (forall n :: 0 <= n < |reqs| ==> (reqs[n] in flying <==> n in v.flying))
    && (forall q :: q in flying ==> q in reqs)
  }

  // How often each request was sent, and whether it waits for this; those in the queue were not sent yet.
  ghost predicate MarksShown(reqs: seq<Request>, v: View)
    reads reqs`transmitMe, reqs`txCount
  {
    && v.marks.Keys == v.flying
    && (forall n :: n in v.marks && n < |reqs| ==> MarkOf(reqs[n]) == v.marks[n])
    && (forall i :: 0 <= i < |v.waiting| && v.waiting[i] < |reqs| ==> MarkOf(reqs[v.waiting[i]]) == Mark(false, 0))
  }

  ghost predicate Shows(r: Resolver, reqs: seq<Request>, v: View)
    reads r, reqs`transmitMe, reqs`txCount
  {
    && Matches(r.waiting, r.flying, reqs, v) && MarksShown(reqs, v)
    && |r.servers| == v.servers && r.maxInflight == v.max
  }

  // The number of a request
  function IndexOf(reqs: seq<Request>, q: Request): (n: nat)
    requires q in reqs
    ensures n < |reqs| && reqs[n] == q
  {
    if reqs[0] == q then 0 else 1 + IndexOf(reqs[1..], q)
  }

  // What comes of the transmissions, by request instead of by number
  function Here(reqs: seq<Request>, answer: nat -> Sent): Request -> Sent
  {
    (q: Request) => if q in reqs then answer(IndexOf(reqs, q)) else Delivered
  }

  function AllHere(reqs: seq<Request>, a: Answers<nat>): Answers<Request>
  {
    Answers(Here(reqs, a.first), (t: nat, q: Request) => if q in reqs then a.again(t, IndexOf(reqs, q)) else Delivered)
  }

  lemma HereSame(reqs: seq<Request>, answer: nat -> Sent)
    requires NoDup(reqs)
    ensures forall n :: 0 <= n < |reqs| ==> Here(reqs, answer)(reqs[n]) == answer(n)
  {
    forall n | 0 <= n < |reqs| ensures Here(reqs, answer)(reqs[n]) == answer(n) {
      assert IndexOf(reqs, reqs[n]) == n;
    }
  }

  lemma {:induction false} PassesHere(reqs: seq<Request>, a: Answers<nat>, m: Mark, n: nat, start: nat, end: nat)
    requires NoDup(reqs) && n < |reqs|
    ensures Passes(m, AllHere(reqs, a).again, reqs[n], start, end) == Passes(m, a.again, n, start, end)
    decreases end - start
  {
    if start < end {
      PassesHere(reqs, a, m, n, start, end - 1);
      assert IndexOf(reqs, reqs[n]) == n;
    }
  }

  // The marks of a view, before the queue is pumped
  ghost predicate MarksWere(was: map<Request, Mark>, reqs: seq<Request>, v: View)
  {
    && v.marks.Keys == v.flying
    && (forall n :: n in v.marks && n < |reqs| ==> reqs[n] in was && was[reqs[n]] == v.marks[n])
    && (forall i :: 0 <= i < |v.waiting| && v.waiting[i] < |reqs| ==>
          reqs[v.waiting[i]] in was && was[reqs[v.waiting[i]]] == Mark(false, 0))
  }

  lemma WereShown(r: Resolver, reqs: seq<Request>, v: View)
    requires Shows(r, reqs, v)
    ensures MarksWere(r.MarksHere(), reqs, v)
  {
    hide InPlace, NoDup;
    forall i | 0 <= i < |v.waiting| && v.waiting[i] < |reqs|
      ensures reqs[v.waiting[i]] in r.MarksHere() && r.MarksHere()[reqs[v.waiting[i]]] == Mark(false, 0)
    {
      assert r.waiting[i] == reqs[v.waiting[i]];
    }
  }

  lemma VacatedMarks(was: map<Request, Mark>, reqs: seq<Request>, v: View, s: Step)
    requires MarksWere(was, reqs, v) && InPlace(v) && Pumps(v, s)
    ensures MarksWere(was, reqs, Vacated(v, s))
  {
    hide InPlace, Dropped;
    var u := Vacated(v, s);
    VacatedInPlace(v, s);
    VacatedSome(v, s);
    forall i | 0 <= i < |u.waiting| && u.waiting[i] < |reqs|
      ensures reqs[u.waiting[i]] in was && was[reqs[u.waiting[i]]] == Mark(false, 0)
    {
      assert u.waiting[i] in v.waiting;
    }
  }

  lemma VacatedSome(v: View, s: Step)
    requires Pumps(v, s)
    ensures var u := Vacated(v, s);
      (u.marks == v.marks && u.flying == v.flying) || (u.marks == v.marks - {s.n} && u.flying == v.flying - {s.n})
  {
  }

  // What is known when k requests have gone into flight
  ghost predicate SentHere(was: map<Request, Mark>, queue: seq<Request>, before: set<Request>, reqs: seq<Request>, v: View,
                           a: Answers<nat>, r: Resolver, k: nat)
    reads reqs`transmitMe, reqs`txCount, before`transmitMe, before`txCount, queue`transmitMe, queue`txCount
  {
    Matches(queue, before, reqs, v) && MarksWere(was, reqs, v) && k <= |queue| && r.AllSent(was, queue, before, k, AllHere(reqs, a))
  }

  lemma SentOne(was: map<Request, Mark>, queue: seq<Request>, before: set<Request>, reqs: seq<Request>, v: View, a: Answers<nat>,
                r: Resolver, k: nat, j: nat)
    requires SentHere(was, queue, before, reqs, v, a, r, k) && j < k
    ensures k <= |v.waiting| && v.waiting[j] < |reqs| && v.waiting[j] in Marked(v, k, a)
    ensures MarkOf(reqs[v.waiting[j]]) == Marked(v, k, a)[v.waiting[j]]
  {
    hide Passes, Retried;
    var n := v.waiting[j];
    assert queue[j] == reqs[n];
    PlaceAt(v.waiting, j);
    HereSame(reqs, a.first);
    PassesHere(reqs, a, Retried(Mark(true, 0), a.first(n)), n, j, k);
    assert n in Front(v.waiting, k);
  }

  lemma SentMore(was: map<Request, Mark>, queue: seq<Request>, before: set<Request>, reqs: seq<Request>, v: View, a: Answers<nat>,
                 r: Resolver, k: nat, n: nat)
    requires SentHere(was, queue, before, reqs, v, a, r, k) && n in v.flying && n < |reqs|
    ensures k <= |v.waiting| && n in Marked(v, k, a) && MarkOf(reqs[n]) == Marked(v, k, a)[n]
  {
    hide Passes, Retried;
    PassesHere(reqs, a, v.marks[n], n, 0, k);
    assert n !in Front(v.waiting, k);
  }

  lemma NotSent(was: map<Request, Mark>, queue: seq<Request>, before: set<Request>, reqs: seq<Request>, v: View, a: Answers<nat>,
                r: Resolver, k: nat, i: nat)
    requires SentHere(was, queue, before, reqs, v, a, r, k) && k <= i < |queue|
    ensures i < |v.waiting| && v.waiting[i] < |reqs| && MarkOf(reqs[v.waiting[i]]) == Mark(false, 0)
  {
    hide InPlace, Passes, Retried;
    assert queue[i] == reqs[v.waiting[i]];
  }

  // What was sent while the queue was pumped
  lemma MarksPumped(was: map<Request, Mark>, queue: seq<Request>, before: set<Request>, reqs: seq<Request>, v: View, a: Answers<nat>,
                    r: Resolver, k: nat)
    requires SentHere(was, queue, before, reqs, v, a, r, k) && k == Places(|v.waiting|, |v.flying|, v.max, v.servers)
    ensures MarksShown(reqs, Pumped(v, a))
  {
    hide SentHere, Places, Marked, Front, MarkOf;
    FewPlaces(v);
    MarkedKeys(was, queue, before, reqs, v, a, r, k);
    forall n | n in Pumped(v, a).marks && n < |reqs| ensures MarkOf(reqs[n]) == Marked(v, k, a)[n] {
      if n in v.flying {
        SentMore(was, queue, before, reqs, v, a, r, k, n);
      } else {
        var j: nat :| j < k && v.waiting[j] == n;
        SentOne(was, queue, before, reqs, v, a, r, k, j);
      }
    }
    forall i: nat | i < |v.waiting[k..]| ensures v.waiting[k..][i] < |reqs| && MarkOf(reqs[v.waiting[k..][i]]) == Mark(false, 0) {
      NotSent(was, queue, before, reqs, v, a, r, k, i + k);
    }
  }

  lemma MarkedKeys(was: map<Request, Mark>, queue: seq<Request>, before: set<Request>, reqs: seq<Request>, v: View, a: Answers<nat>,
                   r: Resolver, k: nat)
    requires SentHere(was, queue, before, reqs, v, a, r, k)
    ensures |queue| == |v.waiting| && |before| == |v.flying| && Marked(v, k, a).Keys == v.flying + Front(v.waiting, k)
    ensures forall n :: n in Front(v.waiting, k) ==> exists j: nat :: j < k && v.waiting[j] == n
  {
    hide InPlace, Passes, Retried;
  }

  lemma FlownNew(waiting: seq<Request>, flying: set<Request>, reqs: seq<Request>, v: View, q: Request, sent: Sent)
    requires Matches(waiting, flying, reqs, v) && q !in reqs && InPlace(Flown(v, sent))
    ensures Matches(waiting, flying + {q}, reqs + [q], Flown(v, sent))
  {
    hide InPlace;
    NotYet(v);
    assert q !in flying;
    assert forall n :: 0 <= n < |reqs| ==> reqs[n] in reqs;
  }

  lemma NotYet(v: View)
    requires InPlace(v)
    ensures v.count !in v.flying && v.count !in v.waiting
    ensures forall i :: 0 <= i < |v.waiting| ==> v.waiting[i] < v.count && v.waiting[i] !in v.flying
  {
    assert forall i :: 0 <= i < |v.waiting| ==> v.waiting[i] in v.waiting;
  }

  lemma QueuedNew(waiting: seq<Request>, flying: set<Request>, reqs: seq<Request>, v: View, q: Request)
    requires Matches(waiting, flying, reqs, v) && q !in reqs
    ensures var w := v.(count := v.count + 1, waiting := v.waiting + [v.count]);
      InPlace(w) ==> Matches(waiting + [q], flying, reqs + [q], w)
  {
    hide InPlace;
    NotYet(v);
    assert forall n :: 0 <= n < |reqs| ==> reqs[n] in reqs;
  }

  // Request n, which was in flight, is not any more.
  lemma Landed(waiting: seq<Request>, flying: set<Request>, reqs: seq<Request>, v: View, w: View, n: nat)
    requires Matches(waiting, flying, reqs, v) && n in v.flying && n < |reqs| && InPlace(w)
    requires w.flying == v.flying - {n} && w.count == v.count && w.waiting == v.waiting
    ensures Matches(waiting, flying - {reqs[n]}, reqs, w)
  {
    hide InPlace;
    assert reqs[n] in flying;
  }

  // Request n, in place k of the queue, does not wait any more.
  lemma Unqueued(waiting: seq<Request>, flying: set<Request>, reqs: seq<Request>, v: View, w: View, n: nat, k: nat)
    requires Matches(waiting, flying, reqs, v) && n < |reqs| && InPlace(w) && k < |waiting| && waiting[k] == reqs[n]
    requires w.flying == v.flying && w.count == v.count && w.waiting == Dropped(v.waiting, n)
    ensures Matches(waiting[..k] + waiting[k + 1..], flying, reqs, w)
  {
    hide InPlace, Dropped, Rising;
    InOrderOf(v);
    assert v.waiting[k] == n;
    DroppedAt(v.waiting, k);
  }

  lemma InOrderOf(v: View)
    requires InPlace(v)
    ensures Rising(v.waiting)
  {
  }

  lemma {:induction false} DroppedAt(waiting: seq<nat>, k: nat)
    requires Rising(waiting) && k < |waiting|
    ensures Dropped(waiting, waiting[k]) == waiting[..k] + waiting[k + 1..]
  {
    if k > 0 {
      RisingTail(waiting);
      assert waiting[1..][k - 1] == waiting[k];
      DroppedAt(waiting[1..], k - 1);
      assert waiting[..k] + waiting[k + 1..] == [waiting[0]] + (waiting[1..][..k - 1] + waiting[1..][k..]);
    }
  }

  // The first k of the queue have gone into flight.
  lemma MatchesPumped(queue: seq<Request>, before: set<Request>, reqs: seq<Request>, v: View, flying: set<Request>, a: Answers<nat>)
    requires Matches(queue, before, reqs, v)
    requires var k := Places(|queue|, |before|, v.max, v.servers);
      k <= |queue| && flying == before + (set i | 0 <= i < k :: queue[i]) && |flying| == |before| + k
    ensures Matches(queue[Places(|queue|, |before|, v.max, v.servers)..], flying, reqs, Pumped(v, a))
  {
    hide InPlace, Places, Marked;
    PumpedInPlace(v, a);
    PumpedFront(queue, before, reqs, v, Places(|queue|, |before|, v.max, v.servers));
  }

  lemma PumpedFront(queue: seq<Request>, before: set<Request>, reqs: seq<Request>, v: View, k: nat)
    requires Matches(queue, before, reqs, v) && k <= |queue|
    ensures forall n :: 0 <= n < |reqs| ==>
      (reqs[n] in before + (set i | 0 <= i < k :: queue[i]) <==> n in v.flying + Front(v.waiting, k))
    ensures forall q :: q in before + (set i | 0 <= i < k :: queue[i]) ==> q in reqs
  {
    hide InPlace;
    forall n | 0 <= n < |reqs| ensures reqs[n] in (set i | 0 <= i < k :: queue[i]) <==> n in Front(v.waiting, k) {
      if i :| 0 <= i < k && queue[i] == reqs[n] {
        assert v.waiting[i] == n;
      }
      if i :| 0 <= i < k && v.waiting[i] == n {
        assert queue[i] == reqs[n];
      }
    }
  }

  // The servers are the same ones.
  twostate predicate SameAround(new r: Resolver)
    requires old(allocated(r))
    reads r
  {
    r.heads == old(r.heads) && r.maxInflight == old(r.maxInflight) && r.SameServers(old(r.servers))
  }

  // What is in flight or waits was submitted.
  lemma Members(r: Resolver, reqs: seq<Request>, v: View)
    requires Shows(r, reqs, v)
    ensures forall q :: q in r.flying || q in r.waiting ==> q in reqs
    ensures forall i :: 0 <= i < |r.waiting| ==> r.waiting[i] in reqs
  {
  }

  // What the server of a request that has not ended says.
  lemma Whereabouts(r: Resolver, reqs: seq<Request>, v: View, n: nat)
    requires r.Valid() && Shows(r, reqs, v) && n < |reqs| && n !in v.finished && n !in v.cancelled
    ensures if reqs[n].ns != null then reqs[n] in r.flying && n in v.flying else reqs[n] in r.waiting && n in v.waiting && n !in v.flying
  {
    hide Resolver.Counted, Resolver.Staffed, Resolver.Bounded, Table, Ring;
    if n in v.waiting {
      var i :| 0 <= i < |v.waiting| && v.waiting[i] == n;
      assert r.waiting[i] == reqs[n];
    }
    r.InOneList(reqs[n]);
  }

  // request_new and request_submit
  method DoSubmit(r: Resolver, reqs: seq<Request>, ghost v: View, memory: bool, nameLen: nat, encoded: bool, sent: Sent)
    returns (req: Request?)
    requires r.Valid() && Shows(r, reqs, v)
    modifies r, r.heads, r.servers, reqs
    ensures r.Valid() && SameAround(r) && (req != null ==> fresh(req))
    ensures Shows(r, if req == null then reqs else reqs + [req], Next(v, Submit(memory, nameLen, encoded, sent), false))
  {
    hide Resolver.Valid, NoDup, Matches, InPlace, Next, MarksShown, Resolver.Linked, Resolver.Owned;
    Members(r, reqs, v);
    FlightCounted(r);
    req := r.RequestNew(memory, nameLen, encoded);
    if req != null {
      ghost var flies, flying, waiting := req.ns != null, r.flying, r.waiting;
      r.RequestSubmit(req, sent);
      Submitted(r, waiting, flying, reqs, v, req, flies, memory, nameLen, encoded, sent);
    } else {
      Unsubmitted(v, memory, nameLen, encoded, sent);
    }
  }

  lemma FlightCounted(r: Resolver)
    requires r.Valid()
    ensures r.inflight == |r.flying|
  {
    r.Counts();
  }

  lemma Unsubmitted(v: View, memory: bool, nameLen: nat, encoded: bool, sent: Sent)
    requires !memory || nameLen >= NAME_SIZE || !encoded
    ensures Next(v, Submit(memory, nameLen, encoded, sent), false) == v
  {
  }

  lemma Submitted(r: Resolver, waiting: seq<Request>, flying: set<Request>, reqs: seq<Request>, v: View, req: Request, flies: bool,
                  memory: bool, nameLen: nat, encoded: bool, sent: Sent)
    requires Matches(waiting, flying, reqs, v) && req !in reqs && memory && nameLen < NAME_SIZE && encoded
    requires |r.servers| == v.servers && r.maxInflight == v.max && flies == (|flying| < v.max && v.servers > 0)
    requires r.flying == flying + (if flies then {req} else {}) && r.waiting == waiting + (if flies then [] else [req])
    requires MarksShown(reqs, v) && MarkOf(req) == (if flies then Retried(Mark(true, 0), sent) else Mark(false, 0))
    ensures Shows(r, reqs + [req], Next(v, Submit(memory, nameLen, encoded, sent), false))
  {
    hide InPlace, MarksShown, MarkOf, Matches, NoDup;
    Sizes(waiting, flying, reqs, v);
    InPlaceOf(waiting, flying, reqs, v);
    StepInPlace(v, Submit(memory, nameLen, encoded, sent), false);
    MarksSubmitted(waiting, flying, reqs, v, req, flies, sent);
    if flies {
      FlownNew(waiting, flying, reqs, v, req, sent);
      assert waiting + [] == waiting;
    } else {
      QueuedNew(waiting, flying, reqs, v, req);
      assert flying + {} == flying;
    }
  }

  lemma MarksSubmitted(waiting: seq<Request>, flying: set<Request>, reqs: seq<Request>, v: View, req: Request, flies: bool, sent: Sent)
    requires Matches(waiting, flying, reqs, v) && MarksShown(reqs, v)
    requires MarkOf(req) == if flies then Retried(Mark(true, 0), sent) else Mark(false, 0)
    ensures MarksShown(reqs + [req], if flies then Flown(v, sent) else v.(count := v.count + 1, waiting := v.waiting + [v.count]))
  {
    hide Retried, NoDup, InPlace;
    InPlaceOf(waiting, flying, reqs, v);
    NotYet(v);
  }

  lemma InPlaceOf(waiting: seq<Request>, flying: set<Request>, reqs: seq<Request>, v: View)
    requires Matches(waiting, flying, reqs, v)
    ensures InPlace(v)
  {
  }

  // evdns_requests_pump_waiting_queue
  method DoPump(r: Resolver, reqs: seq<Request>, ghost v: View, a: Answers<nat>)
    requires r.Valid() && Shows(r, reqs, v)
    modifies r, r.heads, r.servers, reqs
    ensures r.Valid() && SameAround(r) && Shows(r, reqs, Pumped(v, a))
  {
    hide Resolver.Valid, NoDup, Matches, InPlace, Places, Pumped, MarksShown, MarksWere, Resolver.AllSent, Resolver.MarksHere;
    Members(r, reqs, v);
    Sizes(r.waiting, r.flying, reqs, v);
    WereShown(r, reqs, v);
    r.Pump(AllHere(reqs, a));
    PumpedShown(r, old(r.MarksHere()), old(r.waiting), old(r.flying), reqs, v, a, Places(|v.waiting|, |v.flying|, v.max, v.servers));
  }

  // The queue of view v has been pumped.
  lemma PumpedShown(r: Resolver, was: map<Request, Mark>, queue: seq<Request>, before: set<Request>, reqs: seq<Request>, v: View,
                    a: Answers<nat>, k: nat)
    requires Matches(queue, before, reqs, v) && MarksWere(was, reqs, v) && |r.servers| == v.servers && r.maxInflight == v.max
    requires r.AllSent(was, queue, before, k, AllHere(reqs, a)) && r.Pumped(queue, before, k) && |r.flying| == |before| + k
    requires k == Places(|queue|, |before|, v.max, v.servers)
    ensures Shows(r, reqs, Pumped(v, a))
  {
    hide Matches, Places, Pumped, MarksShown, MarksWere, Resolver.AllSent;
    Sizes(queue, before, reqs, v);
    MarksPumped(was, queue, before, reqs, v, a, r, k);
    MatchesPumped(queue, before, reqs, v, r.flying, a);
    PumpedSame(v, a);
  }

  lemma Sizes(waiting: seq<Request>, flying: set<Request>, reqs: seq<Request>, v: View)
    requires Matches(waiting, flying, reqs, v)
    ensures |waiting| == |v.waiting| && |flying| == |v.flying| && |reqs| == v.count
  {
  }

  // A reply to a request in flight, or its last timeout: request_finished
  method DoFinish(r: Resolver, reqs: seq<Request>, ghost v: View, n: nat, a: Answers<nat>)
    requires r.Valid() && Shows(r, reqs, v) && n < |reqs| && n in v.flying
    modifies r, r.heads, r.servers, reqs
    ensures r.Valid() && SameAround(r) && Shows(r, reqs, Next(v, Reply(n, a), false))
  {
    hide Resolver.Valid, NoDup, InPlace, Places, Pumped, MarksShown, MarksWere, Resolver.AllSent, Resolver.MarksHere;
    Members(r, reqs, v);
    ghost var u := Vacated(v, Reply(n, a));
    VacatedInPlace(v, Reply(n, a));
    Landed(r.waiting, r.flying, reqs, v, u, n);
    Sizes(r.waiting, r.flying - {reqs[n]}, reqs, u);
    WereShown(r, reqs, v);
    ghost var queue, k := r.RequestFinished(reqs[n], true, 0, AllHere(reqs, a));
    VacatedMarks(old(r.MarksHere()), reqs, v, Reply(n, a));
    PumpedShown(r, old(r.MarksHere()), queue, old(r.flying) - {reqs[n]}, reqs, u, a, k);
  }

  // evdns_cancel_request
  method DoCancel(r: Resolver, reqs: seq<Request>, ghost v: View, n: nat, a: Answers<nat>)
    requires r.Valid() && Shows(r, reqs, v) && n < |reqs| && n !in v.finished && n !in v.cancelled
    modifies r, r.heads, r.servers, reqs
    ensures r.Valid() && SameAround(r) && Shows(r, reqs, Next(v, Cancel(n, a), false))
  {
    hide Resolver.Valid, NoDup, InPlace, Places, Pumped, Matches, Vacated, MarksShown, MarksWere, Resolver.AllSent, Resolver.MarksHere;
    hide Resolver.Left, MarkOf, Resolver.Linked, Resolver.Owned, Resolver.Pumped, Next, Pumps;
    Members(r, reqs, v);
    Whereabouts(r, reqs, v, n);
    WereShown(r, reqs, v);
    ghost var queue, k := r.CancelRequest(reqs[n], AllHere(reqs, a));
    Left(r, old(r.waiting), old(r.flying), reqs, v, n, queue, a);
    ghost var u := Vacated(v, Cancel(n, a));
    VacatedMarks(old(r.MarksHere()), reqs, v, Cancel(n, a));
    PumpedShown(r, old(r.MarksHere()), queue, old(r.flying) - {reqs[n]}, reqs, u, a, k);
    NextPumped(v, Cancel(n, a));
  }

  lemma NextPumped(v: View, s: Step)
    requires Pumps(v, s)
    ensures Next(v, s, false) == Pumped(Vacated(v, s), s.a)
  {
  }

  lemma Left(r: Resolver, waiting: seq<Request>, flying: set<Request>, reqs: seq<Request>, v: View, n: nat, queue: seq<Request>,
             a: Answers<nat>)
    requires Matches(waiting, flying, reqs, v) && n < |reqs| && n !in v.finished && n !in v.cancelled
    requires r.Left(waiting, reqs[n], queue)
    ensures InPlace(v) && Pumps(v, Cancel(n, a)) && Matches(queue, flying - {reqs[n]}, reqs, Vacated(v, Cancel(n, a)))
    ensures Vacated(v, Cancel(n, a)).max == v.max && Vacated(v, Cancel(n, a)).servers == v.servers
  {
    assert n in v.waiting || n in v.flying;
    VacatedInPlace(v, Cancel(n, a));
    if n in v.flying {
      NowhereElse(waiting, flying, reqs, v, n);
      Landed(waiting, flying, reqs, v, Vacated(v, Cancel(n, a)), n);
    } else {
      var i :| 0 <= i < |v.waiting| && v.waiting[i] == n;
      assert waiting[i] == reqs[n];
      var k: nat :| k < |waiting| && waiting[k] == reqs[n] && queue == waiting[..k] + waiting[k + 1..];
      Unqueued(waiting, flying, reqs, v, Vacated(v, Cancel(n, a)), n, k);
      assert flying - {reqs[n]} == flying;
    }
  }

  lemma NowhereElse(waiting: seq<Request>, flying: set<Request>, reqs: seq<Request>, v: View, n: nat)
    requires Matches(waiting, flying, reqs, v) && n < |reqs| && n in v.flying
    ensures reqs[n] !in waiting
  {
    forall i | 0 <= i < |waiting| ensures waiting[i] != reqs[n] {
      assert v.waiting[i] in v.waiting;
    }
  }

  // The request that request_reissue was called for has another server exactly if the call said so.
  twostate predicate Told(reqs: seq<Request>, v: View, s: Step, moved: bool)
    reads reqs`ns
  {
    moved <==> s.Reissue? && s.n < |reqs| && s.n in v.flying && reqs[s.n].ns != old(reqs[s.n].ns)
  }

  // A call about one request that has not ended: a reply to one in flight, or another transmission of it, or its
  // cancellation.
  method About(r: Resolver, reqs: seq<Request>, ghost v: View, s: Step, n: nat, ended: set<nat>)
    returns (ended': set<nat>, moved: bool)
    requires r.Valid() && Shows(r, reqs, v) && n < |reqs| && ended == v.finished + v.cancelled && n !in ended
    requires (s.Reply? || s.Cancel? || s.Transmit? || s.Reissue?) && s.n == n
    modifies r, r.heads, r.servers, reqs
    ensures r.Valid() && SameAround(r) && Shows(r, reqs, Next(v, s, moved))
    ensures ended' == Next(v, s, moved).finished + Next(v, s, moved).cancelled
    ensures Told(reqs, v, s, moved)
  {
    hide Resolver.Valid, NoDup, Matches, InPlace, Next, MarksShown, Resolver.Linked, Resolver.Owned;
    Whereabouts(r, reqs, v, n);
    Members(r, reqs, v);
    ended', moved := ended, false;
    if s.Cancel? {
      DoCancel(r, reqs, v, n, s.a);
      ended' := ended + {n};
      EndedOne(v, s);
    } else if reqs[n].ns != null {
      if s.Reply? {
        DoFinish(r, reqs, v, n, s.a);
        ended' := ended + {n};
        EndedOne(v, s);
      } else {
        moved := Resend(r, reqs, v, s, n);
      }
    } else {
      QueuedOnly(reqs, v, s, n);
    }
  }

  // What is said of a request that waits for a place means nothing.
  lemma QueuedOnly(reqs: seq<Request>, v: View, s: Step, n: nat)
    requires (s.Reply? || s.Transmit? || s.Reissue?) && s.n == n && n !in v.flying && MarksShown(reqs, v)
    ensures Next(v, s, false) == v
  {
  }

  // Another transmission of a request in flight, or its move to another server: request_reissue
  method Resend(r: Resolver, reqs: seq<Request>, ghost v: View, s: Step, n: nat) returns (moved: bool)
    requires r.Valid() && Shows(r, reqs, v) && n < |reqs| && n in v.flying && (s.Transmit? || s.Reissue?) && s.n == n
    modifies r, r.servers, reqs
    ensures r.Valid() && SameAround(r) && Shows(r, reqs, Next(v, s, moved))
    ensures Next(v, s, moved).finished == v.finished && Next(v, s, moved).cancelled == v.cancelled
    ensures Told(reqs, v, s, moved)
  {
    hide Resolver.Valid, NoDup, InPlace, MarksShown;
    Members(r, reqs, v);
    if s.Transmit? {
      r.RequestTransmit(reqs[n], s.sent);
      moved := false;
    } else {
      var failed := r.RequestReissue(reqs[n]);
      moved := !failed;
    }
    Remarked(r.waiting, r.flying, reqs, v, n, MarkOf(reqs[n]));
    SameMark(v, n);
  }

  lemma SameMark(v: View, n: nat)
    requires n in v.marks
    ensures v.(marks := v.marks[n := v.marks[n]]) == v
  {
    assert v.marks[n := v.marks[n]] == v.marks;
  }

  // The mark of one request in flight has changed.
  twostate lemma Remarked(new waiting: seq<Request>, new flying: set<Request>, new reqs: seq<Request>, new v: View, new n: nat, new m: Mark)
    requires old(allocated(reqs)) && Matches(waiting, flying, reqs, v) && old(MarksShown(reqs, v)) && n < |reqs| && n in v.flying
    requires MarkOf(reqs[n]) == m && forall q :: q in reqs && q != reqs[n] ==> MarkOf(q) == old(MarkOf(q))
    ensures n in v.marks && v.marks[n] == old(MarkOf(reqs[n]))
    ensures var w := v.(marks := v.marks[n := m]); Matches(waiting, flying, reqs, w) && MarksShown(reqs, w)
  {
  }

  lemma EndedOne(v: View, s: Step)
    requires (s.Reply? && s.n in v.flying) || (s.Cancel? && (s.n in v.flying || s.n in v.waiting))
    ensures Next(v, s, false).finished + Next(v, s, false).cancelled == v.finished + v.cancelled + {s.n}
  {
  }

  // Objects that a call may use afterwards: those from before, and new ones.
  twostate predicate Newer(new r: Resolver)
    requires old(allocated(r))
    reads r
  {
    (r.heads == old(r.heads) || fresh(r.heads)) && forall i :: 0 <= i < |r.servers| ==> r.servers[i] in old(r.servers) || fresh(r.servers[i])
  }

  // One call. ended are the numbers of the requests that have ended, which their user may not name any more.
  // moved is what request_reissue said.
  method Do(r: Resolver, reqs: seq<Request>, ghost v: View, s: Step, ended: set<nat>)
    returns (reqs': seq<Request>, ended': set<nat>, moved: bool)
    requires r.Valid() && Shows(r, reqs, v) && ended == v.finished + v.cancelled
    modifies r, r.heads, r.servers, reqs
    ensures r.Valid() && Shows(r, reqs', Next(v, s, moved))
    ensures ended' == Next(v, s, moved).finished + Next(v, s, moved).cancelled
    ensures Told(reqs, v, s, moved)
    ensures StatusSaid(old(r.servers), s) && Newer(r) && reqs <= reqs' && forall i :: |reqs| <= i < |reqs'| ==> fresh(reqs'[i])
  {
    hide Resolver.Valid, NoDup, Matches, InPlace, Pumped, Vacated, MarksShown;
    Members(r, reqs, v);
    reqs', ended', moved := reqs, ended, false;
    match s {
      case Submit(memory, nameLen, encoded, sent) =>
        var req := DoSubmit(r, reqs, v, memory, nameLen, encoded, sent);
        if req != null {
          reqs' := reqs + [req];
        }
      case Writable(answer) =>
        r.Transmit(Here(reqs, answer));
        Retransmitted(r, reqs, v, answer);
      case PumpNow(a) =>
        DoPump(r, reqs, v, a);
        SameEnded(v, a);
      case Reply(_, _) | Cancel(_, _) | Transmit(_, _) | Reissue(_) =>
        if s.n < |reqs| && s.n !in ended {
          ended', moved := About(r, reqs, v, s, s.n, ended);
        } else {
          MarksKnown(reqs, v);
          Beside(r.waiting, r.flying, reqs, v, s);
        }
      case _ =>
        DoServers(r, reqs, v, s);
    }
  }

  // A server that is said to be down, or up again, is.
  ghost predicate StatusSaid(servers: seq<Nameserver>, s: Step)
    reads servers`up
  {
    match s
    case Fail(i) => i < |servers| ==> !servers[i].up
    case Recover(i) => i < |servers| ==> servers[i].up
    case _ => true
  }

  // A call about the servers, or a new limit
  method DoServers(r: Resolver, reqs: seq<Request>, ghost v: View, s: Step)
    requires r.Valid() && Shows(r, reqs, v) && (s.AddServer? || s.Fail? || s.Recover? || s.SetMax?)
    modifies r, r.heads, r.servers, reqs
    ensures r.Valid() && Newer(r) && Shows(r, reqs, Next(v, s, false)) && StatusSaid(old(r.servers), s)
    ensures Next(v, s, false).finished == v.finished && Next(v, s, false).cancelled == v.cancelled
  {
    hide Resolver.Valid, NoDup, Matches, InPlace, Pumped, Vacated, MarksShown;
    Members(r, reqs, v);
    match s {
      case AddServer =>
        var ns := new Nameserver();
        r.AddNameserver(ns);
        ServerAdded(r.waiting, r.flying, reqs, v);
      case Fail(i) =>
        if i < |r.servers| {
          r.NameserverFailed(r.servers[i]);
        }
      case Recover(i) =>
        if i < |r.servers| {
          r.NameserverUp(r.servers[i]);
        }
      case SetMax(max, memory) =>
        if max <= MAX_INFLIGHT {
          var ok := r.SetMaxRequestsInflight(max, memory);
          LimitSet(r.waiting, r.flying, reqs, v, if max < 1 then 1 else max);
        }
    }
  }

  lemma SameEnded(v: View, a: Answers<nat>)
    ensures Next(v, PumpNow(a), false) == Pumped(v, a) && Pumped(v, a).finished == v.finished && Pumped(v, a).cancelled == v.cancelled
  {
  }

  // evdns_transmit has tried what waited for its transmission.
  twostate lemma Retransmitted(new r: Resolver, new reqs: seq<Request>, new v: View, new answer: nat -> Sent)
    requires old(allocated(r)) && old(allocated(reqs)) && old(Shows(r, reqs, v)) && unchanged(r`flying, r`waiting)
    requires r.Tried(old(map q | q in r.flying :: Mark(q.transmitMe, q.txCount)), r.flying, Here(reqs, answer))
    requires forall q :: q in reqs && q !in r.flying ==> MarkOf(q) == old(MarkOf(q))
    ensures var w := Next(v, Writable(answer), false); Matches(r.waiting, r.flying, reqs, w) && MarksShown(reqs, w)
  {
    hide Retried, Rising, MarkOf, Resolver.Tried, Here, NoDup;
    var w := Next(v, Writable(answer), false);
    forall n | n in w.marks && n < |reqs| ensures MarkOf(reqs[n]) == w.marks[n] {
      RetransmittedOne(r, reqs, v, answer, n);
    }
    forall i | 0 <= i < |v.waiting| && v.waiting[i] < |reqs| ensures MarkOf(reqs[v.waiting[i]]) == Mark(false, 0) {
      assert reqs[v.waiting[i]] == r.waiting[i] && v.waiting[i] in v.waiting;
    }
  }

  twostate lemma RetransmittedOne(new r: Resolver, new reqs: seq<Request>, new v: View, new answer: nat -> Sent, new n: nat)
    requires old(allocated(r)) && old(allocated(reqs)) && old(Shows(r, reqs, v)) && unchanged(r`flying, r`waiting)
    requires r.Tried(old(map q | q in r.flying :: Mark(q.transmitMe, q.txCount)), r.flying, Here(reqs, answer))
    requires n in v.marks && n < |reqs|
    ensures MarkOf(reqs[n]) == Retried(v.marks[n], answer(n))
  {
    hide Retried, InPlace;
    HereSame(reqs, answer);
    assert reqs[n] in r.flying;
  }

  lemma ServerAdded(waiting: seq<Request>, flying: set<Request>, reqs: seq<Request>, v: View)
    requires Matches(waiting, flying, reqs, v)
    ensures Matches(waiting, flying, reqs, v.(servers := v.servers + 1))
    ensures MarksShown(reqs, v) ==> MarksShown(reqs, v.(servers := v.servers + 1))
  {
  }

  lemma LimitSet(waiting: seq<Request>, flying: set<Request>, reqs: seq<Request>, v: View, max: nat)
    requires Matches(waiting, flying, reqs, v) && max >= 1
    ensures Matches(waiting, flying, reqs, v.(max := max))
    ensures MarksShown(reqs, v) ==> MarksShown(reqs, v.(max := max))
  {
  }

  lemma MarksKnown(reqs: seq<Request>, v: View)
    requires MarksShown(reqs, v)
    ensures v.marks.Keys == v.flying
  {
  }

  // A call that names a request that has ended, or none, does nothing.
  lemma Beside(waiting: seq<Request>, flying: set<Request>, reqs: seq<Request>, v: View, s: Step)
    requires Matches(waiting, flying, reqs, v) && (s.Reply? || s.Cancel? || s.Transmit? || s.Reissue?)
    requires s.n >= |reqs| || s.n in v.finished + v.cancelled
    requires v.marks.Keys == v.flying
    ensures Next(v, s, false) == v
  {
  }

  // Every history of a resolver: its requests are where the view says that the calls lead to.
  method History(steps: seq<Step>) returns (r: Resolver, reqs: seq<Request>, log: seq<Entry>)
    ensures |log| == |steps| && forall i :: 0 <= i < |steps| ==> log[i].step == steps[i]
    ensures fresh(r) && r.Valid() && Shows(r, reqs, Final(log))
  {
    hide Resolver.Valid, Shows, NoDup, Next;
    r := new Resolver();
    reqs, log := [], [];
    NothingYet(r);
    var i, ended: set<nat> := 0, {};
    while i < |steps|
      invariant 0 <= i == |log| <= |steps| && r.Valid() && Shows(r, reqs, Final(log)) && fresh(r) && fresh(r.heads)
      invariant ended == Final(log).finished + Final(log).cancelled && forall j :: 0 <= j < i ==> log[j].step == steps[j]
      invariant (forall j :: 0 <= j < |r.servers| ==> fresh(r.servers[j])) && forall j :: 0 <= j < |reqs| ==> fresh(reqs[j])
    {
      var moved: bool;
      reqs, ended, moved := Do(r, reqs, Final(log), steps[i], ended);
      ghost var was := log;
      log := log + [Entry(steps[i], moved)];
      assert log[..|log| - 1] == was;
      i := i + 1;
    }
  }

  lemma NothingYet(r: Resolver)
    requires r.flying == {} && r.waiting == [] && r.servers == [] && r.maxInflight == 64
    ensures Shows(r, [], START)
  {
  }
}
