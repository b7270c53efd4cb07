/** A DNS resolver (evdns.c): requests in flight, the waiting queue and the nameservers they are assigned to. */
module DnsResolver {
  import opened DnsRequests

  // The circular list of nameservers read from k places further on.
  ghost function Rotated(servers: seq<Nameserver>, k: nat): seq<Nameserver>
    requires k <= |servers|
  {
    servers[k..] + servers[..k]
  }

  ghost predicate Distinct(servers: seq<Nameserver>)
  {
    forall i, j :: 0 <= i < j < |servers| ==> servers[i] != servers[j]
  }

  ghost function UpOnes(servers: seq<Nameserver>): set<Nameserver>
    reads servers`up
  {
    set s | s in servers && s.up
  }

  lemma RotatedSame(servers: seq<Nameserver>, k: nat)
    requires k <= |servers|
    ensures forall s :: s in servers <==> s in Rotated(servers, k)
    ensures Distinct(servers) ==> Distinct(Rotated(servers, k))
    ensures UpOnes(Rotated(servers, k)) == UpOnes(servers)
  {
    assert servers == servers[..k] + servers[k..];
  }

  // picked is the first server that is up, and the list goes on after it.
  ghost predicate FirstUp(servers: seq<Nameserver>, picked: Nameserver, after: seq<Nameserver>)
    reads servers`up, picked`up
  {
    && picked.up
    && exists k: nat :: k < |servers| && picked == servers[k] && after == Rotated(servers, k + 1)
                        && forall j :: 0 <= j < k ==> !servers[j].up
  }

  const NAME_SIZE: nat := 256

  // How many waiting requests there are places in flight for
  function Places(waiting: nat, flying: nat, max: nat, servers: nat): nat
  {
    if servers == 0 || flying >= max then 0 else if waiting < max - flying then waiting else max - flying
  }

  // What a transmission comes to.
  datatype Sent = Delivered | Choked | Refused

  // Whether a request waits for its transmission, and how often it was sent
  datatype Mark = Mark(waits: bool, count: nat)

  function Retried(m: Mark, s: Sent): Mark
  {
    if m.waits && !s.Choked? then Mark(false, m.count + 1) else m
  }

  // What comes of the transmissions while the queue is pumped: of the first one of each request, and of the rounds in which
  // everything is tried again that could not be sent before.
  datatype Answers<!T> = Answers(first: T -> Sent, again: (nat, T) -> Sent)

  // A request after rounds start, ..., end - 1 of evdns_transmit
  ghost function Passes<T>(m: Mark, again: (nat, T) -> Sent, x: T, start: nat, end: nat): Mark
    decreases end - start
  {
    if start >= end then m else Retried(Passes(m, again, x, start, end - 1), again(end - 1, x))
  }

  // It was sent exactly if it waited for this and one of the rounds was not choked, and never twice.
  lemma {:induction false} PassesExact<T>(m: Mark, again: (nat, T) -> Sent, x: T, start: nat, end: nat)
    requires start <= end
    ensures Passes(m, again, x, start, end) ==
      if m.waits && (exists t :: start <= t < end && !again(t, x).Choked?) then Mark(false, m.count + 1) else m
    decreases end - start
  {
    if start < end {
      PassesExact(m, again, x, start, end - 1);
      if m.waits && (exists t :: start <= t < end && !again(t, x).Choked?) {
        var t :| start <= t < end && !again(t, x).Choked?;
        assert t < end - 1 || t == end - 1;
      }
    }
  }

  ghost function MarkOf(r: Request): Mark
    reads r`transmitMe, r`txCount
  {
    Mark(r.transmitMe, r.txCount)
  }

  // struct evdns_base
  class Resolver {
    var heads: array<Request?>
    var waitingHead: Request?
    // the circular list of nameservers, from server_head on
    var servers: seq<Nameserver>
    var inflight: int
    var waitingCount: int
    var good: int
    var maxInflight: nat
    ghost var buckets: seq<seq<Request>>
    ghost var waiting: seq<Request>
    ghost var flying: set<Request>

    // The table holds the requests in flight; the waiting queue is another circular list.
    ghost predicate Linked()
      reads `heads, heads, `waitingHead, `buckets, `waiting, `flying
      reads flying`transId, flying`next, flying`prev, waiting`next, waiting`prev
    {
      && Table(heads, buckets, flying) && Ring(waitingHead, waiting)
      && (forall i :: 0 <= i < |waiting| ==> waiting[i] !in flying)
    }

    // A request has a nameserver exactly if it is in flight, and then an id of its own.
    ghost predicate Owned()
      reads `waiting, `flying, `servers, flying`transId, flying`ns, waiting`ns
    {
      && (forall r :: r in flying ==> r.ns != null && r.ns in servers && r.transId < NO_ID)
      && (forall i :: 0 <= i < |waiting| ==> waiting[i].ns == null)
      && (forall q, r :: q in flying && r in flying && q != r ==> q.transId != r.transId)
    }

    // The counters are those of the lists.
    ghost predicate Counted()
      reads `waiting, `flying, `servers, `inflight, `waitingCount, flying`ns, servers`requestsInflight
    {
      Tallied(flying) && waitingCount == |waiting|
    }

    // The counters are right for these requests in flight.
    ghost predicate Tallied(crew: set<Request>)
      reads `servers, `inflight, crew`ns, servers`requestsInflight
    {
      inflight == |crew| && forall s :: s in servers ==> s.requestsInflight == |AssignedTo(crew, s)|
    }

    method CountIn(req: Request, ghost crew: set<Request>)
      requires Tallied(crew) && req !in crew && req.ns != null && req.ns in servers
      modifies `inflight, req.ns`requestsInflight
      ensures Tallied(crew + {req})
    {
      forall s | s in servers ensures |AssignedTo(crew + {req}, s)| == |AssignedTo(crew, s)| + if req.ns == s then 1 else 0 {
        AssignedWith(crew, req, s);
      }
      hide AssignedTo;
      inflight := inflight + 1;
      req.ns.requestsInflight := req.ns.requestsInflight + 1;
    }

    method CountOut(req: Request, ghost crew: set<Request>)
      requires Tallied(crew + {req}) && req !in crew && req.ns != null && req.ns in servers
      modifies `inflight, req.ns`requestsInflight
      ensures Tallied(crew)
    {
      forall s | s in servers ensures |AssignedTo(crew + {req}, s)| == |AssignedTo(crew, s)| + if req.ns == s then 1 else 0 {
        AssignedWith(crew, req, s);
      }
      hide AssignedTo;
      inflight := inflight - 1;
      req.ns.requestsInflight := req.ns.requestsInflight - 1;
    }

    ghost predicate Staffed()
      reads `servers, `good, servers`up
    {
      Distinct(servers) && good == |UpOnes(servers)|
    }

    ghost predicate Bounded()
      reads `maxInflight, `buckets
    {
      1 <= maxInflight <= MAX_INFLIGHT && |buckets| == (maxInflight + 4) / 5
    }

    ghost predicate Valid()
      reads this, heads, servers, flying, waiting
    {
      Linked() && Owned() && Counted() && Staffed() && Bounded()
    }

    // base->server_head = base->server_head->next
    method Turn()
      requires Valid() && servers != []
      modifies `servers
      ensures Valid() && SameServers(old(servers)) && servers == Rotated(old(servers), 1)
    {
      hide Linked, Owned, Counted, Distinct, UpOnes, Bounded;
      RotatedSame(servers, 1);
      servers := servers[1..] + servers[..1];
      StillOwned();
    }

    // nameserver_pick: the first server that is up from the head of the list on, which goes to the back.
    method NameserverPick() returns (picked: Nameserver?)
      requires Valid()
      modifies `servers
      ensures Valid() && SameServers(old(servers))
      ensures picked == null <==> servers == []
      ensures picked != null ==> picked in servers
      ensures picked != null && good == 0 ==> servers == Rotated(old(servers), 1) && picked == servers[0]
      ensures picked != null && good > 0 ==> FirstUp(old(servers), picked, servers)
    {
      hide Linked, Owned, Counted, Staffed, Bounded, Rotated;
      if servers == [] {
        return null;
      }
      ghost var was := servers;
      TurnedOn(was, 0);
      if good == 0 {
        Turn();
        return servers[0];
      }
      var k: nat := 0;
      while true
        invariant Valid() && SameServers(was) && k < |was|
        invariant servers == Rotated(was, k) && forall j :: 0 <= j < k ==> !was[j].up
        decreases |was| - k
      {
        TurnedOn(was, k);
        if servers[0].up {
          picked := servers[0];
          Turn();
          return;
        }
        assert !was[k].up;
        SomeUp(was, k);
        Turn();
        k := k + 1;
      }
    }

    // With a good server the search comes to one.
    lemma SomeUp(was: seq<Nameserver>, k: nat)
      requires Staffed() && good != 0 && k < |was| && servers == Rotated(was, k) && forall j :: 0 <= j <= k ==> !was[j].up
      ensures k + 1 < |was|
    {
      RotatedSame(was, k);
      if k + 1 == |was| {
        NoneUp(was);
      }
    }

    ghost predicate SameServers(before: seq<Nameserver>)
      reads `servers
    {
      && |servers| == |before| && (forall i :: 0 <= i < |before| ==> before[i] in servers)
      && (forall i :: 0 <= i < |servers| ==> servers[i] in before)
    }

    // The order of the servers does not matter.
    twostate lemma StillOwned()
      requires old(Owned()) && old(Counted()) && SameServers(old(servers)) && unchanged(`waiting, `flying)
      requires unchanged(`inflight, `waitingCount, flying, waiting)
      requires forall s :: s in servers ==> s.requestsInflight == old(s.requestsInflight)
      ensures Owned() && Counted()
    {
    }

    // A request enters the table.
    method Hang(req: Request)
      requires Linked() && req !in flying && req !in waiting
      modifies heads, `buckets, `flying, req`next, req`prev, flying`next, flying`prev
      ensures Linked() && flying == old(flying) + {req} && |buckets| == |old(buckets)|
    {
      hide Ring, Placed;
      InsertHashed(req, heads, buckets, flying);
      ghost var b := req.transId % |buckets|;
      buckets := buckets[b := buckets[b] + [req]];
      flying := flying + {req};
    }

    // A request enters the table, and the counters follow.
    method Launch(req: Request)
      requires Linked() && Owned() && Counted() && req !in flying && req !in waiting
      requires req.ns != null && req.ns in servers && req.transId < NO_ID && forall r :: r in flying ==> r.transId != req.transId
      modifies heads, `buckets, `flying, `inflight, req`next, req`prev, flying`next, flying`prev
      modifies servers`requestsInflight
      ensures Linked() && Owned() && Counted()
      ensures flying == old(flying) + {req} && |buckets| == |old(buckets)|
    {
      hide Linked, Tallied;
      ghost var crew := flying;
      Hang(req);
      CountIn(req, crew);
    }

    // A request leaves the table.
    method Unhang(req: Request)
      requires Linked() && req in flying
      modifies heads, `buckets, `flying, flying`next, flying`prev
      ensures Linked() && flying == old(flying) - {req} && |buckets| == |old(buckets)|
    {
      hide Ring, Placed, NoDup;
      ghost var b, k := WhereHung(buckets, flying, req);
      RemoveHashed(req, heads, buckets, flying, k);
      buckets := buckets[b := buckets[b][..k] + buckets[b][k + 1..]];
      flying := flying - {req};
    }

    // A request leaves the table, and the counters follow.
    method Land(req: Request)
      requires Linked() && Owned() && Counted() && req in flying
      modifies heads, `buckets, `flying, `inflight, flying`next, flying`prev, servers`requestsInflight
      ensures Linked() && Owned() && Counted()
      ensures flying == old(flying) - {req} && |buckets| == |old(buckets)|
    {
      hide Linked, Tallied;
      ghost var crew := flying - {req};
      assert flying == crew + {req};
      Unhang(req);
      CountOut(req, crew);
    }

    // A request without a nameserver joins the waiting queue.
    method Enqueue(req: Request)
      requires Linked() && Owned() && Counted() && req !in flying && req !in waiting && req.ns == null
      modifies `waitingHead, `waiting, `waitingCount, req`next, req`prev, waiting`next, waiting`prev
      ensures Linked() && Owned() && Counted() && waiting == old(waiting) + [req]
    {
      hide Ring, Placed, Tallied;
      waitingHead := Insert(req, waitingHead, waiting);
      waiting := waiting + [req];
      waitingCount := waitingCount + 1;
    }

    // A request leaves the waiting queue.
    method Dequeue(req: Request, ghost k: nat)
      requires Linked() && Owned() && Counted() && k < |waiting| && req == waiting[k]
      modifies `waitingHead, `waiting, `waitingCount, waiting`next, waiting`prev
      ensures Linked() && Owned() && Counted() && waiting == old(waiting)[..k] + old(waiting)[k + 1..]
      ensures req !in waiting
    {
      hide Linked, Tallied;
      WaitingNear(k);
      Unlink(req, k);
      waitingCount := waitingCount - 1;
    }

    lemma WaitingNear(k: nat)
      requires Linked() && k < |waiting|
      ensures NoDup(waiting) && waiting[k] !in waiting[..k] + waiting[k + 1..]
      ensures forall r :: r in waiting[..k] + waiting[k + 1..] ==> r in waiting
    {
      hide Ring, Placed;
      RingDistinct(waitingHead, waiting);
      NotTwice(waiting, k);
    }

    // A request leaves the list of the waiting ones.
    method Unlink(req: Request, ghost k: nat)
      requires Linked() && k < |waiting| && req == waiting[k]
      modifies `waitingHead, `waiting, waiting`next, waiting`prev
      ensures Linked() && waiting == old(waiting)[..k] + old(waiting)[k + 1..]
    {
      hide Ring, Placed, NoDup;
      WaitingNear(k);
      waitingHead := Remove(req, waitingHead, waiting, k);
      waiting := waiting[..k] + waiting[k + 1..];
    }

    // The head of the waiting queue is assigned to a server and goes into flight under an id that is not in use.
    method Promote(ns: Nameserver) returns (req: Request)
      requires Valid() && waiting != [] && inflight < maxInflight && ns in servers
      modifies `waitingHead, `waiting, `waitingCount, heads, `buckets, `flying, `inflight
      modifies waiting`next, waiting`prev, waiting`ns, waiting`transId, flying`next, flying`prev, servers`requestsInflight
      ensures Valid() && req == old(waiting)[0] && waiting == old(waiting)[1..] && flying == old(flying) + {req}
      ensures req.ns == ns && forall r :: r in old(flying) ==> r.transId != req.transId
    {
      hide Linked, Owned, Counted, Staffed, Distinct;
      WaitingFirst();
      req := waitingHead;
      ghost var rest := waiting;
      Dequeue(req, 0);
      assert rest[..0] + rest[1..] == rest[1..];
      Stamp(req, ns);
      Launch(req);
    }

    // A request that is in no list gets its server and its id.
    method Stamp(req: Request, ns: Nameserver)
      requires Linked() && Owned() && Counted() && inflight < NO_ID && req !in flying && req !in waiting
      modifies req`ns, req`transId
      ensures Linked() && Owned() && Counted()
      ensures req.ns == ns && req.transId < NO_ID && forall r :: r in flying ==> r.transId != req.transId
    {
      hide Table, Ring, AssignedTo;
      req.ns := ns;
      req.transId := TransactionIdPick(heads, buckets, flying);
    }

    lemma WaitingFirst()
      requires Linked() && Counted() && waiting != []
      ensures waitingHead == waiting[0] && waiting[0] !in flying && inflight == |flying|
    {
    }

    // The body of the loop that follows.
    method PumpOne() returns (req: Request?)
      requires Valid() && waiting != [] && inflight < maxInflight
      modifies `waitingHead, `waiting, `waitingCount, heads, `buckets, `flying, `inflight, `servers
      modifies waiting`next, waiting`prev, waiting`ns, waiting`transId, flying`next, flying`prev, servers`requestsInflight
      ensures Valid() && SameServers(old(servers))
      ensures req != null ==> req == old(waiting)[0] && waiting == old(waiting)[1..] && flying == old(flying) + {req}
      ensures if req == null then servers == [] && unchanged(`waiting, `flying) else servers != []
    {
      hide Linked, Owned, Counted, Staffed, Bounded;
      var ns := NameserverPick();
      if ns == null {
        return null;
      }
      req := Promote(ns);
    }

    // A request is sent, and then what could not be sent before.
    method SendAll(req: Request, sent: Sent, answer: Request -> Sent)
      requires Valid() && req in flying
      modifies `good, `servers, servers`up, flying`ns, servers`requestsInflight, flying`transmitMe, flying`txCount
      ensures Valid() && SameServers(old(servers))
      ensures MarkOf(req) == Retried(Retried(Mark(true, old(req.txCount)), sent), answer(req))
      ensures forall r :: r in flying && r != req ==> MarkOf(r) == Retried(old(MarkOf(r)), answer(r))
    {
      hide Linked, Owned, Counted, Staffed, Bounded;
      RequestTransmit(req, sent);
      Transmit(answer);
    }

    // evdns_requests_pump_waiting_queue: fills the free places in flight from the front of the waiting queue, and sends
    // what it has promoted and what could not be sent before. What becomes of it may take servers down and move requests
    // to others, but not out of flight.
    method Pump(a: Answers<Request>)
      requires Valid()
      modifies `waitingHead, `waiting, `waitingCount, waiting, heads, `buckets, `flying, `inflight, `servers, `good
      modifies flying`next, flying`prev, flying`ns, flying`txCount, flying`transmitMe, servers`requestsInflight, servers`up
      ensures Valid() && SameServers(old(servers))
      ensures var k := Places(|old(waiting)|, |old(flying)|, maxInflight, |old(servers)|);
        && Pumped(old(waiting), old(flying), k) && |flying| == |old(flying)| + k
        && AllSent(old(MarksHere()), old(waiting), old(flying), k, a)
      ensures forall r :: r in flying && r !in old(flying) ==>
        (r.txCount == old(r.txCount) + 1 && !r.transmitMe) || (r.txCount == old(r.txCount) && r.transmitMe && a.first(r).Choked?)
      ensures forall r: Request, t: nat {:trigger a.again(t, r)} ::
        r in old(flying) && old(r.transmitMe) && t < |flying| - |old(flying)| && !a.again(t, r).Choked? ==>
          r.txCount == old(r.txCount) + 1 && !r.transmitMe
    {
      hide Linked, Owned, Counted, Staffed, Bounded, AllSent, MarksHere, Places;
      ghost var k := PumpAll(a);
      SentExactly(old(waiting), old(flying), old(MarksHere()), k, a);
      WasHere(k);
    }

    method PumpAll(a: Answers<Request>) returns (ghost k: nat)
      requires Valid()
      modifies `waitingHead, `waiting, `waitingCount, waiting, heads, `buckets, `flying, `inflight, `servers, `good
      modifies flying`next, flying`prev, flying`ns, flying`txCount, flying`transmitMe, servers`requestsInflight, servers`up
      ensures Valid() && SameServers(old(servers)) && k == Places(|old(waiting)|, |old(flying)|, maxInflight, |old(servers)|)
      ensures Pumped(old(waiting), old(flying), k) && |flying| == |old(flying)| + k
      ensures AllSent(old(MarksHere()), old(waiting), old(flying), k, a)
    {
      hide Linked, Owned, Counted, Staffed, Bounded, Pumped, AllSent, MarksHere, MarkOf, SameServers;
      SameAsNow();
      var more := true;
      var round := 0;
      k := 0;
      ghost var was := MarksHere();
      PumpedNone();
      NothingSent(a);
      Counts();
      QueueApart();
      while more && inflight < maxInflight && waitingCount > 0
        invariant Valid() && SameServers(old(servers)) && Pumped(old(waiting), old(flying), k)
        invariant AllSent(was, old(waiting), old(flying), k, a) && (more ==> round == k) && |servers| == |old(servers)|
        invariant forall i :: 0 <= i < |servers| ==> servers[i] in old(servers)
        invariant |flying| == |old(flying)| + k && |waiting| == |old(waiting)| - k && (k > 0 ==> |flying| <= maxInflight)
        invariant inflight == |flying| && waitingCount == |waiting|
        invariant if more then k > 0 ==> servers != [] else servers == [] && k == 0
        decreases more, |waiting|
      {
        PumpedWithin(old(waiting), old(flying), k);
        label before:
        more := PumpStep(old(waiting), old(flying), was, round, a);
        StillSame@before(old(servers));
        k := if more then k + 1 else k;
        round := round + 1;
        PumpedWithin(old(waiting), old(flying), k);
        Counts();
      }
    }

    lemma SameOnes(before: seq<Nameserver>)
      requires SameServers(before)
      ensures |servers| == |before| && forall i :: 0 <= i < |servers| ==> servers[i] in before
    {
    }

    lemma SameAsNow()
      ensures SameServers(servers)
    {
    }

    twostate lemma StillSame(new before: seq<Nameserver>)
      requires old(allocated(before)) && old(SameServers(before)) && SameServers(old(servers))
      ensures SameServers(before) && |servers| == |before| && forall i :: 0 <= i < |servers| ==> servers[i] in before
    {
    }

    twostate lemma WasHere(k: nat)
      requires old(Valid()) && k <= |old(waiting)|
      ensures forall r :: r in old(flying) ==> r in old(MarksHere()) && old(MarksHere())[r] == old(MarkOf(r))
      ensures forall j :: 0 <= j < k ==> old(waiting)[j] in old(MarksHere()) && old(MarksHere())[old(waiting)[j]] == old(MarkOf(waiting[j]))
    {
      assert forall j :: 0 <= j < k ==> old(waiting)[j] in (set i | 0 <= i < |old(waiting)| :: old(waiting)[i]);
    }

    // One round: the head of the queue goes into flight and is sent, unless there is no server.
    method PumpStep(ghost queue: seq<Request>, ghost before: set<Request>, ghost was: map<Request, Mark>, k: nat, a: Answers<Request>)
      returns (more: bool)
      requires Valid() && waiting != [] && inflight < maxInflight && Pumped(queue, before, k) && AllSent(was, queue, before, k, a)
      requires NoDup(queue) && forall i :: 0 <= i < |queue| ==> queue[i] !in before
      modifies `waitingHead, `waiting, `waitingCount, waiting, heads, `buckets, `flying, `inflight, `servers, `good
      modifies flying`next, flying`prev, flying`ns, flying`txCount, flying`transmitMe, servers`requestsInflight, servers`up
      ensures Valid() && SameServers(old(servers)) && Pumped(queue, before, if more then k + 1 else k)
      ensures AllSent(was, queue, before, if more then k + 1 else k, a)
      ensures if more then |flying| == |old(flying)| + 1 && |waiting| == |old(waiting)| - 1 && servers != []
              else servers == [] && unchanged(`waiting, `flying)
    {
      hide Linked, Owned, Counted, Staffed, Bounded, Pumped, AllSent, MarkOf, Retried, NoDup, SameServers;
      Counts();
      label Before:
      var req := PumpOne();
      SameOnes(old(servers));
      more := req != null;
      if more {
        PumpedOn@Before(queue, before, k);
        QueueApart();
        label Mid:
        SendAll(req, a.first(req), (r: Request) => a.again(k, r));
        StillSame@Mid(old(servers));
        SentOn@Mid(was, queue, before, k, a);
      }
    }

    lemma Counts()
      requires Valid()
      ensures inflight == |flying| && waitingCount == |waiting| && (waiting != [] ==> waiting[0] !in flying)
    {
    }

    // The k requests at the front of the queue have gone into flight; nothing else has moved.
    ghost predicate Pumped(queue: seq<Request>, before: set<Request>, k: nat)
      reads `waiting, `flying
    {
      k <= |queue| && waiting == queue[k..] && flying == before + set i | 0 <= i < k :: queue[i]
    }

    // How often everything here was sent, and whether it waits for this
    ghost function MarksHere(): map<Request, Mark>
      reads `flying, `waiting, flying`transmitMe, flying`txCount, waiting`transmitMe, waiting`txCount
    {
      map r | r in flying + (set i | 0 <= i < |waiting| :: waiting[i]) :: MarkOf(r)
    }

    // The requests that were in flight, and the first k of the queue as they joined these, have been through the rounds of
    // transmissions; the others that wait are as they were.
    ghost predicate AllSent(was: map<Request, Mark>, queue: seq<Request>, before: set<Request>, k: nat, a: Answers<Request>)
      reads before`transmitMe, before`txCount, queue`transmitMe, queue`txCount
    {
      && k <= |queue| && (forall r :: r in before ==> r in was) && (forall i :: 0 <= i < |queue| ==> queue[i] in was)
      && (forall r :: r in before ==> MarkOf(r) == Passes(was[r], a.again, r, 0, k))
      && (forall j :: 0 <= j < k ==>
            MarkOf(queue[j]) == Passes(Retried(Mark(true, was[queue[j]].count), a.first(queue[j])), a.again, queue[j], j, k))
      && (forall j :: k <= j < |queue| ==> MarkOf(queue[j]) == was[queue[j]])
    }

    // The queue holds nothing twice and nothing that is in flight.
    lemma QueueApart()
      requires Linked()
      ensures NoDup(waiting) && forall i :: 0 <= i < |waiting| ==> waiting[i] !in flying
    {
      hide Placed;
      RingDistinct(waitingHead, waiting);
    }

    // One round more: the next request of the queue, which has gone into flight, is sent, and the others are tried again.
    twostate lemma SentOn(new was: map<Request, Mark>, new queue: seq<Request>, new before: set<Request>, new k: nat,
                          new a: Answers<Request>)
      requires old(allocated(was)) && old(allocated(queue)) && old(allocated(before)) && k < |queue|
      requires old(AllSent(was, queue, before, k, a)) && Pumped(queue, before, k + 1)
      requires NoDup(queue) && forall i :: 0 <= i < |queue| ==> queue[i] !in before
      requires MarkOf(queue[k]) == Retried(Retried(Mark(true, old(queue[k].txCount)), a.first(queue[k])), a.again(k, queue[k]))
      requires forall r :: r in flying && r != queue[k] ==> MarkOf(r) == Retried(old(MarkOf(r)), a.again(k, r))
      requires forall j :: k < j < |queue| ==> MarkOf(queue[j]) == old(MarkOf(queue[j]))
      ensures AllSent(was, queue, before, k + 1, a)
    {
      hide Retried;
      forall r | r in before ensures MarkOf(r) == Passes(was[r], a.again, r, 0, k + 1) {
        assert r in flying;
      }
      forall j | 0 <= j < k + 1
        ensures MarkOf(queue[j]) == Passes(Retried(Mark(true, was[queue[j]].count), a.first(queue[j])), a.again, queue[j], j, k + 1)
      {
        assert queue[j] in flying;
        assert old(MarkOf(queue[k])) == was[queue[k]];
      }
    }

    // So each request was sent exactly if one of its transmissions was not choked.
    lemma SentExactly(queue: seq<Request>, before: set<Request>, was: map<Request, Mark>, k: nat, a: Answers<Request>)
      requires AllSent(was, queue, before, k, a)
      ensures forall j :: 0 <= j < k ==>
        (queue[j].txCount == was[queue[j]].count + 1 && !queue[j].transmitMe)
        || (queue[j].txCount == was[queue[j]].count && queue[j].transmitMe && a.first(queue[j]).Choked?)
      ensures forall r: Request, t: nat {:trigger a.again(t, r)} :: r in before && was[r].waits && t < k && !a.again(t, r).Choked? ==>
        r.txCount == was[r].count + 1 && !r.transmitMe
    {
      forall j | 0 <= j < k
        ensures (queue[j].txCount == was[queue[j]].count + 1 && !queue[j].transmitMe)
             || (queue[j].txCount == was[queue[j]].count && queue[j].transmitMe && a.first(queue[j]).Choked?)
      {
        PassesExact<Request>(Retried(Mark(true, was[queue[j]].count), a.first(queue[j])), a.again, queue[j], j, k);
      }
      forall r: Request, t: nat | r in before && was[r].waits && t < k && !a.again(t, r).Choked?
        ensures r.txCount == was[r].count + 1 && !r.transmitMe
      {
        PassesExact<Request>(was[r], a.again, r, 0, k);
      }
    }

    lemma NothingSent(a: Answers<Request>)
      ensures AllSent(MarksHere(), waiting, flying, 0, a)
    {
    }

    lemma PumpedNone()
      ensures Pumped(waiting, flying, 0)
    {
    }

    lemma PumpedWithin(queue: seq<Request>, before: set<Request>, k: nat)
      requires Pumped(queue, before, k)
      ensures forall i :: 0 <= i < |waiting| ==> waiting[i] in queue
      ensures forall r :: r in flying ==> r in before || r in queue
    {
    }

    twostate lemma PumpedOn(new queue: seq<Request>, new before: set<Request>, k: nat)
      requires old(allocated(queue)) && old(allocated(before)) && old(Pumped(queue, before, k)) && old(waiting) != []
      requires waiting == old(waiting)[1..] && flying == old(flying) + {old(waiting)[0]}
      ensures Pumped(queue, before, k + 1) && k < |queue| && queue[k] == old(waiting)[0]
    {
      assert old(waiting)[0] == queue[k];
    }

    // request_new. With room in flight the request gets an id that is not in use and a server, if there is one.
    // nameLen is the length of the name; encoded says whether evdns_request_data_build could encode it.
    method RequestNew(memoryLeft: bool, nameLen: nat, encoded: bool) returns (req: Request?)
      requires Valid()
      modifies `servers
      ensures Valid() && SameServers(old(servers))
      ensures req == null <==> !memoryLeft || nameLen >= NAME_SIZE || !encoded
      ensures req != null ==> fresh(req) && req.txCount == 0 && !req.transmitMe && req !in flying && req !in waiting
      ensures req != null ==> (req.ns == null <==> inflight >= maxInflight || servers == [])
      ensures req != null && req.ns != null ==>
        req.ns in servers && req.transId < NO_ID && forall r :: r in flying ==> r.transId != req.transId
    {
      hide Table, Owned, AssignedTo, Staffed;
      var issuingNow := inflight < maxInflight;
      var id := NO_ID;
      if issuingNow {
        id := TransactionIdPick(heads, buckets, flying);
      }
      if !memoryLeft {
        return null;
      }
      if nameLen >= NAME_SIZE {
        return null;
      }
      if !encoded {
        return null;
      }
      var ns: Nameserver? := null;
      if issuingNow {
        ns := NameserverPick();
      }
      req := new Request(id, ns);
    }

    // request_submit, given what becomes of the transmission. If the server refuses it and another one is up, the
    // request goes to that one.
    method RequestSubmit(req: Request, sent: Sent)
      requires Valid() && req !in flying && req !in waiting
      requires req.ns != null ==>
        req.ns in servers && req.transId < NO_ID && forall r :: r in flying ==> r.transId != req.transId
      modifies heads, `buckets, `flying, `inflight, `waitingHead, `waiting, `waitingCount, req`next, req`prev
      modifies flying`next, flying`prev, waiting`next, waiting`prev, servers`requestsInflight
      modifies `good, `servers, servers`up, flying`ns, req`ns, req`txCount, req`transmitMe
      ensures Valid() && SameServers(old(servers))
      ensures flying == old(flying) + if old(req.ns) != null then {req} else {}
      ensures waiting == old(waiting) + if old(req.ns) != null then [] else [req]
      ensures old(req.ns) != null ==> req.txCount == (old(req.txCount) + if sent.Choked? then 0 else 1) && req.transmitMe == sent.Choked?
      ensures old(req.ns) != null && sent.Refused? ==> !old(req.ns).up
      ensures sent.Refused? && old(req.ns != null && req.ns.up && req.txCount == 0) && good > 0 ==> req.ns != old(req.ns)
      ensures old(req.ns) == null || !sent.Refused? ==> req.ns == old(req.ns)
      ensures old(req.ns) == null ==> req.txCount == old(req.txCount) && req.transmitMe == old(req.transmitMe)
    {
      hide Linked, Owned, Counted, Staffed;
      if req.ns != null {
        Launch(req);
        RequestTransmit(req, sent);
      } else {
        Enqueue(req);
      }
    }

    // request_finished, for a request in flight or in place k of the waiting queue. Waiting requests take its place.
    method RequestFinished(req: Request, wasInflight: bool, ghost k: nat, a: Answers<Request>)
      returns (ghost queue: seq<Request>, ghost n: nat)
      requires Valid() && if wasInflight then req in flying else k < |waiting| && waiting[k] == req
      modifies `waitingHead, `waiting, `waitingCount, waiting, heads, `buckets, `flying, `inflight, `servers, `good
      modifies flying`next, flying`prev, flying`ns, flying`txCount, flying`transmitMe, servers`requestsInflight, servers`up
      ensures Valid() && SameServers(old(servers)) && req !in flying && req !in waiting
      ensures queue == old(if wasInflight then waiting else waiting[..k] + waiting[k + 1..])
      ensures Pumped(queue, old(flying) - {req}, n) && |flying| == |old(flying) - {req}| + n
      ensures n == Places(|queue|, |old(flying) - {req}|, maxInflight, |old(servers)|)
      ensures AllSent(old(MarksHere()), queue, old(flying) - {req}, n, a)
    {
      hide Linked, Owned, Counted, Staffed, Bounded, Pumped, AllSent, MarksHere, Places, MarkOf;
      InOneList(req);
      Leave(req, wasInflight, k);
      ghost var crew := flying;
      queue := waiting;
      ghost var was := MarksHere();
      StillMarked(was, queue, crew);
      Pump(a);
      n := Places(|queue|, |crew|, maxInflight, |old(servers)|);
      PumpedWithin(queue, crew, n);
      SentSo(was, old(MarksHere()), queue, crew, n, a);
    }

    // A request leaves its list.
    method Leave(req: Request, wasInflight: bool, ghost k: nat)
      requires Valid() && if wasInflight then req in flying else k < |waiting| && waiting[k] == req
      modifies `waitingHead, `waiting, `waitingCount, waiting`next, waiting`prev, heads, `buckets, `flying, `inflight
      modifies flying`next, flying`prev, servers`requestsInflight
      ensures Valid() && flying == old(flying) - {req} && req !in waiting
      ensures waiting == old(if wasInflight then waiting else waiting[..k] + waiting[k + 1..])
    {
      hide Linked, Owned, Counted, Staffed;
      InOneList(req);
      if wasInflight {
        Land(req);
      } else {
        Dequeue(req, k);
        assert flying == flying - {req};
      }
    }

    twostate lemma StillMarked(new was: map<Request, Mark>, new queue: seq<Request>, new crew: set<Request>)
      requires old(allocated(queue)) && old(allocated(crew)) && was == MarksHere() && queue == waiting && crew == flying
      requires flying <= old(flying) && (forall i :: 0 <= i < |waiting| ==> waiting[i] in old(waiting))
      requires forall r :: r in old(flying) || r in old(waiting) ==> MarkOf(r) == old(MarkOf(r))
      ensures forall r :: r in crew || r in queue ==> r in was && r in old(MarksHere()) && was[r] == old(MarksHere())[r]
    {
    }

    lemma SentSo(was: map<Request, Mark>, was': map<Request, Mark>, queue: seq<Request>, before: set<Request>, k: nat, a: Answers<Request>)
      requires AllSent(was, queue, before, k, a)
      requires forall r :: r in before || r in queue ==> r in was' && was[r] == was'[r]
      ensures AllSent(was', queue, before, k, a)
    {
    }

    // A request is in flight or waiting, not both, and its nameserver tells which.
    lemma InOneList(req: Request)
      requires Linked() && Owned()
      ensures req in flying ==> req !in waiting && req.ns != null
      ensures req in waiting ==> req !in flying && req.ns == null
    {
    }

    // The queue without this request
    ghost predicate Left(was: seq<Request>, req: Request, queue: seq<Request>)
    {
      if req !in was then queue == was
      else exists k: nat :: k < |was| && was[k] == req && queue == was[..k] + was[k + 1..]
    }

    // evdns_cancel_request: which list the request leaves is told, rightly, from its nameserver. The first n requests of
    // the queue that is left go into flight then, and no other request moves.
    method CancelRequest(req: Request, a: Answers<Request>) returns (ghost queue: seq<Request>, ghost n: nat)
      requires Valid() && (req in flying || req in waiting)
      modifies `waitingHead, `waiting, `waitingCount, waiting, heads, `buckets, `flying, `inflight, `servers, `good
      modifies flying`next, flying`prev, flying`ns, flying`txCount, flying`transmitMe, servers`requestsInflight, servers`up
      ensures Valid() && SameServers(old(servers)) && req !in flying && req !in waiting
      ensures old(req in flying) == old(req.ns != null) && Left(old(waiting), req, queue)
      ensures Pumped(queue, old(flying) - {req}, n) && |flying| == |old(flying) - {req}| + n
      ensures n == Places(|queue|, |old(flying) - {req}|, maxInflight, |old(servers)|)
      ensures AllSent(old(MarksHere()), queue, old(flying) - {req}, n, a)
    {
      hide Linked, Owned, Counted, Staffed, Bounded, Pumped, AllSent, MarksHere;
      InOneList(req);
      if req.ns != null {
        queue, n := RequestFinished(req, true, 0, a);
      } else {
        ghost var k: nat :| k < |waiting| && waiting[k] == req;
        queue, n := RequestFinished(req, false, k, a);
      }
    }

    // request_swap_ns
    method RequestSwapNs(req: Request, ns: Nameserver?)
      requires Valid() && req in flying && (ns != null ==> ns in servers)
      modifies req`ns, servers`requestsInflight
      ensures Valid() && req.ns == if ns != null then ns else old(req.ns)
    {
      hide Linked, Staffed, Bounded;
      if ns != null && req.ns != ns {
        assert req.ns.requestsInflight > 0 by {
          assert req in AssignedTo(flying, req.ns);
        }
        SwapCounts(req, ns);
      }
    }

    method SwapCounts(req: Request, ns: Nameserver)
      requires Tallied(flying) && req in flying && ns in servers && req.ns != null && req.ns in servers && req.ns != ns
      modifies req`ns, servers`requestsInflight
      ensures Tallied(flying) && req.ns == ns
    {
      hide AssignedTo;
      ghost var crew := flying - {req};
      assert flying == crew + {req};
      forall s | s in servers ensures s.requestsInflight == |AssignedTo(crew, s)| + if req.ns == s then 1 else 0 {
        AssignedWith(crew, req, s);
      }
      req.ns.requestsInflight := req.ns.requestsInflight - 1;
      ns.requestsInflight := ns.requestsInflight + 1;
      req.ns := ns;
      forall s | s in servers ensures |AssignedTo(flying, s)| == |AssignedTo(crew, s)| + if ns == s then 1 else 0 {
        AssignedWith(crew, req, s);
      }
    }

    // request_reissue
    method RequestReissue(req: Request) returns (failed: bool)
      requires Valid() && req in flying
      modifies `servers, req`ns, req`txCount, req`transmitMe, servers`requestsInflight
      ensures Valid() && SameServers(old(servers))
      ensures failed <==> req.ns == old(req.ns)
      ensures old(servers) != [] && old(good) == 0 ==> servers == old(servers[1..] + servers[..1]) && req.ns == servers[0]
      ensures old(good) > 0 ==> req.ns != null && FirstUp(old(servers), req.ns, servers)
      ensures failed ==> req.txCount == old(req.txCount) && req.transmitMe == old(req.transmitMe)
      ensures !failed ==> req.txCount == 0 && req.transmitMe && (good > 0 ==> req.ns != null && req.ns.up)
    {
      hide Linked, Owned, Counted, Staffed, Bounded;
      HasServer(req);
      var lastNs := req.ns;
      var ns := NameserverPick();
      RequestSwapNs(req, ns);
      if req.ns == lastNs {
        return true;
      }
      req.txCount := 0;
      req.transmitMe := true;
      return false;
    }

    lemma HasServer(req: Request)
      requires Owned() && req in flying
      ensures req.ns != null && req.ns in servers && servers != []
    {
    }

    // evdns_base_set_max_requests_inflight; the option max-inflight is at most MAX_INFLIGHT. It fails only without memory.
    method SetMaxRequestsInflight(max: int, memoryLeft: bool) returns (ok: bool)
      requires Valid() && max <= MAX_INFLIGHT
      modifies `heads, heads, `buckets, `maxInflight, flying`next, flying`prev
      ensures Valid() && ok == memoryLeft
      ensures if ok then maxInflight == (if max < 1 then 1 else max) && fresh(heads) else unchanged(this)
    {
      hide Ring, Placed, Owned, Counted, Staffed;
      var most := if max < 1 then 1 else max;
      if !memoryLeft {
        return false;
      }
      var nHeads := (most + 4) / 5;
      heads, buckets := Rehash(heads, buckets, flying, nHeads);
      maxInflight := most;
      return true;
    }

    // request_find_from_trans_id, whatever the table's size has been
    method RequestFindFromTransId(id: nat) returns (found: Request?)
      requires Valid()
      ensures found == null <==> forall r :: r in flying ==> r.transId != id
      ensures found != null ==> found in flying && found.transId == id && forall r :: r in flying && r.transId == id ==> r == found
    {
      hide Table, Placed, Ring;
      found := FindHashed(id, heads, buckets, flying);
    }

    // evdns_base_new
    constructor ()
      ensures Valid() && flying == {} && waiting == [] && servers == [] && maxInflight == 64 && fresh(heads)
    {
      heads, waitingHead, servers := new Request?[13](_ => null), null, [];
      inflight, waitingCount, good, maxInflight := 0, 0, 0, 64;
      buckets, waiting, flying := seq(13, _ => []), [], {};
      new;
      EmptyTable(heads, buckets);
    }

    // evdns_nameserver_add_impl_: after the head of the circular list
    method AddNameserver(ns: Nameserver)
      requires Valid() && ns !in servers && ns.up && ns.requestsInflight == 0
      modifies `servers, `good
      ensures Valid()
      ensures servers == if old(servers) == [] then [ns] else old(servers)[..1] + [ns] + old(servers)[1..]
    {
      hide Linked, Bounded, Owned, Counted, Distinct, UpOnes;
      ghost var was := servers;
      servers := if servers == [] then [ns] else servers[..1] + [ns] + servers[1..];
      good := good + 1;
      Inserted(was, ns);
      Joined(ns);
    }

    // There is one more server, to which no request is assigned.
    twostate lemma Joined(new ns: Nameserver)
      requires old(Owned()) && old(Counted()) && unchanged(`waiting, `flying, `inflight, `waitingCount)
      requires ns !in old(servers) && ns.requestsInflight == 0 && forall s :: s in servers <==> s in old(servers) || s == ns
      requires (forall r :: r in flying ==> unchanged(r`ns, r`transId)) && forall i :: 0 <= i < |waiting| ==> waiting[i].ns == old(waiting[i].ns)
      requires forall s :: s in old(servers) ==> unchanged(s)
      ensures Owned() && Counted()
    {
      assert AssignedTo(flying, ns) == {};
      forall s | s in servers ensures s.requestsInflight == |AssignedTo(flying, s)| {
        if s != ns {
          assert AssignedTo(flying, s) == old(AssignedTo(flying, s));
        }
      }
    }

    // The walk of nameserver_failed comes to a request.
    method Reassign(req: Request, ns: Nameserver)
      requires Valid() && req in flying && good > 0 && !ns.up
      modifies `servers, req`ns, servers`requestsInflight
      ensures Valid() && SameServers(old(servers))
      ensures if old(req.txCount == 0 && req.ns == ns) then req.ns != null && req.ns.up else req.ns == old(req.ns)
    {
      hide Linked, Owned, Counted, Bounded;
      if req.txCount == 0 && req.ns == ns {
        assert servers == [] ==> UpOnes(servers) == {};
        var picked := NameserverPick();
        RequestSwapNs(req, picked);
      }
    }

    // Requests have changed nameserver only from this one to one that is up, and only before they were sent.
    ghost predicate Reassigned(was: map<Request, Nameserver?>, ns: Nameserver)
      reads `flying, `servers, flying`ns, flying`txCount, servers`up
    {
      && was.Keys == flying
      && (forall r :: r in flying ==> r.ns == was[r] || (was[r] == ns && r.txCount == 0 && r.ns in servers && r.ns.up))
    }

    // Of these requests only some that were sent have the server.
    ghost predicate Settled(done: set<Request>, ns: Nameserver)
      reads done`ns, done`txCount
    {
      forall r :: r in done && r.txCount == 0 ==> r.ns != ns
    }

    // The step of the walk round one list.
    method Settle(req: Request, ns: Nameserver, ghost was: map<Request, Nameserver?>, ghost done: set<Request>)
      requires Valid() && good > 0 && !ns.up && Reassigned(was, ns) && done <= flying && Settled(done, ns)
      requires req in flying
      modifies `servers, flying`ns, servers`requestsInflight
      ensures Valid() && SameServers(old(servers)) && Reassigned(was, ns) && Settled(done + {req}, ns)
    {
      hide Linked, Counted, Staffed, Bounded;
      Reassign(req, ns);
      assert req.ns in servers;
    }

    // The loop of nameserver_failed round list b.
    method SettleList(b: nat, ns: Nameserver, ghost was: map<Request, Nameserver?>, ghost done: set<Request>)
      requires Valid() && good > 0 && !ns.up && Reassigned(was, ns) && done <= flying && Settled(done, ns)
      requires b < heads.Length
      modifies `servers, flying`ns, servers`requestsInflight
      ensures Valid() && SameServers(old(servers)) && Reassigned(was, ns)
      ensures Settled(done + (set r | r in buckets[b]), ns)
    {
      hide Placed, Owned, Counted, Staffed, Bounded, Settled, Reassigned;
      var startedAt := heads[b];
      ghost var q := buckets[b];
      assert Ring(startedAt, q);
      RingsApart(buckets, flying, b);
      if startedAt == null {
        assert done + (set r | r in q) == done;
        return;
      }
      var req := startedAt;
      ghost var k: nat := 0;
      ghost var now := done;
      while true
        invariant Valid() && SameServers(old(servers)) && Reassigned(was, ns) && k < |q| && req == q[k] && Ring(startedAt, q)
        invariant now == done + (set r | r in q[..k]) && Settled(now, ns)
        decreases |q| - k
      {
        Settle(req, ns, was, now);
        now := now + {req};
        assert q[k].next == q[After(|q|, k)];
        req := req.next;
        assert q[..k + 1] == q[..k] + [q[k]];
        k := k + 1;
        if req == startedAt {
          assert q[..k] == q;
          assert now == done + (set r | r in buckets[b]);
          return;
        }
      }
    }

    // nameserver_failed. If another server is up, requests that were never sent move to one that is.
    method NameserverFailed(ns: Nameserver)
      requires Valid() && ns in servers
      modifies `good, `servers, ns`up, flying`ns, servers`requestsInflight
      ensures Valid() && SameServers(old(servers)) && !ns.up && good == old(good) - if old(ns.up) then 1 else 0
      ensures Reassigned(old(map r | r in flying :: r.ns), ns)
      ensures old(ns.up) && good > 0 ==> Settled(flying, ns)
    {
      hide Linked, Owned, Counted, Staffed, Bounded, Settled;
      ghost var was := map r | r in flying :: r.ns;
      if !ns.up {
        return;
      }
      TakeDown(ns);
      if good == 0 {
        return;
      }
      SettleAll(ns, was);
    }

    method TakeDown(ns: Nameserver)
      requires Staffed() && ns in servers && ns.up
      modifies `good, ns`up
      ensures Staffed() && good == old(good) - 1 && !ns.up
    {
      ghost var others := UpOnes(servers) - {ns};
      assert UpOnes(servers) == others + {ns};
      good := good - 1;
      ns.up := false;
      assert UpOnes(servers) == others;
    }

    // The loop of nameserver_failed over the table.
    method SettleAll(ns: Nameserver, ghost was: map<Request, Nameserver?>)
      requires Valid() && good > 0 && !ns.up && Reassigned(was, ns)
      modifies `servers, flying`ns, servers`requestsInflight
      ensures Valid() && SameServers(old(servers)) && Reassigned(was, ns) && Settled(flying, ns)
    {
      hide Placed, Ring, Owned, Counted, Staffed, Bounded, Settled, Reassigned;
      ghost var done: set<Request> := {};
      NoneSettled(ns);
      var i := 0;
      while i < heads.Length
        invariant i <= heads.Length && Valid() && SameServers(old(servers)) && Reassigned(was, ns)
        invariant done <= flying && Settled(done, ns)
        invariant forall c, j :: 0 <= c < i && 0 <= j < |buckets[c]| ==> buckets[c][j] in done
      {
        RingsApart(buckets, flying, i);
        SettleList(i, ns, was, done);
        done := done + set r | r in buckets[i];
        i := i + 1;
      }
      AllListed(buckets, flying, done);
    }

    lemma NoneSettled(ns: Nameserver)
      ensures Settled({}, ns)
    {
    }

    // nameserver_up, for a server without a probe
    method NameserverUp(ns: Nameserver)
      requires Valid() && ns in servers
      modifies `good, ns`up
      ensures Valid() && ns.up && good == old(good) + if old(ns.up) then 0 else 1
    {
      hide Linked, Owned, Counted, Bounded;
      if ns.up {
        return;
      }
      ghost var others := UpOnes(servers);
      ns.up := true;
      good := good + 1;
      assert UpOnes(servers) == others + {ns};
    }

    // evdns_request_transmit, given what became of it
    method RequestTransmit(req: Request, sent: Sent)
      requires Valid() && req in flying
      modifies `good, `servers, servers`up, flying`ns, servers`requestsInflight, req`txCount, req`transmitMe
      ensures Valid() && SameServers(old(servers)) && req.transmitMe == sent.Choked?
      ensures req.txCount == old(req.txCount) + if sent.Choked? then 0 else 1
      ensures sent.Refused? ==> old(req.ns) != null && !old(req.ns).up
      ensures sent.Refused? && old(req.ns != null && req.ns.up && req.txCount == 0) && good > 0 ==> req.ns != old(req.ns)
      ensures !sent.Refused? ==> req.ns == old(req.ns)
    {
      hide Linked, Counted, Staffed, Bounded;
      req.transmitMe := true;
      if sent.Choked? {
        return;
      }
      if sent.Refused? {
        NameserverFailed(req.ns);
      }
      req.txCount := req.txCount + 1;
      req.transmitMe := false;
    }

    // What is known of the transmission of every request: those that are done have been tried once more if they waited
    // for it, and answer tells what came of it.
    ghost predicate Tried(was: map<Request, Mark>, done: set<Request>, answer: Request -> Sent)
      reads `flying, flying`transmitMe, flying`txCount
    {
      && was.Keys == flying
      && forall r :: r in flying ==>
           Mark(r.transmitMe, r.txCount) == if r in done then Retried(was[r], answer(r)) else was[r]
    }

    // The requests of the first n lists
    ghost function Upto(n: nat): set<Request>
      reads `flying, flying`transId, `buckets
    {
      set r | r in flying && |buckets| > 0 && r.transId % |buckets| < n
    }

    // The step of the walk of evdns_transmit
    method TryOne(req: Request, answer: Request -> Sent, ghost was: map<Request, Mark>, ghost done: set<Request>)
      requires Valid() && req in flying && Tried(was, done, answer) && req !in done
      modifies `good, `servers, servers`up, flying`ns, servers`requestsInflight, flying`transmitMe, flying`txCount
      ensures Valid() && SameServers(old(servers)) && Tried(was, done + {req}, answer)
    {
      hide Linked, Owned, Counted, Staffed, Bounded;
      if req.transmitMe {
        RequestTransmit(req, answer(req));
      }
    }

    // The loop of evdns_transmit round list b.
    method TransmitList(b: nat, answer: Request -> Sent, ghost was: map<Request, Mark>)
      requires Valid() && Tried(was, Upto(b), answer) && b < heads.Length
      modifies `good, `servers, servers`up, flying`ns, servers`requestsInflight, flying`transmitMe, flying`txCount
      ensures Valid() && SameServers(old(servers)) && Tried(was, Upto(b + 1), answer)
    {
      hide Placed, Owned, Counted, Staffed, Bounded, Tried, Upto;
      var startedAt := heads[b];
      ghost var q := buckets[b];
      assert Ring(startedAt, q);
      RingsApart(buckets, flying, b);
      ListNext(b);
      if startedAt == null {
        assert Upto(b) + (set r | r in q) == Upto(b);
        return;
      }
      var req := startedAt;
      ghost var k: nat := 0;
      ghost var now := Upto(b);
      while true
        invariant Valid() && SameServers(old(servers)) && k < |q| && req == q[k] && Ring(startedAt, q)
        invariant now == Upto(b) + (set r | r in q[..k]) && Tried(was, now, answer)
        invariant Upto(b + 1) == Upto(b) + (set r | r in q)
        decreases |q| - k
      {
        assert req !in now;
        TryOne(req, answer, was, now);
        now := now + {req};
        assert q[k].next == q[After(|q|, k)];
        req := req.next;
        assert q[..k + 1] == q[..k] + [q[k]];
        k := k + 1;
        if req == startedAt {
          assert q[..k] == q && now == Upto(b + 1);
          return;
        }
      }
    }

    lemma ListNext(b: nat)
      requires Placed(buckets, flying) && b < |buckets|
      ensures Upto(b + 1) == Upto(b) + (set r | r in buckets[b])
      ensures forall r :: r in buckets[b] ==> r !in Upto(b)
    {
    }

    // evdns_transmit: every request in flight that waits for its transmission is tried once.
    method Transmit(answer: Request -> Sent)
      requires Valid()
      modifies `good, `servers, servers`up, flying`ns, servers`requestsInflight, flying`transmitMe, flying`txCount
      ensures Valid() && SameServers(old(servers))
      ensures Tried(old(map r | r in flying :: Mark(r.transmitMe, r.txCount)), flying, answer)
    {
      hide Placed, Ring, Owned, Counted, Staffed, Bounded, Tried, Upto;
      ghost var was := map r | r in flying :: Mark(r.transmitMe, r.txCount);
      NoneTried(was, answer);
      var i := 0;
      while i < heads.Length
        invariant i <= heads.Length && Valid() && SameServers(old(servers)) && Tried(was, Upto(i), answer)
      {
        TransmitList(i, answer, was);
        i := i + 1;
      }
      AllTried();
    }

    lemma NoneTried(was: map<Request, Mark>, answer: Request -> Sent)
      requires was == map r | r in flying :: Mark(r.transmitMe, r.txCount)
      ensures Tried(was, Upto(0), answer)
    {
    }

    lemma AllTried()
      requires Table(heads, buckets, flying)
      ensures Upto(heads.Length) == flying
    {
    }
  }

  lemma WhereHung(qs: seq<seq<Request>>, members: set<Request>, req: Request) returns (b: nat, k: nat)
    requires Placed(qs, members) && req in members
    ensures b == req.transId % |qs| && k < |qs[b]| && qs[b][k] == req
  {
    b := req.transId % |qs|;
    k :| k < |qs[b]| && qs[b][k] == req;
  }

  lemma TurnedOn(servers: seq<Nameserver>, k: nat)
    requires k < |servers|
    ensures Rotated(Rotated(servers, k), 1) == Rotated(servers, k + 1) && |Rotated(servers, k)| == |servers|
    ensures Rotated(servers, k)[0] == servers[k] && Rotated(servers, 0) == servers
  {
  }

  lemma NoneUp(servers: seq<Nameserver>)
    requires forall j :: 0 <= j < |servers| ==> !servers[j].up
    ensures UpOnes(servers) == {}
  {
  }

  lemma NotTwice(rs: seq<Request>, k: nat)
    requires NoDup(rs) && k < |rs|
    ensures rs[k] !in rs[..k] + rs[k + 1..]
    ensures var left := rs[..k] + rs[k + 1..]; forall i :: 0 <= i < |left| ==> left[i] in rs
  {
  }

  lemma Inserted(servers: seq<Nameserver>, ns: Nameserver)
    requires Distinct(servers) && ns !in servers && ns.up
    ensures var after := if servers == [] then [ns] else servers[..1] + [ns] + servers[1..];
      Distinct(after) && |UpOnes(after)| == |UpOnes(servers)| + 1 && forall s :: s in after <==> s in servers || s == ns
  {
    var after := if servers == [] then [ns] else servers[..1] + [ns] + servers[1..];
    InsertedOnce(servers, ns, after);
    assert UpOnes(after) == UpOnes(servers) + {ns};
  }

  lemma InsertedOnce(servers: seq<Nameserver>, ns: Nameserver, after: seq<Nameserver>)
    requires Distinct(servers) && ns !in servers && after == if servers == [] then [ns] else servers[..1] + [ns] + servers[1..]
    ensures Distinct(after) && forall s :: s in after <==> s in servers || s == ns
  {
    if servers != [] {
      assert forall i :: 0 <= i < |after| ==> after[i] == if i == 0 then servers[0] else if i == 1 then ns else servers[i - 1];
      assert after[1] == ns && after[0] == servers[0] && forall i :: 1 <= i < |servers| ==> after[i + 1] == servers[i];
    }
  }

  lemma AllListed(qs: seq<seq<Request>>, members: set<Request>, done: set<Request>)
    requires Placed(qs, members) && done <= members
    requires forall c, j :: 0 <= c < |qs| && 0 <= j < |qs[c]| ==> qs[c][j] in done
    ensures done == members
  {
    forall r | r in members ensures r in done {
      assert r in qs[r.transId % |qs|];
    }
  }
}
