/** What a resolver does with its requests (evdns.c), on plain numbers: which wait, which are in flight and which have ended,
    how often those in flight were sent and whether they wait for this.
    DnsResolverRuns proves that the resolver does exactly this. */
module DnsResolverSpec {
  import opened DnsRequests
  import opened DnsResolver

  datatype Step =
    | AddServer
    | Submit(memory: bool, nameLen: nat, encoded: bool, sent: Sent)
    | Reply(n: nat, a: Answers<nat>)
    | Cancel(n: nat, a: Answers<nat>)
    | Transmit(n: nat, sent: Sent)
    | Reissue(n: nat)
    | Writable(answer: nat -> Sent)
    | Fail(s: nat)
    | Recover(s: nat)
    | PumpNow(a: Answers<nat>)
    | SetMax(max: int, memory: bool)

  // Requests are numbered in the order in which they were submitted.
  datatype View = View(count: nat, waiting: seq<nat>, flying: set<nat>, marks: map<nat, Mark>, finished: set<nat>,
                       cancelled: set<nat>, servers: nat, max: nat)

  const START := View(0, [], {}, map[], {}, {}, 0, 64)

  ghost function Front(waiting: seq<nat>, k: nat): set<nat>
    requires k <= |waiting|
  {
    set i | 0 <= i < k :: waiting[i]
  }

  function Place(waiting: seq<nat>, n: nat): nat
  {
    if waiting == [] || waiting[0] == n then 0 else 1 + Place(waiting[1..], n)
  }

  // The k requests at the front go into flight, one after another. Each one is sent then, and after it everything is tried
  // again that could not be sent before.
  ghost function Marked(v: View, k: nat, a: Answers<nat>): map<nat, Mark>
    requires k <= |v.waiting|
  {
    map n | n in v.marks.Keys + Front(v.waiting, k) ::
      if n in Front(v.waiting, k) then Passes(Retried(Mark(true, 0), a.first(n)), a.again, n, Place(v.waiting, n), k)
      else Passes(v.marks[n], a.again, n, 0, k)
  }

  // Free places are taken from the front of the queue.
  ghost function Pumped(v: View, a: Answers<nat>): View
  {
    var k := Places(|v.waiting|, |v.flying|, v.max, v.servers);
    v.(waiting := v.waiting[k..], flying := v.flying + Front(v.waiting, k), marks := Marked(v, k, a))
  }

  function Dropped(waiting: seq<nat>, n: nat): seq<nat>
  {
    if waiting == [] then [] else if waiting[0] == n then waiting[1..] else [waiting[0]] + Dropped(waiting[1..], n)
  }

  // The calls after which the queue is pumped
  ghost predicate Pumps(v: View, s: Step)
  {
    s.PumpNow? || (s.Reply? && s.n in v.flying) || (s.Cancel? && (s.n in v.flying || s.n in v.waiting))
  }

  // What they do before: a request ends.
  ghost function Vacated(v: View, s: Step): View
    requires Pumps(v, s)
  {
    match s
    case Reply(n, _) => v.(flying := v.flying - {n}, marks := v.marks - {n}, finished := v.finished + {n})
    case Cancel(n, _) =>
      if n in v.flying then v.(flying := v.flying - {n}, marks := v.marks - {n}, cancelled := v.cancelled + {n})
      else v.(waiting := Dropped(v.waiting, n), cancelled := v.cancelled + {n})
    case _ => v
  }

  // moved says whether request_reissue found another server for the request; only then is it sent anew.
  ghost function Next(v: View, s: Step, moved: bool): View
  {
    if Pumps(v, s) then Pumped(Vacated(v, s), s.a)
    else match s
      case AddServer => v.(servers := v.servers + 1)
      case Submit(memory, nameLen, encoded, sent) =>
        if !memory || nameLen >= NAME_SIZE || !encoded then v
        else if |v.flying| < v.max && v.servers > 0 then Flown(v, sent)
        else v.(count := v.count + 1, waiting := v.waiting + [v.count])
      case Transmit(n, sent) =>
        if n in v.marks then v.(marks := v.marks[n := Retried(Mark(true, v.marks[n].count), sent)]) else v
      case Reissue(n) => if n in v.marks && moved then v.(marks := v.marks[n := Mark(true, 0)]) else v
      case Writable(answer) => v.(marks := map n | n in v.marks :: Retried(v.marks[n], answer(n)))
      case SetMax(max, memory) => if max <= MAX_INFLIGHT && memory then v.(max := if max < 1 then 1 else max) else v
      case _ => v
  }

  // A new request goes into flight.
  ghost function Flown(v: View, sent: Sent): View
  {
    v.(count := v.count + 1, flying := v.flying + {v.count}, marks := v.marks[v.count := Retried(Mark(true, 0), sent)])
  }

  // A call, and what request_reissue said if it was this
  datatype Entry = Entry(step: Step, moved: bool)

  ghost function Final(log: seq<Entry>): View
  {
    if log == [] then START
    else Next(Final(log[..|log| - 1]), log[|log| - 1].step, log[|log| - 1].moved)
  }

  // -- What follows for every run --

  ghost predicate Rising(waiting: seq<nat>)
  {
    forall i, j :: 0 <= i < j < |waiting| ==> waiting[i] < waiting[j]
  }

  // Every request that was submitted waits, is in flight, was finished or was cancelled, exactly one of these; those that
  // wait do so in the order in which they came.
  ghost predicate InPlace(v: View)
  {
    && Rising(v.waiting) && v.max >= 1
    && (forall n: nat :: n < v.count <==> n in v.waiting || n in v.flying || n in v.finished || n in v.cancelled)
    && (forall n :: n in v.flying ==> n !in v.waiting && n !in v.finished && n !in v.cancelled)
    && (forall n :: n in v.finished ==> n !in v.waiting && n !in v.cancelled)
    && (forall n :: n in v.cancelled ==> n !in v.waiting)
  }

  lemma PumpedInPlace(v: View, a: Answers<nat>)
    requires InPlace(v)
    ensures InPlace(Pumped(v, a))
    ensures |Pumped(v, a).flying| == |v.flying| + Places(|v.waiting|, |v.flying|, v.max, v.servers)
  {
    hide Places, Rising, Marked;
    var k := Places(|v.waiting|, |v.flying|, v.max, v.servers);
    FewPlaces(v);
    FrontSize(v.waiting, k);
    FrontTaken(v.waiting, k);
    assert v.flying !! Front(v.waiting, k);
  }

  lemma FewPlaces(v: View)
    ensures Places(|v.waiting|, |v.flying|, v.max, v.servers) <= |v.waiting|
  {
  }

  // What is taken, and what is left
  lemma FrontTaken(waiting: seq<nat>, k: nat)
    requires Rising(waiting) && k <= |waiting|
    ensures Rising(waiting[k..])
    ensures forall n :: n in waiting <==> n in Front(waiting, k) || n in waiting[k..]
    ensures forall m, n :: m in Front(waiting, k) && n in waiting[k..] ==> m < n
  {
    forall n | n in waiting ensures n in Front(waiting, k) || n in waiting[k..] {
      var i :| 0 <= i < |waiting| && waiting[i] == n;
      assert i >= k ==> waiting[k..][i - k] == n;
    }
    forall m, n | m in Front(waiting, k) && n in waiting[k..] ensures m < n {
      var j :| 0 <= j < |waiting[k..]| && waiting[k..][j] == n;
      assert waiting[k + j] == n;
    }
  }

  lemma {:induction false} FrontSize(waiting: seq<nat>, k: nat)
    requires Rising(waiting) && k <= |waiting|
    ensures |Front(waiting, k)| == k
  {
    hide Rising, Front;
    if k > 0 {
      FrontSize(waiting, k - 1);
      FrontNext(waiting, k - 1);
    } else {
      NoFront(waiting);
    }
  }

  lemma NoFront(waiting: seq<nat>)
    ensures Front(waiting, 0) == {}
  {
  }

  lemma FrontNext(waiting: seq<nat>, k: nat)
    requires Rising(waiting) && k < |waiting|
    ensures waiting[k] !in Front(waiting, k) && Front(waiting, k + 1) == Front(waiting, k) + {waiting[k]}
  {
  }

  lemma RisingTail(waiting: seq<nat>)
    requires Rising(waiting) && waiting != []
    ensures Rising(waiting[1..]) && forall m :: m in waiting[1..] ==> waiting[0] < m
    ensures forall m :: m in waiting <==> m == waiting[0] || m in waiting[1..]
  {
  }

  lemma RisingCons(n: nat, waiting: seq<nat>)
    requires Rising(waiting) && forall m :: m in waiting ==> n < m
    ensures Rising([n] + waiting) && forall m :: m in [n] + waiting <==> m == n || m in waiting
  {
    assert forall i :: 0 <= i < |waiting| ==> waiting[i] in waiting;
  }

  lemma RisingSnoc(waiting: seq<nat>, n: nat)
    requires Rising(waiting) && forall m :: m in waiting ==> m < n
    ensures Rising(waiting + [n]) && forall m :: m in waiting + [n] <==> m == n || m in waiting
  {
    assert forall i :: 0 <= i < |waiting| ==> waiting[i] in waiting;
  }

  lemma {:induction false} DroppedOne(waiting: seq<nat>, n: nat)
    requires Rising(waiting)
    ensures Rising(Dropped(waiting, n)) && forall m :: m in Dropped(waiting, n) <==> m in waiting && m != n
  {
    hide Rising;
    if waiting != [] {
      RisingTail(waiting);
      DroppedOne(waiting[1..], n);
      if waiting[0] != n {
        RisingCons(waiting[0], Dropped(waiting[1..], n));
      }
    }
  }

  lemma VacatedInPlace(v: View, s: Step)
    requires InPlace(v) && Pumps(v, s)
    ensures InPlace(Vacated(v, s)) && |Vacated(v, s).flying| <= |v.flying|
    ensures Vacated(v, s).max == v.max && Vacated(v, s).servers == v.servers
    ensures forall n :: n in Vacated(v, s).waiting ==> n in v.waiting
    ensures forall n :: n in Vacated(v, s).flying ==> n in v.flying
  {
    hide Rising, Dropped;
    if s.Cancel? {
      DroppedOne(v.waiting, s.n);
    }
  }

  lemma StepInPlace(v: View, s: Step, moved: bool)
    requires InPlace(v)
    ensures InPlace(Next(v, s, moved))
  {
    hide Vacated, Pumped, Rising, InPlace, Places, Retried;
    if Pumps(v, s) {
      VacatedInPlace(v, s);
      PumpedInPlace(Vacated(v, s), s.a);
    } else {
      OtherInPlace(v, s, moved);
    }
  }

  lemma OtherInPlace(v: View, s: Step, moved: bool)
    requires InPlace(v) && !Pumps(v, s)
    ensures InPlace(Next(v, s, moved))
  {
    hide Vacated, Pumped, Rising, Retried;
    if s.Submit? {
      RisingSnoc(v.waiting, v.count);
    }
  }

  lemma {:induction false} AlwaysInPlace(log: seq<Entry>)
    ensures InPlace(Final(log))
  {
    if log != [] {
      AlwaysInPlace(log[..|log| - 1]);
      StepInPlace(Final(log[..|log| - 1]), log[|log| - 1].step, log[|log| - 1].moved);
    }
  }

  // First come, first served, among those that wait: none goes into flight before one that has waited longer.
  lemma InOrder(v: View, s: Step, moved: bool, m: nat, n: nat)
    requires InPlace(v) && m in v.waiting && n in v.waiting && m < n && n in Next(v, s, moved).flying
    ensures m !in Next(v, s, moved).waiting
  {
    hide Vacated, Pumped;
    if Pumps(v, s) {
      VacatedInPlace(v, s);
      Taken(Vacated(v, s), s.a, m, n);
    }
  }

  lemma Taken(v: View, a: Answers<nat>, m: nat, n: nat)
    requires InPlace(v) && n !in v.flying && m < n && n in Pumped(v, a).flying
    ensures m !in Pumped(v, a).waiting
  {
    FewPlaces(v);
    FrontTaken(v.waiting, Places(|v.waiting|, |v.flying|, v.max, v.servers));
  }

  // Nobody waits while there is a place.
  ghost predicate Settled(v: View)
  {
    v.waiting == [] || |v.flying| >= v.max || v.servers == 0
  }

  lemma PumpedSettled(v: View, a: Answers<nat>)
    requires InPlace(v)
    ensures Settled(Pumped(v, a))
  {
    PumpedInPlace(v, a);
  }

  // That stays so, but for new servers and new limits, after which nothing is pumped.
  lemma StaysSettled(v: View, s: Step, moved: bool)
    requires InPlace(v) && Settled(v) && !s.AddServer? && !s.SetMax?
    ensures Settled(Next(v, s, moved))
  {
    hide Vacated, Pumped;
    if Pumps(v, s) {
      VacatedInPlace(v, s);
      PumpedSettled(Vacated(v, s), s.a);
    }
  }

  // A request that is finished or cancelled ends for good, whatever takes its place, and then nobody waits while there is a
  // place. Only requests that have not ended can be finished or cancelled.
  lemma Ends(v: View, s: Step, moved: bool)
    requires InPlace(v) && (s.Reply? || s.Cancel?)
    ensures if s.n in v.flying || (s.Cancel? && s.n in v.waiting)
            then Settled(Next(v, s, moved)) && s.n in (if s.Reply? then Next(v, s, moved).finished else Next(v, s, moved).cancelled)
            else Next(v, s, moved) == v
    ensures Next(v, s, moved).finished == v.finished + (if s.Reply? && s.n in v.flying then {s.n} else {})
    ensures Next(v, s, moved).cancelled == v.cancelled + (if s.Cancel? && (s.n in v.flying || s.n in v.waiting) then {s.n} else {})
    ensures forall n :: n in v.flying && n != s.n ==> n in Next(v, s, moved).flying
    ensures forall n :: n in v.waiting && n != s.n ==> n in Next(v, s, moved).flying || n in Next(v, s, moved).waiting
  {
    hide Pumped, Vacated;
    if s.n in v.flying || (s.Cancel? && s.n in v.waiting) {
      VacatedInPlace(v, s);
      PumpedSettled(Vacated(v, s), s.a);
      VacatedRest(v, s);
      PumpedRest(Vacated(v, s), s.a);
    }
  }

  lemma VacatedRest(v: View, s: Step)
    requires InPlace(v) && Pumps(v, s) && (s.Reply? || s.Cancel?)
    ensures var w := Vacated(v, s);
      && w.finished == v.finished + (if s.Reply? then {s.n} else {}) && w.cancelled == v.cancelled + (if s.Cancel? then {s.n} else {})
      && (forall n :: n in v.flying && n != s.n ==> n in w.flying) && forall n :: n in v.waiting && n != s.n ==> n in w.waiting
  {
    if s.Cancel? {
      DroppedOne(v.waiting, s.n);
    }
  }

  lemma PumpedRest(v: View, a: Answers<nat>)
    requires InPlace(v)
    ensures var w := Pumped(v, a);
      && w.finished == v.finished && w.cancelled == v.cancelled
      && (forall n :: n in v.flying ==> n in w.flying) && forall n :: n in v.waiting ==> n in w.flying || n in w.waiting
  {
    FewPlaces(v);
    FrontTaken(v.waiting, Places(|v.waiting|, |v.flying|, v.max, v.servers));
  }

  // A request is taken on exactly if there is memory, its name has less than 256 bytes and could be encoded. It gets the next
  // number, and goes into flight exactly if there is a place and a server.
  lemma TakesOn(v: View, s: Step, moved: bool)
    requires InPlace(v) && s.Submit?
    ensures var w := Next(v, s, moved);
      if s.memory && s.nameLen < 256 && s.encoded
      then
        && w.count == v.count + 1 && (v.count in w.flying <==> |v.flying| < v.max && v.servers > 0)
        && (v.count in w.waiting <==> v.count !in w.flying)
      else w == v
  {
  }

  // Other calls move no request. The limit is the one asked for, if that is at most 65000 and there is memory, but at least 1.
  lemma MovesNone(v: View, s: Step, moved: bool)
    requires s.AddServer? || s.Fail? || s.Recover? || s.SetMax? || s.Transmit? || s.Reissue? || s.Writable?
    ensures var w := Next(v, s, moved);
      && w == v.(servers := w.servers, max := w.max, marks := w.marks) && w.servers == v.servers + (if s.AddServer? then 1 else 0)
      && w.max == (if s.SetMax? && s.max <= 65000 && s.memory then if s.max < 1 then 1 else s.max else v.max)
  {
  }

  // A new transmission of a request in flight is counted unless it is choked, and then the request waits for the next one. A
  // request that request_reissue has moved to another server was not sent there, and waits for it.
  lemma SentAnew(v: View, s: Step, moved: bool)
    requires (s.Transmit? || s.Reissue?) && s.n in v.marks
    ensures Next(v, s, moved).marks == v.marks[s.n := Next(v, s, moved).marks[s.n]]
    ensures Next(v, s, moved).marks[s.n] ==
      if s.Reissue? then if moved then Mark(true, 0) else v.marks[s.n]
      else if s.sent.Choked? then Mark(true, v.marks[s.n].count) else Mark(false, v.marks[s.n].count + 1)
  {
    assert v.marks[s.n := v.marks[s.n]] == v.marks;
  }

  // A new request overtakes those that wait exactly if somebody waits although there is a place.
  lemma Overtakes(v: View, s: Step, moved: bool)
    requires InPlace(v) && s.Submit? && s.memory && s.nameLen < NAME_SIZE && s.encoded
    ensures v.count in Next(v, s, moved).flying && Next(v, s, moved).waiting != [] <==> !Settled(v)
  {
  }

  // So it happens: a request waits for want of a server, a server is added, and the next request is sent at once.
  lemma Overtaken()
    ensures var ask := Entry(Submit(true, 1, true, Delivered), false);
      var v := Final([ask, Entry(AddServer, false), ask]); v.waiting == [0] && v.flying == {1}
  {
    var ask := Entry(Submit(true, 1, true, Delivered), false);
    var a := [ask, Entry(AddServer, false), ask];
    assert a[..2][..1][..0] == [] && a[..2][..1] == [a[0]] && a[..2] == [a[0], a[1]];
    assert Final([]) == START;
    assert Final(a[..2][..1]) == Next(START, a[0].step, false);
    assert Final(a[..2]) == Next(Final(a[..2][..1]), a[1].step, false);
  }

  // The limit on requests in flight holds, unless it was lowered beneath their number.
  lemma WithinLimit(v: View, s: Step, moved: bool)
    requires InPlace(v)
    ensures |Next(v, s, moved).flying| <= |v.flying| || |Next(v, s, moved).flying| <= Next(v, s, moved).max
  {
    hide Vacated, Pumped;
    if Pumps(v, s) {
      VacatedInPlace(v, s);
      PumpedInPlace(Vacated(v, s), s.a);
      PumpedSame(Vacated(v, s), s.a);
    }
  }

  lemma PumpedSame(v: View, a: Answers<nat>)
    ensures Pumped(v, a).max == v.max && Pumped(v, a).servers == v.servers
  {
  }

  // -- What is sent --

  lemma {:induction false} PlaceAt(waiting: seq<nat>, i: nat)
    requires Rising(waiting) && i < |waiting|
    ensures Place(waiting, waiting[i]) == i
  {
    if i > 0 {
      RisingTail(waiting);
      assert waiting[1..][i - 1] == waiting[i];
      PlaceAt(waiting[1..], i - 1);
    }
  }

  // Each request in flight was sent since it got its server, or waits to be sent as soon as this is possible.
  ghost predicate Tended(v: View)
  {
    v.marks.Keys == v.flying && forall n :: n in v.marks ==> v.marks[n].waits || v.marks[n].count > 0
  }

  lemma StepTended(v: View, s: Step, moved: bool)
    requires InPlace(v) && Tended(v)
    ensures Tended(Next(v, s, moved))
  {
    hide InPlace, Dropped, Places, Pumped, Vacated, Retried, Tended;
    if Pumps(v, s) {
      VacatedTended(v, s);
      PumpedTended(Vacated(v, s), s.a);
    } else {
      OtherTended(v, s, moved);
    }
  }

  lemma VacatedTended(v: View, s: Step)
    requires Tended(v) && Pumps(v, s)
    ensures Tended(Vacated(v, s))
  {
    hide Dropped;
  }

  lemma OtherTended(v: View, s: Step, moved: bool)
    requires Tended(v) && !Pumps(v, s)
    ensures Tended(Next(v, s, moved))
  {
    hide Dropped, Pumped, Vacated;
    if s.Writable? {
      assert forall n :: n in v.marks ==> Retried(v.marks[n], s.answer(n)).waits || Retried(v.marks[n], s.answer(n)).count > 0;
    }
  }

  lemma PumpedTended(v: View, a: Answers<nat>)
    requires Tended(v)
    ensures Tended(Pumped(v, a))
  {
    hide Front;
    FewPlaces(v);
    var k := Places(|v.waiting|, |v.flying|, v.max, v.servers);
    forall n | n in Marked(v, k, a) ensures Marked(v, k, a)[n].waits || Marked(v, k, a)[n].count > 0 {
      if n in Front(v.waiting, k) {
        StillTended(Retried(Mark(true, 0), a.first(n)), a, n, Place(v.waiting, n), k);
      } else {
        StillTended(v.marks[n], a, n, 0, k);
      }
    }
  }

  lemma {:induction false} StillTended(m: Mark, a: Answers<nat>, n: nat, start: nat, end: nat)
    requires m.waits || m.count > 0
    ensures var after := Passes(m, a.again, n, start, end); after.waits || after.count > 0
    decreases end - start
  {
    if start < end {
      StillTended(m, a, n, start, end - 1);
    }
  }

  lemma {:induction false} AlwaysTended(log: seq<Entry>)
    ensures Tended(Final(log))
  {
    hide InPlace, Tended, Next;
    if log == [] {
      StartTended();
    } else {
      AlwaysTended(log[..|log| - 1]);
      AlwaysInPlace(log[..|log| - 1]);
      StepTended(Final(log[..|log| - 1]), log[|log| - 1].step, log[|log| - 1].moved);
    }
  }

  lemma StartTended()
    ensures Tended(START)
  {
  }

  // A request in place i of the queue that goes into flight is sent once then. It is not sent only if its transmission is
  // choked, and again after each request that follows it.
  lemma SentFirst(v: View, a: Answers<nat>, i: nat)
    requires InPlace(v) && i < |v.waiting| && v.waiting[i] in Pumped(v, a).flying
    ensures var n := v.waiting[i]; var k := |Pumped(v, a).flying| - |v.flying|;
      && i < k && n in Pumped(v, a).marks
      && Pumped(v, a).marks[n] ==
           if a.first(n).Choked? && (forall t :: i <= t < k ==> a.again(t, n).Choked?) then Mark(true, 0) else Mark(false, 1)
  {
    hide Places;
    var n, k := v.waiting[i], Places(|v.waiting|, |v.flying|, v.max, v.servers);
    PumpedInPlace(v, a);
    FewPlaces(v);
    var j :| 0 <= j < k && v.waiting[j] == n;
    PlaceAt(v.waiting, i);
    PlaceAt(v.waiting, j);
    PassesExact(Retried(Mark(true, 0), a.first(n)), a.again, n, i, k);
  }

  // Whatever call puts a request into flight, the request is sent once by it, or its first transmission was choked and it
  // waits for the next one.
  lemma Launched(v: View, s: Step, moved: bool, n: nat)
    requires InPlace(v) && Tended(v) && n !in v.flying && n in Next(v, s, moved).flying
    ensures s.Submit? || Pumps(v, s)
    ensures n in Next(v, s, moved).marks
    ensures var m := Next(v, s, moved).marks[n];
      m == Mark(false, 1) || (m == Mark(true, 0) && if s.Submit? then s.sent.Choked? else s.a.first(n).Choked?)
  {
    hide Pumped, Vacated, Rising;
    if Pumps(v, s) {
      VacatedInPlace(v, s);
      var u := Vacated(v, s);
      FromQueue(u, s.a, n);
      var i: nat :| i < |u.waiting| && u.waiting[i] == n;
      SentFirst(u, s.a, i);
    }
  }

  lemma FromQueue(v: View, a: Answers<nat>, n: nat)
    requires n !in v.flying && n in Pumped(v, a).flying
    ensures n in v.waiting
  {
    FewPlaces(v);
  }

  // A request that was in flight is sent once more exactly if it waits for this and one of the rounds is not choked.
  lemma SentAgain(v: View, a: Answers<nat>, n: nat)
    requires InPlace(v) && Tended(v) && n in v.flying
    ensures var k := |Pumped(v, a).flying| - |v.flying|;
      && n in Pumped(v, a).marks
      && Pumped(v, a).marks[n] ==
           if v.marks[n].waits && (exists t :: 0 <= t < k && !a.again(t, n).Choked?) then Mark(false, v.marks[n].count + 1)
           else v.marks[n]
  {
    hide Places;
    var k := Places(|v.waiting|, |v.flying|, v.max, v.servers);
    PumpedInPlace(v, a);
    FewPlaces(v);
    PassesExact(v.marks[n], a.again, n, 0, k);
  }

  // evdns_transmit sends once more exactly the requests that wait for it and are not choked again.
  lemma SentWritable(v: View, answer: nat -> Sent, moved: bool, n: nat)
    requires n in v.marks
    ensures n in Next(v, Writable(answer), moved).marks
    ensures Next(v, Writable(answer), moved).marks[n] ==
      if v.marks[n].waits && !answer(n).Choked? then Mark(false, v.marks[n].count + 1) else v.marks[n]
  {
  }
}
