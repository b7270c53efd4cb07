/** What an event base does (event.c), on plain values: the queues, the common lists and what every event of the user waits
    for, and what each call makes of them. EventBaseRuns proves that the base does exactly this. */
module EventBaseSpec {
  import opened EventBase

  datatype Wait = Wait(deadline: int, common: Option<nat>)

  // An event of the user. late says that EV_TIMEOUT is among the reasons for which it is, or was last, active.
  datatype Look = Look(waits: Option<Wait>, inserted: bool, active: bool, later: bool, late: bool, final: bool, pri: nat)

  datatype View = View(queues: seq<seq<Event>>, laterQueue: seq<Event>, lists: seq<seq<Event>>, timers: seq<Event>,
                       durations: seq<Duration>, users: seq<Event>, looks: map<Event, Look>)

  // The calls of a program, and single rounds of the loop. Events are named by their numbers, and calls that name none do
  // nothing. memory says whether there is any for what the call asks for.
  datatype Step =
    | NewEvent(io: bool, persist: bool)
    | NewList(duration: Duration, memory: bool)
    | AddEvent(n: nat, tv: Option<Tv>, now: int, memory: bool, evmap: bool)
    | DelEvent(n: nat, evmap: bool)
    | ActivateEvent(n: nat, res: Res, later: bool)
    | FinalizeIt(n: nat)
    | ChangePriority(n: nat, pri: int)
    | LaterNow
    | PassTimeouts(now: int)
    | DispatchOne(p: nat, now: int, memory: bool)
    | Loop(now: int, memory: bool)

  // What can be seen: a timeout makes an event, or the timer of a list, active, and a callback of the user runs.
  datatype Out = Fired(e: Event) | Ran(e: Event)

  ghost function Start(nQueues: nat): View
  {
    View(seq(nQueues, _ => []), [], [], [], [], [], map[])
  }

  function Deadline(tv: Tv, now: int): int
  {
    if tv.absolute then tv.time else now + tv.time
  }

  ghost function QueueMinus(qs: seq<seq<Event>>, p: nat, e: Event): (r: seq<seq<Event>>)
    ensures |r| == |qs|
  {
    if p < |qs| then qs[p := Minus(qs[p], e)] else qs
  }

  ghost function QueuePlus(qs: seq<seq<Event>>, p: nat, e: Event): (r: seq<seq<Event>>)
    ensures |r| == |qs|
  {
    if p < |qs| then qs[p := qs[p] + [e]] else qs
  }

  // The common lists without an event that waits for this.
  ghost function ListMinus(ls: seq<seq<Event>>, waits: Option<Wait>, e: Event): (r: seq<seq<Event>>)
    ensures |r| == |ls|
  {
    if waits.Some? && waits.value.common.Some? && waits.value.common.value < |ls|
    then ls[waits.value.common.value := Minus(ls[waits.value.common.value], e)] else ls
  }

  // Timers have priority 0.
  ghost function Pri(looks: map<Event, Look>, e: Event): nat
  {
    if e in looks then looks[e].pri else 0
  }

  ghost function OfPri(looks: map<Event, Look>, es: seq<Event>, p: nat): seq<Event>
  {
    if es == [] then [] else (if Pri(looks, es[0]) == p then [es[0]] else []) + OfPri(looks, es[1..], p)
  }

  ghost function Idle(k: Look): Look
  {
    k.(waits := None, inserted := false, active := false, later := false)
  }

  ghost function Deleted(v: View, e: Event): View
    requires e in v.looks
  {
    var k := v.looks[e];
    if k.final then v
    else v.(queues := QueueMinus(v.queues, k.pri, e), laterQueue := Minus(v.laterQueue, e),
            lists := ListMinus(v.lists, k.waits, e), looks := v.looks[e := Idle(k)])
  }

  ghost function Activated(v: View, e: Event, res: Res): View
    requires e in v.looks
  {
    var k := v.looks[e];
    if k.final then v
    else if k.active then v.(looks := v.looks[e := k.(late := k.late || res == Timeout)])
    else v.(queues := QueuePlus(v.queues, k.pri, e), laterQueue := Minus(v.laterQueue, e),
            looks := v.looks[e := k.(active := true, later := false, late := (k.later && k.late) || res == Timeout)])
  }

  ghost function ActivatedLater(v: View, e: Event, res: Res): View
    requires e in v.looks
  {
    var k := v.looks[e];
    if k.active || k.later then v.(looks := v.looks[e := k.(late := k.late || res == Timeout)])
    else v.(laterQueue := v.laterQueue + [e], looks := v.looks[e := k.(later := true, late := res == Timeout)])
  }

  // Deleted, and active one last time
  ghost function Finalized(v: View, e: Event): View
    requires e in v.looks
  {
    var k, u := v.looks[e], Deleted(v, e);
    if k.final then v
    else u.(queues := QueuePlus(u.queues, k.pri, e), looks := u.looks[e := Idle(k).(active := true, late := false, final := true)])
  }

  ghost function Prioritized(v: View, e: Event, pri: int): View
    requires e in v.looks
  {
    if v.looks[e].active || !(0 <= pri < |v.queues|) then v else v.(looks := v.looks[e := v.looks[e].(pri := pri)])
  }

  // What was to be active later is active now.
  ghost function Hastened(v: View): View
  {
    v.(queues := seq(|v.queues|, p requires 0 <= p < |v.queues| => v.queues[p] + OfPri(v.looks, v.laterQueue, p)),
       laterQueue := [],
       looks := map e | e in v.looks ::
                  if e in v.laterQueue then v.looks[e].(active := true, later := false) else v.looks[e])
  }

  // Timeouts have fired: the events, and the timers of lists, are at the end of the queues of their priorities, in order.
  ghost function AfterFiring(v: View, fired: seq<Event>): View
  {
    v.(queues := seq(|v.queues|, p requires 0 <= p < |v.queues| => Removed(v.queues[p], fired) + OfPri(v.looks, fired, p)),
       laterQueue := Removed(v.laterQueue, fired),
       looks := map e | e in v.looks ::
                  if e in fired then Idle(v.looks[e]).(active := true, late := true) else v.looks[e])
  }

  ghost function Firings(fired: seq<Event>): (out: seq<Out>)
    ensures |out| == |fired| && forall i :: 0 <= i < |fired| ==> out[i] == Fired(fired[i])
  {
    seq(|fired|, i requires 0 <= i < |fired| => Fired(fired[i]))
  }

  ghost function FiredIn(out: seq<Out>): (fired: seq<Event>)
    ensures |fired| == |out| && forall i :: 0 <= i < |out| ==> fired[i] == out[i].e
  {
    seq(|out|, i requires 0 <= i < |out| => out[i].e)
  }

  ghost predicate Waiting(looks: map<Event, Look>, e: Event)
  {
    e in looks && looks[e].waits.Some?
  }

  // Where a list that is sorted by deadline has room for this one: behind the last that is not due later.
  ghost predicate Place(looks: map<Event, Look>, es: seq<Event>, deadline: int, k: nat)
  {
    && k <= |es| && (forall i :: 0 <= i < |es| ==> Waiting(looks, es[i]))
    && (k > 0 ==> looks[es[k - 1]].waits.value.deadline <= deadline)
    && (forall i :: k <= i < |es| ==> deadline < looks[es[i]].waits.value.deadline)
  }

  // A new timeout: an older one is given up, and so is the activity that it led to. If the event is the first of a common
  // list the timer of the list is set, which may undo its activity too.
  ghost predicate TimeoutAdded(v: View, w: View, e: Event, tv: Tv, now: int)
    requires e in v.looks
  {
    var k, d := v.looks[e], Deadline(tv, now);
    var queues := if k.active && k.late then QueueMinus(v.queues, k.pri, e) else v.queues;
    && w == v.(queues := w.queues, lists := w.lists,
               looks := v.looks[e := k.(waits := Some(Wait(d, tv.common)), active := k.active && !k.late,
                                        inserted := k.inserted || (e.io && !k.active && !k.later))])
    && match tv.common
       case None => w.lists == ListMinus(v.lists, k.waits, e) && w.queues == queues
       case Some(l) =>
         var left := ListMinus(v.lists, k.waits, e);
         && l < |left|
         && (exists i: nat :: Place(v.looks, left[l], d, i) && w.lists == left[l := left[l][..i] + [e] + left[l][i..]])
         && (w.queues == queues
             || (l < |v.timers| && w.lists[l][0] == e && w.queues == QueueMinus(queues, 0, v.timers[l])))
  }

  // event_add fails for what is being finalized, when the map of files refuses, and for want of memory; then nothing happens.
  ghost predicate Added(v: View, w: View, e: Event, tv: Option<Tv>, now: int, memory: bool, evmap: bool)
    requires e in v.looks
  {
    var k := v.looks[e];
    if k.final || (e.io && !(k.inserted || k.active || k.later) && !evmap) then w == v
    else
      || (tv.Some? && k.waits.None? && !memory && w == v)
      || (if tv.None? then w == v.(looks := v.looks[e := k.(inserted := k.inserted || (e.io && !k.active && !k.later))])
          else TimeoutAdded(v, w, e, tv.value, now))
  }

  // A pass over the heap: of the users' events exactly the due ones that are in no common list fire, in the order of their
  // deadlines. Timers may fire too.
  ghost predicate Passed(v: View, w: View, out: seq<Out>, now: int)
  {
    var fired := FiredIn(out);
    && out == Firings(fired) && NoDup(fired) && (forall e :: e in fired ==> e in v.looks || e in v.timers)
    && (forall e :: e in v.looks ==> (e in fired <==> DueAlone(v.looks[e], now)))
    && (forall i, j :: 0 <= i < j < |fired| && fired[i] in v.looks && fired[j] in v.looks ==>
          v.looks[fired[i]].waits.value.deadline <= v.looks[fired[j]].waits.value.deadline)
    && w == AfterFiring(v, fired)
  }

  ghost predicate DueAlone(k: Look, now: int)
  {
    k.waits.Some? && k.waits.value.common.None? && k.waits.value.deadline <= now
  }

  // The first k events of a list, and no others, are due.
  ghost predicate DuePart(looks: map<Event, Look>, es: seq<Event>, k: nat, now: int)
  {
    && k <= |es| && (forall i :: 0 <= i < |es| ==> Waiting(looks, es[i]))
    && (forall i :: 0 <= i < k ==> looks[es[i]].waits.value.deadline <= now)
    && (k < |es| ==> now < looks[es[k]].waits.value.deadline)
  }

  // The first callback of a queue runs. An event of the user that is not persistent is deleted first. The timer of a list
  // fires what is due in it.
  ghost predicate Dispatched(v: View, w: View, out: seq<Out>, p: nat, now: int)
  {
    if p >= |v.queues| || v.queues[p] == [] then w == v && out == []
    else
      var e := v.queues[p][0];
      var u := v.(queues := v.queues[p := v.queues[p][1..]]);
      if e in v.looks then
        var k := v.looks[e];
        && out == [Ran(e)]
        && w == if e.persist || k.final then u.(looks := u.looks[e := k.(active := false)])
                else u.(lists := ListMinus(u.lists, k.waits, e), looks := u.looks[e := Idle(k)])
      else exists l: nat, k: nat :: Rung(v, u, w, out, e, l, k, now)
  }

  ghost predicate Rung(v: View, u: View, w: View, out: seq<Out>, t: Event, l: nat, k: nat, now: int)
  {
    && l < |v.timers| && l < |v.lists| && v.timers[l] == t && DuePart(v.looks, v.lists[l], k, now)
    && w == AfterFiring(u, v.lists[l][..k]).(lists := v.lists[l := v.lists[l][k..]])
    && out == Firings(v.lists[l][..k])
  }

  // What one call, but for the loop, makes of a base.
  ghost predicate Move(s: Step, v: View, w: View, out: seq<Out>)
  {
    match s
    case NewEvent(io, persist) =>
      && out == [] && |w.users| == |v.users| + 1
      && var e := w.users[|v.users|];
         && e !in v.looks && e !in v.timers && e.io == io && e.persist == persist
         && w == v.(users := v.users + [e],
                    looks := v.looks[e := Look(None, false, false, false, false, false, |v.queues| / 2)])
    case NewList(duration, memory) =>
      && out == []
      && if Normal(duration) in v.durations || |v.timers| == MAX_COMMON_TIMEOUTS || !memory then w == v
         else
           && |w.timers| == |v.timers| + 1
           && var t := w.timers[|v.timers|];
              && t !in v.looks && t !in v.timers
              && w == v.(timers := v.timers + [t], lists := v.lists + [[]], durations := v.durations + [Normal(duration)])
    case AddEvent(n, tv, now, memory, evmap) =>
      && out == []
      && if n < |v.users| && v.users[n] in v.looks && (tv.Some? && tv.value.common.Some? ==> tv.value.common.value < |v.lists|)
         then Added(v, w, v.users[n], tv, now, memory, evmap) else w == v
    case DelEvent(n, _) =>
      out == [] && w == if n < |v.users| && v.users[n] in v.looks then Deleted(v, v.users[n]) else v
    case ActivateEvent(n, res, later) =>
      && out == []
      && w == if !(n < |v.users| && v.users[n] in v.looks) then v
              else if later then ActivatedLater(v, v.users[n], res) else Activated(v, v.users[n], res)
    case FinalizeIt(n) =>
      out == [] && w == if n < |v.users| && v.users[n] in v.looks then Finalized(v, v.users[n]) else v
    case ChangePriority(n, pri) =>
      out == [] && w == if n < |v.users| && v.users[n] in v.looks then Prioritized(v, v.users[n], pri) else v
    case LaterNow => out == [] && w == Hastened(v)
    case PassTimeouts(now) => Passed(v, w, out, now)
    case DispatchOne(p, now, _) => Dispatched(v, w, out, p, now)
    case Loop(_, _) => false
  }

  // One call or round, what came of it and what the user saw
  datatype Tick = Tick(step: Step, after: View, out: seq<Out>)

  ghost function Prior(v: View, ts: seq<Tick>, i: nat): View
    requires i <= |ts|
  {
    if i == 0 then v else ts[i - 1].after
  }

  ghost predicate Linked(v: View, ts: seq<Tick>)
  {
    forall i :: 0 <= i < |ts| ==> Move(ts[i].step, Prior(v, ts, i), ts[i].after, ts[i].out)
  }

  // The first queue that has something
  ghost predicate FirstBusy(v: View, p: nat)
  {
    p < |v.queues| && v.queues[p] != [] && forall q :: 0 <= q < p ==> v.queues[q] == []
  }

  // Nothing is active, and nothing that is pending is due.
  ghost predicate Quiet(v: View, now: int)
  {
    && v.laterQueue == [] && (forall p :: 0 <= p < |v.queues| ==> v.queues[p] == [])
    && forall e :: e in v.looks && v.looks[e].waits.Some? ==> now < v.looks[e].waits.value.deadline
  }

  // An iteration of the loop: what was to be active later is, timeouts fire, and callbacks run until there are none. Without
  // memory it may stop before.
  ghost predicate Iterated(v: View, ts: seq<Tick>, now: int, memory: bool)
  {
    && |ts| >= 2 && ts[0].step == LaterNow && ts[1].step == PassTimeouts(now)
    && (forall i :: 2 <= i < |ts| ==> Round(ts[i - 1].after, ts[i].step, now, memory))
    && (memory ==> Quiet(Prior(v, ts, |ts|), now))
  }

  ghost predicate Round(v: View, s: Step, now: int, memory: bool)
  {
    s.DispatchOne? && s.now == now && s.memory == memory && FirstBusy(v, s.p)
  }

  ghost predicate Played(s: Step, v: View, ts: seq<Tick>)
  {
    && ts != [] && Linked(v, ts)
    && if s.Loop? then Iterated(v, ts, s.now, s.memory) else |ts| == 1 && ts[0].step == s
  }

  ghost function Flat(tss: seq<seq<Tick>>): seq<Tick>
  {
    if tss == [] then [] else Flat(tss[..|tss| - 1]) + tss[|tss| - 1]
  }

  // The calls one after another
  ghost predicate Plays(v: View, steps: seq<Step>, tss: seq<seq<Tick>>)
  {
    && |tss| == |steps|
    && forall i :: 0 <= i < |steps| ==> Played(steps[i], Reached(v, tss[..i]), tss[i])
  }

  ghost function Reached(v: View, tss: seq<seq<Tick>>): View
  {
    if tss == [] || tss[|tss| - 1] == [] then v else tss[|tss| - 1][|tss[|tss| - 1]| - 1].after
  }

  // -- What follows for every run --

  lemma {:induction false} FlatLinked(v: View, steps: seq<Step>, tss: seq<seq<Tick>>)
    requires Plays(v, steps, tss)
    ensures Linked(v, Flat(tss)) && Prior(v, Flat(tss), |Flat(tss)|) == Reached(v, tss)
    decreases |tss|
  {
    hide Move, Iterated;
    if tss != [] {
      var k := |tss| - 1;
      var front, last := Flat(tss[..k]), tss[k];
      assert Plays(v, steps[..k], tss[..k]) by {
        assert forall i :: 0 <= i < k ==> tss[..k][..i] == tss[..i];
      }
      FlatLinked(v, steps[..k], tss[..k]);
      assert Played(steps[k], Reached(v, tss[..k]), last);
      LinkedAppend(v, front, last);
    }
  }

  lemma LinkedAppend(v: View, a: seq<Tick>, b: seq<Tick>)
    requires Linked(v, a) && Linked(Prior(v, a, |a|), b)
    ensures Linked(v, a + b) && (b != [] ==> Prior(v, a + b, |a + b|) == b[|b| - 1].after)
  {
    hide Move;
    var ts, u := a + b, Prior(v, a, |a|);
    forall i | 0 <= i < |ts| ensures Move(ts[i].step, Prior(v, ts, i), ts[i].after, ts[i].out) {
      if i < |a| {
        assert Prior(v, ts, i) == Prior(v, a, i);
      } else {
        assert Prior(v, ts, i) == Prior(u, b, i - |a|);
      }
    }
  }

  ghost function Waits(v: View, e: Event): Option<Wait>
  {
    if e in v.looks then v.looks[e].waits else None
  }

  // The call asks for this timeout.
  ghost predicate Asks(s: Step, v: View, e: Event, x: Wait)
  {
    && s.AddEvent? && s.n < |v.users| && v.users[s.n] == e && s.tv.Some?
    && x == Wait(Deadline(s.tv.value, s.now), s.tv.value.common)
  }

  // The call gives the timeout of e up.
  ghost predicate GivesUp(s: Step, v: View, e: Event)
  {
    (s.DelEvent? || s.FinalizeIt?) && s.n < |v.users| && v.users[s.n] == e
  }

  function TimeOf(s: Step): int
  {
    match s
    case PassTimeouts(now) => now
    case DispatchOne(_, now, _) => now
    case _ => 0
  }

  lemma FiredDue(s: Step, v: View, w: View, out: seq<Out>, e: Event)
    requires Move(s, v, w, out) && Fired(e) in out && e in v.looks
    ensures s.PassTimeouts? || s.DispatchOne?
    ensures Waits(v, e).Some? && Waits(v, e).value.deadline <= TimeOf(s) && Waits(w, e) == None
  {
    hide OfPri, Removed, TimeoutAdded;
    if s.PassTimeouts? {
      var i :| 0 <= i < |out| && out[i] == Fired(e);
      assert FiredIn(out)[i] == e;
    } else {
      assert Dispatched(v, w, out, s.p, s.now);
      var t, u := v.queues[s.p][0], v.(queues := v.queues[s.p := v.queues[s.p][1..]]);
      var l: nat, k: nat :| Rung(v, u, w, out, t, l, k, s.now);
      var i :| 0 <= i < |out| && out[i] == Fired(e);
      assert v.lists[l][..k][i] == e == v.lists[l][i];
    }
  }

  // What an event waits for after a call: what it waited for before, what the call asks for, or nothing, if it has fired, if
  // its callback has run, or if it was given up.
  lemma OneWait(s: Step, v: View, w: View, out: seq<Out>, e: Event)
    requires Move(s, v, w, out)
    ensures Waits(w, e).Some? ==> Waits(w, e) == Waits(v, e) || Asks(s, v, e, Waits(w, e).value)
    ensures Waits(v, e).Some? && Waits(w, e).None? ==> Fired(e) in out || Ran(e) in out || GivesUp(s, v, e)
  {
    hide OfPri, Removed, Place;
    match s {
      case PassTimeouts(_) =>
        if e in FiredIn(out) {
          var i :| 0 <= i < |FiredIn(out)| && FiredIn(out)[i] == e;
          assert out[i] == Fired(e);
        }
      case DispatchOne(p, now, _) =>
        OneWaitDispatched(v, w, out, p, now, e);
      case _ =>
    }
  }

  lemma OneWaitDispatched(v: View, w: View, out: seq<Out>, p: nat, now: int, e: Event)
    requires Dispatched(v, w, out, p, now)
    ensures Waits(w, e).Some? ==> Waits(w, e) == Waits(v, e)
    ensures Waits(v, e).Some? && Waits(w, e).None? ==> Fired(e) in out || Ran(e) in out
  {
    hide OfPri, Removed;
    if p < |v.queues| && v.queues[p] != [] && v.queues[p][0] !in v.looks {
      var t, u := v.queues[p][0], v.(queues := v.queues[p := v.queues[p][1..]]);
      var l: nat, k: nat :| Rung(v, u, w, out, t, l, k, now);
      if e in v.lists[l][..k] {
        var i :| 0 <= i < k && v.lists[l][..k][i] == e;
        assert out[i] == Fired(e);
      }
    }
  }

  // Whatever an event waits for was asked for by a call, and it has waited for it ever since.
  lemma {:induction false} Origin(v: View, ts: seq<Tick>, i: nat, e: Event) returns (j: nat)
    requires Linked(v, ts) && i <= |ts| && Waits(v, e) == None && Waits(Prior(v, ts, i), e).Some?
    ensures j < i && Asks(ts[j].step, Prior(v, ts, j), e, Waits(Prior(v, ts, i), e).value)
    ensures forall k :: j < k <= i ==> Waits(Prior(v, ts, k), e) == Waits(Prior(v, ts, i), e)
  {
    hide Move, Asks, Waits;
    OneWait(ts[i - 1].step, Prior(v, ts, i - 1), ts[i - 1].after, ts[i - 1].out, e);
    if Asks(ts[i - 1].step, Prior(v, ts, i - 1), e, Waits(Prior(v, ts, i), e).value) {
      j := i - 1;
    } else {
      j := Origin(v, ts, i - 1, e);
    }
  }

  // In every history an event that fires was asked for, is due, and was neither given up nor fired nor run in between.
  lemma FiredRightly(nQueues: nat, steps: seq<Step>, tss: seq<seq<Tick>>, i: nat, e: Event) returns (j: nat, x: Wait)
    requires Plays(Start(nQueues), steps, tss) && i < |Flat(tss)| && Fired(e) in Flat(tss)[i].out
    requires e in Prior(Start(nQueues), Flat(tss), i).looks
    ensures j < i && Asks(Flat(tss)[j].step, Prior(Start(nQueues), Flat(tss), j), e, x)
    ensures var s, u := Flat(tss)[j].step, Prior(Start(nQueues), Flat(tss), j);
      && s.AddEvent? && s.n < |u.users| && u.users[s.n] == e && s.tv.Some?
      && x.deadline == if s.tv.value.absolute then s.tv.value.time else s.now + s.tv.value.time
    ensures x.deadline <= TimeOf(Flat(tss)[i].step)
    ensures forall k :: j < k <= i ==> Waits(Prior(Start(nQueues), Flat(tss), k), e) == Some(x)
    ensures Waits(Prior(Start(nQueues), Flat(tss), i + 1), e) == None
  {
    hide Move, Plays, Flat;
    var v, ts := Start(nQueues), Flat(tss);
    FlatLinked(v, steps, tss);
    FiredDue(ts[i].step, Prior(v, ts, i), ts[i].after, ts[i].out, e);
    assert Waits(v, e) == None;
    x := Waits(Prior(v, ts, i), e).value;
    j := Origin(v, ts, i, e);
  }

  // In every history an event goes on waiting until it fires, its callback runs, or a call gives it up or asks for another
  // timeout.
  lemma {:induction false} Patient(v: View, ts: seq<Tick>, i: nat, e: Event)
    requires Linked(v, ts) && i <= |ts| && Waits(v, e).Some?
    requires forall k :: 0 <= k < i ==>
      && Fired(e) !in ts[k].out && Ran(e) !in ts[k].out && !GivesUp(ts[k].step, Prior(v, ts, k), e)
      && forall x :: !Asks(ts[k].step, Prior(v, ts, k), e, x)
    ensures Waits(Prior(v, ts, i), e) == Waits(v, e)
  {
    hide Move, Asks, Waits, GivesUp;
    if i > 0 {
      Patient(v, ts, i - 1, e);
      OneWait(ts[i - 1].step, Prior(v, ts, i - 1), ts[i - 1].after, ts[i - 1].out, e);
    }
  }

  // An event that waits and is in no queue
  ghost predicate Asleep(v: View, e: Event, x: Wait)
  {
    && Waits(v, e) == Some(x) && e !in v.laterQueue
    && forall p :: 0 <= p < |v.queues| ==> e !in v.queues[p]
  }

  lemma {:induction false} OfPriIn(looks: map<Event, Look>, es: seq<Event>, p: nat)
    ensures forall e :: e in OfPri(looks, es, p) ==> e in es
  {
    if es != [] {
      OfPriIn(looks, es[1..], p);
    }
  }

  lemma FiringOthers(v: View, fired: seq<Event>, e: Event, x: Wait)
    requires Asleep(v, e, x) && e !in fired
    ensures Asleep(AfterFiring(v, fired), e, x)
  {
    var w := AfterFiring(v, fired);
    RemovedIn(v.laterQueue, fired);
    forall p | 0 <= p < |w.queues| ensures e !in w.queues[p] {
      RemovedIn(v.queues[p], fired);
      OfPriIn(v.looks, fired, p);
    }
  }

  // Nothing but its deadline wakes it in the loop.
  lemma SleepsOn(s: Step, v: View, w: View, out: seq<Out>, e: Event, x: Wait)
    requires Move(s, v, w, out) && (s == LaterNow || s.PassTimeouts? || s.DispatchOne?) && Asleep(v, e, x)
    ensures Fired(e) in out || Asleep(w, e, x)
  {
    hide OfPri, Removed, AfterFiring;
    match s {
      case LaterNow =>
        forall p | 0 <= p < |w.queues| ensures e !in w.queues[p] {
          OfPriIn(v.looks, v.laterQueue, p);
        }
      case PassTimeouts(now) =>
        if e in FiredIn(out) {
          var i :| 0 <= i < |FiredIn(out)| && FiredIn(out)[i] == e;
          assert out[i] == Fired(e);
        } else {
          FiringOthers(v, FiredIn(out), e, x);
        }
      case DispatchOne(p, now, _) =>
        SleepsThrough(v, w, out, p, now, e, x);
      case _ =>
    }
  }

  lemma SleepsThrough(v: View, w: View, out: seq<Out>, p: nat, now: int, e: Event, x: Wait)
    requires Dispatched(v, w, out, p, now) && Asleep(v, e, x)
    ensures Fired(e) in out || Asleep(w, e, x)
  {
    hide OfPri, Removed, AfterFiring;
    if p < |v.queues| && v.queues[p] != [] {
      var t, u := v.queues[p][0], v.(queues := v.queues[p := v.queues[p][1..]]);
      assert t in v.queues[p] && Asleep(u, e, x);
      if t !in v.looks {
        var l: nat, k: nat :| Rung(v, u, w, out, t, l, k, now);
        var fired := v.lists[l][..k];
        if e in fired {
          var i :| 0 <= i < |fired| && fired[i] == e;
          assert out[i] == Fired(e);
        } else {
          FiringOthers(u, fired, e, x);
        }
      }
    }
  }

  lemma {:induction false} SleepsUntil(v: View, ts: seq<Tick>, i: nat, e: Event, x: Wait)
    requires Linked(v, ts) && i <= |ts| && Asleep(v, e, x)
    requires forall k :: 0 <= k < i ==> ts[k].step == LaterNow || ts[k].step.PassTimeouts? || ts[k].step.DispatchOne?
    requires forall k :: 0 <= k < i ==> Fired(e) !in ts[k].out
    ensures Asleep(Prior(v, ts, i), e, x)
  {
    hide Move, Asleep;
    if i > 0 {
      SleepsUntil(v, ts, i - 1, e, x);
      SleepsOn(ts[i - 1].step, Prior(v, ts, i - 1), ts[i - 1].after, ts[i - 1].out, e, x);
    }
  }

  // No timeout is lost: an iteration of the loop fires an event that waits, and was not active when it began, exactly if it is
  // due, and leaves it waiting otherwise.
  lemma NotLost(v: View, ts: seq<Tick>, now: int, e: Event, x: Wait)
    requires Linked(v, ts) && Iterated(v, ts, now, true) && Asleep(v, e, x)
    ensures (exists i :: 0 <= i < |ts| && Fired(e) in ts[i].out) <==> x.deadline <= now
    ensures x.deadline > now ==> Asleep(Prior(v, ts, |ts|), e, x)
  {
    hide Move, Linked, Iterated, Asleep;
    if i :| 0 <= i < |ts| && Fired(e) in ts[i].out {
      FiresDue(v, ts, now, e, x, i);
    } else {
      NeverFires(v, ts, now, e, x);
    }
  }

  lemma NeverFires(v: View, ts: seq<Tick>, now: int, e: Event, x: Wait)
    requires Linked(v, ts) && Iterated(v, ts, now, true) && Asleep(v, e, x)
    requires forall i :: 0 <= i < |ts| ==> Fired(e) !in ts[i].out
    ensures x.deadline > now && Asleep(Prior(v, ts, |ts|), e, x)
  {
    hide Move;
    SleepsUntil(v, ts, |ts|, e, x);
  }

  lemma FiresDue(v: View, ts: seq<Tick>, now: int, e: Event, x: Wait, i: nat)
    requires Linked(v, ts) && Iterated(v, ts, now, true) && Asleep(v, e, x) && i < |ts| && Fired(e) in ts[i].out
    ensures x.deadline <= now
  {
    hide Move, Quiet;
    var k := FirstFired(ts, e, i);
    SleepsUntil(v, ts, k, e, x);
    FiredDue(ts[k].step, Prior(v, ts, k), ts[k].after, ts[k].out, e);
  }

  lemma {:induction false} FirstFired(ts: seq<Tick>, e: Event, i: nat) returns (k: nat)
    requires i < |ts| && Fired(e) in ts[i].out
    ensures k <= i && Fired(e) in ts[k].out && forall j :: 0 <= j < k ==> Fired(e) !in ts[j].out
  {
    if j :| 0 <= j < i && Fired(e) in ts[j].out {
      k := FirstFired(ts, e, j);
    } else {
      k := i;
    }
  }
}
