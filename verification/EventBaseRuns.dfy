/** Runs of an event base (event.c): whatever is called in whatever order, the base does what EventBaseSpec says; and the two
    ways to lose a timeout for want of memory. */
module EventBaseRuns {
  import opened EventBase
  import opened EventBaseSpec

  // The events of the base are the users' and the timers of the common lists.
  ghost predicate Known(b: Base, users: seq<Event>)
    reads b`queues, b`all, b`timers, b.timers`pri
  {
    && NoDup(users) && |b.queues| > 0
    && (forall i :: 0 <= i < |users| ==> users[i] in b.all && users[i] !in b.timers && users[i].isEvent)
    && (forall e :: e in b.all ==> e in users || e in b.timers)
    && (forall l :: 0 <= l < |b.timers| ==> b.timers[l] in b.all && b.timers[l].pri == 0)
  }

  ghost function LookOf(e: Event): Look
    reads e
  {
    Look(if e.timeout then Some(Wait(e.deadline, e.common)) else None,
         e.inserted, e.active, e.later, Timeout in e.res, e.finalizing, e.pri)
  }

  ghost function Looks(users: seq<Event>): map<Event, Look>
    reads users
  {
    map e | e in users :: LookOf(e)
  }

  ghost function ViewOf(b: Base, users: seq<Event>): View
    reads b, users
  {
    View(b.queues, b.laterQueue, b.lists, b.timers, b.durations, users, Looks(users))
  }

  twostate lemma OneLook(new users: seq<Event>, new e: Event)
    requires old(allocated(users)) && e in users && forall o :: o in users && o != e ==> unchanged(o)
    ensures Looks(users) == old(Looks(users))[e := LookOf(e)]
  {
  }

  twostate lemma NoLook(new users: seq<Event>)
    requires old(allocated(users)) && forall o :: o in users ==> unchanged(o)
    ensures Looks(users) == old(Looks(users))
  {
  }

  // Where an event of the users is
  lemma Inside(b: Base, users: seq<Event>, n: nat)
    requires b.Valid() && Known(b, users) && n < |users|
    ensures var e := users[n];
      && e in users && e in b.all && e.isEvent && e.pri < |b.queues| && !(e.active && e.later) && |b.timers| == |b.lists|
      && (e.active <==> e in b.queues[e.pri]) && (e.later <==> e in b.laterQueue)
      && (e.finalizing ==> !e.timeout && !e.inserted) && e in Looks(users) && Looks(users)[e] == LookOf(e)
    ensures users[n] !in b.timers && forall l :: 0 <= l < |b.timers| ==> b.timers[l] in b.all
  {
    b.Facts(users[n]);
    b.TimerCount();
  }

  twostate lemma KnownStill(new b: Base, new users: seq<Event>)
    requires old(allocated(b)) && old(allocated(users)) && old(Known(b, users))
    requires b.all == old(b.all) && b.timers == old(b.timers) && |b.queues| == |old(b.queues)|
    requires forall t :: t in b.timers ==> t.pri == old(t.pri)
    ensures Known(b, users)
  {
  }

  // event_assign
  method DoAssign(b: Base, users: seq<Event>, io: bool, persist: bool) returns (e: Event)
    requires b.Valid() && Known(b, users)
    modifies b`all
    ensures b.Valid() && Known(b, users + [e]) && fresh(e) && b.all == old(b.all) + [e]
    ensures Move(NewEvent(io, persist), old(ViewOf(b, users)), ViewOf(b, users + [e]), [])
  {
    hide Base.Valid, Removed, OfPri;
    e := b.Assign(true, io, persist, false);
    SnocFacts(users, e);
    NoLook(users);
    assert Looks(users + [e]) == Looks(users)[e := LookOf(e)];
  }

  // event_base_init_common_timeout
  method DoNewList(b: Base, users: seq<Event>, duration: Duration, memory: bool)
    requires b.Valid() && Known(b, users)
    modifies b
    ensures b.Valid() && Known(b, users) && Newer(b)
    ensures Move(NewList(duration, memory), old(ViewOf(b, users)), ViewOf(b, users), [])
  {
    hide Base.Valid, Removed, OfPri, NoDup;
    TimersKnown(b);
    var l := b.NewCommonTimeout(duration, memory);
    NoLook(users);
    if |b.timers| == |old(b.timers)| + 1 {
      assert b.timers == old(b.timers) + [b.timers[|old(b.timers)|]];
    }
  }

  lemma TimersKnown(b: Base)
    requires b.Valid()
    ensures |b.timers| == |b.lists| && forall l :: 0 <= l < |b.timers| ==> b.timers[l] in b.all
  {
  }

  // The events of the base are its old ones and new ones.
  twostate predicate Newer(new b: Base)
    requires old(allocated(b))
    reads b
  {
    forall e :: e in b.all ==> e in old(b.all) || fresh(e)
  }

  // Only one event of the users, and the queues, have changed.
  twostate predicate OnlyOne(new b: Base, new users: seq<Event>, new e: Event)
    requires old(allocated(b)) && old(allocated(users))
    reads b, users
  {
    && b.timers == old(b.timers) && b.durations == old(b.durations) && e in users
    && forall o :: o in users && o != e ==> unchanged(o)
  }

  twostate lemma OneChanged(new b: Base, new users: seq<Event>, new e: Event)
    requires old(allocated(b)) && old(allocated(users)) && b.timers == old(b.timers) && b.durations == old(b.durations)
    requires e in users && forall o :: o in users && o != e ==> unchanged(o)
    ensures OnlyOne(b, users, e)
  {
  }

  // Where e was
  twostate predicate WasInside(new b: Base, new e: Event)
    requires old(allocated(b)) && old(allocated(e))
    reads b
  {
    && old(e.pri) < |old(b.queues)| && (old(e.active) <==> e in old(b.queues)[old(e.pri)])
    && (old(e.later) <==> e in old(b.laterQueue)) && !(old(e.active) && old(e.later))
  }

  // event_del
  method DoDelete(b: Base, users: seq<Event>, n: nat, evmap: bool)
    requires b.Valid() && Known(b, users) && n < |users|
    modifies b, b.all
    ensures b.Valid() && Known(b, users) && b.all == old(b.all)
    ensures ViewOf(b, users) == Deleted(old(ViewOf(b, users)), users[n])
  {
    hide Base.Valid, Known, Removed, OfPri, NoDup, Base.Unqueued, Base.ListsLeft, Deleted, ViewOf, LookOf, Looks;
    var e := users[n];
    Inside(b, users, n);
    var r := b.Delete(e, if evmap then 0 else -1);
    KnownStill(b, users);
    Erased(b, users, e);
  }

  twostate lemma Erased(new b: Base, new users: seq<Event>, new e: Event)
    requires old(allocated(b)) && old(allocated(users)) && old(allocated(e)) && OnlyOne(b, users, e) && WasInside(b, e)
    requires if e.finalizing then unchanged(b) && unchanged(e)
      else
        && !e.timeout && !e.inserted && !e.active && !e.later && b.Unqueued(e)
        && e.common == old(e.common) && e.finalizing == old(e.finalizing) && e.pri == old(e.pri) && e.res == old(e.res)
        && b.lists == if old(e.timeout) then b.ListsLeft(old(b.lists), e, e.common) else old(b.lists)
    ensures ViewOf(b, users) == Deleted(old(ViewOf(b, users)), e)
  {
    OneLook(users, e);
  }

  // event_active, event_active_later_
  method DoActivate(b: Base, users: seq<Event>, n: nat, res: Res, later: bool)
    requires b.Valid() && Known(b, users) && n < |users|
    modifies b, b.all
    ensures b.Valid() && Known(b, users) && b.all == old(b.all)
    ensures ViewOf(b, users) ==
      if later then ActivatedLater(old(ViewOf(b, users)), users[n], res) else Activated(old(ViewOf(b, users)), users[n], res)
  {
    hide Base.Core, Base.DurationsOk, Base.Scheduled, Known, NoDup, Removed, OfPri, Activated, ActivatedLater, Looks, ViewOf, LookOf;
    var e := users[n];
    Inside(b, users, n);
    if later {
      b.ActivateLater(e, res);
      b.TimerCount();
      KnownStill(b, users);
      Delayed(b, users, e, res);
    } else {
      b.Activate(e, res);
      b.TimerCount();
      KnownStill(b, users);
      Roused(b, users, e, res);
    }
  }

  twostate lemma Roused(new b: Base, new users: seq<Event>, new e: Event, new res: Res)
    requires old(allocated(b)) && old(allocated(users)) && old(allocated(e)) && OnlyOne(b, users, e) && WasInside(b, e)
    requires b.lists == old(b.lists) && e.timeout == old(e.timeout) && e.inserted == old(e.inserted)
    requires e.common == old(e.common) && e.deadline == old(e.deadline) && e.finalizing == old(e.finalizing) && e.pri == old(e.pri)
    requires if e.finalizing then e.active == old(e.active) && e.later == old(e.later) && e.res == old(e.res)
             else e.active && !e.later && e.res == (if old(e.active || e.later) then old(e.res) else {}) + {res}
    requires b.queues == if e.finalizing || old(e.active) then old(b.queues)
                         else old(b.queues)[e.pri := old(b.queues[e.pri]) + [e]]
    requires b.laterQueue == if old(e.later) && !e.finalizing then Without(old(b.laterQueue), e) else old(b.laterQueue)
    ensures ViewOf(b, users) == Activated(old(ViewOf(b, users)), e, res)
  {
    OneLook(users, e);
  }

  twostate lemma Delayed(new b: Base, new users: seq<Event>, new e: Event, new res: Res)
    requires old(allocated(b)) && old(allocated(users)) && old(allocated(e)) && OnlyOne(b, users, e) && WasInside(b, e)
    requires b.lists == old(b.lists) && b.queues == old(b.queues) && e.timeout == old(e.timeout) && e.inserted == old(e.inserted)
    requires e.common == old(e.common) && e.deadline == old(e.deadline) && e.finalizing == old(e.finalizing) && e.pri == old(e.pri)
    requires e.active == old(e.active) && e.later == (old(e.later) || !e.active)
    requires e.res == (if old(e.active || e.later) then old(e.res) else {}) + {res}
    requires b.laterQueue == old(b.laterQueue) + if old(e.active || e.later) then [] else [e]
    ensures ViewOf(b, users) == ActivatedLater(old(ViewOf(b, users)), e, res)
  {
    OneLook(users, e);
  }

  // event_finalize
  method DoFinalize(b: Base, users: seq<Event>, n: nat)
    requires b.Valid() && Known(b, users) && n < |users|
    modifies b, b.all
    ensures b.Valid() && Known(b, users) && b.all == old(b.all)
    ensures ViewOf(b, users) == Finalized(old(ViewOf(b, users)), users[n])
  {
    hide Base.Valid, Known, Removed, OfPri, NoDup, Base.Refiled, Base.ListsLeft, Finalized, Looks, ViewOf, LookOf;
    var e := users[n];
    Inside(b, users, n);
    b.FinalizeEvent(e);
    KnownStill(b, users);
    Ended(b, users, e);
  }

  twostate lemma Ended(new b: Base, new users: seq<Event>, new e: Event)
    requires old(allocated(b)) && old(allocated(users)) && old(allocated(e)) && OnlyOne(b, users, e) && WasInside(b, e)
    requires e.finalizing && !e.timeout && !e.inserted && e.common == old(e.common) && e.pri == old(e.pri)
    requires if old(e.finalizing)
      then
        && unchanged(b`queues, b`laterQueue, b`lists) && e.active == old(e.active) && e.later == old(e.later) && e.res == old(e.res)
        && !old(e.timeout) && !old(e.inserted)
      else
        && e.active && !e.later && e.res == {Finalize} && b.Refiled(e)
        && b.lists == if old(e.timeout) then b.ListsLeft(old(b.lists), e, e.common) else old(b.lists)
    ensures ViewOf(b, users) == Finalized(old(ViewOf(b, users)), e)
  {
    OneLook(users, e);
  }

  // event_priority_set
  method DoPriority(b: Base, users: seq<Event>, n: nat, pri: int)
    requires b.Valid() && Known(b, users) && n < |users|
    modifies b, b.all
    ensures b.Valid() && Known(b, users) && b.all == old(b.all)
    ensures ViewOf(b, users) == Prioritized(old(ViewOf(b, users)), users[n], pri)
  {
    hide Base.Valid, Known, Removed, OfPri, NoDup, Looks;
    var e := users[n];
    Inside(b, users, n);
    var r := b.SetPriority(e, pri);
    KnownStill(b, users);
    OneLook(users, e);
  }

  // The common lists hold events of the users that wait.
  lemma ListOfUsers(b: Base, users: seq<Event>)
    requires b.Core() && Known(b, users)
    ensures forall l, i :: 0 <= l < |b.lists| && 0 <= i < |b.lists[l]| ==>
      var o := b.lists[l][i]; o in users && o.timeout && o.common == Some(l)
    ensures forall l :: 0 <= l < |b.lists| ==> NoDup(b.lists[l])
  {
  }

  // event_add. Without memory, and only then, it may come to one of the states that lose a timeout.
  method DoAdd(b: Base, users: seq<Event>, n: nat, tv: Option<Tv>, now: int, memory: bool, evmap: bool) returns (stranded: bool)
    requires b.Valid() && Known(b, users) && n < |users|
    requires tv.Some? && tv.value.common.Some? ==> tv.value.common.value < |b.lists|
    modifies b, b.all
    ensures Known(b, users) && (b.Valid() <==> !stranded) && (stranded ==> !memory) && b.all == old(b.all)
    ensures Added(old(ViewOf(b, users)), ViewOf(b, users), users[n], tv, now, memory, evmap)
  {
    hide Base.Valid, Known, NoDup, Base.PutAt, Base.AddedTimeout, Base.OtherTimers, Base.ListsLeft, Looks, TimeoutAdded, Base.TimerActive;
    hide Base.TimerPending, Base.Core, Added, ViewOf, LookOf, OnlyOne, OthersWait;
    var e := users[n];
    Inside(b, users, n);
    ghost var left := if e.timeout then b.ListsLeft(b.lists, e, e.common) else b.lists;
    ListsApart(b, users, e, left);
    stranded := tv.Some? && b.Strands(e, tv.value.common, memory);
    var r;
    ghost var k, armed;
    r, k, armed := b.Add(e, tv, now, memory, if evmap then 0 else -1);
    KnownStill(b, users);
    OneChanged(b, users, e);
    stranded := stranded && r == 0;
    if r == 0 && tv.Some? {
      Retimed(b, users, e, tv.value, now, left, k, armed, old(b.TimerActive(tv.value.common)), old(b.TimerPending(tv.value.common)),
              old(b.NoRoom(e, memory)));
    }
    Outcome(b, users, e, tv, now, memory, evmap, r);
  }

  twostate lemma Outcome(new b: Base, new users: seq<Event>, new e: Event, new tv: Option<Tv>, new now: int, new memory: bool,
                         new evmap: bool, new r: int)
    requires old(allocated(b)) && old(allocated(users)) && old(allocated(e)) && OnlyOne(b, users, e)
    requires b.laterQueue == old(b.laterQueue) && e.finalizing == old(e.finalizing) && (r == 0 || r == -1)
    requires e.finalizing || (e.io && !old(e.inserted || e.active || e.later) && !evmap) ==> r == -1
    requires r == -1 ==> unchanged(b`queues, b`lists) && unchanged(e)
    requires r == -1 ==>
      e.finalizing || (tv.Some? && !old(e.timeout) && !memory) || (e.io && !old(e.inserted || e.active || e.later) && !evmap)
    requires r == 0 && tv.None? ==>
      && unchanged(b`queues, b`lists) && e.inserted == (old(e.inserted) || (e.io && !old(e.active || e.later)))
      && unchanged(e`timeout, e`active, e`later, e`deadline, e`common, e`res, e`pri)
    requires r == 0 && tv.Some? ==> TimeoutAdded(old(ViewOf(b, users)), ViewOf(b, users), e, tv.value, now)
    ensures Added(old(ViewOf(b, users)), ViewOf(b, users), e, tv, now, memory, evmap)
  {
    hide TimeoutAdded;
    if r == -1 {
      NoLook(users);
    } else {
      OneLook(users, e);
    }
  }

  // Without e the lists hold other events of the users that wait.
  ghost predicate OthersWait(users: seq<Event>, e: Event, left: seq<seq<Event>>)
    reads users
  {
    forall l, i :: 0 <= l < |left| && 0 <= i < |left[l]| ==> left[l][i] in users && left[l][i].timeout && left[l][i] != e
  }

  lemma ListsApart(b: Base, users: seq<Event>, e: Event, left: seq<seq<Event>>)
    requires b.Valid() && Known(b, users) && e in b.all
    requires left == if e.timeout then b.ListsLeft(b.lists, e, e.common) else b.lists
    ensures OthersWait(users, e, left)
  {
    ListOfUsers(b, users);
    b.TimerCount();
    forall l, i | 0 <= l < |left| && 0 <= i < |left[l]|
      ensures left[l][i] in users && left[l][i].timeout && left[l][i] != e
    {
      if e.timeout && e.common == Some(l) {
        b.Facts(e);
        WithoutFacts(b.lists[l], e);
        assert left[l][i] in left[l];
      } else {
        assert left[l] == b.lists[l];
      }
    }
  }

  twostate lemma Retimed(new b: Base, new users: seq<Event>, new e: Event, new tv: Tv, new now: int, new left: seq<seq<Event>>,
                         new k: nat, new armed: bool, new timerActive: bool, new timerPending: bool, new noRoom: bool)
    requires old(allocated(b)) && old(allocated(users)) && old(allocated(e)) && old(allocated(left)) && OnlyOne(b, users, e)
    requires old(OthersWait(users, e, left)) && (forall l :: 0 <= l < |b.timers| ==> b.timers[l].pri == 0) && b.laterQueue == old(b.laterQueue)
    requires left == if old(e.timeout) then b.ListsLeft(old(b.lists), e, old(e.common)) else old(b.lists)
    requires e.timeout && e.common == tv.common && e.deadline == Deadline(tv, now)
    requires e.inserted == (old(e.inserted) || (e.io && !old(e.active || e.later)))
    requires e.active == (old(e.active) && Timeout !in e.res) && e.later == old(e.later) && e.res == old(e.res)
    requires e.finalizing == old(e.finalizing) && e.pri == old(e.pri)
    requires b.PutAt(left, e, k)
    requires b.AddedTimeout(old(b.queues), old(b.heap), e, old(e.active), timerActive, timerPending, noRoom, k, armed)
    ensures TimeoutAdded(old(ViewOf(b, users)), ViewOf(b, users), e, tv, now)
  {
    OneLook(users, e);
    ghost var v := old(ViewOf(b, users));
    assert left == ListMinus(v.lists, v.looks[e].waits, e);
    if tv.common.Some? {
      var l := tv.common.value;
      forall i | 0 <= i < |left[l]| ensures Waiting(v.looks, left[l][i]) && v.looks[left[l][i]].waits.value.deadline == left[l][i].deadline {
        assert left[l][i] in users && left[l][i] != e;
      }
      assert Place(v.looks, left[l], Deadline(tv, now), k);
    }
  }

  lemma {:induction false} OfPriorityIs(looks: map<Event, Look>, es: seq<Event>, p: nat)
    requires forall e :: e in es ==> Pri(looks, e) == e.pri
    ensures OfPriority(es, p) == OfPri(looks, es, p)
  {
    if es != [] {
      OfPriorityIs(looks, es[1..], p);
    }
  }

  // The priorities in the view are those of the events.
  lemma Priorities(b: Base, users: seq<Event>)
    requires Known(b, users)
    ensures forall e :: e in b.all ==> Pri(Looks(users), e) == e.pri
  {
    forall e | e in b.all ensures Pri(Looks(users), e) == e.pri {
      assert e in users || e in b.timers;
    }
  }

  // event_queue_make_later_events_active
  method DoMakeLater(b: Base, users: seq<Event>)
    requires b.Valid() && Known(b, users)
    modifies b, b.all
    ensures b.Valid() && Known(b, users) && b.all == old(b.all)
    ensures ViewOf(b, users) == Hastened(old(ViewOf(b, users))) && b.laterQueue == []
  {
    hide Base.Valid, Known, Hastened, ViewOf, LookOf, Looks, OfPriority;
    Priorities(b, users);
    LaterKnown(b);
    b.MakeLaterActive();
    KnownStill(b, users);
    AllHastened(b, users);
  }

  lemma LaterKnown(b: Base)
    requires b.Valid()
    ensures forall i :: 0 <= i < |b.laterQueue| ==> b.laterQueue[i] in b.all
  {
  }

  twostate lemma AllHastened(new b: Base, new users: seq<Event>)
    requires old(allocated(b)) && old(allocated(users)) && b.timers == old(b.timers) && b.durations == old(b.durations)
    requires b.lists == old(b.lists) && b.laterQueue == [] && |b.queues| == |old(b.queues)|
    requires forall e :: e in old(b.laterQueue) ==> e.active && !e.later && Pri(old(Looks(users)), e) == e.pri
    requires forall e :: e in users ==> unchanged(e`timeout, e`inserted, e`res, e`finalizing, e`pri, e`deadline, e`common)
    requires forall e :: e in users && e !in old(b.laterQueue) ==> unchanged(e)
    requires forall p :: 0 <= p < |b.queues| ==> b.queues[p] == old(b.queues[p]) + OfPriority(old(b.laterQueue), p)
    ensures ViewOf(b, users) == Hastened(old(ViewOf(b, users)))
  {
    var looks := old(Looks(users));
    forall p | 0 <= p < |b.queues| ensures b.queues[p] == old(b.queues[p]) + OfPri(looks, old(b.laterQueue), p) {
      OfPriorityIs(looks, old(b.laterQueue), p);
    }
  }

  // timeout_process
  method DoPass(b: Base, users: seq<Event>, now: int) returns (ghost out: seq<Out>)
    requires b.Valid() && Known(b, users)
    modifies b, b.all
    ensures b.Valid() && Known(b, users) && b.all == old(b.all)
    ensures Passed(old(ViewOf(b, users)), ViewOf(b, users), out, now)
    ensures forall e :: e in b.all && e.timeout && e.common.None? ==> now < e.deadline
    ensures old(b.laterQueue) == [] ==> b.laterQueue == []
  {
    hide Base.Valid, Known, NoDup, Base.FiredInto, Passed, ViewOf, Looks, LookOf;
    HeapKnown(b);
    Priorities(b, users);
    Sides(b, users);
    ghost var fired := b.TimeoutProcess(now);
    b.FiredSize(old(b.queues), old(b.laterQueue), fired);
    HeapKnown(b);
    KnownStill(b, users);
    NoneLeft(b, old(b.queues), old(b.laterQueue), fired);
    HavePassed(b, users, fired, now);
    out := Firings(fired);
  }

  lemma HeapKnown(b: Base)
    requires b.Valid()
    ensures forall e :: e in b.all ==> (e in b.heap <==> e.timeout && e.common.None?)
    ensures forall e :: e in b.heap ==> e in b.all
  {
  }

  lemma Sides(b: Base, users: seq<Event>)
    requires Known(b, users)
    ensures forall e :: e in b.all ==> e in users || e in b.timers
    ensures forall e :: e in users ==> e in b.all && e !in b.timers && e.isEvent
  {
  }

  lemma NoneLeft(b: Base, before: seq<seq<Event>>, later: seq<Event>, fired: seq<Event>)
    requires b.FiredInto(before, later, fired)
    ensures later == [] ==> b.laterQueue == []
    ensures fired == [] ==> b.queues == before && b.laterQueue == later
  {
    if fired == [] {
      RemovedNone(later);
      forall p | 0 <= p < |before| ensures b.queues[p] == before[p] {
        RemovedNone(before[p]);
      }
    }
  }

  // What has fired, in the queues and in the looks of the events, and what has not changed
  twostate predicate HaveFired(new b: Base, new users: seq<Event>, new before: seq<seq<Event>>, new fired: seq<Event>)
    requires old(allocated(b)) && old(allocated(users)) && old(allocated(fired))
    reads b, users, fired
  {
    && b.timers == old(b.timers) && b.durations == old(b.durations) && b.FiredInto(before, old(b.laterQueue), fired)
    && (forall e :: e in fired ==> FiredNow(e) && Pri(old(Looks(users)), e) == e.pri)
    && (forall e :: e in users ==> unchanged(e`finalizing, e`pri, e`deadline))
    && forall e :: e in users && e !in fired ==> unchanged(e)
  }

  twostate lemma FiredView(new b: Base, new users: seq<Event>, new before: seq<seq<Event>>, new fired: seq<Event>)
    requires old(allocated(b)) && old(allocated(users)) && old(allocated(fired)) && HaveFired(b, users, before, fired)
    ensures ViewOf(b, users) == AfterFiring(old(ViewOf(b, users)).(queues := before), fired).(lists := b.lists)
  {
    var looks := old(Looks(users));
    forall p | 0 <= p < |b.queues| ensures b.queues[p] == Removed(before[p], fired) + OfPri(looks, fired, p) {
      OfPriorityIs(looks, fired, p);
    }
  }

  twostate lemma HavePassed(new b: Base, new users: seq<Event>, new fired: seq<Event>, new now: int)
    requires old(allocated(b)) && old(allocated(users)) && old(allocated(fired)) && HaveFired(b, users, old(b.queues), fired)
    requires b.lists == old(b.lists) && NoDup(fired) && Sorted(fired)
    requires forall e :: e in fired ==> e in users || e in b.timers
    requires forall e :: e in users ==> (e in fired <==> old(e.timeout) && old(e.common).None? && old(e.deadline) <= now)
    ensures Passed(old(ViewOf(b, users)), ViewOf(b, users), Firings(fired), now)
  {
    FiredView(b, users, old(b.queues), fired);
    assert FiredIn(Firings(fired)) == fired;
    ghost var v := old(ViewOf(b, users));
    assert v.(queues := v.queues) == v;
  }

  // A callback is taken off a queue and runs, or the timer of a common list does.
  method DoDispatch(b: Base, users: seq<Event>, p: nat, now: int, memory: bool) returns (ghost out: seq<Out>, stranded: bool)
    requires b.Valid() && Known(b, users) && p < |b.queues| && b.queues[p] != []
    modifies b, b.all
    ensures Known(b, users) && (b.Valid() <==> !stranded) && (stranded ==> !memory) && b.all == old(b.all)
    ensures Dispatched(old(ViewOf(b, users)), ViewOf(b, users), out, p, now)
    ensures old(b.laterQueue) == [] ==> b.laterQueue == []
    ensures old(forall e :: e in b.all && e.timeout && e.common.None? ==> now < e.deadline) && !stranded ==>
      forall e :: e in b.all && e.timeout && e.common.None? ==> now < e.deadline
    ensures Fewer(old(b.lists), old(b.queues), b.lists, b.queues)
  {
    hide Base.Valid, Base.Core, Known, NoDup, Base.FiredInto, Dispatched, ViewOf, Looks, LookOf, Base.Expired, Base.ListsLeft, Fewer;
    Priorities(b, users);
    Sides(b, users);
    Fronts(b, users);
    ghost var before := b.queues[p := b.queues[p][1..]];
    label start:
    var e, ok;
    ghost var fired;
    e, fired, ok := b.Dispatch(p, now, memory);
    stranded := !ok;
    b.FiredSize(before, old(b.laterQueue), fired);
    NoneLeft(b, before, old(b.laterQueue), fired);
    KnownStill(b, users);
    if e in users {
      RanOne@start(b, users, p, e, now);
      out := [Ran(e)];
    } else {
      Matched(b);
      ghost var l: nat :| l < |b.timers| && b.timers[l] == e;
      RungOne@start(b, users, p, e, l, fired, now);
      assert Advanced(old(b.lists), b.lists, fired, l);
      out := Firings(fired);
    }
    FewerNow@start(b, p, e, fired);
  }

  lemma Matched(b: Base)
    requires b.Core()
    ensures |b.timers| == |b.lists|
  {
  }

  // The common lists hold each event once, and the front of a queue is known.
  lemma Fronts(b: Base, users: seq<Event>)
    requires b.Valid() && Known(b, users)
    ensures |b.timers| == |b.lists|
    ensures forall l, i :: 0 <= l < |b.lists| && 0 <= i < |b.lists[l]| ==> b.lists[l][i] in users && b.lists[l][i].timeout
    ensures forall l :: 0 <= l < |b.lists| ==> NoDup(b.lists[l])
    ensures forall p :: 0 <= p < |b.queues| && b.queues[p] != [] ==> b.queues[p][0] in b.all && !b.queues[p][0].later
  {
    ListOfUsers(b, users);
    b.TimerCount();
    forall p | 0 <= p < |b.queues| && b.queues[p] != [] ensures b.queues[p][0] in b.all && !b.queues[p][0].later {
      b.HeadActive(p);
      b.Facts(b.queues[p][0]);
    }
  }

  twostate lemma RanOne(new b: Base, new users: seq<Event>, new p: nat, new e: Event, new now: int)
    requires old(allocated(b)) && old(allocated(users)) && old(allocated(e)) && OnlyOne(b, users, e)
    requires p < |old(b.queues)| && old(b.queues)[p] != [] && e == old(b.queues[p][0]) && !old(e.later) && e.isEvent
    requires b.queues == old(b.queues)[p := old(b.queues[p])[1..]] && b.laterQueue == old(b.laterQueue)
    requires e.finalizing == old(e.finalizing) && e.pri == old(e.pri) && e.res == old(e.res) && !e.active && !e.later
    requires e.deadline == old(e.deadline) && e.common == old(e.common)
    requires if e.persist || e.finalizing then e.timeout == old(e.timeout) && e.inserted == old(e.inserted) && b.lists == old(b.lists)
      else
        && !e.timeout && !e.inserted
        && b.lists == if old(e.timeout) then b.ListsLeft(old(b.lists), e, old(e.common)) else old(b.lists)
    ensures Dispatched(old(ViewOf(b, users)), ViewOf(b, users), [Ran(e)], p, now)
  {
    OneLook(users, e);
  }

  twostate lemma RungOne(new b: Base, new users: seq<Event>, new p: nat, new t: Event, new l: nat, new fired: seq<Event>, new now: int)
    requires old(allocated(b)) && old(allocated(users)) && old(allocated(t)) && old(allocated(fired))
    requires p < |old(b.queues)| && old(b.queues)[p] != [] && t == old(b.queues[p][0]) && t !in users
    requires l < |old(b.timers)| && old(b.timers)[l] == t && l < |old(b.lists)|
    requires HaveFired(b, users, old(b.queues)[p := old(b.queues[p])[1..]], fired)
    requires old(forall i :: 0 <= i < |b.lists[l]| ==> b.lists[l][i] in users && b.lists[l][i].timeout) && old(NoDup(b.lists[l]))
    requires fired <= old(b.lists[l]) && b.lists == old(b.lists)[l := old(b.lists[l])[|fired|..]]
    requires forall o :: o in fired ==> old(o.deadline) <= now
    requires b.lists[l] != [] ==> now < b.lists[l][0].deadline
    ensures Dispatched(old(ViewOf(b, users)), ViewOf(b, users), Firings(fired), p, now)
  {
    ghost var v := old(ViewOf(b, users));
    var k := |fired|;
    FiredView(b, users, old(b.queues)[p := old(b.queues[p])[1..]], fired);
    assert fired == v.lists[l][..k];
    assert DuePart(v.looks, v.lists[l], k, now);
    assert Rung(v, v.(queues := v.queues[p := v.queues[p][1..]]), ViewOf(b, users), Firings(fired), t, l, k, now);
  }

  ghost predicate Advanced(ls: seq<seq<Event>>, ls': seq<seq<Event>>, fired: seq<Event>, l: nat)
  {
    l < |ls| && fired <= ls[l] && ls' == ls[l := ls[l][|fired|..]]
  }

  // A queue has one callback less, or events have left their list.
  twostate lemma FewerNow(new b: Base, new p: nat, new e: Event, new fired: seq<Event>)
    requires old(allocated(b)) && p < |old(b.queues)| && old(b.queues)[p] != []
    requires b.FiredInto(old(b.queues)[p := old(b.queues)[p][1..]], old(b.laterQueue), fired)
    requires e !in b.timers ==> fired == [] && (b.lists == old(b.lists) || exists c :: b.lists == b.ListsLeft(old(b.lists), e, c))
    requires e in b.timers ==> exists l: nat :: Advanced(old(b.lists), b.lists, fired, l)
    ensures Fewer(old(b.lists), old(b.queues), b.lists, b.queues)
  {
    hide Lengths, Base.FiredInto, Base.ListsLeft;
    var before := old(b.queues)[p := old(b.queues)[p][1..]];
    LengthsUpdate(old(b.queues), p, before[p]);
    if e in b.timers {
      var l: nat :| Advanced(old(b.lists), b.lists, fired, l);
      LengthsUpdate(old(b.lists), l, old(b.lists)[l][|fired|..]);
    } else if b.lists != old(b.lists) {
      var c :| b.lists == b.ListsLeft(old(b.lists), e, c);
      ListsShorter(b, old(b.lists), e, c);
    }
    NoneLeft(b, before, old(b.laterQueue), fired);
  }

  lemma ListsShorter(b: Base, ls: seq<seq<Event>>, e: Event, common: Option<nat>)
    ensures Lengths(b.ListsLeft(ls, e, common)) <= Lengths(ls)
  {
    hide Lengths;
    if common.Some? && common.value < |ls| {
      LengthsUpdate(ls, common.value, Minus(ls[common.value], e));
    }
  }

  // What the loop makes less: the common lists, or else the active queues.
  ghost predicate Fewer(ls: seq<seq<Event>>, qs: seq<seq<Event>>, ls': seq<seq<Event>>, qs': seq<seq<Event>>)
  {
    Lengths(ls') < Lengths(ls) || (Lengths(ls') == Lengths(ls) && Lengths(qs') < Lengths(qs))
  }

  // The first queue that has something, as event_process_active looks for it
  method FirstQueue(b: Base) returns (p: nat)
    ensures p <= |b.queues| && (forall q :: 0 <= q < p ==> b.queues[q] == []) && (p < |b.queues| ==> b.queues[p] != [])
  {
    p := 0;
    while p < |b.queues| && b.queues[p] == []
      invariant p <= |b.queues| && forall q :: 0 <= q < p ==> b.queues[q] == []
    {
      p := p + 1;
    }
  }

  lemma LinkedMore(v: View, ts: seq<Tick>, t: Tick)
    requires Linked(v, ts) && Move(t.step, Prior(v, ts, |ts|), t.after, t.out)
    ensures Linked(v, ts + [t]) && Prior(v, ts + [t], |ts| + 1) == t.after
  {
    hide Move;
    var more := ts + [t];
    forall i | 0 <= i < |more| ensures Move(more[i].step, Prior(v, more, i), more[i].after, more[i].out) {
      assert Prior(v, more, i) == Prior(v, ts, i);
    }
  }

  // What the loop has done so far
  ghost predicate Going(v: View, ts: seq<Tick>, now: int, memory: bool, w: View)
  {
    && |ts| >= 2 && ts[0].step == LaterNow && ts[1].step == PassTimeouts(now) && Linked(v, ts) && Prior(v, ts, |ts|) == w
    && forall i :: 2 <= i < |ts| ==> Round(ts[i - 1].after, ts[i].step, now, memory)
  }

  lemma GoingStart(v: View, u: View, w: View, out: seq<Out>, now: int, memory: bool)
    requires u == Hastened(v) && Passed(u, w, out, now)
    ensures Going(v, [Tick(LaterNow, u, []), Tick(PassTimeouts(now), w, out)], now, memory, w)
  {
    hide Hastened, Passed;
  }

  lemma GoingOn(v: View, ts: seq<Tick>, now: int, memory: bool, w: View, p: nat, x: View, out: seq<Out>)
    requires Going(v, ts, now, memory, w) && FirstBusy(w, p) && Dispatched(w, x, out, p, now)
    ensures Going(v, ts + [Tick(DispatchOne(p, now, memory), x, out)], now, memory, x)
  {
    hide Dispatched, FirstBusy, Linked;
    LinkedMore(v, ts, Tick(DispatchOne(p, now, memory), x, out));
  }

  // All that event_base_loop does with the queues in one iteration, while the callbacks of the users call nothing.
  method Iterate(b: Base, users: seq<Event>, now: int, memory: bool) returns (ghost ts: seq<Tick>, stranded: bool)
    requires b.Valid() && Known(b, users)
    modifies b, b.all
    ensures Known(b, users) && (b.Valid() <==> !stranded) && (stranded ==> !memory) && b.all == old(b.all)
    ensures Going(old(ViewOf(b, users)), ts, now, memory, ViewOf(b, users))
    ensures !stranded ==> Quiet(ViewOf(b, users), now)
  {
    hide Base.Valid, Known, ViewOf, Going, Hastened, Passed, Dispatched, Quiet, Lengths, FirstBusy;
    ghost var v := ViewOf(b, users);
    DoMakeLater(b, users);
    ghost var u := ViewOf(b, users);
    ghost var out := DoPass(b, users, now);
    GoingStart(v, u, ViewOf(b, users), out, now, memory);
    ts := [Tick(LaterNow, u, []), Tick(PassTimeouts(now), ViewOf(b, users), out)];
    stranded := false;
    var p: nat := FirstQueue(b);
    while p < |b.queues|
      invariant b.Valid() && Known(b, users) && Going(v, ts, now, memory, ViewOf(b, users)) && b.all == old(b.all)
      invariant b.laterQueue == [] && p <= |b.queues| && (p < |b.queues| ==> b.queues[p] != [])
      invariant forall q :: 0 <= q < p ==> b.queues[q] == []
      invariant forall e :: e in b.all && e.timeout && e.common.None? ==> now < e.deadline
      decreases Lengths(b.lists), Lengths(b.queues)
    {
      ghost var w := ViewOf(b, users);
      BusyFirst(b, users, p);
      out, stranded := DoDispatch(b, users, p, now, memory);
      GoingOn(v, ts, now, memory, w, p, ViewOf(b, users), out);
      ts := ts + [Tick(DispatchOne(p, now, memory), ViewOf(b, users), out)];
      if stranded {
        return;
      }
      p := FirstQueue(b);
    }
    b.NoneOverdue(now);
    AllQuiet(b, users, now);
  }

  lemma BusyFirst(b: Base, users: seq<Event>, p: nat)
    requires p < |b.queues| && b.queues[p] != [] && forall q :: 0 <= q < p ==> b.queues[q] == []
    ensures FirstBusy(ViewOf(b, users), p)
  {
  }

  lemma AllQuiet(b: Base, users: seq<Event>, now: int)
    requires b.laterQueue == [] && (forall p :: 0 <= p < |b.queues| ==> b.queues[p] == []) && Known(b, users)
    requires forall e :: e in b.all && e.timeout ==> now < e.deadline
    ensures Quiet(ViewOf(b, users), now)
  {
  }

  predicate Memory(s: Step)
  {
    match s
    case AddEvent(_, _, _, memory, _) => memory
    case DispatchOne(_, _, memory) => memory
    case Loop(_, memory) => memory
    case _ => true
  }

  // One call. It ends in a state that has lost a timeout only if it has run out of memory.
  method Do(b: Base, users: seq<Event>, s: Step) returns (users': seq<Event>, ghost ts: seq<Tick>, stranded: bool)
    requires b.Valid() && Known(b, users)
    modifies b, b.all
    ensures Known(b, users') && (b.Valid() <==> !stranded) && (stranded ==> !Memory(s)) && Newer(b)
    ensures Played(s, old(ViewOf(b, users)), ts) && Reached(old(ViewOf(b, users)), [ts]) == ViewOf(b, users')
  {
    hide Base.Valid, Known, ViewOf, Going, Hastened, Passed, Dispatched, Quiet, Deleted, Finalized, Activated, ActivatedLater, Added;
    hide Prioritized;
    ghost var v, out := ViewOf(b, users), [];
    users', stranded := users, false;
    Numbered(b, users);
    if s.Loop? {
      ts, stranded := Iterate(b, users, s.now, s.memory);
      LoopPlayed(v, ts, s, ViewOf(b, users));
      return;
    }
    match s {
      case NewEvent(io, persist) =>
        var e := DoAssign(b, users, io, persist);
        users' := users + [e];
      case NewList(duration, memory) =>
        DoNewList(b, users, duration, memory);
      case AddEvent(n, tv, now, memory, evmap) =>
        if n < |users| && (tv.Some? && tv.value.common.Some? ==> tv.value.common.value < |b.lists|) {
          stranded := DoAdd(b, users, n, tv, now, memory, evmap);
        }
      case DelEvent(n, evmap) =>
        if n < |users| {
          DoDelete(b, users, n, evmap);
        }
      case ActivateEvent(n, res, later) =>
        if n < |users| {
          DoActivate(b, users, n, res, later);
        }
      case FinalizeIt(n) =>
        if n < |users| {
          DoFinalize(b, users, n);
        }
      case ChangePriority(n, pri) =>
        if n < |users| {
          DoPriority(b, users, n, pri);
        }
      case LaterNow =>
        DoMakeLater(b, users);
      case PassTimeouts(now) =>
        out := DoPass(b, users, now);
      case DispatchOne(p, now, memory) =>
        if p < |b.queues| && b.queues[p] != [] {
          out, stranded := DoDispatch(b, users, p, now, memory);
        } else {
          Nobody(v, p, now);
        }
      case _ =>
    }
    ts := [Tick(s, ViewOf(b, users'), out)];
    OnePlayed(s, v, ViewOf(b, users'), out);
  }

  lemma Numbered(b: Base, users: seq<Event>)
    ensures ViewOf(b, users).users == users && ViewOf(b, users).lists == b.lists && ViewOf(b, users).queues == b.queues
    ensures forall n :: 0 <= n < |users| ==> users[n] in ViewOf(b, users).looks
  {
  }

  lemma Nobody(v: View, p: nat, now: int)
    requires p >= |v.queues| || v.queues[p] == []
    ensures Dispatched(v, v, [], p, now)
  {
  }

  lemma OnePlayed(s: Step, v: View, w: View, out: seq<Out>)
    requires Move(s, v, w, out) && !s.Loop?
    ensures Played(s, v, [Tick(s, w, out)]) && Reached(v, [[Tick(s, w, out)]]) == w
  {
    hide Move;
    assert Prior(v, [Tick(s, w, out)], 0) == v;
  }

  lemma LoopPlayed(v: View, ts: seq<Tick>, s: Step, w: View)
    requires s.Loop? && Going(v, ts, s.now, s.memory, w) && (s.memory ==> Quiet(w, s.now))
    ensures Played(s, v, ts) && Reached(v, [ts]) == w
  {
    hide Linked, Quiet;
  }

  // Every history of an event base is one that EventBaseSpec allows, and ends in the state that is reached there. It goes on
  // until a timeout is lost, which only happens without memory.
  method History(nQueues: nat, steps: seq<Step>)
    returns (b: Base, users: seq<Event>, ghost tss: seq<seq<Tick>>, stranded: bool)
    requires nQueues > 0
    ensures fresh(b) && Known(b, users) && (b.Valid() <==> !stranded) && (stranded || |tss| == |steps|)
    ensures |tss| <= |steps| && Plays(Start(nQueues), steps[..|tss|], tss) && ViewOf(b, users) == Reached(Start(nQueues), tss)
    ensures (forall i :: 0 <= i < |steps| ==> Memory(steps[i])) ==> !stranded
  {
    hide Base.Valid, Known, Newer, Played, ViewOf, Plays;
    b := new Base(nQueues);
    users, tss, stranded := [], [], false;
    Beginning(b, nQueues);
    var i := 0;
    while i < |steps| && !stranded
      invariant 0 <= i == |tss| <= |steps| && Known(b, users) && (b.Valid() <==> !stranded)
      invariant Plays(Start(nQueues), steps[..i], tss) && ViewOf(b, users) == Reached(Start(nQueues), tss)
      invariant (forall j :: 0 <= j < i ==> Memory(steps[j])) ==> !stranded
      invariant fresh(b) && fresh(b.all)
    {
      ghost var was := b.all;
      assert forall e :: e in was ==> fresh(e);
      label before:
      ghost var ts;
      users, ts, stranded := Do(b, users, steps[i]);
      PlaysMore(Start(nQueues), steps, tss, ts);
      tss := tss + [ts];
      StillFresh@before(b);
      assert forall e :: e in b.all ==> e in was || fresh@before(e);
      forall j | 0 <= j < |b.all| ensures fresh(b.all[j]) {
        assert b.all[j] in b.all;
      }
      i := i + 1;
    }
  }

  lemma PlaysMore(v: View, steps: seq<Step>, tss: seq<seq<Tick>>, ts: seq<Tick>)
    requires |tss| < |steps| && Plays(v, steps[..|tss|], tss) && Played(steps[|tss|], Reached(v, tss), ts)
    ensures Plays(v, steps[..|tss| + 1], tss + [ts]) && Reached(v, tss + [ts]) == Reached(Reached(v, tss), [ts])
  {
    hide Linked, Iterated;
    var more := tss + [ts];
    forall i | 0 <= i < |more| ensures Played(steps[i], Reached(v, more[..i]), more[i]) {
      assert more[..i] == if i < |tss| then tss[..i] else tss;
    }
  }

  twostate lemma StillFresh(new b: Base)
    requires old(allocated(b)) && Newer(b)
    ensures forall e :: e in b.all ==> e in old(b.all) || fresh(e)
  {
  }

  lemma Beginning(b: Base, nQueues: nat)
    requires b.all == [] && b.timers == [] && b.lists == [] && b.laterQueue == [] && b.durations == []
    requires |b.queues| == nQueues > 0 && forall p :: 0 <= p < nQueues ==> b.queues[p] == []
    ensures Known(b, []) && ViewOf(b, []) == Start(nQueues) == Reached(Start(nQueues), []) && Plays(Start(nQueues), [], [])
  {
    assert Looks([]) == map[] && b.queues == Start(nQueues).queues;
  }

  // An event waits in the first of two common lists; the other one is empty, and so is its timer.
  ghost predicate Prone(b: Base, e: Event)
    reads b, e, b.timers
  {
    && e in b.all && e !in b.timers && e.isEvent && !e.io && !e.finalizing && e.timeout && e.common == Some(0)
    && |b.lists| == |b.timers| == 2 && b.lists[1] == [] && |b.queues| > 0
    && !b.timers[1].timeout && !b.timers[1].active && !b.timers[1].later
  }

  method Setup() returns (b: Base, e: Event)
    ensures fresh(b) && fresh(b.all) && b.Valid() && Prone(b, e)
  {
    hide Base.Valid;
    b := new Base(1);
    var first := b.NewCommonTimeout(Duration(1, 0), true);
    var second := b.NewCommonTimeout(Duration(2, 0), true);
    e := b.Assign(true, false, false, false);
    TimersKnown(b);
    WaitInFirst(b, e);
  }

  method WaitInFirst(b: Base, e: Event)
    requires b.Valid() && e in b.all && e !in b.timers && e.isEvent && !e.io && !e.finalizing && !e.timeout
    requires b.lists == [[], []] && |b.timers| == 2 && |b.queues| > 0 && b.timers[1] != b.timers[0]
    requires !b.timers[1].timeout && !b.timers[1].active && !b.timers[1].later
    modifies b, b.all
    ensures b.Valid() && Prone(b, e) && unchanged(b`all)
  {
    hide Base.Valid, Base.QueuesLeft, Base.PutAt;
    TimersKnown(b);
    var r;
    ghost var k, armed;
    r, k, armed := b.Add(e, Some(Tv(5, true, Some(0))), 0, true, 0);
    PutAlone(b, old(b.lists), e, k, 0);
  }

  lemma PutAlone(b: Base, left: seq<seq<Event>>, e: Event, k: nat, l: nat)
    requires b.PutAt(left, e, k) && e.common == Some(l) && l < |left| && left[l] == []
    ensures b.lists == left[l := [e]] && k == 0
  {
    assert left[l][..k] + [e] + left[l][k..] == [e];
  }

  // Other events are added until the array of the heap is full.
  method Crowd(b: Base, e: Event)
    requires b.Valid() && Prone(b, e)
    modifies b, b.all
    ensures b.Valid() && Prone(b, e) && |b.heap| == b.heapSpace
    ensures forall j :: 0 <= j < |b.all| ==> b.all[j] in old(b.all) || fresh(b.all[j])
  {
    hide Base.Valid, Prone;
    RoomKnown(b);
    while |b.heap| < b.heapSpace
      invariant b.Valid() && Prone(b, e) && |b.heap| <= b.heapSpace
      invariant forall j :: 0 <= j < |b.all| ==> b.all[j] in old(b.all) || fresh(b.all[j])
      decreases b.heapSpace - |b.heap|
    {
      AddAnother(b, e);
      RoomKnown(b);
    }
  }

  lemma RoomKnown(b: Base)
    requires b.Valid()
    ensures |b.heap| <= b.heapSpace
  {
  }

  method AddAnother(b: Base, e: Event)
    requires b.Valid() && Prone(b, e) && |b.heap| < b.heapSpace
    modifies b, b.all
    ensures b.Valid() && Prone(b, e) && b.heapSpace == old(b.heapSpace) && |b.heap| == |old(b.heap)| + 1
    ensures |b.all| == |old(b.all)| + 1 && b.all[..|old(b.all)|] == old(b.all) && fresh(b.all[|old(b.all)|])
  {
    hide Base.Valid, Base.QueuesLeft, Base.ListsLeft;
    TimersKnown(b);
    HeapKnown(b);
    var f := b.Assign(true, false, false, false);
    AddToHeap(b, f);
  }

  method AddToHeap(b: Base, f: Event)
    requires b.Valid() && f in b.all && f !in b.timers && f.isEvent && !f.io && !f.finalizing && !f.timeout && |b.heap| < b.heapSpace
    modifies b, f, b.timers
    ensures b.Valid() && b.heapSpace == old(b.heapSpace) && b.heap == old(b.heap) + {f} && f !in old(b.heap)
    ensures b.lists == old(b.lists) && unchanged(b`all, b`timers) && |b.queues| == |old(b.queues)|
    ensures forall l :: 0 <= l < |b.timers| ==> unchanged(b.timers[l])
  {
    hide Base.Valid, Base.QueuesLeft, Base.ListsLeft;
    TimersKnown(b);
    HeapKnown(b);
    var r;
    ghost var k, armed;
    r, k, armed := b.Add(f, Some(Tv(9, true, None)), 0, true, 0);
  }

  // Without memory event_add then returns 0 for the second list, but the timer of the list is not set: the event is
  // pending, and nothing will come for it.
  method LostInList() returns (b: Base, e: Event)
    ensures fresh(b) && b.Core() && !b.Valid() && e.timeout && |b.lists| == |b.timers| == 2 && b.lists[1] == [e]
    ensures !b.timers[1].timeout && !b.timers[1].active && !b.timers[1].later
  {
    hide Base.Valid, Prone;
    b, e := Setup();
    Crowd(b, e);
    LoseInList(b, e);
  }

  method LoseInList(b: Base, e: Event)
    requires b.Valid() && Prone(b, e) && |b.heap| == b.heapSpace
    modifies b, b.all
    ensures b.Core() && !b.Valid() && e.timeout && |b.lists| == |b.timers| == 2 && b.lists[1] == [e]
    ensures !b.timers[1].timeout && !b.timers[1].active && !b.timers[1].later
  {
    hide Base.Valid, Base.Core, Base.QueuesLeft, Base.PutAt, Base.ListsLeft, Base.Strands;
    TimersKnown(b);
    ghost var left := b.ListsLeft(b.lists, e, e.common);
    SecondStays(b, e);
    var r;
    ghost var k, armed;
    r, k, armed := b.Add(e, Some(Tv(7, true, Some(1))), 0, false, 0);
    PutAlone(b, left, e, k, 1);
  }

  lemma SecondStays(b: Base, e: Event)
    requires Prone(b, e) && |b.heap| == b.heapSpace
    ensures b.Strands(e, Some(1), false) && |b.ListsLeft(b.lists, e, e.common)| == 2 && b.ListsLeft(b.lists, e, e.common)[1] == []
  {
  }

  // The same for the heap: the event counts as pending and is in no heap and no list.
  method LostForHeap() returns (b: Base, e: Event)
    ensures fresh(b) && !b.Valid() && e.timeout && e.common.None? && e !in b.heap
  {
    hide Base.Valid, Prone;
    b, e := Setup();
    Crowd(b, e);
    LoseForHeap(b, e);
  }

  method LoseForHeap(b: Base, e: Event)
    requires b.Valid() && Prone(b, e) && |b.heap| == b.heapSpace
    modifies b, b.all
    ensures !b.Valid() && e.timeout && e.common.None? && e !in b.heap
  {
    hide Base.Valid, Base.Core, Base.QueuesLeft, Base.PutAt;
    TimersKnown(b);
    var r;
    ghost var k, armed;
    r, k, armed := b.Add(e, Some(Tv(7, true, None)), 0, false, 0);
  }
}
