/** The queues of an event base (event.c): flags, counters, active and later queues, timeouts and common timeouts. */
module EventBase {

  datatype Option<T> = None | Some(value: T)

  const MAX_DEFERREDS_QUEUED: nat := 32
  const MAX_COMMON_TIMEOUTS: nat := 256

  // Why an event is active (ev_res)
  datatype Res = Timeout | Read | Write | Signal | Finalize

  // struct event, and struct event_callback for what is no event. The constant fields are fixed when it is assigned:
  // EVLIST_INTERNAL, EVLIST_INIT, whether it watches a file or a signal, EV_PERSIST, and EV_CLOSURE_CB_SELF.
  class Event {
    const internal: bool
    const isEvent: bool
    const io: bool
    const persist: bool
    const selfCb: bool
    var pri: nat
    // EVLIST_TIMEOUT, EVLIST_INSERTED, EVLIST_ACTIVE, EVLIST_ACTIVE_LATER, EVLIST_FINALIZING
    var timeout: bool
    var inserted: bool
    var active: bool
    var later: bool
    var finalizing: bool
    var res: set<Res>
    // ev_timeout: the deadline, and the common timeout queue that its magic bits name
    var deadline: int
    var common: Option<nat>

    constructor (internal: bool, isEvent: bool, io: bool, persist: bool, selfCb: bool, pri: nat)
      ensures this.internal == internal && this.isEvent == isEvent && this.io == io && this.persist == persist
      ensures this.selfCb == selfCb && this.pri == pri && common == None
      ensures !timeout && !inserted && !active && !later && !finalizing && res == {}
    {
      this.internal, this.isEvent, this.io, this.persist, this.selfCb, this.pri := internal, isEvent, io, persist, selfCb, pri;
      timeout, inserted, active, later, finalizing := false, false, false, false, false;
      res, deadline, common := {}, 0, None;
    }

    // How often the event counts: once for everything it is waiting for, unless it is internal.
    ghost function Weight(): (w: nat)
      reads `timeout, `inserted, `active, `later
    {
      if internal then 0
      else (if timeout then 1 else 0) + (if inserted then 1 else 0) + (if active then 1 else 0) + (if later then 1 else 0)
    }
  }

  // The timeout of an event has just fired: it is active for this reason, and waits for nothing any more.
  ghost predicate FiredNow(e: Event)
    reads e
  {
    e.active && !e.later && Timeout in e.res && !e.timeout && !e.inserted
  }

  ghost predicate NoDup(es: seq<Event>)
  {
    forall i, j :: 0 <= i < j < |es| ==> es[i] != es[j]
  }

  ghost function Total(es: seq<Event>): nat
    reads es`timeout, es`inserted, es`active, es`later
  {
    if es == [] then 0 else es[0].Weight() + Total(es[1..])
  }

  // One event changes its flags.
  twostate lemma TotalChange(new es: seq<Event>, new e: Event)
    requires old(allocated(es)) && old(allocated(e)) && NoDup(es) && e in es
    requires forall o :: o in es && o != e ==> o.Weight() == old(o.Weight())
    ensures Total(es) == old(Total(es)) + e.Weight() - old(e.Weight())
    decreases |es|
  {
    if es[0] == e {
      assert e !in es[1..];
      TotalSame(es[1..]);
    } else {
      assert e in es[1..];
      TotalChange(es[1..], e);
    }
  }

  twostate lemma TotalSame(new es: seq<Event>)
    requires old(allocated(es)) && forall o :: o in es ==> o.Weight() == old(o.Weight())
    ensures Total(es) == old(Total(es))
  {
    if es != [] {
      TotalSame(es[1..]);
    }
  }

  lemma {:induction false} NewTotal(es: seq<Event>, e: Event)
    requires e.Weight() == 0
    ensures Total(es + [e]) == Total(es)
  {
    if es == [] {
      assert es + [e] == [e];
      assert Total([e]) == e.Weight() + Total([]);
    } else {
      NewTotal(es[1..], e);
      assert (es + [e])[1..] == es[1..] + [e];
    }
  }

  ghost function Lengths(qs: seq<seq<Event>>): nat
  {
    if qs == [] then 0 else |qs[0]| + Lengths(qs[1..])
  }

  lemma {:induction false} LengthsUpdate(qs: seq<seq<Event>>, p: nat, q: seq<Event>)
    requires p < |qs|
    ensures Lengths(qs[p := q]) == Lengths(qs) - |qs[p]| + |q|
  {
    if p == 0 {
      assert qs[0 := q][1..] == qs[1..];
    } else {
      LengthsUpdate(qs[1..], p - 1, q);
      assert qs[p := q][1..] == qs[1..][p - 1 := q];
    }
  }

  // TAILQ_REMOVE
  function Without(es: seq<Event>, e: Event): (r: seq<Event>)
    requires e in es
    ensures |r| == |es| - 1
    decreases |es|
  {
    if es[0] == e then es[1..] else [es[0]] + Without(es[1..], e)
  }

  lemma {:induction false} WithoutFacts(es: seq<Event>, e: Event)
    requires e in es && NoDup(es)
    ensures NoDup(Without(es, e)) && e !in Without(es, e)
    ensures forall o :: o in Without(es, e) <==> o in es && o != e
    decreases |es|
  {
    var r := Without(es, e);
    if es[0] == e {
      assert e !in es[1..];
      forall o | o in es && o != e ensures o in r {
        var i :| 0 <= i < |es| && es[i] == o;
        assert es[1..][i - 1] == o;
      }
    } else {
      WithoutFacts(es[1..], e);
      assert r == [es[0]] + Without(es[1..], e);
      assert es[0] !in es[1..];
    }
  }

  lemma SnocFacts(es: seq<Event>, e: Event)
    requires NoDup(es) && e !in es
    ensures NoDup(es + [e]) && forall o :: o in es + [e] <==> o in es || o == e
  {
  }

  // A time to wait for, or a point in time; and the common timeout queue that its magic bits name
  datatype Tv = Tv(time: int, absolute: bool, common: Option<nat>)

  // A struct timeval without the magic bits
  datatype Duration = Duration(sec: int, usec: nat)

  function Normal(d: Duration): Duration
  {
    if d.usec > 1000000 then Duration(d.sec + d.usec / 1000000, d.usec % 1000000) else d
  }

  // Equal durations get the same list, unless one of them, and only one, is written with a million microseconds: the code
  // normalizes what is above a million, not a million itself.
  lemma NormalExact(d: Duration, e: Duration)
    ensures Normal(d) == Normal(e) <==>
      && d.sec * 1000000 + d.usec == e.sec * 1000000 + e.usec
      && (d.usec == 1000000 <==> e.usec == 1000000)
  {
  }

  lemma TwoLists()
    ensures Normal(Duration(1, 1000000)) != Normal(Duration(2, 0)) && Normal(Duration(1, 2000000)) == Normal(Duration(3, 0))
  {
  }

  // struct event_base
  class Base {
    var queues: seq<seq<Event>>
    var laterQueue: seq<Event>
    // the events of the heap, and the length of the array it lies in
    var heap: set<Event>
    var heapSpace: nat
    var lists: seq<seq<Event>>
    var timers: seq<Event>
    var durations: seq<Duration>
    var eventCount: int
    var eventCountActive: int
    var eventContinue: bool
    var runningPriority: int
    var deferredsQueued: int
    ghost var all: seq<Event>

    constructor (nQueues: nat)
      requires nQueues > 0
      ensures Valid() && lists == [] && all == [] && |queues| == nQueues && timers == [] && heap == {} && heapSpace == 0
      ensures (forall p :: 0 <= p < nQueues ==> queues[p] == []) && laterQueue == [] && durations == []
    {
      heapSpace := 0;
      queues, laterQueue, heap, lists, timers, durations := seq(nQueues, _ => []), [], {}, [], [], [];
      eventCount, eventCountActive, eventContinue, runningPriority, deferredsQueued := 0, 0, false, -1, 0;
      all := [];
      new;
      NoLengths(queues);
    }

    // Every active event is in the queue of its own priority, once, and nothing else is.
    ghost predicate QueuesOk()
      reads `queues, `all, all`active, all`pri
    {
      && (forall p, i :: 0 <= p < |queues| && 0 <= i < |queues[p]| ==>
            queues[p][i] in all && queues[p][i].active && queues[p][i].pri == p)
      && (forall p :: 0 <= p < |queues| ==> NoDup(queues[p]))
      && (forall e :: e in all && e.active ==> e.pri < |queues| && e in queues[e.pri])
    }

    ghost predicate LaterOk()
      reads `laterQueue, `all, all`later
    {
      && (forall i :: 0 <= i < |laterQueue| ==> laterQueue[i] in all && laterQueue[i].later)
      && NoDup(laterQueue)
      && (forall e :: e in all && e.later ==> e in laterQueue)
    }

    // The heap holds the pending timeouts that are not common ones.
    ghost predicate HeapOk()
      reads `heap, `heapSpace, `all, all`timeout, all`common
    {
      && |heap| <= heapSpace
      && (forall e :: e in heap ==> e in all && e.timeout && e.common.None?)
      && (forall e :: e in all && e.timeout && e.common.None? ==> e in heap)
    }

    // Every other pending timeout is in the list that it names, and the lists are sorted by deadline.
    ghost predicate ListsOk()
      reads `lists, `all, all`timeout, all`common, all`deadline
    {
      && (forall l, i :: 0 <= l < |lists| && 0 <= i < |lists[l]| ==>
            lists[l][i] in all && lists[l][i].timeout && lists[l][i].common == Some(l))
      && (forall l :: 0 <= l < |lists| ==> NoDup(lists[l]) && Sorted(lists[l]))
      && (forall e :: e in all && e.timeout && e.common.Some? ==> e.common.value < |lists| && e in lists[e.common.value])
    }

    // Nothing is both active and active later, and what is being finalized waits for nothing.
    ghost predicate FlagsOk()
      reads `queues, `all, all`timeout, all`inserted, all`active, all`later, all`finalizing, all`pri
    {
      && NoDup(all)
      && (forall e :: e in all ==>
            && !(e.active && e.later) && (e.finalizing ==> !e.timeout && !e.inserted) && e.pri < |queues|
            && (!e.isEvent ==> !e.timeout && !e.inserted))
    }

    ghost predicate CountOk()
      reads `queues, `laterQueue, `eventCount, `eventCountActive, `all
      reads all`timeout, all`inserted, all`active, all`later
    {
      eventCount == Total(all) && eventCountActive == Lengths(queues) + |laterQueue|
    }

    // Each common timeout has a timer of its own, an internal event that is in no common list.
    ghost predicate TimersOk()
      reads `lists, `timers, `all, all`finalizing, all`common
    {
      && |timers| == |lists| && NoDup(timers)
      && (forall l :: 0 <= l < |timers| ==>
            var t := timers[l];
            t in all && t.internal && t.isEvent && !t.io && !t.persist && !t.finalizing && t.common.None?)
    }

    // event_base_assert_ok_nolock_
    ghost predicate Core()
      reads this, all
    {
      QueuesOk() && LaterOk() && HeapOk() && ListsOk() && FlagsOk() && CountOk() && TimersOk()
    }

    // No common timeout is lost: if there is one, the timer of its list is pending no later than the first deadline,
    // or has gone off and waits for its turn.
    ghost predicate Scheduled(l: nat)
      requires l < |lists| == |timers|
      reads `lists, `timers, timers`timeout, timers`active, timers`later, timers`deadline, lists[l]`deadline
    {
      lists[l] != [] ==>
        var t := timers[l];
        t.active || t.later || (t.timeout && t.deadline <= lists[l][0].deadline)
    }

    ghost predicate Valid()
      reads this, all, timers, set l, e | 0 <= l < |lists| && e in lists[l] :: e
    {
      Core() && DurationsOk() && forall l :: 0 <= l < |lists| ==> Scheduled(l)
    }

    // Every common timeout has a duration of its own.
    ghost predicate DurationsOk()
      reads `durations, `timers
    {
      |durations| == |timers| && forall i, j :: 0 <= i < j < |durations| ==> durations[i] != durations[j]
    }

    // -- What one change of flags does to each part of the invariant --

    lemma Facts(e: Event)
      requires Core() && e in all
      ensures e.pri < |queues| && !(e.active && e.later) && (e.finalizing ==> !e.timeout && !e.inserted)
      ensures NoDup(all) && NoDup(queues[e.pri]) && NoDup(laterQueue)
      ensures (e.active <==> e in queues[e.pri]) && (e.later <==> e in laterQueue)
      ensures e.timeout && e.common.Some? ==>
        && e.common.value < |lists| && e in lists[e.common.value] && NoDup(lists[e.common.value]) && Sorted(lists[e.common.value])
      ensures !e.isEvent ==> !e.timeout && !e.inserted
    {
    }

    // Only the flags of e have changed.
    twostate predicate OnlyFlags(new e: Event)
      reads `all, all`timeout, all`inserted, all`active, all`later
    {
      && all == old(all) && old(allocated(e))
      && forall o :: o in all && o != e ==>
           o.timeout == old(o.timeout) && o.inserted == old(o.inserted) && o.active == old(o.active) && o.later == old(o.later)
    }

    twostate lemma QueuesPut(new e: Event)
      requires old(allocated(e)) && OnlyFlags(e) && old(QueuesOk()) && e in all && e.active && !old(e.active)
      requires (forall o :: o in all ==> o.pri == old(o.pri)) && e.pri < |old(queues)|
      requires queues == old(queues)[e.pri := old(queues[e.pri]) + [e]]
      ensures QueuesOk()
    {
      SnocFacts(old(queues)[e.pri], e);
      forall p | 0 <= p < |queues| ensures NoDup(queues[p]) {
        assert p != e.pri ==> queues[p] == old(queues[p]);
      }
    }

    twostate lemma QueuesDrop(new e: Event)
      requires old(allocated(e)) && OnlyFlags(e) && old(QueuesOk()) && e in all && !e.active && old(e.active)
      requires (forall o :: o in all ==> o.pri == old(o.pri)) && e.pri < |old(queues)| && e in old(queues)[e.pri]
      requires queues == old(queues)[e.pri := Without(old(queues[e.pri]), e)]
      ensures QueuesOk()
    {
      WithoutFacts(old(queues)[e.pri], e);
      forall p, i | 0 <= p < |queues| && 0 <= i < |queues[p]|
        ensures queues[p][i] in all && queues[p][i].active && queues[p][i].pri == p
      {
        assert queues[p][i] in queues[p];
        if p == e.pri {
          assert queues[p][i] in old(queues)[p] && queues[p][i] != e;
        } else {
          assert queues[p] == old(queues[p]) && queues[p][i] != e;
        }
      }
    }

    twostate lemma LaterPut(new e: Event)
      requires old(allocated(e)) && OnlyFlags(e) && old(LaterOk()) && e in all && e.later && !old(e.later)
      requires laterQueue == old(laterQueue) + [e]
      ensures LaterOk()
    {
      SnocFacts(old(laterQueue), e);
    }

    twostate lemma LaterDrop(new e: Event)
      requires old(allocated(e)) && OnlyFlags(e) && old(LaterOk()) && e in all && !e.later && old(e.later)
      requires e in old(laterQueue) && laterQueue == Without(old(laterQueue), e)
      ensures LaterOk()
    {
      WithoutFacts(old(laterQueue), e);
      forall i | 0 <= i < |laterQueue| ensures laterQueue[i] in all && laterQueue[i].later {
        assert laterQueue[i] in laterQueue;
      }
    }

    twostate lemma ListsDrop(new e: Event, new l: nat)
      requires old(allocated(e)) && OnlyFlags(e) && old(ListsOk()) && e in all && !e.timeout && old(e.timeout)
      requires (forall o :: o in all ==> o.common == old(o.common) && o.deadline == old(o.deadline))
      requires e.common == Some(l) && l < |old(lists)| && e in old(lists)[l]
      requires lists == old(lists)[l := Without(old(lists[l]), e)]
      ensures ListsOk()
    {
      var was := old(lists)[l];
      WithoutFacts(was, e);
      assert Sorted(was) by {
        assert old(Sorted(was));
      }
      WithoutSorted(was, e);
      forall k, i | 0 <= k < |lists| && 0 <= i < |lists[k]|
        ensures lists[k][i] in all && lists[k][i].timeout && lists[k][i].common == Some(k)
      {
        assert lists[k][i] in lists[k];
        if k == l {
          assert lists[k][i] in was && lists[k][i] != e;
        } else {
          assert lists[k] == old(lists[k]) && lists[k][i] != e;
        }
      }
      forall k | 0 <= k < |lists| ensures NoDup(lists[k]) && Sorted(lists[k]) {
        if k != l {
          assert lists[k] == old(lists[k]);
        }
      }
    }

    twostate lemma FlagsKept(new e: Event)
      requires old(allocated(e)) && OnlyFlags(e) && old(FlagsOk()) && e in all && |queues| == |old(queues)|
      requires (forall o :: o in all ==> o.pri == old(o.pri) && o.finalizing == old(o.finalizing))
      requires !(e.active && e.later) && (e.finalizing || !e.isEvent ==> !e.timeout && !e.inserted)
      ensures FlagsOk()
    {
    }

    twostate lemma Counted(new e: Event)
      requires old(allocated(e)) && OnlyFlags(e) && old(FlagsOk()) && old(CountOk()) && e in all
      requires eventCount == old(eventCount) + e.Weight() - old(e.Weight())
      requires eventCountActive - Lengths(queues) - |laterQueue| == old(eventCountActive) - old(Lengths(queues)) - |old(laterQueue)|
      ensures CountOk()
    {
      TotalChange(all, e);
    }

    // -- Queue primitives --

    // event_queue_insert_active
    method InsertActive(e: Event)
      requires Core() && e in all && (!e.later || e.active)
      modifies `queues, `eventCount, `eventCountActive, e`active
      ensures Core() && e.active
      ensures queues == if old(e.active) then old(queues) else old(queues)[e.pri := old(queues[e.pri]) + [e]]
    {
      hide DurationsOk, Total, Lengths, NoDup, QueuesOk, LaterOk, HeapOk, ListsOk, FlagsOk, CountOk, TimersOk;
      if e.active {
        return;
      }
      Facts(e);
      LengthsUpdate(queues, e.pri, queues[e.pri] + [e]);
      eventCount := eventCount + if e.internal then 0 else 1;
      e.active := true;
      eventCountActive := eventCountActive + 1;
      queues := queues[e.pri := queues[e.pri] + [e]];
      QueuesPut(e);
      FlagsKept(e);
      Counted(e);
    }

    // event_queue_remove_active
    method RemoveActive(e: Event)
      requires Core() && e in all && e.active
      modifies `queues, `eventCount, `eventCountActive, e`active
      ensures Core() && !e.active && |queues| == |old(queues)|
      ensures e.pri < |queues| && e in old(queues[e.pri])
      ensures queues == old(queues)[e.pri := Without(old(queues[e.pri]), e)]
    {
      hide DurationsOk, Total, Lengths, NoDup, QueuesOk, LaterOk, HeapOk, ListsOk, FlagsOk, CountOk, TimersOk;
      Facts(e);
      LengthsUpdate(queues, e.pri, Without(queues[e.pri], e));
      eventCount := eventCount - if e.internal then 0 else 1;
      e.active := false;
      eventCountActive := eventCountActive - 1;
      queues := queues[e.pri := Without(queues[e.pri], e)];
      QueuesDrop(e);
      FlagsKept(e);
      Counted(e);
    }

    // event_queue_insert_active_later
    method InsertLater(e: Event)
      requires Core() && e in all
      modifies `laterQueue, `eventCount, `eventCountActive, e`later
      ensures Core() && (e.later || e.active)
      ensures laterQueue == old(laterQueue) + if old(e.later || e.active) then [] else [e]
    {
      hide DurationsOk, Total, Lengths, NoDup, QueuesOk, LaterOk, HeapOk, ListsOk, FlagsOk, CountOk, TimersOk;
      if e.later || e.active {
        return;
      }
      Facts(e);
      eventCount := eventCount + if e.internal then 0 else 1;
      e.later := true;
      eventCountActive := eventCountActive + 1;
      laterQueue := laterQueue + [e];
      LaterPut(e);
      FlagsKept(e);
      Counted(e);
    }

    // event_queue_remove_active_later
    method RemoveLater(e: Event)
      requires Core() && e in all && e.later
      modifies `laterQueue, `eventCount, `eventCountActive, e`later
      ensures Core() && !e.later && e in old(laterQueue) && laterQueue == Without(old(laterQueue), e)
    {
      hide DurationsOk, Total, Lengths, NoDup, QueuesOk, LaterOk, HeapOk, ListsOk, FlagsOk, CountOk, TimersOk;
      Facts(e);
      eventCount := eventCount - if e.internal then 0 else 1;
      e.later := false;
      eventCountActive := eventCountActive - 1;
      laterQueue := Without(laterQueue, e);
      LaterDrop(e);
      FlagsKept(e);
      Counted(e);
    }

    // event_queue_insert_inserted
    method InsertInserted(e: Event)
      requires Core() && e in all && e.isEvent && !e.inserted && !e.finalizing
      modifies `eventCount, e`inserted
      ensures Core() && e.inserted
    {
      hide DurationsOk, Total, Lengths, NoDup, QueuesOk, LaterOk, HeapOk, ListsOk, FlagsOk, CountOk, TimersOk;
      Facts(e);
      eventCount := eventCount + if e.internal then 0 else 1;
      e.inserted := true;
      FlagsKept(e);
      Counted(e);
    }

    // event_queue_remove_inserted
    method RemoveInserted(e: Event)
      requires Core() && e in all && e.inserted
      modifies `eventCount, e`inserted
      ensures Core() && !e.inserted
    {
      hide DurationsOk, Total, Lengths, NoDup, QueuesOk, LaterOk, HeapOk, ListsOk, FlagsOk, CountOk, TimersOk;
      Facts(e);
      eventCount := eventCount - if e.internal then 0 else 1;
      e.inserted := false;
      FlagsKept(e);
      Counted(e);
    }

    // Of all flags only whether e waits for a timeout has changed, and its timeout with it; the counter follows.
    twostate predicate TimeoutChanged(new e: Event)
      requires old(allocated(e))
      reads `all, `queues, `laterQueue, `timers, `eventCount, `eventCountActive, all, e
    {
      && e in all && OnlyFlags(e) && e.timeout != old(e.timeout)
      && e.inserted == old(e.inserted) && e.active == old(e.active) && e.later == old(e.later)
      && (forall o :: o in all ==>
            && o.pri == old(o.pri) && o.finalizing == old(o.finalizing)
            && (o != e || !e.timeout ==> o.common == old(o.common) && o.deadline == old(o.deadline)))
      && queues == old(queues) && laterQueue == old(laterQueue) && timers == old(timers)
      && eventCountActive == old(eventCountActive) && eventCount == old(eventCount) + e.Weight() - old(e.Weight())
    }

    // Then the heap and the lists are all there is to look at.
    twostate lemma TimeoutRest(new e: Event)
      requires old(allocated(e)) && old(Core()) && TimeoutChanged(e) && HeapOk() && ListsOk() && |lists| == |old(lists)|
      requires e.timeout ==> e.isEvent && !e.finalizing && (e in timers ==> e.common.None?)
      ensures Core()
    {
      hide DurationsOk, Total, Lengths, NoDup, QueuesOk, LaterOk, HeapOk, ListsOk, FlagsOk, CountOk, TimersOk;
      QueuesSame(e);
      TimersKept(e);
      RestFlags(e);
      Counted(e);
    }

    twostate lemma RestFlags(new e: Event)
      requires old(allocated(e)) && old(FlagsOk()) && TimeoutChanged(e)
      requires e.timeout ==> e.isEvent && !e.finalizing
      ensures FlagsOk()
    {
    }

    twostate lemma TimersKept(new e: Event)
      requires old(allocated(e)) && old(TimersOk()) && TimeoutChanged(e) && (e.timeout && e in timers ==> e.common.None?)
      requires |lists| == |old(lists)|
      ensures TimersOk()
    {
    }

    // event_queue_remove_timeout
    method RemoveTimeout(e: Event)
      requires Core() && e in all && e.timeout
      modifies `heap, `lists, `eventCount, e`timeout
      ensures Core() && !e.timeout && |lists| == |old(lists)|
      ensures e.common.None? ==> heap == old(heap) - {e} && lists == old(lists)
      ensures e.common.Some? ==>
        && heap == old(heap) && e.common.value < |lists| && e in old(lists[e.common.value])
        && lists == old(lists)[e.common.value := Without(old(lists[e.common.value]), e)]
    {
      hide DurationsOk, Total, Lengths, NoDup, QueuesOk, LaterOk, HeapOk, ListsOk, FlagsOk, CountOk, TimersOk, OnlyFlags;
      Facts(e);
      ClearTimeout(e);
      if e.common.Some? {
        var l := e.common.value;
        lists := lists[l := Without(lists[l], e)];
        ListsDrop(e, l);
        HeapOther(e);
      } else {
        heap := heap - {e};
        HeapDrop(e);
        ListsOther(e);
      }
      TimeoutRest(e);
    }

    method ClearTimeout(e: Event)
      requires e.timeout && e in all
      modifies `eventCount, e`timeout
      ensures TimeoutChanged(e)
    {
      eventCount := eventCount - if e.internal then 0 else 1;
      e.timeout := false;
    }

    twostate lemma HeapDrop(new e: Event)
      requires old(allocated(e)) && OnlyFlags(e) && old(HeapOk()) && !e.timeout && heap == old(heap) - {e}
      requires heapSpace == old(heapSpace)
      requires forall o :: o in all ==> o.common == old(o.common)
      ensures HeapOk()
    {
    }

    // A change that is not about the heap, or not about the lists.
    twostate lemma HeapOther(new e: Event)
      requires old(allocated(e)) && OnlyFlags(e) && old(HeapOk()) && e.common.Some? && heap == old(heap)
      requires heapSpace == old(heapSpace)
      requires forall o :: o in all ==> o.common == old(o.common)
      ensures HeapOk()
    {
    }

    twostate lemma ListsOther(new e: Event)
      requires old(allocated(e)) && OnlyFlags(e) && old(ListsOk()) && e.common.None? && lists == old(lists)
      requires forall o :: o in all ==> o.common == old(o.common) && o.deadline == old(o.deadline)
      ensures ListsOk()
    {
      forall l | 0 <= l < |lists| ensures Sorted(lists[l]) {
        assert old(Sorted(lists[l]));
        assert forall i :: 0 <= i < |lists[l]| ==> lists[l][i] in all;
      }
    }

    // Where insert_common_timeout_inorder puts an event: behind the last one that is not due later.
    ghost predicate Position(es: seq<Event>, deadline: int, k: nat)
      reads es`deadline
    {
      && k <= |es| && (k > 0 ==> es[k - 1].deadline <= deadline) && (forall i :: k <= i < |es| ==> deadline < es[i].deadline)
    }

    // insert_common_timeout_inorder: the position is searched for from the end.
    method FindPosition(es: seq<Event>, deadline: int) returns (k: nat)
      ensures Position(es, deadline, k)
    {
      k := |es|;
      while k > 0
        invariant k <= |es| && forall i :: k <= i < |es| ==> deadline < es[i].deadline
      {
        if deadline >= es[k - 1].deadline {
          return;
        }
        k := k - 1;
      }
    }

    // event_queue_insert_timeout with a deadline that names a common timeout list
    method InsertCommon(e: Event, deadline: int, l: nat) returns (k: nat)
      requires Core() && e in all && e.isEvent && !e.finalizing && !e.timeout && l < |lists| && e !in timers
      modifies `lists, `eventCount, e`timeout, e`deadline, e`common
      ensures Core() && e.timeout && e.deadline == deadline && e.common == Some(l) && |lists| == |old(lists)|
      ensures old(Position(lists[l], deadline, k))
      ensures lists == old(lists)[l := old(lists[l])[..k] + [e] + old(lists[l])[k..]]
    {
      hide DurationsOk, Total, Lengths, NoDup, QueuesOk, LaterOk, HeapOk, ListsOk, FlagsOk, CountOk, TimersOk, Position;
      NotWaiting(e);
      k := FindPosition(lists[l], deadline);
      label found:
      MarkTimeout(e, deadline, Some(l));
      lists := lists[l := lists[l][..k] + [e] + lists[l][k..]];
      ListsPut@found(e, deadline, l, k);
      HeapSame@found(e);
      TimeoutRest@found(e);
    }

    // The flag, the counter and ev_timeout
    method MarkTimeout(e: Event, deadline: int, common: Option<nat>)
      requires !e.timeout && e in all
      modifies `eventCount, e`timeout, e`deadline, e`common
      ensures TimeoutChanged(e) && e.timeout && e.deadline == deadline && e.common == common
    {
      eventCount := eventCount + if e.internal then 0 else 1;
      e.deadline, e.common := deadline, common;
      e.timeout := true;
    }

    // min_heap_reserve_: room for n events, if there is memory for a larger array.
    method Reserve(n: nat, memoryLeft: bool) returns (ok: bool)
      modifies `heapSpace
      ensures ok == (n <= old(heapSpace) || memoryLeft) && old(heapSpace) <= heapSpace
      ensures if ok then n <= heapSpace else heapSpace == old(heapSpace)
      ensures n <= old(heapSpace) ==> heapSpace == old(heapSpace)
      ensures old(HeapOk()) ==> HeapOk()
      ensures old(Core()) ==> Core()
    {
      hide DurationsOk, Total, Lengths, NoDup, QueuesOk, LaterOk, ListsOk, FlagsOk, CountOk, TimersOk;
      if heapSpace < n {
        if !memoryLeft {
          return false;
        }
        var a := if heapSpace > 0 then heapSpace * 2 else 8;
        heapSpace := if a < n then n else a;
      }
      return true;
    }

    // event_queue_insert_timeout with any other deadline
    // What min_heap_push_ returns is ignored: without room the event counts as pending, but it is nowhere.
    method InsertHeap(e: Event, deadline: int, memoryLeft: bool) returns (ghost ok: bool)
      requires Core() && e in all && e.isEvent && !e.finalizing && !e.timeout
      modifies `heap, `heapSpace, `eventCount, e`timeout, e`deadline, e`common
      ensures ok == (|old(heap)| < old(heapSpace) || memoryLeft)
      ensures e.timeout && e.deadline == deadline && e.common == None
      ensures if ok then Core() && heap == old(heap) + {e} else !HeapOk() && heap == old(heap)
      ensures |old(heap)| < old(heapSpace) ==> heapSpace == old(heapSpace)
    {
      hide DurationsOk, Total, Lengths, NoDup, QueuesOk, LaterOk, HeapOk, ListsOk, FlagsOk, CountOk, TimersOk, OnlyFlags;
      NotWaiting(e);
      MarkTimeout(e, deadline, None);
      var room := Reserve(|heap| + 1, memoryLeft);
      ok := room;
      if room {
        heap := heap + {e};
        HeapPut(e);
        ListsSame(e);
        TimeoutRest(e);
      } else {
        NowhereToBe(e);
      }
    }

    lemma NowhereToBe(e: Event)
      requires e in all && e.timeout && e.common.None? && e !in heap
      ensures !HeapOk()
    {
    }

    // An event is in the heap exactly if it waits for a timeout that is not a common one.
    lemma InHeap(e: Event)
      requires Core() && e in all
      ensures e in heap <==> e.timeout && e.common.None?
      ensures |heap| <= heapSpace
    {
    }

    lemma NotWaiting(e: Event)
      requires Core() && e in all && !e.timeout
      ensures e !in heap && forall l :: 0 <= l < |lists| ==> e !in lists[l]
    {
    }

    twostate lemma ListsPut(new e: Event, new deadline: int, new l: nat, new k: nat)
      requires old(allocated(e)) && OnlyFlags(e) && old(ListsOk()) && e in all && e.timeout && !old(e.timeout)
      requires forall o :: o in all && o != e ==> o.common == old(o.common) && o.deadline == old(o.deadline)
      requires e.common == Some(l) && e.deadline == deadline && l < |old(lists)| && e !in old(lists)[l]
      requires old(Position(lists[l], deadline, k))
      requires lists == old(lists)[l := old(lists[l])[..k] + [e] + old(lists[l])[k..]]
      ensures ListsOk()
    {
      var was := old(lists)[l];
      var after := was[..k] + [e] + was[k..];
      assert old(Sorted(was)) && NoDup(was);
      assert forall i :: 0 <= i < |was| ==> was[i] in all && was[i] != e && was[i].deadline == old(was[i].deadline);
      InsertedSorted(was, e, k);
      forall m, i | 0 <= m < |lists| && 0 <= i < |lists[m]|
        ensures lists[m][i] in all && lists[m][i].timeout && lists[m][i].common == Some(m)
      {
        if m == l {
          assert lists[m][i] in after;
          assert lists[m][i] == e || lists[m][i] in was;
        } else {
          assert lists[m] == old(lists[m]) && lists[m][i] != e;
        }
      }
      forall m | 0 <= m < |lists| ensures NoDup(lists[m]) && Sorted(lists[m]) {
        if m != l {
          assert lists[m] == old(lists[m]) && old(Sorted(lists[m]));
          assert forall i :: 0 <= i < |lists[m]| ==> lists[m][i] in all && lists[m][i] != e;
        }
      }
      forall o | o in all && o.timeout && o.common.Some? ensures o.common.value < |lists| && o in lists[o.common.value] {
        if o == e {
          assert after[k] == e;
        } else if o.common.value == l {
          assert o in was;
        }
      }
    }

    twostate lemma QueuesSame(new e: Event)
      requires old(allocated(e)) && OnlyFlags(e) && old(QueuesOk()) && old(LaterOk()) && unchanged(`queues, `laterQueue)
      requires e.active == old(e.active) && e.later == old(e.later) && forall o :: o in all ==> o.pri == old(o.pri)
      ensures QueuesOk() && LaterOk()
    {
      forall p, i | 0 <= p < |queues| && 0 <= i < |queues[p]| ensures queues[p][i].active && queues[p][i].pri == p {
        assert queues[p][i] in all;
      }
    }

    twostate lemma HeapPut(new e: Event)
      requires old(allocated(e)) && OnlyFlags(e) && old(HeapOk()) && e in all && e.timeout && e.common.None?
      requires heap == old(heap) + {e} && |heap| <= heapSpace && forall o :: o in all && o != e ==> o.common == old(o.common)
      ensures HeapOk()
    {
    }

    twostate lemma HeapSame(new e: Event)
      requires old(allocated(e)) && OnlyFlags(e) && old(HeapOk()) && e in all && !old(e.timeout) && e.common.Some?
      requires heap == old(heap) && heapSpace == old(heapSpace)
      requires forall o :: o in all && o != e ==> o.common == old(o.common)
      ensures HeapOk()
    {
    }

    twostate lemma ListsSame(new e: Event)
      requires old(allocated(e)) && OnlyFlags(e) && old(ListsOk()) && e in all && !old(e.timeout) && e.common.None?
      requires lists == old(lists)
      requires forall o :: o in all && o != e ==> o.common == old(o.common) && o.deadline == old(o.deadline)
      ensures ListsOk()
    {
      forall l | 0 <= l < |lists| ensures Sorted(lists[l]) {
        assert old(Sorted(lists[l]));
        assert forall i :: 0 <= i < |lists[l]| ==> lists[l][i] in all && lists[l][i] != e;
      }
    }

    // -- The timers of the common timeouts --

    // Taking an event out of a list does not bring its first deadline forward.
    twostate lemma ScheduledAfterDrop(new e: Event)
      requires old(allocated(e)) && old(Core()) && e in old(all) && old(e.timeout) && all == old(all)
      requires timers == old(timers)
      requires forall o :: o in all && o != e ==> unchanged(o)
      requires lists == if e.common.None? then old(lists)
        else if e.common.value < |old(lists)| && e in old(lists)[e.common.value]
          then old(lists)[e.common.value := Without(old(lists[e.common.value]), e)] else []
      requires e.common == old(e.common) && e.deadline == old(e.deadline)
      ensures |lists| == |old(lists)|
      ensures forall l :: 0 <= l < |lists| && timers[l] != e && old(Scheduled(l)) ==> Scheduled(l)
    {
      forall l | 0 <= l < |lists| && timers[l] != e && old(Scheduled(l)) ensures Scheduled(l) {
        var was := old(lists)[l];
        assert old(Sorted(was));
        assert forall i :: 0 <= i < |was| ==> was[i] in all && was[i].deadline == old(was[i].deadline);
        assert timers[l] in all;
        if e.common == Some(l) {
          WithoutSorted(was, e);
        }
      }
    }

    // Putting an event into a list behind the first one does not either.
    twostate lemma ScheduledAfterPut(new e: Event, new common: Option<nat>, new k: nat)
      requires old(allocated(e)) && old(Core()) && e in old(all) && !old(e.timeout) && all == old(all)
      requires timers == old(timers)
      requires forall o :: o in all && o != e ==> unchanged(o)
      requires common.Some? ==> common.value < |old(lists)| && k <= |old(lists[common.value])|
      requires lists == if common.None? then old(lists)
        else old(lists)[common.value := old(lists[common.value])[..k] + [e] + old(lists[common.value])[k..]]
      ensures |lists| == |old(lists)|
      ensures forall l :: 0 <= l < |lists| && timers[l] != e && old(Scheduled(l)) && (common == Some(l) ==> k > 0) ==> Scheduled(l)
    {
      forall l | 0 <= l < |lists| && timers[l] != e && old(Scheduled(l)) && (common == Some(l) ==> k > 0) ensures Scheduled(l) {
        var was := old(lists)[l];
        assert forall i :: 0 <= i < |was| ==> was[i] in all && was[i] != e;
        assert timers[l] in all;
      }
    }

    method DropTimeout(e: Event)
      requires Core() && e in all && e.timeout
      modifies `heap, `lists, `eventCount, e`timeout
      ensures Core() && !e.timeout && |lists| == |old(lists)|
      ensures heap == if e.common.None? then old(heap) - {e} else old(heap)
      ensures e.common.None? ==> lists == old(lists)
      ensures e.common.Some? ==> var l := e.common.value;
        l < |lists| && e in old(lists[l]) && lists == old(lists)[l := Without(old(lists[l]), e)]
      ensures forall l :: 0 <= l < |lists| && timers[l] != e && old(Scheduled(l)) ==> Scheduled(l)
    {
      hide DurationsOk, Total, Lengths, NoDup, QueuesOk, LaterOk, HeapOk, ListsOk, FlagsOk, CountOk, TimersOk, Scheduled;
      RemoveTimeout(e);
      ScheduledAfterDrop(e);
    }

    method PutCommon(e: Event, deadline: int, l: nat) returns (k: nat)
      requires Core() && e in all && e.isEvent && !e.finalizing && !e.timeout && l < |lists| && e !in timers
      modifies `lists, `eventCount, e`timeout, e`deadline, e`common
      ensures Core() && e.timeout && e.deadline == deadline && e.common == Some(l) && |lists| == |old(lists)|
      ensures lists[l] != [] && (k == 0 <==> lists[l][0] == e)
      ensures Position(old(lists)[l], deadline, k)
      ensures lists == old(lists)[l := old(lists)[l][..k] + [e] + old(lists)[l][k..]]
      ensures forall m :: 0 <= m < |lists| && timers[m] != e && old(Scheduled(m)) && (m == l ==> k > 0) ==> Scheduled(m)
    {
      hide DurationsOk, Total, Lengths, NoDup, QueuesOk, LaterOk, HeapOk, ListsOk, FlagsOk, CountOk, TimersOk, Scheduled, Position;
      NotWaiting(e);
      k := InsertCommon(e, deadline, l);
      PositionBound(old(lists)[l], deadline, k);
      PositionStill(old(lists)[l], deadline, k, e);
      ScheduledAfterPut(e, Some(l), k);
    }

    twostate lemma PositionStill(new es: seq<Event>, new deadline: int, new k: nat, new e: Event)
      requires old(allocated(es)) && old(allocated(e)) && old(Position(es, deadline, k)) && e !in es
      requires forall o :: o in es && o != e ==> o.deadline == old(o.deadline)
      ensures Position(es, deadline, k)
    {
    }

    method PutHeap(e: Event, deadline: int, memoryLeft: bool) returns (ghost ok: bool)
      requires Core() && e in all && e.isEvent && !e.finalizing && !e.timeout
      modifies `heap, `heapSpace, `eventCount, e`timeout, e`deadline, e`common
      ensures ok == (|old(heap)| < old(heapSpace) || memoryLeft)
      ensures e.timeout && e.deadline == deadline && e.common == None
      ensures if ok then Core() && heap == old(heap) + {e} else !Core() && heap == old(heap)
      ensures |old(heap)| < old(heapSpace) ==> heapSpace == old(heapSpace)
      ensures ok ==> forall m :: 0 <= m < |lists| && timers[m] != e && old(Scheduled(m)) ==> Scheduled(m)
    {
      hide DurationsOk, Total, Lengths, NoDup, QueuesOk, LaterOk, HeapOk, ListsOk, FlagsOk, CountOk, TimersOk, Scheduled;
      ok := InsertHeap(e, deadline, memoryLeft);
      if ok {
        ScheduledAfterPut(e, None, 0);
      }
    }

    twostate lemma PositionBound(new es: seq<Event>, new deadline: int, new k: nat)
      requires old(allocated(es)) && old(Position(es, deadline, k))
      ensures k <= |es|
    {
    }

    // The timer of another event does not care about the activity of this one.
    twostate lemma ScheduledBesides(new e: Event)
      requires old(allocated(e)) && old(TimersOk()) && unchanged(`timers, `lists)
      requires (forall o :: o in old(all) && o != e ==> unchanged(o)) && e.deadline == old(e.deadline)
      requires old(ListsOk())
      ensures forall l :: 0 <= l < |lists| && timers[l] != e && old(Scheduled(l)) ==> Scheduled(l)
    {
      forall l | 0 <= l < |lists| && timers[l] != e && old(Scheduled(l)) ensures Scheduled(l) {
        assert timers[l] in old(all);
        assert lists[l] != [] ==> lists[l][0] in old(all);
      }
    }

    method DropActive(e: Event)
      requires Core() && e in all && e.active
      modifies `queues, `eventCount, `eventCountActive, e`active
      ensures Core() && !e.active && |queues| == |old(queues)|
      ensures e.pri < |queues| && e in old(queues[e.pri])
      ensures queues == old(queues)[e.pri := Without(old(queues[e.pri]), e)]
      ensures forall l :: 0 <= l < |lists| && timers[l] != e && old(Scheduled(l)) ==> Scheduled(l)
    {
      hide DurationsOk, Total, Lengths, NoDup, QueuesOk, LaterOk, HeapOk, ListsOk, FlagsOk, CountOk, TimersOk, Scheduled;
      RemoveActive(e);
      ScheduledBesides(e);
    }

    // What the part of event_add_nolock_ that sets a timeout does to the queues, and to the lists except for the event.
    ghost function QueuesLeft(qs: seq<seq<Event>>, e: Event, drop: bool): seq<seq<Event>>
      reads e`pri
    {
      if drop && e.pri < |qs| then qs[e.pri := Minus(qs[e.pri], e)] else qs
    }

    ghost function ListsLeft(ls: seq<seq<Event>>, e: Event, common: Option<nat>): (r: seq<seq<Event>>)
      ensures |r| == |ls|
    {
      if common.Some? && common.value < |ls| then ls[common.value := Minus(ls[common.value], e)] else ls
    }

    // The list that e names now has it at place k.
    ghost predicate PutAt(left: seq<seq<Event>>, e: Event, k: nat)
      reads `lists, e`common, e`deadline
      reads if e.common.Some? && e.common.value < |left| then set o | o in left[e.common.value] else {}
    {
      match e.common
      case None => lists == left
      case Some(l) =>
        && l < |left| && Position(left[l], e.deadline, k) && lists == left[l := left[l][..k] + [e] + left[l][k..]]
    }

    // The part of event_add_nolock_ that sets a timeout: an older timeout is removed, and so is the activity that it
    // led to. ok says that the heap had room.
    method SetTimeout(e: Event, deadline: int, common: Option<nat>, memoryLeft: bool) returns (k: nat, ghost ok: bool)
      requires Core() && e in all && e.isEvent && !e.finalizing
      requires common.Some? ==> common.value < |lists| && e !in timers
      modifies `queues, `heap, `heapSpace, `lists, `eventCount, `eventCountActive, e`timeout, e`active, e`deadline, e`common
      ensures ok == (common.Some? || |old(heap) - {e}| < old(heapSpace) || memoryLeft)
      ensures if ok then Core() else !Core()
      ensures e.timeout && e.deadline == deadline && e.common == common && |lists| == |old(lists)|
      ensures |queues| == |old(queues)| && e.active == (old(e.active) && Timeout !in e.res)
      ensures queues == QueuesLeft(old(queues), e, old(e.active) && Timeout in e.res)
      ensures PutAt(if old(e.timeout) then ListsLeft(old(lists), e, old(e.common)) else old(lists), e, k)
      ensures heap == old(heap) - {e} + if common.None? && ok then {e} else {}
      ensures common.Some? || |old(heap) - {e}| < old(heapSpace) ==> heapSpace == old(heapSpace)
      ensures common.Some? ==> lists[common.value] != [] && (k == 0 <==> lists[common.value][0] == e)
      ensures ok ==>
        forall l :: 0 <= l < |lists| && timers[l] != e && old(Scheduled(l)) && (common == Some(l) ==> k > 0) ==> Scheduled(l)
    {
      hide Core, DurationsOk, NoDup, Scheduled, Position, QueuesLeft, ListsLeft;
      k, ok := 0, true;
      Forget(e);
      if common.Some? {
        k := PutCommon(e, deadline, common.value);
      } else {
        ok := PutHeap(e, deadline, memoryLeft);
      }
    }

    // An older timeout is removed, and so is the activity that it led to.
    method Forget(e: Event)
      requires Core() && e in all
      modifies `queues, `heap, `lists, `eventCount, `eventCountActive, e`timeout, e`active
      ensures Core() && !e.timeout && e.active == (old(e.active) && Timeout !in e.res)
      ensures |queues| == |old(queues)| && queues == QueuesLeft(old(queues), e, old(e.active) && Timeout in e.res)
      ensures |lists| == |old(lists)| && lists == if old(e.timeout) then ListsLeft(old(lists), e, e.common) else old(lists)
      ensures heap == old(heap) - {e}
      ensures forall l :: 0 <= l < |lists| && timers[l] != e && old(Scheduled(l)) ==> Scheduled(l)
    {
      hide Core, DurationsOk, NoDup, Scheduled;
      Facts(e);
      InHeap(e);
      if e.timeout {
        DropTimeout(e);
      }
      if e.active && Timeout in e.res {
        DropActive(e);
      }
    }

    // common_timeout_schedule: the timer of a list is set to its first deadline. What event_add returns is ignored: a
    // timer that is not pending needs room in the heap, or memory for it, and is left alone without.
    method Schedule(l: nat, memoryLeft: bool) returns (ok: bool)
      requires Core() && l < |lists| && lists[l] != []
      modifies `queues, `heap, `heapSpace, `lists, `eventCount, `eventCountActive
      modifies timers[l..l + 1]`timeout, timers[l..l + 1]`active, timers[l..l + 1]`deadline, timers[l..l + 1]`common
      ensures Core() && |queues| == |old(queues)| && lists == old(lists)
      ensures ok == (old(timers[l].timeout) || |old(heap)| < old(heapSpace) || memoryLeft)
      ensures ok ==> Scheduled(l) && timers[l].timeout && timers[l].deadline == lists[l][0].deadline && timers[l].common.None?
      ensures ok ==> queues == QueuesLeft(old(queues), timers[l], old(timers[l].active) && Timeout in timers[l].res)
      ensures ok ==> timers[l].active == (old(timers[l].active) && Timeout !in timers[l].res)
      ensures heap == old(heap) + if ok then {timers[l]} else {}
      ensures !ok ==> unchanged(this) && unchanged(timers[l])
      ensures forall m :: 0 <= m < |lists| && m != l && old(Scheduled(m)) ==> Scheduled(m)
      ensures |old(heap)| < old(heapSpace) ==> heapSpace == old(heapSpace)
      ensures forall m :: 0 <= m < |timers| && m != l ==> unchanged(timers[m])
    {
      hide Core, DurationsOk, NoDup, Scheduled, QueuesLeft;
      TimerCount();
      ok := timers[l].timeout;
      if !ok {
        ok := Reserve(|heap| + 1, memoryLeft);
        if !ok {
          return;
        }
        SameSchedule();
      }
      SetTimer(l);
    }

    twostate lemma SameSchedule()
      requires old(Core()) && unchanged(`lists, `timers, `all) && forall o :: o in all ==> unchanged(o)
      ensures forall m :: 0 <= m < |lists| && m < |timers| && old(Scheduled(m)) ==> Scheduled(m)
    {
      forall m | 0 <= m < |lists| && m < |timers| && old(Scheduled(m)) ensures Scheduled(m) {
        assert timers[m] in all && (lists[m] != [] ==> lists[m][0] in all);
      }
    }

    // Then there is room for the timer.
    method SetTimer(l: nat)
      requires Core() && l < |lists| && l < |timers| && lists[l] != [] && (timers[l].timeout || |heap| < heapSpace)
      modifies `queues, `heap, `heapSpace, `lists, `eventCount, `eventCountActive
      modifies timers[l..l + 1]`timeout, timers[l..l + 1]`active, timers[l..l + 1]`deadline, timers[l..l + 1]`common
      ensures Core() && |queues| == |old(queues)| && lists == old(lists)
      ensures Scheduled(l) && timers[l].timeout && timers[l].deadline == lists[l][0].deadline && timers[l].common.None?
      ensures queues == QueuesLeft(old(queues), timers[l], old(timers[l].active) && Timeout in timers[l].res)
      ensures timers[l].active == (old(timers[l].active) && Timeout !in timers[l].res)
      ensures heap == old(heap) + {timers[l]}
      ensures forall m :: 0 <= m < |lists| && m != l && old(Scheduled(m)) ==> Scheduled(m)
      ensures heapSpace == old(heapSpace)
      ensures forall m :: 0 <= m < |timers| && m != l ==> unchanged(timers[m])
    {
      hide Core, DurationsOk, NoDup, Scheduled, QueuesLeft, Position;
      TimerFacts(l);
      TimerApart(l);
      var t := timers[l];
      InHeap(t);
      assert t == timers[l..l + 1][0];
      label start:
      var k;
      ghost var room;
      k, room := SetTimeout(t, lists[l][0].deadline, None, false);
      TimerSet@start(l);
    }

    twostate lemma TimerSet(new l: nat)
      requires old(Core()) && l < |old(lists)| == |lists| && timers == old(timers) && lists == old(lists) && l < |timers|
      requires lists[l] != [] && timers[l].timeout && timers[l].deadline == lists[l][0].deadline
      ensures Scheduled(l)
    {
    }

    lemma TimerFacts(l: nat)
      requires Core() && l < |lists|
      ensures l < |timers| && timers[l] in all && timers[l].isEvent && !timers[l].finalizing && !timers[l].io
      ensures timers[l].internal
      ensures timers[l].common.None? && (lists[l] != [] ==> lists[l][0] != timers[l])
      ensures forall m :: 0 <= m < |lists| && timers[m] == timers[l] ==> m == l
    {
    }

    // -- The operations --

    // Becoming active does not unschedule a list, whoever it is.
    twostate lemma ScheduledStill(new e: Event)
      requires old(allocated(e)) && old(TimersOk()) && old(ListsOk()) && unchanged(`timers, `lists)
      requires forall o :: o in old(all) && o != e ==> unchanged(o)
      requires e.timeout == old(e.timeout) && e.deadline == old(e.deadline) && (old(e.active || e.later) ==> e.active || e.later)
      ensures forall l :: 0 <= l < |lists| && old(Scheduled(l)) ==> Scheduled(l)
    {
      forall l | 0 <= l < |lists| && old(Scheduled(l)) ensures Scheduled(l) {
        assert timers[l] in old(all);
        assert lists[l] != [] ==> lists[l][0] in old(all);
      }
    }

    // event_callback_activate_nolock_
    method CallbackActivate(e: Event) returns (r: int)
      requires Core() && e in all
      modifies `queues, `laterQueue, `eventCount, `eventCountActive, e`active, e`later
      ensures Core() && |queues| == |old(queues)|
      ensures r == if !e.finalizing && !old(e.active) && !old(e.later) then 1 else 0
      ensures if e.finalizing then e.active == old(e.active) && e.later == old(e.later) else e.active && !e.later
      ensures forall l :: 0 <= l < |lists| && old(Scheduled(l)) ==> Scheduled(l)
      ensures e.pri < |queues| && queues == if r == 0 && !(old(e.later) && !e.finalizing) then old(queues)
                                            else old(queues)[e.pri := old(queues[e.pri]) + [e]]
      ensures old(e.later) ==> e in old(laterQueue)
      ensures laterQueue == if old(e.later) && !e.finalizing then Without(old(laterQueue), e) else old(laterQueue)
    {
      hide DurationsOk, Total, Lengths, NoDup, QueuesOk, LaterOk, HeapOk, ListsOk, FlagsOk, CountOk, TimersOk, Scheduled;
      Facts(e);
      if e.finalizing {
        return 0;
      }
      r := 1;
      if e.later {
        RemoveLater(e);
        r := 0;
      } else if e.active {
        return 0;
      }
      InsertActive(e);
      ScheduledStill(e);
    }

    // event_active_nolock_
    method Activate(e: Event, res: Res)
      requires Core() && e in all
      modifies `queues, `laterQueue, `eventCount, `eventCountActive, `eventContinue, e`active, e`later, e`res
      ensures Core() && |queues| == |old(queues)|
      ensures if e.finalizing then e.active == old(e.active) && e.later == old(e.later) && e.res == old(e.res)
              else e.active && !e.later && e.res == (if old(e.active || e.later) then old(e.res) else {}) + {res}
      ensures forall l :: 0 <= l < |lists| && old(Scheduled(l)) ==> Scheduled(l)
      ensures forall l :: 0 <= l < |lists| && l < |timers| && timers[l] == e && e.active ==> Scheduled(l)
      ensures e.pri < |queues| && queues == if e.finalizing || old(e.active) then old(queues)
                                            else old(queues)[e.pri := old(queues[e.pri]) + [e]]
      ensures old(e.later) ==> e in old(laterQueue)
      ensures laterQueue == if old(e.later) && !e.finalizing then Without(old(laterQueue), e) else old(laterQueue)
      ensures eventContinue == (old(eventContinue) || (!e.finalizing && !old(e.active) && e.pri < runningPriority))
    {
      hide DurationsOk, Total, Lengths, NoDup, QueuesOk, LaterOk, HeapOk, ListsOk, FlagsOk, CountOk, TimersOk;
      Facts(e);
      if e.finalizing {
        return;
      }
      e.res := (if e.active || e.later then e.res else {}) + {res};
      if e.active {
        return;
      }
      if e.pri < runningPriority {
        eventContinue := true;
      }
      var r := CallbackActivate(e);
    }

    // event_active_later_nolock_
    method ActivateLater(e: Event, res: Res)
      requires Core() && e in all
      modifies `laterQueue, `eventCount, `eventCountActive, e`later, e`res
      ensures Core() && (e.active || e.later) && e.res == (if old(e.active || e.later) then old(e.res) else {}) + {res}
      ensures laterQueue == old(laterQueue) + if old(e.active || e.later) then [] else [e]
      ensures e.later == (old(e.later) || !e.active)
      ensures forall l :: 0 <= l < |lists| && old(Scheduled(l)) ==> Scheduled(l)
    {
      hide DurationsOk, Total, Lengths, NoDup, QueuesOk, LaterOk, HeapOk, ListsOk, FlagsOk, CountOk, TimersOk;
      if e.active || e.later {
        e.res := e.res + {res};
        return;
      }
      e.res := {res};
      InsertLater(e);
      ScheduledStill(e);
    }

    // event_deferred_cb_schedule_
    method ScheduleDeferred(e: Event) returns (r: int)
      requires Core() && e in all
      modifies `queues, `laterQueue, `eventCount, `eventCountActive, `deferredsQueued, e`active, e`later
      ensures Core() && |queues| == |old(queues)| && (e.active || e.later || e.finalizing)
      ensures forall l :: 0 <= l < |lists| && old(Scheduled(l)) ==> Scheduled(l)
      ensures if old(deferredsQueued) > MAX_DEFERREDS_QUEUED
        then
          && r == (if old(e.active || e.later) then 0 else 1) && deferredsQueued == old(deferredsQueued) && queues == old(queues)
          && laterQueue == old(laterQueue) + if r == 1 then [e] else []
        else
          && r == (if !e.finalizing && !old(e.active) && !old(e.later) then 1 else 0)
          && deferredsQueued == old(deferredsQueued) + r && e.pri < |queues| && (old(e.later) ==> e in old(laterQueue))
          && queues == (if r == 0 && !(old(e.later) && !e.finalizing) then old(queues)
                        else old(queues)[e.pri := old(queues[e.pri]) + [e]])
          && laterQueue == if old(e.later) && !e.finalizing then Without(old(laterQueue), e) else old(laterQueue)
    {
      hide DurationsOk, Total, Lengths, NoDup, QueuesOk, LaterOk, HeapOk, ListsOk, FlagsOk, CountOk, TimersOk;
      if deferredsQueued > MAX_DEFERREDS_QUEUED {
        // event_callback_activate_later_nolock_
        if e.active || e.later {
          return 0;
        }
        InsertLater(e);
        ScheduledStill(e);
        r := 1;
      } else {
        r := CallbackActivate(e);
        if r != 0 {
          deferredsQueued := deferredsQueued + 1;
        }
      }
    }

    // The active queues and the later queue are what they were without e.
    twostate predicate Unqueued(new e: Event)
      requires old(allocated(e))
      reads this
    {
      && (if old(e.active) then
            && old(e.pri) < |old(queues)| && e in old(queues)[old(e.pri)]
            && queues == old(queues)[old(e.pri) := Without(old(queues)[old(e.pri)], e)]
          else queues == old(queues))
      && (if !old(e.active) && old(e.later) then e in old(laterQueue) && laterQueue == Without(old(laterQueue), e)
          else laterQueue == old(laterQueue))
    }

    // event_del_nolock_, as far as the queues are concerned; evmap is what evmap_io_del_ or evmap_signal_del_ returns.
    method Del(e: Event, evenIfFinalizing: bool, evmap: int) returns (r: int)
      requires Core() && e in all && -1 <= evmap <= 1
      modifies `queues, `laterQueue, `heap, `lists, `eventCount, `eventCountActive
      modifies e`timeout, e`inserted, e`active, e`later
      ensures Core() && |queues| == |old(queues)| && |lists| == |old(lists)|
      ensures r == if (evenIfFinalizing || !e.finalizing) && old(e.inserted) && evmap == -1 then -1 else 0
      ensures evenIfFinalizing || !e.finalizing ==> !e.timeout && !e.active && !e.later && !e.inserted
      ensures !evenIfFinalizing && e.finalizing ==> unchanged(this) && unchanged(e)
      ensures (evenIfFinalizing || !e.finalizing) && old(e.timeout) ==>
        && (e.common.None? ==> heap == old(heap) - {e} && lists == old(lists))
        && (e.common.Some? ==> heap == old(heap) && var l := e.common.value;
              l < |lists| && e in old(lists[l]) && lists == old(lists)[l := Without(old(lists[l]), e)])
      ensures !old(e.timeout) ==> heap == old(heap) && lists == old(lists)
      ensures forall l :: 0 <= l < |lists| && timers[l] != e && old(Scheduled(l)) ==> Scheduled(l)
      ensures evenIfFinalizing || !e.finalizing ==> Unqueued(e)
    {
      hide DurationsOk, Total, Lengths, NoDup, QueuesOk, LaterOk, HeapOk, ListsOk, FlagsOk, CountOk, TimersOk, Scheduled;
      r := 0;
      if !evenIfFinalizing && e.finalizing {
        return 0;
      }
      Facts(e);
      if e.timeout {
        DropTimeout(e);
      }
      r := DropRest(e, evmap);
    }

    method DropRest(e: Event, evmap: int) returns (r: int)
      requires Core() && e in all
      modifies `queues, `laterQueue, `eventCount, `eventCountActive, e`inserted, e`active, e`later
      ensures Core() && |queues| == |old(queues)| && !e.active && !e.later && !e.inserted
      ensures r == if old(e.inserted) && evmap == -1 then -1 else 0
      ensures forall l :: 0 <= l < |lists| && timers[l] != e && old(Scheduled(l)) ==> Scheduled(l)
      ensures Unqueued(e)
    {
      hide DurationsOk, Total, Lengths, NoDup, QueuesOk, LaterOk, HeapOk, ListsOk, FlagsOk, CountOk, TimersOk, Scheduled;
      Facts(e);
      if e.active {
        RemoveActive(e);
      } else if e.later {
        RemoveLater(e);
      }
      r := 0;
      if e.inserted {
        RemoveInserted(e);
        r := if evmap == -1 then -1 else 0;
      }
      ScheduledBesides(e);
    }

    // The heap is full, there is no memory for a larger one, and none was asked for: event_add_nolock_ does so only for an
    // event that is not pending, and this one is, in a common list, so that it leaves no room either.
    predicate NoRoom(e: Event, memoryLeft: bool)
      reads `heap, `heapSpace, e`timeout, e`common
    {
      e.timeout && e.common.Some? && |heap| == heapSpace && !memoryLeft
    }

    // What the code makes of that. An event for the heap counts as pending but is nowhere; an event for an empty common
    // list is in it, but the timer of the list is not set.
    predicate Strands(e: Event, common: Option<nat>, memoryLeft: bool)
      reads `heap, `heapSpace, `lists, `timers, e`timeout, e`common, timers`timeout, timers`active, timers`later
    {
      && NoRoom(e, memoryLeft)
      && match common
         case None => true
         case Some(l) =>
           && l < |lists| && l < |timers| && lists[l] == []
           && !timers[l].timeout && !timers[l].active && !timers[l].later
    }

    // event_add_nolock_ for an event of the user. evmap is what evmap_io_add_ or evmap_signal_add_ returns, and memoryLeft
    // whether the array of the heap can grow. When a step fails no state has changed. The event is at place k of its
    // common list; armed says that the timer of this list has been set.
    method Add(e: Event, tv: Option<Tv>, now: int, memoryLeft: bool, evmap: int) returns (r: int, ghost k: nat, ghost armed: bool)
      requires Valid() && e in all && e.isEvent && e !in timers && -1 <= evmap <= 1
      requires tv.Some? && tv.value.common.Some? ==> tv.value.common.value < |lists|
      modifies `queues, `heap, `heapSpace, `lists, `eventCount, `eventCountActive
      modifies e`timeout, e`inserted, e`active, e`deadline, e`common
      modifies timers`timeout, timers`active, timers`deadline, timers`common
      ensures r == if e.finalizing || (tv.Some? && !old(e.timeout) && old(|heap| == heapSpace) && !memoryLeft)
                      || (e.io && !old(e.inserted || e.active || e.later) && evmap == -1) then -1 else 0
      ensures Valid() <==> !(r == 0 && tv.Some? && old(Strands(e, tv.value.common, memoryLeft)))
      ensures r == 0 && tv.Some? && tv.value.common.Some? ==> Core()
      ensures r == -1 ==>
        && unchanged(`queues, `heap, `lists, `eventCount, `eventCountActive) && unchanged(e)
        && forall t :: t in timers ==> unchanged(t)
      ensures r == 0 ==> e.inserted == (old(e.inserted) || (e.io && !old(e.active || e.later)))
      ensures r == 0 && tv.None? ==>
        && unchanged(`queues, `heap, `lists) && unchanged(e`timeout, e`active, e`deadline, e`common)
        && forall t :: t in timers ==> unchanged(t)
      ensures r == 0 && tv.Some? ==>
        e.timeout && e.common == tv.value.common && e.deadline == if tv.value.absolute then tv.value.time else now + tv.value.time
      ensures r == 0 && tv.Some? ==> PutAt(if old(e.timeout) then ListsLeft(old(lists), e, old(e.common)) else old(lists), e, k)
      ensures r == 0 && tv.Some? ==> OtherTimers(tv.value.common, armed) && e.active == (old(e.active) && Timeout !in e.res)
      ensures r == 0 && tv.Some? ==>
        AddedTimeout(old(queues), old(heap), e, old(e.active), old(TimerActive(tv.value.common)),
                     old(TimerPending(tv.value.common)), old(NoRoom(e, memoryLeft)), k, armed)
      ensures |queues| == |old(queues)|
      ensures |old(heap)| < old(heapSpace) ==> heapSpace == old(heapSpace)
    {
      hide Core, DurationsOk, NoDup, Scheduled, PutAt, QueuesLeft, ListsLeft, AddedTimeout, TimerActive, TimerPending;
      k, armed := 0, false;
      r := Prepare(e, tv.Some?, memoryLeft, evmap);
      if r == 0 && tv.Some? {
        k, armed := AddTimeout(e, tv.value.common, if tv.value.absolute then tv.value.time else now + tv.value.time, memoryLeft);
      }
    }

    // What event_add_nolock_ does before the timeout: there is room in the heap, and the map of files and signals knows e.
    method Prepare(e: Event, timed: bool, memoryLeft: bool, evmap: int) returns (r: int)
      requires Valid() && e in all && e.isEvent && e !in timers && -1 <= evmap <= 1
      modifies `heapSpace, `eventCount, e`inserted
      ensures Valid()
      ensures r == if e.finalizing || (timed && !e.timeout && |heap| == old(heapSpace) && !memoryLeft)
                      || (e.io && !old(e.inserted) && !e.active && !e.later && evmap == -1) then -1 else 0
      ensures r == -1 ==> eventCount == old(eventCount) && e.inserted == old(e.inserted)
      ensures r == 0 ==> e.inserted == (old(e.inserted) || (e.io && !e.active && !e.later))
      ensures if e.timeout || !timed then heapSpace == old(heapSpace) else r == 0 ==> |heap| < heapSpace
      ensures |heap| < old(heapSpace) ==> heapSpace == old(heapSpace)
    {
      hide DurationsOk, Total, Lengths, NoDup, QueuesOk, LaterOk, HeapOk, ListsOk, FlagsOk, CountOk, TimersOk, Scheduled;
      InHeap(e);
      TimerCount();
      if e.finalizing {
        return -1;
      }
      if timed && !e.timeout {
        var room := Reserve(|heap| + 1, memoryLeft);
        if !room {
          return -1;
        }
        SameSchedule();
        TimerCount();
      }
      if e.io && !(e.inserted || e.active || e.later) {
        if evmap == -1 {
          return -1;
        }
        InsertInserted(e);
        ScheduledStill(e);
        TimerCount();
      }
      return 0;
    }

    // The timeout part of event_add_nolock_
    method AddTimeout(e: Event, common: Option<nat>, deadline: int, memoryLeft: bool) returns (ghost k: nat, ghost armed: bool)
      requires Valid() && e in all && e.isEvent && e !in timers && !e.finalizing
      requires common.Some? ==> common.value < |lists|
      requires e.timeout || |heap| < heapSpace
      modifies `queues, `heap, `heapSpace, `lists, `eventCount, `eventCountActive, e`timeout, e`active, e`deadline, e`common
      modifies timers`timeout, timers`active, timers`deadline, timers`common
      ensures Valid() <==> !old(Strands(e, common, memoryLeft))
      ensures common.Some? ==> Core()
      ensures e.timeout && e.common == common && e.deadline == deadline && OtherTimers(common, armed)
      ensures e.active == (old(e.active) && Timeout !in e.res)
      ensures AddedTimeout(old(queues), old(heap), e, old(e.active), old(TimerActive(common)),
                           old(TimerPending(common)), old(NoRoom(e, memoryLeft)), k, armed)
      ensures PutAt(if old(e.timeout) then ListsLeft(old(lists), e, old(e.common)) else old(lists), e, k)
      ensures |queues| == |old(queues)|
      ensures |old(heap)| < old(heapSpace) ==> heapSpace == old(heapSpace)
    {
      hide Core, DurationsOk, NoDup, Scheduled, PutAt, QueuesLeft, ListsLeft;
      if common.Some? {
        k, armed := AddToList(e, common.value, deadline, memoryLeft);
      } else {
        k := AddToHeap(e, deadline, memoryLeft);
        armed := false;
      }
    }

    // For the heap
    method AddToHeap(e: Event, deadline: int, memoryLeft: bool) returns (ghost k: nat)
      requires Valid() && e in all && e.isEvent && e !in timers && !e.finalizing
      requires e.timeout || |heap| < heapSpace
      modifies `queues, `heap, `heapSpace, `lists, `eventCount, `eventCountActive, e`timeout, e`active, e`deadline, e`common
      ensures Valid() <==> !old(NoRoom(e, memoryLeft))
      ensures e.timeout && e.common == None && e.deadline == deadline && OtherTimers(None, false)
      ensures e.active == (old(e.active) && Timeout !in e.res)
      ensures AddedTimeout(old(queues), old(heap), e, old(e.active), old(TimerActive(None)),
                           old(TimerPending(None)), old(NoRoom(e, memoryLeft)), k, false)
      ensures PutAt(if old(e.timeout) then ListsLeft(old(lists), e, old(e.common)) else old(lists), e, k)
      ensures |queues| == |old(queues)|
      ensures |old(heap)| < old(heapSpace) ==> heapSpace == old(heapSpace)
    {
      hide Core, DurationsOk, NoDup, Scheduled, PutAt, QueuesLeft, ListsLeft;
      InHeap(e);
      ghost var ok;
      k, ok := SetTimeout(e, deadline, None, memoryLeft);
      if ok {
        TimerCount();
      }
    }

    // The same for a common list
    method AddToList(e: Event, l: nat, deadline: int, memoryLeft: bool) returns (ghost k: nat, armed: bool)
      requires Valid() && e in all && e.isEvent && e !in timers && !e.finalizing && l < |lists|
      requires e.timeout || |heap| < heapSpace
      modifies `queues, `heap, `heapSpace, `lists, `eventCount, `eventCountActive, e`timeout, e`active, e`deadline, e`common
      modifies timers`timeout, timers`active, timers`deadline, timers`common
      ensures Core() && (Valid() <==> !old(Strands(e, Some(l), memoryLeft)))
      ensures e.timeout && e.common == Some(l) && e.deadline == deadline && OtherTimers(Some(l), armed)
      ensures e.active == (old(e.active) && Timeout !in e.res)
      ensures AddedTimeout(old(queues), old(heap), e, old(e.active), old(TimerActive(Some(l))),
                           old(TimerPending(Some(l))), old(NoRoom(e, memoryLeft)), k, armed)
      ensures PutAt(if old(e.timeout) then ListsLeft(old(lists), e, old(e.common)) else old(lists), e, k)
      ensures |queues| == |old(queues)|
      ensures |old(heap)| < old(heapSpace) ==> heapSpace == old(heapSpace)
    {
      hide Core, DurationsOk, Scheduled, PutAt, QueuesLeft, ListsLeft;
      InHeap(e);
      TimerCount();
      Waiting(l);
      ghost var left := if e.timeout then ListsLeft(lists, e, e.common) else lists;
      k := PutInList(e, l, deadline);
      assert timers[l..l + 1] == [timers[l]] && timers[l] in timers;
      label put:
      armed := ArmFirst(e, l, memoryLeft, left, k);
      assert unchanged@put(e);
    }

    method PutInList(e: Event, l: nat, deadline: int) returns (ghost k: nat)
      requires Valid() && e in all && e.isEvent && e !in timers && !e.finalizing && l < |lists|
      modifies `queues, `heap, `heapSpace, `lists, `eventCount, `eventCountActive, e`timeout, e`active, e`deadline, e`common
      ensures OthersScheduled(l) && lists[l] != [] && (k == 0 <==> lists[l][0] == e) && (k > 0 ==> Scheduled(l))
      ensures k > 0 ==> l < |old(lists)| && old(lists[l]) != []
      ensures e.timeout && e.common == Some(l) && e.deadline == deadline && e.active == (old(e.active) && Timeout !in e.res)
      ensures queues == QueuesLeft(old(queues), e, old(e.active) && Timeout in e.res)
      ensures heap == old(heap) - {e} && heapSpace == old(heapSpace)
      ensures l < |timers| && timers[l] !in lists[l] && forall m :: 0 <= m < |timers| ==> unchanged(timers[m])
      ensures PutAt(if old(e.timeout) then ListsLeft(old(lists), e, old(e.common)) else old(lists), e, k)
      ensures |queues| == |old(queues)|
    {
      hide Core, DurationsOk, NoDup, Scheduled, PutAt, QueuesLeft, ListsLeft;
      ghost var left := if e.timeout then ListsLeft(lists, e, e.common) else lists;
      LeftNothing(lists, e, e.common, l);
      TimerCount();
      ghost var ok;
      k, ok := SetTimeout(e, deadline, Some(l), false);
      TimerFacts(l);
      NotTimer(e);
      PutBound(left, e, k, l);
      ListFacts(l);
    }

    lemma TimerApart(l: nat)
      requires Core() && l < |lists|
      ensures |timers| == |lists| && forall m :: 0 <= m < |timers| && m != l ==> timers[m] != timers[l]
    {
    }

    // The timer of list l is set if e is the first event of the list.
    method ArmFirst(e: Event, l: nat, memoryLeft: bool, ghost left: seq<seq<Event>>, ghost k: nat) returns (armed: bool)
      requires OthersScheduled(l) && lists[l] != [] && (lists[l][0] != e ==> Scheduled(l)) && e !in timers
      requires l < |timers| && timers[l] !in lists[l] && e.common == Some(l) && PutAt(left, e, k)
      modifies `queues, `heap, `heapSpace, `lists, `eventCount, `eventCountActive
      modifies timers[l..l + 1]`timeout, timers[l..l + 1]`active, timers[l..l + 1]`deadline, timers[l..l + 1]`common
      ensures Core() && lists == old(lists) && l < |timers|
      ensures armed == (lists[l][0] == e && (old(timers[l].timeout) || |old(heap)| < old(heapSpace) || memoryLeft))
      ensures Valid() <==> lists[l][0] != e || armed || old(timers[l].active) || old(timers[l].later)
      ensures heap == old(heap) + if armed then {timers[l]} else {}
      ensures queues == if armed then QueuesLeft(old(queues), timers[l], old(timers[l].active) && Timeout in timers[l].res) else old(queues)
      ensures !armed ==> unchanged(timers[l])
      ensures forall m :: 0 <= m < |timers| && m != l ==> unchanged(timers[m])
      ensures PutAt(left, e, k)
      ensures |queues| == |old(queues)|
      ensures |old(heap)| < old(heapSpace) ==> heapSpace == old(heapSpace)
    {
      hide Core, DurationsOk, NoDup, Scheduled, QueuesLeft, PutAt;
      TimerFacts(l);
      armed := false;
      if e == lists[l][0] {
        label put:
        armed := Schedule(l, memoryLeft);
        PutStill@put(left, e, k, l);
        TimerFacts(l);
      }
      TimerCount();
      Waiting(l);
    }

    twostate lemma PutStill(new left: seq<seq<Event>>, new e: Event, new k: nat, new l: nat)
      requires old(allocated(left)) && old(allocated(e)) && old(PutAt(left, e, k)) && unchanged(`lists)
      requires l < |lists| && e.common == old(e.common) == Some(l) && e.deadline == old(e.deadline)
      requires forall o :: o in lists[l] ==> o.deadline == old(o.deadline)
      ensures PutAt(left, e, k)
    {
      forall i | 0 <= i < |left[l]| ensures left[l][i].deadline == old(left[l][i].deadline) {
        assert left[l][i] == lists[l][if i < k then i else i + 1];
      }
    }

    lemma PutBound(left: seq<seq<Event>>, e: Event, k: nat, l: nat)
      requires PutAt(left, e, k) && e.common == Some(l)
      ensures l < |left| && k <= |left[l]| && l < |lists| && |lists[l]| == |left[l]| + 1
    {
    }

    // When a list that is not empty is scheduled.
    lemma Waiting(l: nat)
      requires l < |lists| == |timers|
      ensures var t := timers[l];
        && (lists[l] != [] && Scheduled(l) ==> t.active || t.later || t.timeout)
        && (lists[l] != [] && !t.timeout && !t.active && !t.later ==> !Scheduled(l))
        && (lists[l] == [] || t.active || t.later ==> Scheduled(l))
    {
    }

    lemma LeftNothing(ls: seq<seq<Event>>, e: Event, common: Option<nat>, l: nat)
      requires l < |ls|
      ensures ls[l] == [] ==> ListsLeft(ls, e, common)[l] == []
    {
    }

    // What a new timeout has made of queues qs and heap h: the event has left its old place and has its new one, and if it
    // is the first of a common list then the timer of this list has been set, or there was no room.
    ghost predicate AddedTimeout(qs: seq<seq<Event>>, h: set<Event>, e: Event, wasActive: bool, timerActive: bool, timerPending: bool,
                                 noRoom: bool, k: nat, armed: bool)
      reads `queues, `heap, `timers, e`pri, e`res, e`common, timers`pri, timers`res
    {
      var left := QueuesLeft(qs, e, wasActive && Timeout in e.res);
      match e.common
      case None => !armed && queues == left && heap == h - {e} + if noRoom then {} else {e}
      case Some(l) =>
        && l < |timers|
        && armed == (k == 0 && (timerPending || !noRoom))
        && queues == (if armed then QueuesLeft(left, timers[l], timerActive && Timeout in timers[l].res) else left)
        && heap == h - {e} + if armed then {timers[l]} else {}
    }

    predicate TimerActive(common: Option<nat>)
      reads `timers, timers`active
    {
      common.Some? && common.value < |timers| && timers[common.value].active
    }

    predicate TimerPending(common: Option<nat>)
      reads `timers, timers`timeout
    {
      common.Some? && common.value < |timers| && timers[common.value].timeout
    }

    // Only the timer that was set may have changed.
    twostate predicate OtherTimers(common: Option<nat>, armed: bool)
      reads this, timers
    {
      && timers == old(timers)
      && forall l :: 0 <= l < |timers| && !(armed && common == Some(l)) ==> unchanged(timers[l])
    }

    // event_del_nolock_ for an event of the user
    method Delete(e: Event, evmap: int) returns (r: int)
      requires Valid() && e in all && e !in timers && -1 <= evmap <= 1
      modifies `queues, `laterQueue, `heap, `lists, `eventCount, `eventCountActive
      modifies e`timeout, e`inserted, e`active, e`later
      ensures Valid() && r == if !e.finalizing && old(e.inserted) && evmap == -1 then -1 else 0
      ensures if e.finalizing then unchanged(this) && unchanged(e)
              else !e.timeout && !e.inserted && !e.active && !e.later
      ensures !e.finalizing ==>
        && Unqueued(e) && heap == old(heap) - {e}
        && lists == if old(e.timeout) then ListsLeft(old(lists), e, e.common) else old(lists)
      ensures |queues| == |old(queues)|
    {
      hide Core, DurationsOk, NoDup, Scheduled;
      InHeap(e);
      r := Del(e, false, evmap);
      NotTimer(e);
    }

    lemma NotTimer(e: Event)
      requires Core() && e !in timers
      ensures |timers| == |lists| && forall l :: 0 <= l < |timers| ==> timers[l] != e
    {
    }

    // The event of the heap that is due first.
    method Top() returns (e: Event)
      requires heap != {}
      ensures e in heap && forall o :: o in heap ==> e.deadline <= o.deadline
    {
      var rest := heap;
      e :| e in rest;
      rest := rest - {e};
      while rest != {}
        invariant rest <= heap && e in heap && forall o :: o in heap - rest ==> e.deadline <= o.deadline
        decreases |rest|
      {
        var o :| o in rest;
        if o.deadline < e.deadline {
          e := o;
        }
        rest := rest - {o};
      }
    }

    // The active queues hold what they held, except that the fired events are at the end of the queues of their
    // priorities, in this order; those that were to be active later need not be so any more.
    ghost predicate FiredInto(before: seq<seq<Event>>, later: seq<Event>, fired: seq<Event>)
      reads `queues, `laterQueue, fired`pri
    {
      && |queues| == |before| && (forall p :: 0 <= p < |before| ==> NoDup(before[p]))
      && (forall p :: 0 <= p < |queues| ==> queues[p] == Removed(before[p], fired) + OfPriority(fired, p))
      && NoDup(later) && laterQueue == Removed(later, fired)
    }

    lemma NothingFired()
      requires QueuesOk() && LaterOk()
      ensures FiredInto(queues, laterQueue, []) && NoDup([]) && Sorted([])
    {
      RemovedNone(laterQueue);
      forall p | 0 <= p < |queues| ensures queues[p] == Removed(queues[p], []) + OfPriority([], p) {
        RemovedNone(queues[p]);
      }
    }

    // e is at the end of the queue of its priority, and nowhere else.
    twostate predicate Refiled(new e: Event)
      requires old(allocated(e))
      reads this, e
    {
      && old(e.pri) < |old(queues)| && (old(e.active) <==> e in old(queues)[old(e.pri)])
      && queues == old(queues)[old(e.pri) := Minus(old(queues)[old(e.pri)], e) + [e]]
      && laterQueue == Minus(old(laterQueue), e)
    }

    twostate lemma FiredNext(new before: seq<seq<Event>>, new later: seq<Event>, new fired: seq<Event>, new e: Event)
      requires old(allocated(before)) && old(allocated(later)) && old(allocated(fired)) && old(allocated(e))
      requires old(FiredInto(before, later, fired)) && old(QueuesOk()) && Refiled(e) && e !in fired && e in old(all)
      requires forall o :: o in fired || o == e ==> o.pri == old(o.pri)
      ensures FiredInto(before, later, fired + [e])
    {
      RemovedMore(later, fired, e);
      forall p | 0 <= p < |queues| ensures queues[p] == Removed(before[p], fired + [e]) + OfPriority(fired + [e], p) {
        OfPrioritySame(fired, p);
        FiredOne(before[p], fired, e, p, old(queues)[p]);
        assert p != e.pri ==> e !in old(queues)[p];
      }
    }

    twostate lemma FiredStill(new before: seq<seq<Event>>, new later: seq<Event>, new fired: seq<Event>)
      requires old(allocated(before)) && old(allocated(later)) && laterQueue == old(laterQueue) && old(allocated(fired)) && old(FiredInto(before, later, fired)) && queues == old(queues)
      requires forall o :: o in fired ==> o.pri == old(o.pri)
      ensures FiredInto(before, later, fired)
    {
      forall p | 0 <= p < |queues| ensures queues[p] == Removed(before[p], fired) + OfPriority(fired, p) {
        OfPrioritySame(fired, p);
      }
    }

    // What timeout_process has done so far to the events that were in the heap.
    ghost predicate Processed(was: set<Event>, now: int)
      reads `heap, was
    {
      && heap <= was
      && forall e :: e in was && e !in heap ==> e.deadline <= now && FiredNow(e)
    }

    // timeout_process: exactly the events of the heap whose deadline has come are activated, in the order of their
    // deadlines.
    method TimeoutProcess(now: int) returns (ghost fired: seq<Event>)
      requires Valid()
      modifies `queues, `laterQueue, `heap, `lists, `eventCount, `eventCountActive, `eventContinue
      modifies heap`timeout, heap`inserted, heap`active, heap`later, heap`res
      ensures Valid() && lists == old(lists)
      ensures heap <= old(heap) && forall e :: e in old(heap) ==> (e in heap <==> now < e.deadline)
      ensures forall e :: e in old(heap) && e.deadline <= now ==> FiredNow(e)
      ensures forall e :: e in old(heap) && now < e.deadline ==> unchanged(e)
      ensures NoDup(fired) && Sorted(fired) && FiredInto(old(queues), old(laterQueue), fired)
      ensures forall e :: e in fired <==> e in old(heap) && e.deadline <= now
    {
      hide DurationsOk, Total, Lengths, NoDup, QueuesOk, LaterOk, HeapOk, ListsOk, FlagsOk, CountOk, TimersOk, Scheduled, FiredInto, Sorted;
      fired := [];
      NothingFired();
      while heap != {}
        invariant Valid() && lists == old(lists) && Processed(old(heap), now)
        invariant forall e :: e in heap ==> unchanged(e)
        invariant NoDup(fired) && Sorted(fired) && FiredInto(old(queues), old(laterQueue), fired)
        invariant forall e :: e in fired <==> e in old(heap) && e !in heap
        invariant forall e, o :: e in fired && o in heap ==> e.deadline <= o.deadline
        decreases |heap|
      {
        var e := Top();
        if now < e.deadline {
          break;
        }
        Fire(e, old(queues), old(laterQueue), fired);
        fired := fired + [e];
      }
    }

    // The event that is due first is activated behind those that were due before.
    method Fire(e: Event, ghost before: seq<seq<Event>>, ghost later: seq<Event>, ghost fired: seq<Event>)
      requires Valid() && e in heap && e !in fired && NoDup(fired) && Sorted(fired) && FiredInto(before, later, fired)
      requires forall o :: o in fired ==> o.deadline <= e.deadline
      modifies `queues, `laterQueue, `heap, `lists, `eventCount, `eventCountActive, `eventContinue
      modifies e`timeout, e`inserted, e`active, e`later, e`res
      ensures Valid() && lists == old(lists) && heap == old(heap) - {e}
      ensures FiredNow(e)
      ensures NoDup(fired + [e]) && Sorted(fired + [e]) && FiredInto(before, later, fired + [e])
    {
      hide DurationsOk, Total, Lengths, NoDup, LaterOk, HeapOk, ListsOk, FlagsOk, CountOk, TimersOk, Scheduled, FiredInto, Sorted, QueuesOk;
      HeapFacts(e);
      QueuesFacts();
      label due:
      Expire(e);
      FiredNext@due(before, later, fired, e);
      SnocFacts(fired, e);
      SortedSnoc(fired, e);
    }

    lemma HeapFacts(e: Event)
      requires Core() && e in heap
      ensures e in all && e.timeout && !e.finalizing && e.common.None?
    {
    }

    // One event of the heap is deleted and activated.
    method Expire(e: Event)
      requires Valid() && e in heap && e in all && e.timeout && !e.finalizing && e.common.None?
      modifies `queues, `laterQueue, `heap, `lists, `eventCount, `eventCountActive, `eventContinue
      modifies e`timeout, e`inserted, e`active, e`later, e`res
      ensures Valid() && lists == old(lists) && heap == old(heap) - {e}
      ensures FiredNow(e) && Refiled(e)
    {
      hide DurationsOk, Total, Lengths, NoDup, QueuesOk, LaterOk, HeapOk, ListsOk, FlagsOk, CountOk, TimersOk, Scheduled;
      TimerCount();
      Facts(e);
      var r := Del(e, false, 0);
      TimerCount();
      Activate(e, Timeout);
    }

    lemma TimerCount()
      requires Core()
      ensures |timers| == |lists|
    {
    }

    // Every list but one is scheduled: the state in which the timer of that list runs.
    ghost predicate OthersScheduled(l: nat)
      reads this, all, timers, set m, e | 0 <= m < |lists| && e in lists[m] :: e
    {
      Core() && DurationsOk() && l < |lists| && forall m :: 0 <= m < |lists| && m != l ==> Scheduled(m)
    }

    // What common_timeout_callback has done so far to the events that were in the list.
    ghost predicate Expired(was: seq<Event>, k: nat, now: int)
      reads was
    {
      k <= |was| && forall i :: 0 <= i < k ==> was[i].deadline <= now && FiredNow(was[i])
    }

    // common_timeout_callback, the callback of the timer of list l: exactly the due events, which are those at its
    // front, are activated, and the timer is set again for the others.
    method CommonTimeoutCallback(l: nat, now: int, memoryLeft: bool) returns (ghost k: nat, ok: bool)
      requires OthersScheduled(l)
      modifies `queues, `laterQueue, `heap, `heapSpace, `lists, `eventCount, `eventCountActive, `eventContinue
      modifies lists[l]`timeout, lists[l]`inserted, lists[l]`active, lists[l]`later, lists[l]`res
      modifies timers[l..l + 1]`timeout, timers[l..l + 1]`active, timers[l..l + 1]`deadline, timers[l..l + 1]`common
      ensures OthersScheduled(l) && k <= old(|lists[l]|) && lists == old(lists)[l := old(lists[l])[k..]]
      ensures ok == (lists[l] == [] || old(timers[l].timeout) || |old(heap)| < old(heapSpace) || memoryLeft)
      ensures Valid() <==> ok || timers[l].active || timers[l].later
      ensures Expired(old(lists[l]), k, now)
      ensures lists[l] != [] ==> now < lists[l][0].deadline && (ok ==> timers[l].timeout)
      ensures !ok || lists[l] == [] ==> unchanged(timers[l])
      ensures lists[l] != [] && ok ==> timers[l].deadline == lists[l][0].deadline && timers[l].common.None?
      ensures forall i :: k <= i < |old(lists[l])| ==> unchanged(old(lists[l])[i])
      ensures !old(timers[l].active) ==> FiredInto(old(queues), old(laterQueue), old(lists[l])[..k])
      ensures forall i :: 0 <= i < |old(lists[l])| ==> old(lists[l])[i].deadline == old(lists[l][i].deadline)
      ensures l < |timers| && forall o :: o in old(all) && o != timers[l] && o !in old(lists[l]) ==> unchanged(o)
    {
      hide DurationsOk, Total, Lengths, NoDup, QueuesOk, LaterOk, HeapOk, ListsOk, FlagsOk, CountOk, TimersOk, Scheduled, Expired, FiredInto, Refiled;
      TimerCount();
      ListFacts(l);
      ghost var was := lists[l];
      k := FireDue(l, now);
      label rest:
      ok := Rearm(l, memoryLeft);
      ExpiredStill@rest(was, k, now, timers[l]);
      if queues == old@rest(queues) {
        FiredStill@rest(old(queues), old(laterQueue), was[..k]);
      }
    }

    // The loop of common_timeout_callback
    method FireDue(l: nat, now: int) returns (ghost k: nat)
      requires OthersScheduled(l)
      modifies `queues, `laterQueue, `heap, `lists, `eventCount, `eventCountActive, `eventContinue
      modifies lists[l]`timeout, lists[l]`inserted, lists[l]`active, lists[l]`later, lists[l]`res
      ensures OthersScheduled(l) && k <= |old(lists[l])| && lists == old(lists)[l := old(lists[l])[k..]]
      ensures Expired(old(lists[l]), k, now) && FiredInto(old(queues), old(laterQueue), old(lists[l])[..k])
      ensures lists[l] != [] ==> now < lists[l][0].deadline
      ensures forall i :: k <= i < |old(lists[l])| ==> unchanged(old(lists[l])[i])
      ensures l < |timers| && unchanged(timers[l]) && heap == old(heap)
    {
      hide DurationsOk, Total, Lengths, NoDup, QueuesOk, LaterOk, HeapOk, ListsOk, FlagsOk, CountOk, TimersOk, Scheduled, Expired, FiredInto, Refiled;
      TimerCount();
      NothingFired();
      k := 0;
      ghost var was := lists[l];
      NothingExpired(was, now);
      ListFacts(l);
      assert was[0..] == was && was[..0] == [];
      while lists[l] != []
        invariant OthersScheduled(l) && k <= |was| && lists == old(lists)[l := was[k..]] && Expired(was, k, now)
        invariant (forall i :: k <= i < |was| ==> unchanged(was[i])) && FiredInto(old(queues), old(laterQueue), was[..k])
        invariant unchanged(timers[l]) && heap == old(heap)
        decreases |lists[l]|
      {
        var e := lists[l][0];
        if e.deadline > now {
          break;
        }
        RestFacts(was, k);
        FireCommon(e, l, now, old(queues), old(laterQueue), was, k);
        k := k + 1;
      }
    }

    // The end of common_timeout_callback: the timer is set for what is left.
    method Rearm(l: nat, memoryLeft: bool) returns (ok: bool)
      requires OthersScheduled(l)
      modifies `queues, `heap, `heapSpace, `lists, `eventCount, `eventCountActive
      modifies timers[l..l + 1]`timeout, timers[l..l + 1]`active, timers[l..l + 1]`deadline, timers[l..l + 1]`common
      ensures OthersScheduled(l) && lists == old(lists) && (lists[l] != [] && ok ==> timers[l].timeout)
      ensures ok == (lists[l] == [] || old(timers[l].timeout) || |old(heap)| < old(heapSpace) || memoryLeft)
      ensures Valid() <==> ok || timers[l].active || timers[l].later
      ensures !ok || lists[l] == [] ==> unchanged(timers[l])
      ensures lists[l] != [] && ok ==> timers[l].deadline == lists[l][0].deadline && timers[l].common.None?
      ensures !old(timers[l].active) ==> queues == old(queues)
    {
      hide Core, DurationsOk, NoDup, Scheduled;
      TimerCount();
      ok := true;
      if lists[l] != [] {
        ok := Schedule(l, memoryLeft);
      }
      TimerCount();
      Waiting(l);
    }

    // The first event of the list is activated behind those that were in front of it.
    method FireCommon(e: Event, l: nat, now: int, ghost before: seq<seq<Event>>, ghost later: seq<Event>, ghost was: seq<Event>, ghost k: nat)
      requires OthersScheduled(l) && k < |was| && NoDup(was) && lists[l] == was[k..] && e == was[k] && e.deadline <= now
      requires Expired(was, k, now) && FiredInto(before, later, was[..k])
      modifies `queues, `laterQueue, `heap, `lists, `eventCount, `eventCountActive, `eventContinue
      modifies e`timeout, e`inserted, e`active, e`later, e`res
      ensures OthersScheduled(l) && lists == old(lists)[l := was[k + 1..]] && e !in timers && heap == old(heap)
      ensures Expired(was, k + 1, now) && FiredInto(before, later, was[..k + 1])
    {
      hide DurationsOk, Total, Lengths, NoDup, QueuesOk, LaterOk, HeapOk, ListsOk, FlagsOk, CountOk, TimersOk, Scheduled;
      hide Expired, FiredInto, Refiled;
      RestFacts(was, k);
      FrontFacts(l);
      QueuesFacts();
      label due:
      ExpireCommon(e, l);
      ExpiredNext@due(was, k, now);
      FiredNext@due(before, later, was[..k], e);
    }

    lemma RestFacts(was: seq<Event>, k: nat)
      requires NoDup(was) && k < |was|
      ensures was[k] !in was[..k] && was[..k + 1] == was[..k] + [was[k]]
      ensures was[k..][0] == was[k] && was[k..][1..] == was[k + 1..]
      ensures forall i :: k < i < |was| ==> was[i] != was[k]
    {
    }

    lemma ListFacts(l: nat)
      requires Core() && l < |lists|
      ensures NoDup(lists[l]) && l < |timers| && timers[l] !in lists[l]
    {
    }

    lemma NothingExpired(was: seq<Event>, now: int)
      ensures Expired(was, 0, now)
    {
    }

    twostate lemma ExpiredNext(new was: seq<Event>, new k: nat, new now: int)
      requires old(allocated(was)) && old(Expired(was, k, now)) && k < |was| && NoDup(was)
      requires was[k].deadline <= now && FiredNow(was[k])
      requires forall e :: e in was && e != was[k] ==> unchanged(e)
      ensures Expired(was, k + 1, now)
    {
      forall i | 0 <= i < k ensures was[i] != was[k] && was[i] in was {
        assert NoDup(was);
      }
    }

    twostate lemma ExpiredStill(new was: seq<Event>, new k: nat, new now: int, new t: Event)
      requires old(allocated(was)) && old(allocated(t)) && old(Expired(was, k, now)) && t !in was
      requires forall e :: e in was ==> unchanged(e)
      ensures Expired(was, k, now)
    {
      forall i | 0 <= i < k ensures was[i].deadline <= now && FiredNow(was[i]) {
        assert was[i] in was;
      }
    }

    lemma FrontFacts(l: nat)
      requires Core() && l < |lists| && lists[l] != []
      ensures var e := lists[l][0];
        && e in all && e.timeout && !e.finalizing && e.common == Some(l) && e !in timers
        && Without(lists[l], e) == lists[l][1..] && e !in lists[l][1..]
    {
    }

    // The first event of a common list is deleted and activated.
    method ExpireCommon(e: Event, l: nat)
      requires OthersScheduled(l) && e in all && e.timeout && !e.finalizing && e.common == Some(l) && e !in timers
      requires lists[l] != [] && e == lists[l][0] && Without(lists[l], e) == lists[l][1..]
      modifies `queues, `laterQueue, `heap, `lists, `eventCount, `eventCountActive, `eventContinue
      modifies e`timeout, e`inserted, e`active, e`later, e`res
      ensures OthersScheduled(l) && lists == old(lists)[l := old(lists[l])[1..]] && heap == old(heap)
      ensures FiredNow(e) && Refiled(e)
    {
      hide DurationsOk, Total, Lengths, NoDup, QueuesOk, LaterOk, HeapOk, ListsOk, FlagsOk, CountOk, TimersOk, Scheduled;
      Facts(e);
      var r := Del(e, false, 0);
      NotTimer(e);
      Activate(e, Timeout);
    }

    // event_queue_make_later_events_active: everything that was to be active later is active now, in the same order
    // behind the others of its priority.
    method MakeLaterActive()
      requires Valid()
      modifies `queues, `laterQueue, `eventCount, `eventCountActive, `deferredsQueued, laterQueue`active, laterQueue`later
      ensures Valid() && laterQueue == [] && |queues| == |old(queues)|
      ensures forall e :: e in old(laterQueue) ==> e.active && !e.later
      ensures forall p :: 0 <= p < |queues| ==> queues[p] == old(queues[p]) + OfPriority(old(laterQueue), p)
      ensures eventCount == old(eventCount) && eventCountActive == old(eventCountActive)
      ensures deferredsQueued == old(deferredsQueued) + SelfCbs(old(laterQueue))
    {
      hide DurationsOk, Total, Lengths, NoDup, QueuesOk, LaterOk, HeapOk, ListsOk, FlagsOk, CountOk, TimersOk, Scheduled, OfPriority;
      ghost var was := laterQueue;
      assert was[0..] == was;
      ghost var k := 0;
      while laterQueue != []
        invariant Valid() && k <= |was| && laterQueue == was[k..] && |queues| == |old(queues)|
        invariant forall i :: 0 <= i < k ==> was[i].active && !was[i].later
        invariant Carried(old(queues), was)
        invariant eventCount == old(eventCount) && eventCountActive == old(eventCountActive)
        invariant deferredsQueued + SelfCbs(laterQueue) == old(deferredsQueued) + SelfCbs(was)
        decreases |laterQueue|
      {
        var e := laterQueue[0];
        LaterFacts(e);
        label before:
        Promote(e);
        CarriedOn@before(old(queues), was, e);
        if e.selfCb {
          deferredsQueued := deferredsQueued + 1;
        }
        k := k + 1;
      }
      assert forall e :: e in was ==> exists i :: 0 <= i < |was| && was[i] == e;
      CarriedAll(old(queues), was);
    }

    // What is in a queue, and what will be behind it, is what was there and what was to be behind it.
    ghost predicate Carried(before: seq<seq<Event>>, later: seq<Event>)
      reads `queues, `laterQueue, laterQueue`pri, later`pri
    {
      |queues| == |before|
      && forall p :: 0 <= p < |queues| ==> queues[p] + OfPriority(laterQueue, p) == before[p] + OfPriority(later, p)
    }

    twostate lemma CarriedOn(new before: seq<seq<Event>>, new later: seq<Event>, new e: Event)
      requires old(allocated(before)) && old(allocated(later)) && old(allocated(e)) && old(Carried(before, later))
      requires old(laterQueue) != [] && e == old(laterQueue)[0] && laterQueue == old(laterQueue)[1..]
      requires forall r :: r in later || r in old(laterQueue) ==> r.pri == old(r.pri)
      requires e.pri < |old(queues)| && queues == old(queues)[e.pri := old(queues)[e.pri] + [e]]
      ensures Carried(before, later)
    {
      hide OfPriority;
      forall p | 0 <= p < |queues| ensures queues[p] + OfPriority(laterQueue, p) == before[p] + OfPriority(later, p) {
        assert old(queues)[p] + old(OfPriority(laterQueue, p)) == before[p] + old(OfPriority(later, p));
        OfPrioritySame(old(laterQueue), p);
        OfPrioritySame(later, p);
        OfPriorityHead(old(laterQueue), p);
        var rest := OfPriority(laterQueue, p);
        assert p == e.pri ==> old(queues)[p] + [e] + rest == old(queues)[p] + ([e] + rest);
      }
    }

    lemma CarriedAll(before: seq<seq<Event>>, later: seq<Event>)
      requires Carried(before, later) && laterQueue == []
      ensures forall p :: 0 <= p < |queues| ==> queues[p] == before[p] + OfPriority(later, p)
    {
      forall p | 0 <= p < |queues| ensures queues[p] == before[p] + OfPriority(later, p) {
        assert queues[p] + OfPriority(laterQueue, p) == queues[p];
      }
    }

    lemma LaterFacts(e: Event)
      requires Core() && laterQueue != [] && e == laterQueue[0]
      ensures e in all && e.later && !e.active && Without(laterQueue, e) == laterQueue[1..] && e !in laterQueue[1..]
    {
    }

    // The first event of the later queue becomes active.
    method Promote(e: Event)
      requires Valid() && laterQueue != [] && e == laterQueue[0] && e in all && e.later && !e.active
      requires Without(laterQueue, e) == laterQueue[1..]
      modifies `queues, `laterQueue, `eventCount, `eventCountActive, e`active, e`later
      ensures Valid() && laterQueue == old(laterQueue)[1..] && |queues| == |old(queues)| && e.active && !e.later
      ensures e.pri < |queues| && queues == old(queues)[e.pri := old(queues)[e.pri] + [e]]
      ensures eventCount == old(eventCount) && eventCountActive == old(eventCountActive)
    {
      hide DurationsOk, Total, Lengths, NoDup, QueuesOk, LaterOk, HeapOk, ListsOk, FlagsOk, CountOk, TimersOk, Scheduled;
      TimerCount();
      Facts(e);
      LengthsUpdate(queues, e.pri, queues[e.pri] + [e]);
      laterQueue := laterQueue[1..];
      e.later, e.active := false, true;
      queues := queues[e.pri := queues[e.pri] + [e]];
      LaterDrop(e);
      QueuesPut(e);
      FlagsKept(e);
      Counted(e);
      ScheduledStill(e);
      TimerCount();
    }

    // event_finalize_nolock_: what is being finalized is active one last time, and waits for nothing any more.
    method FinalizeEvent(e: Event)
      requires Valid() && e in all && e.isEvent && e !in timers
      modifies `queues, `laterQueue, `heap, `lists, `eventCount, `eventCountActive, `eventContinue
      modifies e`timeout, e`inserted, e`active, e`later, e`res, e`finalizing
      ensures Valid() && e.finalizing && !e.timeout && !e.inserted
      ensures !old(e.finalizing) ==> e.active && !e.later && e.res == {Finalize} && Refiled(e)
      ensures !old(e.finalizing) ==> lists == if old(e.timeout) then ListsLeft(old(lists), e, e.common) else old(lists)
      ensures old(e.finalizing) ==>
        && unchanged(`queues, `laterQueue, `lists) && e.active == old(e.active) && e.later == old(e.later) && e.res == old(e.res)
      ensures |queues| == |old(queues)|
    {
      hide Core, DurationsOk, NoDup, Scheduled, ListsLeft;
      Refile(e);
      MarkFinalizing(e);
    }

    // The event is deleted and activated, unless it is being finalized already.
    method Refile(e: Event)
      requires Valid() && e in all && e.isEvent && e !in timers
      modifies `queues, `laterQueue, `heap, `lists, `eventCount, `eventCountActive, `eventContinue
      modifies e`timeout, e`inserted, e`active, e`later, e`res
      ensures Valid() && !e.timeout && !e.inserted && |queues| == |old(queues)|
      ensures if e.finalizing
        then unchanged(`queues, `laterQueue, `lists) && e.active == old(e.active) && e.later == old(e.later) && e.res == old(e.res)
        else
          && e.active && !e.later && e.res == {Finalize} && Refiled(e)
          && lists == if old(e.timeout) then ListsLeft(old(lists), e, e.common) else old(lists)
    {
      hide DurationsOk, Total, Lengths, NoDup, QueuesOk, LaterOk, HeapOk, ListsOk, FlagsOk, CountOk, TimersOk, Scheduled, ListsLeft;
      NotTimer(e);
      Facts(e);
      var r := Delete(e, 0);
      Activate(e, Finalize);
      NotTimer(e);
    }

    // EVLIST_FINALIZING
    method MarkFinalizing(e: Event)
      requires Valid() && e in all && e !in timers && (e.finalizing || (!e.timeout && !e.inserted))
      modifies e`finalizing
      ensures Valid() && e.finalizing
    {
      hide DurationsOk, Total, Lengths, NoDup, QueuesOk, LaterOk, HeapOk, ListsOk, CountOk, Scheduled;
      e.finalizing := true;
    }

    // event_priority_set: not for an active event.
    method SetPriority(e: Event, pri: int) returns (r: int)
      requires Valid() && e in all
      modifies e`pri
      ensures Valid() && r == if e.active || !(0 <= pri < |queues|) then -1 else 0
      ensures e.pri == if r == 0 then pri else old(e.pri)
    {
      hide DurationsOk, Total, Lengths, NoDup, LaterOk, HeapOk, ListsOk, CountOk, TimersOk, Scheduled;
      if e.active {
        return -1;
      }
      if pri < 0 || pri >= |queues| {
        return -1;
      }
      e.pri := pri;
      return 0;
    }

    // A new event, which waits for nothing, is known.
    twostate lemma Grown(new e: Event)
      requires old(Core()) && e !in old(all) && all == old(all) + [e]
      requires !e.timeout && !e.inserted && !e.active && !e.later && !e.finalizing && e.pri < |queues|
      requires unchanged(`queues, `laterQueue, `heap, `heapSpace, `lists, `timers, `eventCount, `eventCountActive)
      requires forall o :: o in old(all) ==> unchanged(o)
      ensures Core()
    {
      hide DurationsOk, Total, Lengths, NoDup, QueuesOk, LaterOk, HeapOk, ListsOk, FlagsOk, CountOk, TimersOk;
      GrownQueues(e);
      GrownWaiting(e);
      GrownCount(e);
    }

    twostate lemma GrownQueues(new e: Event)
      requires old(QueuesOk()) && old(LaterOk()) && all == old(all) + [e] && !e.active && !e.later
      requires unchanged(`queues, `laterQueue) && forall o :: o in old(all) ==> unchanged(o)
      ensures QueuesOk() && LaterOk()
    {
      forall p, i | 0 <= p < |queues| && 0 <= i < |queues[p]|
        ensures queues[p][i] in all && queues[p][i].active && queues[p][i].pri == p
      {
        assert queues[p][i] in old(all);
      }
    }

    twostate lemma GrownWaiting(new e: Event)
      requires old(HeapOk()) && old(ListsOk()) && old(TimersOk()) && all == old(all) + [e] && !e.timeout
      requires unchanged(`heap, `heapSpace, `lists, `timers) && forall o :: o in old(all) ==> unchanged(o)
      ensures HeapOk() && ListsOk() && TimersOk()
    {
      forall l | 0 <= l < |lists| ensures Sorted(lists[l]) {
        assert old(Sorted(lists[l]));
        assert forall i :: 0 <= i < |lists[l]| ==> lists[l][i] in old(all);
      }
    }

    twostate lemma GrownCount(new e: Event)
      requires old(FlagsOk()) && old(CountOk()) && e !in old(all) && all == old(all) + [e]
      requires !e.timeout && !e.inserted && !e.active && !e.later && !e.finalizing && e.pri < |queues|
      requires unchanged(`queues, `laterQueue, `eventCount, `eventCountActive) && forall o :: o in old(all) ==> unchanged(o)
      ensures FlagsOk() && CountOk()
    {
      TotalSame(old(all));
      NewTotal(old(all), e);
      SnocFacts(old(all), e);
    }

    // event_assign, or event_callback_init_ for what is no event
    method Assign(isEvent: bool, io: bool, persist: bool, selfCb: bool) returns (e: Event)
      requires Valid() && |queues| > 0
      modifies `all
      ensures Valid() && fresh(e) && all == old(all) + [e] && e !in timers
      ensures !e.internal && e.isEvent == isEvent && e.io == io && e.persist == persist && e.selfCb == selfCb
      ensures e.pri == if isEvent then |queues| / 2 else |queues| - 1
      ensures !e.timeout && !e.inserted && !e.active && !e.later && !e.finalizing && e.common.None? && e.res == {}
    {
      hide DurationsOk, Total, Lengths, NoDup, QueuesOk, LaterOk, HeapOk, ListsOk, FlagsOk, CountOk, TimersOk, Scheduled;
      e := new Event(false, isEvent, io, persist, selfCb, if isEvent then |queues| / 2 else |queues| - 1);
      all := all + [e];
      Grown(e);
    }

    // event_base_init_common_timeout: every duration has one list. The memory is that for the array of lists and for
    // the list.
    method NewCommonTimeout(duration: Duration, memoryLeft: bool) returns (l: Option<nat>)
      requires Valid() && |queues| > 0
      modifies `all, `lists, `timers, `durations
      ensures Valid()
      ensures l.Some? ==> l.value < |durations| && l.value < |lists| && durations[l.value] == Normal(duration)
      ensures l.Some? ==> var d := durations[l.value]; d.sec * 1000000 + d.usec == duration.sec * 1000000 + duration.usec
      ensures l.None? <==> Normal(duration) !in old(durations) && (old(|lists|) == MAX_COMMON_TIMEOUTS || !memoryLeft)
      ensures Normal(duration) in old(durations) || l.None? ==> unchanged(this)
      ensures Normal(duration) !in old(durations) && l.Some? ==>
        && l.value == |old(lists)| && lists == old(lists) + [[]]
        && durations == old(durations) + [Normal(duration)] && |timers| == |old(timers)| + 1 && NewTimer()
      ensures Normal(duration) !in old(durations) && l.Some? ==> fresh(timers[|old(timers)|])
    {
      hide Total, Lengths, NoDup, QueuesOk, LaterOk, HeapOk, ListsOk, FlagsOk, CountOk, TimersOk, Scheduled;
      var d := Normal(duration);
      TimerCount();
      var i := 0;
      while i < |durations|
        invariant 0 <= i <= |durations| && d !in durations[..i]
      {
        if durations[i] == d {
          return Some(i);
        }
        i := i + 1;
      }
      assert durations[..i] == durations;
      if |lists| == MAX_COMMON_TIMEOUTS || !memoryLeft {
        return None;
      }
      AddList(d);
      return Some(|lists| - 1);
    }

    // There is one more timer, and it waits for nothing.
    twostate predicate NewTimer()
      reads this, timers
    {
      && |timers| == |old(timers)| + 1 && timers[..|old(timers)|] == old(timers)
      && var t := timers[|old(timers)|];
         && all == old(all) + [t] && t.isEvent && t.internal && t.common.None? && t.pri == 0
         && !t.timeout && !t.inserted && !t.active && !t.later && !t.finalizing
    }

    // A new list with a timer of its own.
    method AddList(d: Duration)
      requires Valid() && |queues| > 0 && d !in durations
      modifies `all, `lists, `timers, `durations
      ensures Valid() && lists == old(lists) + [[]] && durations == old(durations) + [d] && |timers| == |old(timers)| + 1
      ensures NewTimer() && fresh(timers[|old(timers)|])
    {
      hide Total, Lengths, NoDup, QueuesOk, LaterOk, HeapOk, ListsOk, FlagsOk, CountOk, TimersOk, Scheduled;
      TimerCount();
      var t := new Event(true, true, false, false, false, 0);
      all := all + [t];
      Grown(t);
      label known:
      lists := lists + [[]];
      timers := timers + [t];
      durations := durations + [d];
      ListAdded@known(t);
      TimerCount();
    }

    twostate lemma ListAdded(new t: Event)
      requires old(allocated(t)) && old(Core()) && t in all && t !in old(timers) && lists == old(lists) + [[]]
      requires timers == old(timers) + [t]
      requires t.internal && t.isEvent && !t.io && !t.persist && !t.finalizing && t.common.None?
      requires unchanged(`queues, `laterQueue, `heap, `heapSpace, `eventCount, `eventCountActive, `all)
      requires forall o :: o in all ==> unchanged(o)
      ensures Core() && |timers| == |lists|
      ensures forall l :: 0 <= l < |old(lists)| && old(Scheduled(l)) ==> Scheduled(l)
      ensures Scheduled(|lists| - 1)
    {
      hide Total, Lengths;
      SnocFacts(old(timers), t);
      TotalSame(all);
      forall l | 0 <= l < |lists| ensures Sorted(lists[l]) && NoDup(lists[l]) {
        if l < |old(lists)| {
          assert old(Sorted(lists[l])) && lists[l] == old(lists[l]);
          assert forall i :: 0 <= i < |lists[l]| ==> lists[l][i] in all;
        }
      }
      forall l | 0 <= l < |old(lists)| && old(Scheduled(l)) ensures Scheduled(l) {
        assert old(timers)[l] in all;
        assert lists[l] != [] ==> lists[l][0] in all;
      }
    }

    // Whose timer an event is.
    method TimerOf(e: Event) returns (l: Option<nat>)
      ensures l.None? ==> e !in timers
      ensures l.Some? ==> l.value < |timers| && timers[l.value] == e
    {
      var i := 0;
      while i < |timers|
        invariant 0 <= i <= |timers| && e !in timers[..i]
      {
        if timers[i] == e {
          return Some(i);
        }
        i := i + 1;
      }
      assert timers[..i] == timers;
      return None;
    }

    // One round of event_process_active_single_queue: the first callback of a queue is taken off and run. What the
    // callback of the user does is left to the user; the timer of a common timeout list runs here, and `fired` are the
    // due events at the front of its list.
    method Dispatch(p: nat, now: int, memoryLeft: bool) returns (e: Event, ghost fired: seq<Event>, ok: bool)
      requires Valid() && p < |queues| && queues[p] != []
      modifies `queues, `laterQueue, `heap, `heapSpace, `lists, `eventCount, `eventCountActive, `eventContinue
      modifies all`timeout, all`inserted, all`active, all`later, all`res, all`deadline, all`common
      ensures Core() && (Valid() <==> ok) && e == old(queues[p][0]) && e in all
      ensures e !in timers || |old(heap) - {e}| < old(heapSpace) || memoryLeft ==> ok
      ensures FiredInto(old(queues)[p := old(queues[p])[1..]], old(laterQueue), fired)
      ensures forall o :: o in old(all) && o != e && o !in fired ==> unchanged(o)
      ensures e !in timers ==> e.deadline == old(e.deadline) && e.common == old(e.common) && (e.timeout ==> old(e.timeout))
      ensures e !in timers ==> !e.active && fired == [] && e.res == old(e.res) && !e.later
      ensures e !in timers ==>
        if e.isEvent && !e.persist && !e.finalizing then !e.timeout && !e.inserted
        else e.timeout == old(e.timeout) && e.inserted == old(e.inserted) && heap == old(heap) && lists == old(lists)
      ensures forall l :: 0 <= l < |timers| && l < |lists| && timers[l] == e ==>
        && fired <= old(lists[l]) && lists == old(lists)[l := old(lists[l])[|fired|..]] && Expired(fired, |fired|, now)
        && (lists[l] != [] ==> now < lists[l][0].deadline && e.timeout == ok && (ok ==> e.deadline == lists[l][0].deadline))
        && (lists[l] == [] ==> !e.timeout) && e.common.None?
        && ok == (lists[l] == [] || |old(heap) - {e}| < old(heapSpace) || memoryLeft)
      ensures NoDup(fired) && forall o :: o in fired ==>
        && o in old(all) && o !in timers && old(o.timeout) && FiredNow(o) && o.deadline == old(o.deadline) && o.deadline <= now
      ensures e !in timers ==> lists == if old(e.timeout) && !e.timeout then ListsLeft(old(lists), e, old(e.common)) else old(lists)
      ensures |queues| == |old(queues)| && unchanged(`timers)
    {
      hide DurationsOk, Total, Lengths, NoDup, QueuesOk, LaterOk, HeapOk, ListsOk, FlagsOk, CountOk, TimersOk, Scheduled, FiredInto, Expired;
      e := queues[p][0];
      HeadActive(p);
      TimerCount();
      var timer := TimerOf(e);
      if timer.Some? {
        TimerFacts(timer.value);
        fired, ok := RunTimer(e, timer.value, now, memoryLeft);
        TimerFacts(timer.value);
      } else {
        NotTimer(e);
        RunUser(e);
        NotTimer(e);
        fired, ok := [], true;
        QueuesFacts();
        NothingFired();
      }
      FiredSize(old(queues)[p := old(queues[p])[1..]], old(laterQueue), fired);
    }

    lemma FiredSize(before: seq<seq<Event>>, later: seq<Event>, fired: seq<Event>)
      requires FiredInto(before, later, fired)
      ensures |queues| == |before|
    {
    }

    // A callback of the user is taken off its queue: an event that is not persistent is deleted.
    method RunUser(e: Event)
      requires Valid() && e in all && e.active && e !in timers
      modifies `queues, `laterQueue, `heap, `lists, `eventCount, `eventCountActive
      modifies e`timeout, e`inserted, e`active, e`later
      ensures Valid() && !e.active && !e.later && e.pri < |old(queues)| && e in old(queues[e.pri])
      ensures queues == old(queues)[e.pri := Without(old(queues[e.pri]), e)]
      ensures if e.isEvent && !e.persist && !e.finalizing then !e.timeout && !e.inserted
              else e.timeout == old(e.timeout) && e.inserted == old(e.inserted) && heap == old(heap) && lists == old(lists)
      ensures laterQueue == old(laterQueue)
      ensures lists == if old(e.timeout) && !e.timeout then ListsLeft(old(lists), e, e.common) else old(lists)
    {
      hide DurationsOk, Total, Lengths, NoDup, QueuesOk, LaterOk, HeapOk, ListsOk, FlagsOk, CountOk, TimersOk, Scheduled;
      NotTimer(e);
      Facts(e);
      if e.isEvent && !(e.persist || e.finalizing) {
        var r := Del(e, false, 0);
      } else {
        DropActive(e);
      }
      NotTimer(e);
    }

    lemma QueuesFacts()
      requires Core()
      ensures QueuesOk()
    {
    }

    // When no event is active and nothing in the heap is due, nothing at all is due.
    lemma NoneOverdue(now: int)
      requires Valid() && laterQueue == [] && (forall p :: 0 <= p < |queues| ==> queues[p] == [])
      requires forall e :: e in all && e.timeout && e.common.None? ==> now < e.deadline
      ensures forall e :: e in all && e.timeout ==> now < e.deadline
    {
      forall e | e in all && e.timeout ensures now < e.deadline {
        if e.common.Some? {
          var l := e.common.value;
          assert l < |lists| && e in lists[l] && Scheduled(l) && Sorted(lists[l]);
          var t := timers[l];
          assert t in all && t.common.None? && !t.active && !t.later;
          var i :| 0 <= i < |lists[l]| && lists[l][i] == e;
          assert lists[l][0].deadline <= lists[l][i].deadline;
        }
      }
    }

    lemma HeadActive(p: nat)
      requires Core() && p < |queues| && queues[p] != []
      ensures var e := queues[p][0]; e in all && e.active && e.pri == p && Without(queues[p], e) == queues[p][1..]
    {
    }

    // The timer of list l has gone off and its callback runs: exactly the due events of the list, which are at its front,
    // leave it and are active, in order; the others stay, and no other event has changed.
    method RunTimer(t: Event, l: nat, now: int, memoryLeft: bool) returns (ghost fired: seq<Event>, ok: bool)
      requires Valid() && l < |timers| && l < |lists| && t == timers[l] && t in all && t.active
      modifies `queues, `laterQueue, `heap, `heapSpace, `lists, `eventCount, `eventCountActive, `eventContinue
      modifies all`timeout, all`inserted, all`active, all`later, all`res, all`deadline, all`common
      ensures OthersScheduled(l) && (Valid() <==> ok)
      ensures ok == (lists[l] == [] || |old(heap) - {t}| < old(heapSpace) || memoryLeft)
      ensures t.pri < |old(queues)| && t in old(queues[t.pri])
      ensures FiredInto(old(queues)[t.pri := Without(old(queues[t.pri]), t)], old(laterQueue), fired)
      ensures fired <= old(lists[l]) && lists == old(lists)[l := old(lists[l])[|fired|..]] && Expired(fired, |fired|, now)
      ensures forall o :: o in old(all) && o != t && o !in fired ==> unchanged(o)
      ensures lists[l] != [] ==> now < lists[l][0].deadline && t.timeout == ok && (ok ==> t.deadline == lists[l][0].deadline)
      ensures (lists[l] == [] ==> !t.timeout) && t.common.None?
      ensures NoDup(fired) && forall o :: o in fired ==>
        && o in old(all) && o !in timers && old(o.timeout) && FiredNow(o) && o.deadline == old(o.deadline) && o.deadline <= now
    {
      hide DurationsOk, Total, Lengths, NoDup, QueuesOk, LaterOk, HeapOk, ListsOk, FlagsOk, CountOk, TimersOk, Scheduled, FiredInto, Expired, FiredNow, Removed;
      TimerCount();
      TimerFacts(l);
      ghost var was := lists[l];
      InHeap(t);
      var r := Del(t, false, 0);
      TimerFacts(l);
      ListMembers(l);
      assert timers[l..l + 1] == [t];
      label run:
      ghost var k;
      k, ok := CommonTimeoutCallback(l, now, memoryLeft);
      fired := was[..k];
      RunFrame@run(t, was, k);
      FiredWere@run(was, k, l, now);
      ExpiredFront(was, k, now);
      TimerFacts(l);
    }

    // What fired was in the list.
    twostate lemma FiredWere(new was: seq<Event>, new k: nat, new l: nat, new now: int)
      requires old(Core()) && l < |old(lists)| && was == old(lists)[l] && unchanged(`all, `timers)
      requires Expired(was, k, now) && forall i :: 0 <= i < |was| ==> was[i].deadline == old(was[i].deadline)
      ensures NoDup(was[..k])
      ensures forall o :: o in was[..k] ==>
        && o in all && o !in timers && old(o.timeout) && FiredNow(o) && o.deadline == old(o.deadline) && o.deadline <= now
    {
      forall o | o in was[..k] ensures
        && o in all && o !in timers && old(o.timeout) && FiredNow(o) && o.deadline == old(o.deadline) && o.deadline <= now
      {
        var i :| 0 <= i < k && was[i] == o;
      }
    }

    // Only the timer and the fired events have changed.
    twostate lemma RunFrame(new t: Event, new was: seq<Event>, new k: nat)
      requires old(allocated(t)) && old(allocated(was)) && k <= |was| && all == old(all)
      requires forall o :: o in old(all) && o != t && o !in was ==> unchanged(o)
      requires forall i :: k <= i < |was| ==> unchanged(was[i])
      ensures forall o :: o in old(all) && o != t && o !in was[..k] ==> unchanged(o)
    {
      forall o | o in old(all) && o != t && o !in was[..k] ensures unchanged(o) {
        assert forall i :: 0 <= i < k ==> was[i] == was[..k][i];
      }
    }

    lemma ExpiredFront(was: seq<Event>, k: nat, now: int)
      requires Expired(was, k, now)
      ensures Expired(was[..k], k, now)
    {
    }

    lemma ListMembers(l: nat)
      requires Core() && l < |lists|
      ensures forall i :: 0 <= i < |lists[l]| ==> lists[l][i] in all
    {
    }
  }

  // es without the fired events.
  ghost function Removed(es: seq<Event>, fired: seq<Event>): seq<Event>
  {
    if es == [] then [] else (if es[0] in fired then [] else [es[0]]) + Removed(es[1..], fired)
  }

  function Minus(es: seq<Event>, e: Event): seq<Event>
  {
    if e in es then Without(es, e) else es
  }

  lemma {:induction false} RemovedNone(es: seq<Event>)
    ensures Removed(es, []) == es
  {
    if es != [] {
      RemovedNone(es[1..]);
    }
  }

  lemma {:induction false} RemovedIn(es: seq<Event>, fired: seq<Event>)
    ensures forall e :: e in Removed(es, fired) ==> e in es && e !in fired
  {
    if es != [] {
      RemovedIn(es[1..], fired);
    }
  }

  lemma {:induction false} RemovedMore(es: seq<Event>, fired: seq<Event>, e: Event)
    requires NoDup(es)
    ensures Removed(es, fired + [e]) == Minus(Removed(es, fired), e)
  {
    hide Minus;
    if es == [] {
      MinusNone([], e);
    } else {
      RemovedMore(es[1..], fired, e);
      RemovedIn(es[1..], fired);
      MinusHead(es[0], Removed(es[1..], fired), e);
      if es[0] == e {
        MinusNone(Removed(es[1..], fired), e);
      }
      MinusNone([], e);
      assert es[0] !in es[1..];
      assert es[0] in fired + [e] <==> es[0] in fired || es[0] == e;
      assert [] + Removed(es[1..], fired) == Removed(es[1..], fired);
      assert [] + Removed(es[1..], fired + [e]) == Removed(es[1..], fired + [e]);
    }
  }

  lemma MinusNone(es: seq<Event>, e: Event)
    requires e !in es
    ensures Minus(es, e) == es
  {
  }

  lemma {:induction false} MinusAppend(a: seq<Event>, b: seq<Event>, e: Event)
    requires e !in b
    ensures Minus(a + b, e) == Minus(a, e) + b
  {
    hide Minus;
    if a == [] {
      assert a + b == b;
      MinusNone(a, e);
      MinusNone(b, e);
    } else if e !in a {
      MinusNone(a, e);
      MinusNone(a + b, e);
    } else {
      MinusAppend(a[1..], b, e);
      assert a + b == [a[0]] + (a[1..] + b) && a == [a[0]] + a[1..];
      MinusHead(a[0], a[1..], e);
      MinusHead(a[0], a[1..] + b, e);
    }
  }

  lemma MinusHead(x: Event, es: seq<Event>, e: Event)
    ensures Minus([x] + es, e) == if x == e then es else [x] + Minus(es, e)
  {
    assert ([x] + es)[1..] == es;
  }

  lemma {:induction false} OfPrioritySnoc(es: seq<Event>, e: Event, p: nat)
    ensures OfPriority(es + [e], p) == OfPriority(es, p) + if e.pri == p then [e] else []
    ensures forall o :: o in OfPriority(es, p) ==> o in es
  {
    if es == [] {
      assert es + [e] == [e];
    } else {
      OfPrioritySnoc(es[1..], e, p);
      assert (es + [e])[1..] == es[1..] + [e];
    }
  }

  // One more event fires: what that means for one queue.
  lemma FiredOne(was: seq<Event>, fired: seq<Event>, e: Event, p: nat, q: seq<Event>)
    requires q == Removed(was, fired) + OfPriority(fired, p) && e !in fired && NoDup(was)
    ensures Minus(q, e) + (if e.pri == p then [e] else []) == Removed(was, fired + [e]) + OfPriority(fired + [e], p)
  {
    OfPrioritySnoc(fired, e, p);
    RemovedMore(was, fired, e);
    RemovedIn(was, fired);
    MinusAppend(Removed(was, fired), OfPriority(fired, p), e);
  }

  // The events of one priority, in order.
  // The deferred callbacks among these, which count against MAX_DEFERREDS_QUEUED
  ghost function SelfCbs(es: seq<Event>): nat
  {
    if es == [] then 0 else (if es[0].selfCb then 1 else 0) + SelfCbs(es[1..])
  }

  ghost function OfPriority(es: seq<Event>, p: nat): seq<Event>
    reads es`pri
  {
    if es == [] then [] else (if es[0].pri == p then [es[0]] else []) + OfPriority(es[1..], p)
  }

  lemma OfPriorityHead(es: seq<Event>, p: nat)
    requires es != []
    ensures OfPriority(es, p) == (if es[0].pri == p then [es[0]] else []) + OfPriority(es[1..], p)
  {
  }

  twostate lemma {:induction false} OfPrioritySame(new es: seq<Event>, p: nat)
    requires old(allocated(es)) && forall e :: e in es ==> e.pri == old(e.pri)
    ensures OfPriority(es, p) == old(OfPriority(es, p))
  {
    if es != [] {
      OfPrioritySame(es[1..], p);
    }
  }

  ghost predicate Sorted(es: seq<Event>)
    reads es`deadline
  {
    forall i, j :: 0 <= i < j < |es| ==> es[i].deadline <= es[j].deadline
  }

  lemma {:induction false} WithoutSorted(es: seq<Event>, e: Event)
    requires e in es && Sorted(es)
    ensures Sorted(Without(es, e))
    ensures Without(es, e) != [] ==> es[0].deadline <= Without(es, e)[0].deadline
    decreases |es|
  {
    if es[0] != e {
      WithoutSorted(es[1..], e);
      var r := Without(es[1..], e);
      forall i | 0 <= i < |r| ensures es[0].deadline <= r[i].deadline {
        WithoutIn(es[1..], e, i);
      }
      ConsSorted(es[0], r);
    }
  }

  lemma SortedSnoc(es: seq<Event>, e: Event)
    requires Sorted(es) && forall o :: o in es ==> o.deadline <= e.deadline
    ensures Sorted(es + [e])
  {
  }

  lemma ConsSorted(e: Event, es: seq<Event>)
    requires Sorted(es) && forall i :: 0 <= i < |es| ==> e.deadline <= es[i].deadline
    ensures Sorted([e] + es)
  {
  }

  lemma InsertedSorted(es: seq<Event>, e: Event, k: nat)
    requires NoDup(es) && Sorted(es) && e !in es && k <= |es|
    requires (k > 0 ==> es[k - 1].deadline <= e.deadline) && forall i :: k <= i < |es| ==> e.deadline < es[i].deadline
    ensures NoDup(es[..k] + [e] + es[k..]) && Sorted(es[..k] + [e] + es[k..])
  {
  }

  lemma {:induction false} WithoutIn(es: seq<Event>, e: Event, i: nat)
    requires e in es && i < |es| - 1
    ensures Without(es, e)[i] in es
    decreases |es|
  {
    if es[0] != e && i > 0 {
      WithoutIn(es[1..], e, i - 1);
    }
  }

  lemma {:induction false} NoLengths(qs: seq<seq<Event>>)
    requires forall p :: 0 <= p < |qs| ==> qs[p] == []
    ensures Lengths(qs) == 0
  {
    if qs != [] {
      NoLengths(qs[1..]);
    }
  }
}
