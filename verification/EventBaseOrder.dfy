/** Which callbacks run in an iteration of the loop (event.c), and in which order: what follows from EventBaseSpec for every
    history of an event base. */
module EventBaseOrder {
  import opened EventBase
  import opened EventBaseSpec

  // -- Queues and lists hold what the events say, in every history --

  // The queue of a priority holds exactly the active events of this priority, each once. All else in it are timers of common
  // lists, which have priority 0.
  ghost predicate Row(q: seq<Event>, p: nat, timers: seq<Event>, looks: map<Event, Look>)
  {
    && NoDup(q)
    && (forall e :: e in looks ==> (e in q <==> looks[e].active && looks[e].pri == p))
    && (forall e :: e in q && e !in looks ==> e in timers && p == 0)
  }

  // A common list holds events that wait in it, in the order of their deadlines.
  ghost predicate Listed(es: seq<Event>, l: nat, looks: map<Event, Look>)
  {
    NoDup(es) && ByDeadline(es, looks) && forall e :: e in es ==> looks[e].waits.value.common == Some(l)
  }

  ghost predicate ByDeadline(es: seq<Event>, looks: map<Event, Look>)
  {
    && (forall i :: 0 <= i < |es| ==> Waiting(looks, es[i]))
    && forall i, j :: 0 <= i < j < |es| ==> looks[es[i]].waits.value.deadline <= looks[es[j]].waits.value.deadline
  }

  lemma ByDeadlineCons(e: Event, es: seq<Event>, looks: map<Event, Look>)
    requires Waiting(looks, e)
    ensures ByDeadline([e] + es, looks) <==>
      ByDeadline(es, looks) && forall o :: o in es ==> looks[e].waits.value.deadline <= looks[o].waits.value.deadline
  {
    var fs := [e] + es;
    assert fs[0] == e && forall i :: 0 <= i < |es| ==> fs[i + 1] == es[i];
    assert forall o :: o in fs <==> o == e || o in es;
    if ByDeadline(fs, looks) {
      forall o | o in es ensures looks[e].waits.value.deadline <= looks[o].waits.value.deadline {
        var i :| 0 <= i < |es| && es[i] == o;
        assert fs[i + 1] == o;
      }
      forall i, j | 0 <= i < j < |es| ensures looks[es[i]].waits.value.deadline <= looks[es[j]].waits.value.deadline {
        assert fs[i + 1] == es[i] && fs[j + 1] == es[j];
      }
    }
  }

  lemma {:induction false} MinusByDeadline(es: seq<Event>, e: Event, looks: map<Event, Look>)
    requires ByDeadline(es, looks) && NoDup(es)
    ensures ByDeadline(Minus(es, e), looks)
  {
    hide Minus, ByDeadline;
    MinusFacts(es, e);
    if es == [] {
      MinusNone(es, e);
    } else {
      var x, tail := es[0], es[1..];
      assert es == [x] + tail;
      AllWait(es, looks);
      ByDeadlineCons(x, tail, looks);
      MinusHead(x, tail, e);
      MinusByDeadline(tail, e, looks);
      MinusFacts(tail, e);
      AllWait(tail, looks);
      ByDeadlineCons(x, Minus(tail, e), looks);
    }
  }

  lemma SameDeadlines(es: seq<Event>, looks: map<Event, Look>, looks': map<Event, Look>)
    requires ByDeadline(es, looks) && forall e :: e in es ==> e in looks' && looks'[e].waits == looks[e].waits
    ensures ByDeadline(es, looks')
  {
  }

  ghost predicate Held(laterQueue: seq<Event>, looks: map<Event, Look>)
  {
    && NoDup(laterQueue) && (forall e :: e in laterQueue ==> e in looks)
    && (forall e :: e in looks ==> (e in laterQueue <==> looks[e].later))
  }

  ghost predicate Proper(n: nat, timers: seq<Event>, looks: map<Event, Look>)
  {
    && n > 0 && (forall e :: e in timers ==> e !in looks)
    && (forall e :: e in looks ==> looks[e].pri < n && !(looks[e].active && looks[e].later))
  }

  ghost predicate Filed(v: View)
  {
    && Proper(|v.queues|, v.timers, v.looks) && Held(v.laterQueue, v.looks)
    && (forall p :: 0 <= p < |v.queues| ==> Row(v.queues[p], p, v.timers, v.looks))
    && (forall l :: 0 <= l < |v.lists| ==> Listed(v.lists[l], l, v.looks))
  }

  lemma {:induction false} WithoutIn(es: seq<Event>, e: Event)
    requires e in es
    ensures forall o :: o in Without(es, e) ==> o in es
    decreases |es|
  {
    if es[0] != e {
      WithoutIn(es[1..], e);
    }
  }

  lemma MinusFacts(es: seq<Event>, e: Event)
    requires NoDup(es)
    ensures NoDup(Minus(es, e)) && e !in Minus(es, e)
    ensures (forall o :: o in Minus(es, e) ==> o in es) && forall o :: o in es && o != e ==> o in Minus(es, e)
  {
    if e in es {
      WithoutFacts(es, e);
      WithoutIn(es, e);
    }
  }

  lemma {:induction false} RemovedFacts(es: seq<Event>, fired: seq<Event>)
    requires NoDup(es)
    ensures NoDup(Removed(es, fired)) && forall o :: o in Removed(es, fired) <==> o in es && o !in fired
  {
    if es != [] {
      RemovedFacts(es[1..], fired);
      assert es[0] !in es[1..];
      Joined(if es[0] in fired then [] else [es[0]], Removed(es[1..], fired));
    }
  }

  lemma {:induction false} OfPriFacts(looks: map<Event, Look>, es: seq<Event>, p: nat)
    requires NoDup(es)
    ensures NoDup(OfPri(looks, es, p))
    ensures forall o :: o in OfPri(looks, es, p) ==> o in es && Pri(looks, o) == p
    ensures forall o :: o in es && Pri(looks, o) == p ==> o in OfPri(looks, es, p)
  {
    if es != [] {
      OfPriFacts(looks, es[1..], p);
      assert es[0] !in es[1..];
      Joined(if Pri(looks, es[0]) == p then [es[0]] else [], OfPri(looks, es[1..], p));
    }
  }

  lemma Freed(es: seq<Event>, fired: seq<Event>) returns (r: seq<Event>)
    requires NoDup(es)
    ensures r == Removed(es, fired) && NoDup(r) && forall o :: o in r <==> o in es && o !in fired
  {
    r := Removed(es, fired);
    RemovedFacts(es, fired);
  }

  lemma Joined(a: seq<Event>, b: seq<Event>)
    requires NoDup(a) && NoDup(b) && forall e :: e in a ==> e !in b
    ensures NoDup(a + b) && forall e :: e in a + b <==> e in a || e in b
  {
    assert (forall i :: 0 <= i < |a| ==> a[i] in a) && forall i :: 0 <= i < |b| ==> b[i] in b;
  }

  // One event has changed, and every queue has it or not as it says now.
  lemma Changed(q: seq<Event>, r: seq<Event>, p: nat, timers: seq<Event>, looks: map<Event, Look>, e: Event, k: Look)
    requires Row(q, p, timers, looks) && e in looks
    requires r == q || r == Minus(q, e) || (e !in q && r == q + [e])
    requires e in r <==> k.active && k.pri == p
    ensures Row(r, p, timers, looks[e := k])
  {
    MinusFacts(q, e);
    if e !in q {
      SnocFacts(q, e);
    }
  }

  lemma ChangedLater(q: seq<Event>, r: seq<Event>, looks: map<Event, Look>, e: Event, k: Look)
    requires Held(q, looks) && e in looks
    requires r == q || r == Minus(q, e) || (e !in q && r == q + [e])
    requires e in r <==> k.later
    ensures Held(r, looks[e := k])
  {
    MinusFacts(q, e);
    if e !in q {
      SnocFacts(q, e);
    }
  }

  lemma ChangedList(es: seq<Event>, fs: seq<Event>, l: nat, looks: map<Event, Look>, e: Event, k: Look)
    requires Listed(es, l, looks) && e in looks
    requires (fs == es && k.waits == looks[e].waits) || fs == Minus(es, e) || (fs == es && e !in es)
    ensures Listed(fs, l, looks[e := k])
  {
    hide NoDup, ByDeadline, Minus;
    MinusFacts(es, e);
    MinusByDeadline(es, e, looks);
    AllWait(fs, looks);
    SameDeadlines(fs, looks, looks[e := k]);
  }

  lemma AllWait(es: seq<Event>, looks: map<Event, Look>)
    requires ByDeadline(es, looks)
    ensures forall e :: e in es ==> Waiting(looks, e)
  {
  }

  // An event that waits in no common list, or in this one, is in the others not.
  lemma ListsLeft(v: View, e: Event, k: Look, l: nat)
    requires Filed(v) && e in v.looks && l < |v.lists|
    ensures Listed(ListMinus(v.lists, v.looks[e].waits, e)[l], l, v.looks[e := k])
  {
    hide NoDup;
    var left := ListMinus(v.lists, v.looks[e].waits, e);
    if v.looks[e].waits.Some? && v.looks[e].waits.value.common == Some(l) {
      assert left[l] == Minus(v.lists[l], e);
    } else {
      assert left[l] == v.lists[l] && e !in v.lists[l];
    }
    ChangedList(v.lists[l], left[l], l, v.looks, e, k);
  }

  // What may become of a queue when e changes
  ghost predicate Altered(q: seq<Event>, r: seq<Event>, e: Event, there: bool)
  {
    (r == q || r == Minus(q, e) || (e !in q && r == q + [e])) && (e in r <==> there)
  }

  lemma OneFiled(v: View, w: View, e: Event, k: Look)
    requires Filed(v) && e in v.looks && |w.queues| == |v.queues| && |w.lists| == |v.lists|
    requires w == v.(queues := w.queues, laterQueue := w.laterQueue, lists := w.lists, looks := v.looks[e := k])
    requires k.pri < |v.queues| && !(k.active && k.later)
    requires forall p :: 0 <= p < |v.queues| ==> Altered(v.queues[p], w.queues[p], e, k.active && k.pri == p)
    requires Altered(v.laterQueue, w.laterQueue, e, k.later)
    requires (w.lists == v.lists && k.waits == v.looks[e].waits) || w.lists == ListMinus(v.lists, v.looks[e].waits, e)
    ensures Filed(w)
  {
    hide NoDup, ListMinus, Held, Listed, Row;
    forall p | 0 <= p < |v.queues| ensures Row(w.queues[p], p, w.timers, w.looks) {
      Changed(v.queues[p], w.queues[p], p, v.timers, v.looks, e, k);
    }
    ChangedLater(v.laterQueue, w.laterQueue, v.looks, e, k);
    forall l | 0 <= l < |v.lists| ensures Listed(w.lists[l], l, w.looks) {
      if w.lists == v.lists && k.waits == v.looks[e].waits {
        ChangedList(v.lists[l], w.lists[l], l, v.looks, e, k);
      } else {
        ListsLeft(v, e, k, l);
      }
    }
  }

  // Where e is
  lemma Where(v: View, e: Event)
    requires Filed(v) && e in v.looks
    ensures v.looks[e].pri < |v.queues| && !(v.looks[e].active && v.looks[e].later)
    ensures forall p :: 0 <= p < |v.queues| ==> (e in v.queues[p] <==> v.looks[e].active && v.looks[e].pri == p)
    ensures e in v.laterQueue <==> v.looks[e].later
    ensures forall p :: 0 <= p < |v.queues| ==> e !in Minus(v.queues[p], e)
    ensures e !in Minus(v.laterQueue, e)
  {
    hide NoDup, Listed;
    forall p | 0 <= p < |v.queues| ensures e !in Minus(v.queues[p], e) {
      MinusFacts(v.queues[p], e);
    }
    MinusFacts(v.laterQueue, e);
  }

  lemma DeletedFiled(v: View, e: Event)
    requires Filed(v) && e in v.looks
    ensures Filed(Deleted(v, e))
  {
    hide Filed, Minus;
    Where(v, e);
    if !v.looks[e].final {
      OneFiled(v, Deleted(v, e), e, Idle(v.looks[e]));
    }
  }

  lemma ActivatedFiled(v: View, e: Event, res: Res)
    requires Filed(v) && e in v.looks
    ensures Filed(Activated(v, e, res))
  {
    hide Filed, Minus;
    Where(v, e);
    if !v.looks[e].final {
      OneFiled(v, Activated(v, e, res), e, Activated(v, e, res).looks[e]);
    }
  }

  lemma ActivatedLaterFiled(v: View, e: Event, res: Res)
    requires Filed(v) && e in v.looks
    ensures Filed(ActivatedLater(v, e, res))
  {
    hide Filed, Minus;
    Where(v, e);
    OneFiled(v, ActivatedLater(v, e, res), e, ActivatedLater(v, e, res).looks[e]);
  }

  lemma PrioritizedFiled(v: View, e: Event, pri: int)
    requires Filed(v) && e in v.looks
    ensures Filed(Prioritized(v, e, pri))
  {
    hide Filed, Minus;
    Where(v, e);
    if !v.looks[e].active && 0 <= pri < |v.queues| {
      OneFiled(v, Prioritized(v, e, pri), e, v.looks[e].(pri := pri));
    }
  }

  lemma FinalizedFiled(v: View, e: Event)
    requires Filed(v) && e in v.looks
    ensures Filed(Finalized(v, e))
  {
    hide Filed, Minus;
    var k, u := v.looks[e], Deleted(v, e);
    if !k.final {
      DeletedFiled(v, e);
      Where(u, e);
      assert u.looks[e := Finalized(v, e).looks[e]] == Finalized(v, e).looks;
      OneFiled(u, Finalized(v, e), e, Finalized(v, e).looks[e]);
    }
  }

  lemma NotListed(v: View, e: Event, l: nat)
    requires Filed(v) && e in v.looks && l < |v.lists|
    ensures e !in ListMinus(v.lists, v.looks[e].waits, e)[l]
  {
    hide NoDup;
    MinusFacts(v.lists[l], e);
  }

  // An event is put into the list that it waits in.
  lemma PutFiled(v: View, e: Event, l: nat, i: nat)
    requires Filed(v) && Waiting(v.looks, e) && v.looks[e].waits.value.common == Some(l)
    requires l < |v.lists| && e !in v.lists[l] && Place(v.looks, v.lists[l], v.looks[e].waits.value.deadline, i)
    ensures Filed(v.(lists := v.lists[l := v.lists[l][..i] + [e] + v.lists[l][i..]]))
  {
    hide Row, NoDup, ByDeadline;
    PutOnce(v.lists[l], e, i);
    PutByDeadline(v.looks, v.lists[l], e, i);
  }

  lemma PutByDeadline(looks: map<Event, Look>, es: seq<Event>, e: Event, i: nat)
    requires ByDeadline(es, looks) && Waiting(looks, e) && Place(looks, es, looks[e].waits.value.deadline, i)
    ensures ByDeadline(es[..i] + [e] + es[i..], looks)
    ensures forall j :: 0 <= j < i ==> looks[es[j]].waits.value.deadline <= looks[e].waits.value.deadline
  {
    var fs, d := es[..i] + [e] + es[i..], looks[e].waits.value.deadline;
    assert forall j :: 0 <= j < |fs| ==> fs[j] == if j < i then es[j] else if j == i then e else es[j - 1];
    forall j | 0 <= j < i ensures looks[es[j]].waits.value.deadline <= d {
      assert looks[es[j]].waits.value.deadline <= looks[es[i - 1]].waits.value.deadline;
    }
    forall a, b | 0 <= a < b < |fs| ensures looks[fs[a]].waits.value.deadline <= looks[fs[b]].waits.value.deadline {
      if a == i {
        assert d < looks[es[b - 1]].waits.value.deadline;
      } else if b != i {
        var c, e := if a < i then a else a - 1, if b < i then b else b - 1;
        assert looks[es[c]].waits.value.deadline <= looks[es[e]].waits.value.deadline;
      }
    }
  }

  lemma PutOnce(es: seq<Event>, e: Event, i: nat)
    requires NoDup(es) && e !in es && i <= |es|
    ensures NoDup(es[..i] + [e] + es[i..]) && forall o :: o in es[..i] + [e] + es[i..] <==> o in es || o == e
  {
    assert es == es[..i] + es[i..];
    assert forall j :: 0 <= j < |es| ==> es[j] in es;
  }

  // The timer of a list is not active any more.
  lemma TimerOff(v: View, t: Event)
    requires Filed(v) && t in v.timers
    ensures Filed(v.(queues := QueueMinus(v.queues, 0, t)))
  {
    hide NoDup, Listed, Held;
    MinusFacts(v.queues[0], t);
    assert Row(Minus(v.queues[0], t), 0, v.timers, v.looks);
  }

  lemma TimeoutFiled(v: View, w: View, e: Event, tv: Tv, now: int)
    requires Filed(v) && e in v.looks && TimeoutAdded(v, w, e, tv, now)
    ensures Filed(w)
  {
    hide Filed, Minus, Place, ListMinus;
    var k, left := v.looks[e], ListMinus(v.lists, v.looks[e].waits, e);
    var queues := if k.active && k.late then QueueMinus(v.queues, k.pri, e) else v.queues;
    var u := v.(queues := queues, lists := left, looks := w.looks);
    Where(v, e);
    OneFiled(v, u, e, w.looks[e]);
    if tv.common.Some? {
      var l := tv.common.value;
      NotListed(v, e, l);
      var i := Put(v, w, e, l, left, Deadline(tv, now));
      PlaceSame(v.looks, w.looks, left[l], Deadline(tv, now), i);
      PutFiled(u, e, l, i);
      if w.queues != queues {
        TimerOff(u.(lists := w.lists), v.timers[l]);
      }
    }
  }

  lemma PlaceSame(looks: map<Event, Look>, looks': map<Event, Look>, es: seq<Event>, deadline: int, k: nat)
    requires Place(looks, es, deadline, k) && forall e :: e in es ==> Waiting(looks', e) && looks'[e] == looks[e]
    ensures Place(looks', es, deadline, k)
  {
  }

  lemma Put(v: View, w: View, e: Event, l: nat, left: seq<seq<Event>>, d: int) returns (i: nat)
    requires l < |left|
    requires exists i: nat :: Place(v.looks, left[l], d, i) && w.lists == left[l := left[l][..i] + [e] + left[l][i..]]
    ensures Place(v.looks, left[l], d, i) && w.lists == left[l := left[l][..i] + [e] + left[l][i..]]
    ensures forall o :: o in left[l] ==> Waiting(v.looks, o)
  {
    i :| Place(v.looks, left[l], d, i) && w.lists == left[l := left[l][..i] + [e] + left[l][i..]];
  }

  // What was to be active later is.
  lemma HastenedFiled(v: View)
    requires Filed(v)
    ensures Filed(Hastened(v))
  {
    hide Row, Listed;
    var w := Hastened(v);
    forall p | 0 <= p < |v.queues| ensures Row(w.queues[p], p, w.timers, w.looks) {
      HastenedRow(v, p);
    }
    forall l | 0 <= l < |v.lists| ensures Listed(w.lists[l], l, w.looks) {
      HastenedListed(v, l);
    }
  }

  lemma HastenedRow(v: View, p: nat)
    requires Proper(|v.queues|, v.timers, v.looks) && Held(v.laterQueue, v.looks)
    requires p < |v.queues| && Row(v.queues[p], p, v.timers, v.looks)
    ensures var w := Hastened(v); Row(w.queues[p], p, w.timers, w.looks)
  {
    hide NoDup;
    OfPriFacts(v.looks, v.laterQueue, p);
    Joined(v.queues[p], OfPri(v.looks, v.laterQueue, p));
  }

  lemma HastenedListed(v: View, l: nat)
    requires l < |v.lists| && Listed(v.lists[l], l, v.looks)
    ensures var w := Hastened(v); Listed(w.lists[l], l, w.looks)
  {
    hide NoDup, ByDeadline;
    AllWait(v.lists[l], v.looks);
    SameDeadlines(v.lists[l], v.looks, Hastened(v).looks);
  }

  // Timeouts have fired, and what has fired is in none of these lists.
  lemma FiringFiled(v: View, fired: seq<Event>, lists: seq<seq<Event>>)
    requires Filed(v) && NoDup(fired) && forall e :: e in fired ==> e in v.looks || e in v.timers
    requires forall l :: 0 <= l < |lists| ==>
      l < |v.lists| && NoDup(lists[l]) && ByDeadline(lists[l], v.looks) && forall e :: e in lists[l] ==> e in v.lists[l] && e !in fired
    ensures Filed(AfterFiring(v, fired).(lists := lists))
  {
    hide NoDup, Removed, OfPri, Held, Row, Listed, AfterFiring, ByDeadline;
    var w := AfterFiring(v, fired).(lists := lists);
    FiringProper(v, fired);
    forall p | 0 <= p < |v.queues| ensures Row(w.queues[p], p, w.timers, w.looks) {
      FiringRow(v, fired, p);
    }
    FiringHeld(v, fired);
    forall l | 0 <= l < |lists| ensures Listed(lists[l], l, w.looks) {
      FiringListed(v, fired, l, lists[l]);
    }
  }

  lemma FiringProper(v: View, fired: seq<Event>)
    requires Proper(|v.queues|, v.timers, v.looks)
    ensures var w := AfterFiring(v, fired); |w.queues| == |v.queues| && Proper(|w.queues|, w.timers, w.looks)
  {
    hide Removed, OfPri;
  }

  lemma FiringLooks(v: View, fired: seq<Event>)
    ensures var w := AfterFiring(v, fired);
      && (forall e :: e in w.looks <==> e in v.looks)
      && (forall e :: e in v.looks && e in fired ==> w.looks[e] == Idle(v.looks[e]).(active := true, late := true))
      && (forall e :: e in v.looks && e !in fired ==> w.looks[e] == v.looks[e])
  {
  }

  lemma FiringRow(v: View, fired: seq<Event>, p: nat)
    requires Proper(|v.queues|, v.timers, v.looks) && p < |v.queues| && Row(v.queues[p], p, v.timers, v.looks)
    requires NoDup(fired) && forall e :: e in fired ==> e in v.looks || e in v.timers
    ensures var w := AfterFiring(v, fired); Row(w.queues[p], p, w.timers, w.looks)
  {
    hide NoDup;
    var left := Freed(v.queues[p], fired);
    var more := OfPri(v.looks, fired, p);
    OfPriFacts(v.looks, fired, p);
    Joined(left, more);
    FiringLooks(v, fired);
    Refilled(v, fired, p, left, more, AfterFiring(v, fired).looks);
    assert AfterFiring(v, fired).queues[p] == left + more;
  }

  lemma Refilled(v: View, fired: seq<Event>, p: nat, left: seq<Event>, more: seq<Event>, looks: map<Event, Look>)
    requires Proper(|v.queues|, v.timers, v.looks) && p < |v.queues| && Row(v.queues[p], p, v.timers, v.looks)
    requires (forall e :: e in fired ==> e in v.looks || e in v.timers) && NoDup(left + more)
    requires forall e :: e in left <==> e in v.queues[p] && e !in fired
    requires forall e :: e in more <==> e in fired && Pri(v.looks, e) == p
    requires forall e :: e in looks <==> e in v.looks
    requires forall e :: e in v.looks && e in fired ==> looks[e].active && looks[e].pri == v.looks[e].pri
    requires forall e :: e in v.looks && e !in fired ==> looks[e] == v.looks[e]
    ensures Row(left + more, p, v.timers, looks)
  {
    hide NoDup;
  }

  lemma FiringHeld(v: View, fired: seq<Event>)
    requires Held(v.laterQueue, v.looks)
    ensures var w := AfterFiring(v, fired); Held(w.laterQueue, w.looks)
  {
    hide NoDup;
    var left := Freed(v.laterQueue, fired);
    FiringLooks(v, fired);
    assert AfterFiring(v, fired).laterQueue == left;
  }

  lemma FiringListed(v: View, fired: seq<Event>, l: nat, es: seq<Event>)
    requires l < |v.lists| && Listed(v.lists[l], l, v.looks) && NoDup(es) && ByDeadline(es, v.looks)
    requires forall e :: e in es ==> e in v.lists[l] && e !in fired
    ensures Listed(es, l, AfterFiring(v, fired).looks)
  {
    hide NoDup, AfterFiring, ByDeadline;
    FiringLooks(v, fired);
    AllWait(es, v.looks);
    SameDeadlines(es, v.looks, AfterFiring(v, fired).looks);
  }

  lemma PassedFiled(v: View, w: View, out: seq<Out>, now: int)
    requires Filed(v) && Passed(v, w, out, now)
    ensures Filed(w)
  {
    hide NoDup, Row, Held, Firings, OfPri, Removed;
    var fired := FiredIn(out);
    assert forall l, e :: 0 <= l < |v.lists| && e in v.lists[l] && e in fired ==> DueAlone(v.looks[e], now);
    FiringFiled(v, fired, v.lists);
    assert AfterFiring(v, fired).(lists := v.lists) == AfterFiring(v, fired);
  }

  lemma DispatchedFiled(v: View, w: View, out: seq<Out>, p: nat, now: int)
    requires Filed(v) && Dispatched(v, w, out, p, now)
    ensures Filed(w)
  {
    hide Filed, AfterFiring, ListMinus, Rung;
    if p < |v.queues| && v.queues[p] != [] {
      var e := v.queues[p][0];
      if e in v.looks {
        var k := v.looks[e];
        HeadOff(v, p);
        OneFiled(v, w, e, if e.persist || k.final then k.(active := false) else Idle(k));
      } else {
        var u := v.(queues := v.queues[p := v.queues[p][1..]]);
        TimerRuns(v, p);
        var l: nat, k: nat :| Rung(v, u, w, out, e, l, k, now);
        RungFiled(v, u, w, out, e, l, k, now);
      }
    }
  }

  // The first of a queue is taken off.
  lemma HeadOff(v: View, p: nat)
    requires Filed(v) && p < |v.queues| && v.queues[p] != [] && v.queues[p][0] in v.looks
    ensures var e := v.queues[p][0];
      && v.looks[e].active && v.looks[e].pri == p && v.looks[e].pri < |v.queues| && !v.looks[e].later
      && e !in v.queues[p][1..] && v.queues[p][1..] == Minus(v.queues[p], e)
      && (forall q :: 0 <= q < |v.queues| && q != p ==> e !in v.queues[q]) && e !in v.laterQueue
  {
    var e := v.queues[p][0];
    assert e in v.queues[p];
  }

  lemma TimerRuns(v: View, p: nat)
    requires Filed(v) && p < |v.queues| && v.queues[p] != [] && v.queues[p][0] !in v.looks
    ensures Filed(v.(queues := v.queues[p := v.queues[p][1..]])) && p == 0 && v.queues[p][0] in v.timers
  {
    hide Listed, Held;
    var t, q := v.queues[p][0], v.queues[p];
    assert t in q;
    MinusFacts(q, t);
    assert Minus(q, t) == q[1..];
  }

  lemma RungFiled(v: View, u: View, w: View, out: seq<Out>, t: Event, l: nat, k: nat, now: int)
    requires Filed(v) && Filed(u) && u == v.(queues := u.queues) && Rung(v, u, w, out, t, l, k, now)
    ensures Filed(w)
  {
    hide Row, Held, AfterFiring, OfPri, Removed, Firings;
    var es := v.lists[l];
    assert Listed(es, l, v.looks);
    PartsApart(es, k);
    assert forall e :: e in es[..k] ==> e in es;
    FiringFiled(u, es[..k], w.lists);
  }

  lemma PartsApart(es: seq<Event>, k: nat)
    requires NoDup(es) && k <= |es|
    ensures NoDup(es[..k]) && NoDup(es[k..])
    ensures forall e :: e in es[k..] ==> e in es && e !in es[..k]
    ensures forall looks :: ByDeadline(es, looks) ==> ByDeadline(es[k..], looks)
  {
  }

  lemma StartFiled(nQueues: nat)
    requires nQueues > 0
    ensures Filed(Start(nQueues))
  {
  }

  // Every call leaves queues and lists as the events say.
  lemma StepFiled(s: Step, v: View, w: View, out: seq<Out>)
    requires Filed(v) && Move(s, v, w, out)
    ensures Filed(w)
  {
    hide Filed, Passed, Dispatched, Deleted, Activated, ActivatedLater, Finalized, Prioritized, Hastened, TimeoutAdded;
    match s {
      case NewEvent(_, _) => NewFiled(v, w);
      case NewList(_, _) => NewListFiled(v, w);
      case AddEvent(n, tv, now, _, _) =>
        if w != v {
          AddedFiled(v, w, v.users[n], tv, now);
        }
      case DelEvent(n, _) =>
        if n < |v.users| && v.users[n] in v.looks {
          DeletedFiled(v, v.users[n]);
        }
      case ActivateEvent(n, res, later) =>
        if n < |v.users| && v.users[n] in v.looks {
          ActivatedFiled(v, v.users[n], res);
          ActivatedLaterFiled(v, v.users[n], res);
        }
      case FinalizeIt(n) =>
        if n < |v.users| && v.users[n] in v.looks {
          FinalizedFiled(v, v.users[n]);
        }
      case ChangePriority(n, pri) =>
        if n < |v.users| && v.users[n] in v.looks {
          PrioritizedFiled(v, v.users[n], pri);
        }
      case LaterNow => HastenedFiled(v);
      case PassTimeouts(now) => PassedFiled(v, w, out, now);
      case DispatchOne(p, now, _) => DispatchedFiled(v, w, out, p, now);
      case _ =>
    }
  }

  lemma NewFiled(v: View, w: View)
    requires Filed(v) && |w.users| == |v.users| + 1 && var e := w.users[|v.users|];
      && e !in v.looks && e !in v.timers
      && w == v.(users := v.users + [e], looks := v.looks[e := Look(None, false, false, false, false, false, |v.queues| / 2)])
    ensures Filed(w)
  {
    hide NoDup;
  }

  lemma NewListFiled(v: View, w: View)
    requires Filed(v)
    requires w == v || (|w.timers| == |v.timers| + 1 && var t := w.timers[|v.timers|];
      && t !in v.looks && t !in v.timers
      && w == v.(timers := v.timers + [t], lists := v.lists + [[]], durations := w.durations))
    ensures Filed(w)
  {
  }

  lemma AddedFiled(v: View, w: View, e: Event, tv: Option<Tv>, now: int)
    requires Filed(v) && e in v.looks
    requires if tv.Some? then TimeoutAdded(v, w, e, tv.value, now)
             else e in w.looks && w == v.(looks := v.looks[e := v.looks[e].(inserted := w.looks[e].inserted)])
    ensures Filed(w)
  {
    hide Filed, TimeoutAdded, Minus;
    if tv.Some? {
      TimeoutFiled(v, w, e, tv.value, now);
    } else {
      Where(v, e);
      OneFiled(v, w, e, w.looks[e]);
    }
  }

  lemma {:induction false} StaysFiled(v: View, ts: seq<Tick>, i: nat)
    requires Filed(v) && Linked(v, ts) && i <= |ts|
    ensures Filed(Prior(v, ts, i))
  {
    hide Filed, Move;
    if i > 0 {
      StaysFiled(v, ts, i - 1);
      StepFiled(ts[i - 1].step, Prior(v, ts, i - 1), ts[i - 1].after, ts[i - 1].out);
    }
  }

  // In every history from a new base
  lemma {:induction false} AlwaysFiled(nQueues: nat, steps: seq<Step>, tss: seq<seq<Tick>>)
    requires nQueues > 0 && Plays(Start(nQueues), steps, tss)
    ensures Filed(Reached(Start(nQueues), tss))
  {
    hide Filed, Plays, Linked;
    FlatLinked(Start(nQueues), steps, tss);
    StartFiled(nQueues);
    StaysFiled(Start(nQueues), Flat(tss), |Flat(tss)|);
  }

  // So what follows holds of each iteration in every history.
  lemma LoopsInHistory(nQueues: nat, steps: seq<Step>, tss: seq<seq<Tick>>, k: nat)
    requires nQueues > 0 && Plays(Start(nQueues), steps, tss) && k < |steps| && steps[k].Loop?
    ensures var v := Reached(Start(nQueues), tss[..k]);
      Filed(v) && Linked(v, tss[k]) && Iterated(v, tss[k], steps[k].now, steps[k].memory)
  {
    hide Filed, Linked, Iterated, Start;
    var v := Start(nQueues);
    assert Played(steps[k], Reached(v, tss[..k]), tss[k]);
    forall i | 0 <= i < k ensures Played(steps[..k][i], Reached(v, tss[..k][..i]), tss[..k][i]) {
      assert tss[..k][..i] == tss[..i];
    }
    AlwaysFiled(nQueues, steps[..k], tss[..k]);
  }

  // -- What the calls achieve --

  // The event is in no queue and in no list.
  ghost predicate Nowhere(v: View, e: Event)
  {
    && e !in v.laterQueue && (forall p :: 0 <= p < |v.queues| ==> e !in v.queues[p])
    && forall l :: 0 <= l < |v.lists| ==> e !in v.lists[l]
  }

  lemma NotWaiting(v: View, e: Event)
    requires Filed(v) && e in v.looks && !v.looks[e].active && !v.looks[e].later && v.looks[e].waits.None?
    ensures Nowhere(v, e)
  {
    hide NoDup;
  }

  // A call about one event leaves all others as they were.
  lemma OthersStay(s: Step, v: View, w: View, out: seq<Out>, o: Event)
    requires Move(s, v, w, out) && Names(s) && o in v.looks && (s.n < |v.users| ==> v.users[s.n] != o)
    ensures o in w.looks && w.looks[o] == v.looks[o] && out == []
  {
    hide Minus, ListMinus, Place;
  }

  // event_del: unless the event is being finalized, it waits for nothing afterwards and is nowhere.
  lemma Deletes(s: Step, v: View, w: View, out: seq<Out>)
    requires Filed(v) && Move(s, v, w, out) && s.DelEvent? && s.n < |v.users| && v.users[s.n] in v.looks
    ensures var e := v.users[s.n];
      if v.looks[e].final then w == v
      else e in w.looks && w.looks[e] == v.looks[e].(waits := None, inserted := false, active := false, later := false) && Nowhere(w, e)
  {
    hide Filed, Nowhere, QueueMinus, Minus, ListMinus;
    var e := v.users[s.n];
    if !v.looks[e].final {
      DeletedFiled(v, e);
      NotWaiting(w, e);
    }
  }

  // event_active: unless the event is being finalized, its callback is to run, now or in the next iteration.
  lemma Activates(s: Step, v: View, w: View, out: seq<Out>)
    requires Filed(v) && Move(s, v, w, out) && s.ActivateEvent? && s.n < |v.users| && v.users[s.n] in v.looks
    ensures var e := v.users[s.n]; var k := v.looks[e];
      && e in w.looks && w.looks[e].waits == k.waits && w.looks[e].pri == k.pri && w.looks[e].inserted == k.inserted
      && (if s.later then w.looks[e].active == k.active && w.looks[e].later == !k.active
          else w.looks[e].active == (k.active || !k.final) && w.looks[e].later == (k.later && k.final))
      && (s.res == Timeout && (s.later || !k.final) ==> w.looks[e].late)
  {
    hide Filed, QueuePlus, Minus;
    Where(v, v.users[s.n]);
  }

  // event_finalize: the callback runs once more, and the event waits for nothing; a second call does nothing.
  lemma Finalizes(s: Step, v: View, w: View, out: seq<Out>)
    requires Move(s, v, w, out) && s.FinalizeIt? && s.n < |v.users| && v.users[s.n] in v.looks
    ensures var e := v.users[s.n];
      if v.looks[e].final then w == v
      else e in w.looks && w.looks[e] == Look(None, false, true, false, false, true, v.looks[e].pri)
  {
    hide QueuePlus, QueueMinus, Minus, ListMinus;
  }

  // event_priority_set: an event that is not active gets any priority that there is.
  lemma Prioritizes(s: Step, v: View, w: View, out: seq<Out>)
    requires Move(s, v, w, out) && s.ChangePriority? && s.n < |v.users| && v.users[s.n] in v.looks
    ensures var e := v.users[s.n];
      && e in w.looks && w == v.(looks := v.looks[e := v.looks[e].(pri := w.looks[e].pri)])
      && w.looks[e].pri == if !v.looks[e].active && 0 <= s.pri < |v.queues| then s.pri else v.looks[e].pri
  {
    var e := v.users[s.n];
    assert v.looks[e := v.looks[e]] == v.looks;
  }

  // event_add: it does nothing for an event that is being finalized, or that the map of files refuses, and may do nothing for
  // want of memory if the event does not wait. Otherwise the event waits for the time that was asked for, and if this is in a
  // common list it is there, behind those that are due no later and in front of the others.
  lemma Adds(s: Step, v: View, w: View, out: seq<Out>)
    requires Filed(v) && Move(s, v, w, out) && s.AddEvent? && s.n < |v.users| && v.users[s.n] in v.looks
    requires s.tv.Some? && s.tv.value.common.Some? ==> s.tv.value.common.value < |v.lists|
    ensures var e := v.users[s.n]; var k := v.looks[e];
      if k.final || (e.io && !k.inserted && !k.active && !k.later && !s.evmap) then w == v
      else (s.tv.Some? && k.waits.None? && !s.memory && w == v) || HasAdded(v, w, e, s.tv, s.now)
  {
    hide Filed, Minus;
    var e, k := v.users[s.n], v.looks[v.users[s.n]];
    if !(k.final || (e.io && !k.inserted && !k.active && !k.later && !s.evmap)) && !(s.tv.Some? && k.waits.None? && !s.memory && w == v) {
      assert Added(v, w, e, s.tv, s.now, s.memory, s.evmap);
      if s.tv.Some? && s.tv.value.common.Some? {
        AddsToList(v, w, e, s.tv.value, s.now);
      }
    }
  }

  ghost predicate HasAdded(v: View, w: View, e: Event, tv: Option<Tv>, now: int)
    requires e in v.looks
  {
    var k := v.looks[e];
    && e in w.looks && w.looks[e].inserted == (k.inserted || (e.io && !k.active && !k.later)) && w.looks[e].later == k.later
    && if tv.None? then w.looks[e].waits == k.waits && w.looks[e].active == k.active && w.queues == v.queues && w.lists == v.lists
       else
         var d := if tv.value.absolute then tv.value.time else now + tv.value.time;
         && w.looks[e].waits == Some(Wait(d, tv.value.common)) && w.looks[e].active == (k.active && !k.late)
         && (tv.value.common.Some? ==> InTime(w, e, tv.value.common.value, d))
  }

  // The event is at its place of a common list.
  ghost predicate InTime(v: View, e: Event, l: nat, d: int)
  {
    && l < |v.lists| && (forall j :: 0 <= j < |v.lists[l]| ==> Waiting(v.looks, v.lists[l][j]))
    && exists i :: 0 <= i < |v.lists[l]| && v.lists[l][i] == e
                   && (forall j :: 0 <= j < i ==> v.looks[v.lists[l][j]].waits.value.deadline <= d)
                   && (forall j :: i < j < |v.lists[l]| ==> d < v.looks[v.lists[l][j]].waits.value.deadline)
  }

  lemma AddsToList(v: View, w: View, e: Event, tv: Tv, now: int)
    requires Filed(v) && e in v.looks && TimeoutAdded(v, w, e, tv, now) && tv.common.Some?
    ensures InTime(w, e, tv.common.value, Deadline(tv, now))
  {
    hide Minus;
    var l, d, left := tv.common.value, Deadline(tv, now), ListMinus(v.lists, v.looks[e].waits, e);
    TimeoutFiled(v, w, e, tv, now);
    NotListed(v, e, l);
    var i: nat :| Place(v.looks, left[l], d, i) && w.lists == left[l := left[l][..i] + [e] + left[l][i..]];
    ListsLeft(v, e, w.looks[e], l);
    PutAt(v, w, e, l, i, left[l], d);
  }

  lemma PutAt(v: View, w: View, e: Event, l: nat, i: nat, es: seq<Event>, d: int)
    requires e in w.looks && Waiting(w.looks, e) && w.looks[e].waits.value.deadline == d && l < |w.lists| && ByDeadline(es, w.looks)
    requires Place(v.looks, es, d, i) && w.lists[l] == es[..i] + [e] + es[i..]
    requires forall o :: o in es ==> o in v.looks && o in w.looks && w.looks[o] == v.looks[o]
    ensures InTime(w, e, l, d)
  {
    var fs := w.lists[l];
    PlaceSame(v.looks, w.looks, es, d, i);
    PutByDeadline(w.looks, es, e, i);
    assert fs[i] == e && forall j :: 0 <= j < |fs| ==> fs[j] == if j < i then es[j] else if j == i then e else es[j - 1];
    assert forall o :: o in fs ==> o in es || o == e;
  }

  // timeout_process: what fires does so in the order of the deadlines.
  lemma FiresInOrder(v: View, w: View, out: seq<Out>, now: int, i: nat, j: nat)
    requires Passed(v, w, out, now) && i <= j < |out| && out[i].e in v.looks && out[j].e in v.looks
    ensures Waits(v, out[i].e).Some? && Waits(v, out[j].e).Some?
    ensures Waits(v, out[i].e).value.deadline <= Waits(v, out[j].e).value.deadline
  {
    hide AfterFiring;
    var fired := FiredIn(out);
    assert fired[i] == out[i].e && fired[j] == out[j].e;
    assert fired[i] in fired && fired[j] in fired;
  }

  // common_timeout_callback: of the events of the list exactly those that are due fire, in their order.
  lemma RingsDue(v: View, w: View, out: seq<Out>, p: nat, now: int)
    requires Filed(v) && Dispatched(v, w, out, p, now) && p < |v.queues| && v.queues[p] != [] && v.queues[p][0] !in v.looks
    ensures exists l: nat ::
      && l < |v.timers| && l < |v.lists| && v.timers[l] == v.queues[p][0] && |out| <= |v.lists[l]|
      && (forall i :: 0 <= i < |out| ==> out[i] == Fired(v.lists[l][i]))
      && forall i :: 0 <= i < |v.lists[l]| ==>
           Waiting(v.looks, v.lists[l][i]) && (v.looks[v.lists[l][i]].waits.value.deadline <= now <==> i < |out|)
  {
    hide AfterFiring, Row, Held;
    var t, u := v.queues[p][0], v.(queues := v.queues[p := v.queues[p][1..]]);
    var l: nat, k: nat :| Rung(v, u, w, out, t, l, k, now);
    assert Listed(v.lists[l], l, v.looks);
  }

  // A callback that runs is not active any more, and its event waits on only if it is persistent.
  lemma Runs(s: Step, v: View, w: View, out: seq<Out>, e: Event)
    requires Filed(v) && Move(s, v, w, out) && Ran(e) in out
    ensures out == [Ran(e)] && e in v.looks && v.looks[e].active && e in w.looks && !w.looks[e].active && w.looks[e].pri == v.looks[e].pri
    ensures w.looks[e].waits == if e.persist || v.looks[e].final then v.looks[e].waits else None
    ensures forall o :: o in v.looks && o != e ==> o in w.looks && w.looks[o] == v.looks[o]
  {
    hide Filed, OfPri, Removed, AfterFiring, TimeoutAdded, ListMinus;
    OnlyDispatchRuns(s, v, w, out, e);
    HeadOff(v, s.p);
  }

  // -- Higher priorities come first --

  // In an iteration of the loop a callback runs only while no event of a higher priority (a smaller number) is active, nor the
  // timer of a common list if the priority is not 0; and of its own priority it is the one that has been active longest.
  lemma HighestFirst(v: View, ts: seq<Tick>, now: int, memory: bool, i: nat, e: Event)
    requires Filed(v) && Linked(v, ts) && Iterated(v, ts, now, memory) && i < |ts| && Ran(e) in ts[i].out
    ensures var u := Prior(v, ts, i);
      && e in u.looks && u.looks[e].active
      && (forall f :: f in u.looks && u.looks[f].active ==> u.looks[e].pri <= u.looks[f].pri)
      && (u.looks[e].pri > 0 ==> forall p, j :: 0 <= p < |u.queues| && 0 <= j < |u.queues[p]| ==> u.queues[p][j] !in u.timers)
      && u.looks[e].pri < |u.queues| && u.queues[u.looks[e].pri] != [] && u.queues[u.looks[e].pri][0] == e
  {
    hide Filed, Quiet, Passed, Rung, AfterFiring, Linked;
    var u, s := Prior(v, ts, i), ts[i].step;
    assert Move(s, u, ts[i].after, ts[i].out) by { LinkedAt(v, ts, i); }
    OnlyDispatchRuns(s, u, ts[i].after, ts[i].out, e);
    assert i >= 2 && FirstBusy(u, s.p);
    StaysFiled(v, ts, i);
    BusyIsHighest(u, s.p);
  }

  lemma LinkedAt(v: View, ts: seq<Tick>, i: nat)
    requires Linked(v, ts) && i < |ts|
    ensures Move(ts[i].step, Prior(v, ts, i), ts[i].after, ts[i].out)
  {
  }

  lemma OnlyDispatchRuns(s: Step, v: View, w: View, out: seq<Out>, e: Event)
    requires Move(s, v, w, out) && Ran(e) in out
    ensures s.DispatchOne? && s.p < |v.queues| && v.queues[s.p] != [] && v.queues[s.p][0] == e && e in v.looks
  {
    hide OfPri, Removed, TimeoutAdded, AfterFiring;
  }

  lemma BusyIsHighest(v: View, p: nat)
    requires Filed(v) && FirstBusy(v, p)
    ensures var e := v.queues[p][0];
      && (e in v.looks ==> v.looks[e].active && v.looks[e].pri == p) && (e !in v.looks ==> e in v.timers && p == 0)
    ensures forall f :: f in v.looks && v.looks[f].active ==> p <= v.looks[f].pri
    ensures p > 0 ==> forall q, j :: 0 <= q < |v.queues| && 0 <= j < |v.queues[q]| ==> v.queues[q][j] !in v.timers
  {
    hide NoDup, Listed;
    var e := v.queues[p][0];
    assert e in v.queues[p];
    forall f | f in v.looks && v.looks[f].active ensures p <= v.looks[f].pri {
      assert f in v.queues[v.looks[f].pri];
    }
    forall q, j | p > 0 && 0 <= q < |v.queues| && 0 <= j < |v.queues[q]| ensures v.queues[q][j] !in v.timers {
      assert v.queues[q][j] in v.queues[q] && v.queues[0] == [];
    }
  }

  // What fires from a common list does so when its timer, which has priority 0, comes first in the queue of this priority.
  lemma TimersFirst(v: View, ts: seq<Tick>, now: int, memory: bool, i: nat, e: Event)
    requires Filed(v) && Linked(v, ts) && Iterated(v, ts, now, memory) && 2 <= i < |ts| && Fired(e) in ts[i].out
    ensures var u := Prior(v, ts, i); exists l: nat ::
      l < |u.timers| && l < |u.lists| && e in u.lists[l] && u.queues != [] && u.queues[0] != [] && u.queues[0][0] == u.timers[l]
  {
    hide Filed, Quiet, AfterFiring, Linked;
    var u, s := Prior(v, ts, i), ts[i].step;
    assert Move(s, u, ts[i].after, ts[i].out) by { LinkedAt(v, ts, i); }
    StaysFiled(v, ts, i);
    BusyIsHighest(u, s.p);
    var x := u.(queues := u.queues[s.p := u.queues[s.p][1..]]);
    var l: nat, k: nat :| Rung(u, x, ts[i].after, ts[i].out, u.queues[s.p][0], l, k, now);
    var j :| 0 <= j < |ts[i].out| && ts[i].out[j] == Fired(e);
    assert u.lists[l][j] == u.lists[l][..k][j] == e;
    TimerApart(u, l);
  }

  lemma TimerApart(v: View, l: nat)
    requires Filed(v) && l < |v.timers|
    ensures v.timers[l] in v.timers && v.timers[l] !in v.looks
  {
  }

  // -- First come, first served within a priority --

  // a is in the queue, and b is not in front of it.
  ghost predicate Ahead(q: seq<Event>, a: Event, b: Event)
  {
    a != b && exists i :: 0 <= i < |q| && q[i] == a && forall j :: 0 <= j < i ==> q[j] != b
  }

  lemma AheadMore(q: seq<Event>, r: seq<Event>, a: Event, b: Event)
    ensures Ahead(q, a, b) ==> Ahead(q + r, a, b)
    ensures Ahead(r, a, b) && b !in q ==> Ahead(q + r, a, b)
  {
    if Ahead(q, a, b) {
      var i :| 0 <= i < |q| && q[i] == a && forall j :: 0 <= j < i ==> q[j] != b;
      assert (q + r)[i] == a;
    }
    if Ahead(r, a, b) && b !in q {
      var i :| 0 <= i < |r| && r[i] == a && forall j :: 0 <= j < i ==> r[j] != b;
      assert (q + r)[|q| + i] == a;
    }
  }

  lemma AheadFirst(x: Event, q: seq<Event>, a: Event, b: Event)
    requires x != a
    ensures Ahead([x] + q, a, b) <==> x != b && Ahead(q, a, b)
  {
    if Ahead([x] + q, a, b) {
      var i :| 0 <= i < |q| + 1 && ([x] + q)[i] == a && forall j :: 0 <= j < i ==> ([x] + q)[j] != b;
      assert ([x] + q)[0] == x && q[i - 1] == a;
      forall j | 0 <= j < i - 1 ensures q[j] != b {
        assert ([x] + q)[j + 1] == q[j];
      }
    }
    if x != b && Ahead(q, a, b) {
      AheadMore([x], q, a, b);
    }
  }

  lemma {:induction false} AheadRemoved(q: seq<Event>, fired: seq<Event>, a: Event, b: Event)
    requires Ahead(q, a, b) && a !in fired
    ensures Ahead(Removed(q, fired), a, b)
  {
    hide Ahead;
    assert q != [] by { Someone(q, a, b); }
    if q[0] == a {
      FirstAhead(a, Removed(q[1..], fired), b, q);
    } else {
      assert q == [q[0]] + q[1..];
      AheadFirst(q[0], q[1..], a, b);
      AheadRemoved(q[1..], fired, a, b);
      AheadFirst(q[0], Removed(q[1..], fired), a, b);
      assert [] + Removed(q[1..], fired) == Removed(q[1..], fired);
    }
  }

  lemma Someone(q: seq<Event>, a: Event, b: Event)
    requires Ahead(q, a, b)
    ensures a in q && a != b
  {
  }

  lemma FirstAhead(a: Event, r: seq<Event>, b: Event, q: seq<Event>)
    requires Ahead(q, a, b)
    ensures Ahead([a] + r, a, b)
  {
    assert ([a] + r)[0] == a;
  }

  lemma {:induction false} AheadOfPri(looks: map<Event, Look>, es: seq<Event>, p: nat, a: Event, b: Event)
    requires Ahead(es, a, b) && Pri(looks, a) == p
    ensures Ahead(OfPri(looks, es, p), a, b)
  {
    hide Ahead, Pri;
    assert es != [] by { Someone(es, a, b); }
    if es[0] == a {
      FirstAhead(a, OfPri(looks, es[1..], p), b, es);
    } else {
      assert es == [es[0]] + es[1..];
      AheadFirst(es[0], es[1..], a, b);
      AheadOfPri(looks, es[1..], p, a, b);
      AheadFirst(es[0], OfPri(looks, es[1..], p), a, b);
      assert [] + OfPri(looks, es[1..], p) == OfPri(looks, es[1..], p);
    }
  }

  // What is to be active later, and what fires, joins the queue of its priority in its own order.
  lemma JoinsInTurn(v: View, fired: seq<Event>, p: nat, a: Event, b: Event)
    requires p < |v.queues| && Pri(v.looks, a) == p
    ensures Ahead(v.laterQueue, a, b) && b !in v.queues[p] ==> Ahead(Hastened(v).queues[p], a, b)
    ensures Ahead(fired, a, b) && (b in fired || b !in v.queues[p]) ==> Ahead(AfterFiring(v, fired).queues[p], a, b)
  {
    hide Ahead;
    if Ahead(v.laterQueue, a, b) && b !in v.queues[p] {
      AheadOfPri(v.looks, v.laterQueue, p, a, b);
      AheadMore(v.queues[p], OfPri(v.looks, v.laterQueue, p), a, b);
    }
    if Ahead(fired, a, b) && (b in fired || b !in v.queues[p]) {
      RemovedIn(v.queues[p], fired);
      AheadOfPri(v.looks, fired, p, a, b);
      AheadMore(Removed(v.queues[p], fired), OfPri(v.looks, fired, p), a, b);
    }
  }

  // What a call makes active goes behind what is active already.
  lemma ActivatedBehind(v: View, e: Event, res: Res, a: Event)
    requires Filed(v) && e in v.looks && !v.looks[e].active && !v.looks[e].final && a in v.queues[v.looks[e].pri]
    ensures var p := v.looks[e].pri; p < |v.queues| && Ahead(Activated(v, e, res).queues[p], a, e)
  {
    hide NoDup, Listed;
    var q := v.queues[v.looks[e].pri];
    var i :| 0 <= i < |q| && q[i] == a;
    assert forall j :: 0 <= j < |q| ==> q[j] in q;
    assert Ahead(q, a, e);
    AheadMore(q, [e], a, e);
  }

  lemma {:induction false} AheadMinus(q: seq<Event>, e: Event, a: Event, b: Event)
    requires Ahead(q, a, b) && a != e
    ensures Ahead(Minus(q, e), a, b)
  {
    hide Ahead, Minus;
    assert q != [] by { Someone(q, a, b); }
    assert q == [q[0]] + q[1..];
    MinusHead(q[0], q[1..], e);
    if q[0] == a {
      FirstAhead(a, Minus(q[1..], e), b, q);
    } else {
      AheadFirst(q[0], q[1..], a, b);
      if q[0] != e {
        AheadMinus(q[1..], e, a, b);
        AheadFirst(q[0], Minus(q[1..], e), a, b);
      }
    }
  }

  predicate Names(s: Step)
  {
    s.AddEvent? || s.DelEvent? || s.ActivateEvent? || s.FinalizeIt? || s.ChangePriority?
  }

  // A call about another event leaves the order of a queue, too.
  lemma TurnKeptByCalls(s: Step, v: View, w: View, out: seq<Out>, p: nat, a: Event, b: Event)
    requires Move(s, v, w, out) && Names(s) && p < |v.queues| && Ahead(v.queues[p], a, b) && a in v.looks
    requires s.n < |v.users| ==> v.users[s.n] != a
    requires forall t :: t in v.timers ==> t !in v.looks
    ensures |w.queues| == |v.queues| && Ahead(w.queues[p], a, b)
  {
    hide Ahead, Minus, ListMinus, Place;
    if s.n < |v.users| {
      var e := v.users[s.n];
      var q := v.queues[p];
      AheadMinus(q, e, a, b);
      AheadMore(q, [e], a, b);
      AheadMore(Minus(q, e), [e], a, b);
      if s.AddEvent? {
        TurnKeptByAdd(v, w, e, s, p, a, b);
      }
    }
  }

  lemma TurnKeptByAdd(v: View, w: View, e: Event, s: Step, p: nat, a: Event, b: Event)
    requires s.AddEvent? && Move(s, v, w, []) && s.n < |v.users| && v.users[s.n] == e && e != a
    requires p < |v.queues| && Ahead(v.queues[p], a, b) && a in v.looks
    requires forall t :: t in v.timers ==> t !in v.looks
    ensures |w.queues| == |v.queues| && Ahead(w.queues[p], a, b)
  {
    hide Ahead, Minus, ListMinus, Place;
    var q := v.queues[p];
    AheadMinus(q, e, a, b);
    if s.tv.Some? && s.tv.value.common.Some? && s.tv.value.common.value < |v.timers| {
      var t := v.timers[s.tv.value.common.value];
      assert t in v.timers;
      AheadMinus(q, t, a, b);
      AheadMinus(Minus(q, e), t, a, b);
    }
  }

  // In the loop the order of a queue stays, until an event runs or its timeout fires, which puts it at the end.
  lemma TurnKept(s: Step, v: View, w: View, out: seq<Out>, p: nat, a: Event, b: Event)
    requires Move(s, v, w, out) && (s == LaterNow || s.PassTimeouts? || s.DispatchOne?)
    requires p < |v.queues| && a in v.looks && Ahead(v.queues[p], a, b) && Fired(a) !in out && Ran(a) !in out
    ensures a in w.looks && |w.queues| == |v.queues| && Ahead(w.queues[p], a, b)
  {
    hide Ahead, OfPri, Removed;
    match s {
      case LaterNow =>
        AheadMore(v.queues[p], OfPri(v.looks, v.laterQueue, p), a, b);
      case PassTimeouts(_) =>
        FiredMeans(out, a);
        TurnFired(v, FiredIn(out), p, a, b);
      case DispatchOne(q, now, _) =>
        TurnDispatched(v, w, out, q, now, p, a, b);
    }
  }

  lemma TurnFired(v: View, fired: seq<Event>, p: nat, a: Event, b: Event)
    requires p < |v.queues| && Ahead(v.queues[p], a, b) && a !in fired
    ensures Ahead(AfterFiring(v, fired).queues[p], a, b)
  {
    hide Ahead;
    AheadRemoved(v.queues[p], fired, a, b);
    AheadMore(Removed(v.queues[p], fired), OfPri(v.looks, fired, p), a, b);
  }

  lemma TurnDispatched(v: View, w: View, out: seq<Out>, q: nat, now: int, p: nat, a: Event, b: Event)
    requires Dispatched(v, w, out, q, now)
    requires p < |v.queues| && a in v.looks && Ahead(v.queues[p], a, b) && Fired(a) !in out && Ran(a) !in out
    ensures a in w.looks && |w.queues| == |v.queues| && Ahead(w.queues[p], a, b)
  {
    hide Ahead, AfterFiring, Rung;
    if q < |v.queues| && v.queues[q] != [] {
      var t, u := v.queues[q][0], v.(queues := v.queues[q := v.queues[q][1..]]);
      if p == q {
        assert v.queues[p] == [t] + v.queues[p][1..];
        if t != a {
          AheadFirst(t, v.queues[p][1..], a, b);
        }
      }
      if t !in v.looks {
        var l: nat, k: nat :| Rung(v, u, w, out, t, l, k, now);
        TurnRung(v, u, w, out, t, l, k, now, p, a, b);
      }
    }
  }

  lemma TurnRung(v: View, u: View, w: View, out: seq<Out>, t: Event, l: nat, k: nat, now: int, p: nat, a: Event, b: Event)
    requires Rung(v, u, w, out, t, l, k, now) && u.looks == v.looks && a in v.looks
    requires p < |u.queues| && Ahead(u.queues[p], a, b) && Fired(a) !in out
    ensures a in w.looks && |w.queues| == |u.queues| && Ahead(w.queues[p], a, b)
  {
    hide Ahead, OfPri, Removed;
    var fired := v.lists[l][..k];
    assert FiredIn(out) == fired;
    FiredMeans(out, a);
    TurnFired(u, fired, p, a, b);
  }

  lemma {:induction false} TurnKeptLong(v: View, ts: seq<Tick>, i: nat, j: nat, p: nat, a: Event, b: Event)
    requires Linked(v, ts) && Looping(ts) && i <= j <= |ts| && a in Prior(v, ts, i).looks
    requires p < |Prior(v, ts, i).queues| && Ahead(Prior(v, ts, i).queues[p], a, b)
    requires forall k :: i <= k < j ==> Fired(a) !in ts[k].out && Ran(a) !in ts[k].out
    ensures a in Prior(v, ts, j).looks && p < |Prior(v, ts, j).queues| && Ahead(Prior(v, ts, j).queues[p], a, b)
    decreases j - i
  {
    hide Move, Ahead;
    if i < j {
      TurnKeptLong(v, ts, i, j - 1, p, a, b);
      TurnKept(ts[j - 1].step, Prior(v, ts, j - 1), ts[j - 1].after, ts[j - 1].out, p, a, b);
    }
  }

  // So of two events of the same priority the one that was active first runs first, unless its timeout fires in between.
  lemma FirstComeFirstServed(v: View, ts: seq<Tick>, now: int, memory: bool, i: nat, j: nat, p: nat, a: Event, b: Event)
    requires Filed(v) && Linked(v, ts) && Iterated(v, ts, now, memory) && i <= j < |ts|
    requires p < |Prior(v, ts, i).queues| && Ahead(Prior(v, ts, i).queues[p], a, b) && a in Prior(v, ts, i).looks
    requires Ran(b) in ts[j].out && b in Prior(v, ts, j).looks && Prior(v, ts, j).looks[b].pri == p
    ensures exists k :: i <= k < j && (Fired(a) in ts[k].out || Ran(a) in ts[k].out)
  {
    hide Filed, Move, Quiet, Ahead;
    HighestFirst(v, ts, now, memory, j, b);
    if forall k :: i <= k < j ==> Fired(a) !in ts[k].out && Ran(a) !in ts[k].out {
      TurnKeptLong(v, ts, i, j, p, a, b);
      FirstIsAhead(Prior(v, ts, j).queues[p], a, b);
    }
  }

  lemma FirstIsAhead(q: seq<Event>, a: Event, b: Event)
    requires Ahead(q, a, b)
    ensures q != [] && q[0] != b
  {
  }

  // -- Exactly what is to run runs --

  // The event is active, or is to be so in the next iteration.
  ghost predicate Awake(v: View, e: Event)
  {
    e in v.looks && (v.looks[e].active || v.looks[e].later)
  }

  // In the loop an event stays so until its callback runs, and nothing else becomes so but by a timeout.
  lemma StaysAwake(s: Step, v: View, w: View, out: seq<Out>, e: Event)
    requires Filed(v) && Move(s, v, w, out) && (s == LaterNow || s.PassTimeouts? || s.DispatchOne?)
    ensures Awake(v, e) && Ran(e) !in out ==> Awake(w, e)
    ensures Awake(w, e) ==> Awake(v, e) || Fired(e) in out
    ensures e in v.looks && Fired(e) in out ==> Awake(w, e)
  {
    hide Filed, OfPri, Removed;
    match s {
      case PassTimeouts(now) =>
        var fired := FiredIn(out);
        FiringLooks(v, fired);
        assert e in fired <==> Fired(e) in out by { FiredMeans(out, e); }
      case DispatchOne(p, now, _) =>
        AwakeDispatched(v, w, out, p, now, e);
      case _ =>
        if e in v.looks {
          Where(v, e);
        }
    }
  }

  lemma FiredMeans(out: seq<Out>, e: Event)
    requires out == Firings(FiredIn(out))
    ensures e in FiredIn(out) <==> Fired(e) in out
  {
    if i :| 0 <= i < |out| && out[i] == Fired(e) {
      assert FiredIn(out)[i] == e;
    }
    if i :| 0 <= i < |out| && FiredIn(out)[i] == e {
      assert out[i] == Fired(e);
    }
  }

  lemma AwakeDispatched(v: View, w: View, out: seq<Out>, p: nat, now: int, e: Event)
    requires Filed(v) && Dispatched(v, w, out, p, now)
    ensures Awake(v, e) && Ran(e) !in out ==> Awake(w, e)
    ensures Awake(w, e) ==> Awake(v, e) || Fired(e) in out
    ensures e in v.looks && Fired(e) in out ==> Awake(w, e)
  {
    hide Filed, OfPri, Removed;
    if p < |v.queues| && v.queues[p] != [] {
      var t, u := v.queues[p][0], v.(queues := v.queues[p := v.queues[p][1..]]);
      if t in v.looks {
        HeadOff(v, p);
      } else {
        var l: nat, k: nat :| Rung(v, u, w, out, t, l, k, now);
        var fired := v.lists[l][..k];
        FiringLooks(u, fired);
        assert FiredIn(out) == fired;
        FiredMeans(out, e);
      }
    }
  }

  ghost predicate Looping(ts: seq<Tick>)
  {
    forall i :: 0 <= i < |ts| ==> ts[i].step == LaterNow || ts[i].step.PassTimeouts? || ts[i].step.DispatchOne?
  }

  lemma {:induction false} AwakeUntil(v: View, ts: seq<Tick>, i: nat, j: nat, e: Event)
    requires Filed(v) && Linked(v, ts) && Looping(ts) && i <= j <= |ts| && Awake(Prior(v, ts, i), e)
    requires forall k :: i <= k < j ==> Ran(e) !in ts[k].out
    ensures Awake(Prior(v, ts, j), e)
    decreases j - i
  {
    hide Filed, Move, Awake;
    if i < j {
      AwakeUntil(v, ts, i, j - 1, e);
      StaysFiled(v, ts, j - 1);
      StaysAwake(ts[j - 1].step, Prior(v, ts, j - 1), ts[j - 1].after, ts[j - 1].out, e);
    }
  }

  // With memory the callback of everything that is active runs before the iteration ends.
  lemma Served(v: View, ts: seq<Tick>, now: int, i: nat, e: Event)
    requires Filed(v) && Linked(v, ts) && Iterated(v, ts, now, true) && i <= |ts| && Awake(Prior(v, ts, i), e)
    ensures exists j :: i <= j < |ts| && Ran(e) in ts[j].out
  {
    hide Filed, Move, Awake, Quiet;
    if forall j :: i <= j < |ts| ==> Ran(e) !in ts[j].out {
      AwakeUntil(v, ts, i, |ts|, e);
      StaysFiled(v, ts, |ts|);
      NoneAwake(Prior(v, ts, |ts|), now, e);
    }
  }

  lemma ActiveThere(v: View, e: Event)
    requires Filed(v) && e in v.looks
    ensures v.looks[e].active ==> exists p, j :: 0 <= p < |v.queues| && 0 <= j < |v.queues[p]| && v.queues[p][j] == e
    ensures v.looks[e].later ==> v.laterQueue != []
  {
    hide NoDup, Listed;
    if v.looks[e].active {
      assert e in v.queues[v.looks[e].pri];
    }
    if v.looks[e].later {
      assert e in v.laterQueue;
    }
  }

  lemma NoneAwake(v: View, now: int, e: Event)
    requires Filed(v) && Quiet(v, now)
    ensures !Awake(v, e)
  {
    hide Filed;
    if e in v.looks {
      Where(v, e);
      ActiveThere(v, e);
    }
  }

  lemma {:induction false} AwakeSince(v: View, ts: seq<Tick>, j: nat, e: Event)
    requires Filed(v) && Linked(v, ts) && Looping(ts) && j <= |ts| && Awake(Prior(v, ts, j), e)
    ensures Awake(v, e) || exists k :: 0 <= k < j && Fired(e) in ts[k].out
  {
    hide Filed, Move, Awake;
    if j > 0 {
      StaysFiled(v, ts, j - 1);
      StaysAwake(ts[j - 1].step, Prior(v, ts, j - 1), ts[j - 1].after, ts[j - 1].out, e);
      if Fired(e) !in ts[j - 1].out {
        AwakeSince(v, ts, j - 1, e);
      }
    }
  }

  // In an iteration with memory the callbacks that run are exactly those of the events of the users that were active, or to be
  // active later, when it began, and of those whose timeouts fire in it.
  lemma RunsExactly(v: View, ts: seq<Tick>, now: int, e: Event)
    requires Filed(v) && Linked(v, ts) && Iterated(v, ts, now, true) && e in v.looks
    ensures (exists j :: 0 <= j < |ts| && Ran(e) in ts[j].out) <==> Awake(v, e) || exists i :: 0 <= i < |ts| && Fired(e) in ts[i].out
  {
    hide Filed, Move, Awake, Quiet;
    if Awake(v, e) {
      Served(v, ts, now, 0, e);
    } else if i :| 0 <= i < |ts| && Fired(e) in ts[i].out {
      LooksStay(v, ts, i, e);
      StaysFiled(v, ts, i);
      StaysAwake(ts[i].step, Prior(v, ts, i), ts[i].after, ts[i].out, e);
      Served(v, ts, now, i + 1, e);
    } else if j :| 0 <= j < |ts| && Ran(e) in ts[j].out {
      WasAwake(v, ts, j, e);
      AwakeSince(v, ts, j, e);
    }
  }

  lemma WasAwake(v: View, ts: seq<Tick>, j: nat, e: Event)
    requires Filed(v) && Linked(v, ts) && j < |ts| && Ran(e) in ts[j].out
    ensures Awake(Prior(v, ts, j), e)
  {
    hide Filed, Move;
    StaysFiled(v, ts, j);
    OnlyDispatchRuns(ts[j].step, Prior(v, ts, j), ts[j].after, ts[j].out, e);
    HeadOff(Prior(v, ts, j), ts[j].step.p);
  }

  lemma {:induction false} LooksStay(v: View, ts: seq<Tick>, i: nat, e: Event)
    requires Linked(v, ts) && Looping(ts) && i <= |ts| && e in v.looks
    ensures e in Prior(v, ts, i).looks
  {
    hide Move;
    if i > 0 {
      LooksStay(v, ts, i - 1, e);
      LookStays(ts[i - 1].step, Prior(v, ts, i - 1), ts[i - 1].after, ts[i - 1].out, e);
    }
  }

  lemma LookStays(s: Step, v: View, w: View, out: seq<Out>, e: Event)
    requires Move(s, v, w, out) && (s == LaterNow || s.PassTimeouts? || s.DispatchOne?) && e in v.looks
    ensures e in w.looks
  {
    hide OfPri, Removed;
  }

  // So an event that waits and is in no queue runs in the iteration exactly if its deadline has come.
  lemma RunsWhenDue(v: View, ts: seq<Tick>, now: int, e: Event, x: Wait)
    requires Filed(v) && Linked(v, ts) && Iterated(v, ts, now, true) && Asleep(v, e, x)
    ensures (exists j :: 0 <= j < |ts| && Ran(e) in ts[j].out) <==> x.deadline <= now
  {
    hide Filed, Move, Iterated, Linked;
    NotLost(v, ts, now, e, x);
    NotAwake(v, e, x);
    RunsExactly(v, ts, now, e);
  }

  lemma NotAwake(v: View, e: Event, x: Wait)
    requires Filed(v) && Asleep(v, e, x)
    ensures e in v.looks && !Awake(v, e)
  {
    hide Filed;
    Where(v, e);
    ActiveThere(v, e);
  }
}
