/** Runs of a whole program of bufferevents and rate-limit groups, from nothing: whatever is called in whatever order, they
    are as RateLimitSpec says, and so much is moved. */
module RateLimitRuns {
  import opened TokenBucket
  import opened RateLimit
  import opened RateLimitSpec

  ghost function Of<T>(s: seq<T>): set<T>
  {
    set x | x in s
  }

  // The whole program
  ghost predicate Whole(bs: seq<Bev>, gs: seq<Group>)
    reads bs, gs, Buckets(Of(bs), Of(gs))
  {
    && Inv(Of(bs), Of(gs)) && (forall i, j :: 0 <= i < j < |gs| ==> gs[i] != gs[j])
    && (forall i, j :: 0 <= i < j < |bs| ==> bs[i] != bs[j])
  }

  ghost predicate LevelIs(b: Bucket, l: Level)
    reads b
  {
    l == Level(b.readLimit, b.writeLimit, b.lastUpdated)
  }

  ghost predicate LineIs(b: Bev, gs: seq<Group>, l: Line)
    reads b, b.bucket
  {
    && (l.group.Some? ==> l.group.value < |gs|)
    && StampOf(b) == Stamp(if l.group.None? then null else gs[l.group.value], l.read.enabled, l.write.enabled,
                           l.read.reasons, l.write.reasons)
    && b.limiting == l.limiting && b.cfg == l.cfg && b.refillPending == l.pending
    && (b.cfg.Some? ==> LevelIs(b.bucket, l.level))
  }

  ghost predicate PoolIs(g: Group, p: Pool)
    reads g, g.bucket
  {
    && p == Pool(g.read.suspended, g.write.suspended, g.cfg, p.level, g.minShare, g.configuredMinShare, g.nMembers)
    && LevelIs(g.bucket, p.level)
  }

  // The bufferevents and groups are those of the view.
  ghost predicate Shows(bs: seq<Bev>, gs: seq<Group>, v: View)
    reads bs, gs, Buckets(Of(bs), Of(gs))
  {
    && Whole(bs, gs) && |bs| == |v.bevs| && |gs| == |v.groups|
    && (forall n :: 0 <= n < |bs| ==> LineIs(bs[n], gs, v.bevs[n]))
    && (forall k :: 0 <= k < |gs| ==> PoolIs(gs[k], v.groups[k]))
  }

  // As far as the view is concerned a bufferevent has not changed.
  twostate predicate LineSame(new b: Bev)
    requires old(allocated(b))
    reads b, b.bucket
  {
    StampOf(b) == old(StampOf(b)) && unchanged(b`limiting, b`cfg, b`refillPending) && unchanged(b.bucket)
  }

  twostate predicate PoolSame(new g: Group)
    requires old(allocated(g))
    reads g, g.bucket
  {
    && unchanged(g`read, g`write, g`cfg, g`minShare, g`configuredMinShare, g`nMembers) && unchanged(g.bucket)
  }

  // Only bufferevent n, if any, and group k, if any, have changed.
  twostate lemma Changed(new bs: seq<Bev>, new gs: seq<Group>, new v: View, new n: Option<nat>, new k: Option<nat>, new w: View)
    requires old(allocated(bs)) && old(allocated(gs)) && old(Shows(bs, gs, v)) && Whole(bs, gs)
    requires |w.bevs| == |v.bevs| && |w.groups| == |v.groups|
    requires forall i :: 0 <= i < |bs| && n != Some(i) ==> LineSame(bs[i]) && w.bevs[i] == v.bevs[i]
    requires forall j :: 0 <= j < |gs| && k != Some(j) ==> PoolSame(gs[j]) && w.groups[j] == v.groups[j]
    requires n.Some? && n.value < |bs| ==> LineIs(bs[n.value], gs, w.bevs[n.value])
    requires k.Some? && k.value < |gs| ==> PoolIs(gs[k.value], w.groups[k.value])
    ensures Shows(bs, gs, w)
  {
    hide Inv;
    forall i | 0 <= i < |bs| ensures LineIs(bs[i], gs, w.bevs[i]) {
      if n != Some(i) {
        assert old(LineIs(bs[i], gs, v.bevs[i]));
      }
    }
    forall j | 0 <= j < |gs| ensures PoolIs(gs[j], w.groups[j]) {
      if k != Some(j) {
        assert old(PoolIs(gs[j], v.groups[j]));
      }
    }
  }

  lemma Here(bs: seq<Bev>, gs: seq<Group>, v: View, n: nat)
    requires Shows(bs, gs, v) && n < |bs|
    ensures |bs| == |v.bevs| && Inv(Of(bs), Of(gs)) && |gs| == |v.groups| && forall i, j :: 0 <= i < j < |gs| ==> gs[i] != gs[j]
    ensures bs[n] in Of(bs) && bs[n].Ok() && LineIs(bs[n], gs, v.bevs[n]) && bs[n].bucket in Buckets(Of(bs), Of(gs))
    ensures forall o :: o in bs && o != bs[n] ==> o.bucket != bs[n].bucket
    ensures forall g :: g in gs ==> g.bucket != bs[n].bucket
    ensures bs[n].group != null ==> bs[n].group in gs && bs[n].group.bucket in Buckets(Of(bs), Of(gs))
    ensures forall i :: 0 <= i < |bs| && i != n ==> bs[i] != bs[n]
  {
    assert bs[n] in Of(bs);
    MemberFacts(Of(bs), Of(gs), bs[n]);
    assert forall o :: o in bs ==> o in Of(bs);
    assert forall g :: g in gs ==> g in Of(gs);
  }

  lemma HereGroup(bs: seq<Bev>, gs: seq<Group>, v: View, k: nat)
    requires Shows(bs, gs, v) && k < |gs|
    ensures |bs| == |v.bevs| && Inv(Of(bs), Of(gs)) && |gs| == |v.groups| && forall i, j :: 0 <= i < j < |gs| ==> gs[i] != gs[j]
    ensures gs[k] in Of(gs) && gs[k].Ok() && PoolIs(gs[k], v.groups[k]) && gs[k].bucket in Buckets(Of(bs), Of(gs))
    ensures forall g :: g in gs && g != gs[k] ==> g.bucket != gs[k].bucket
    ensures forall b :: b in bs ==> b.bucket != gs[k].bucket
    ensures forall i :: 0 <= i < |gs[k].members| ==> gs[k].members[i] in bs
    ensures forall j :: 0 <= j < |gs| && j != k ==> gs[j] != gs[k]
  {
    assert gs[k] in Of(gs);
    assert forall o :: o in bs ==> o in Of(bs);
    assert forall g :: g in gs ==> g in Of(gs);
    forall i | 0 <= i < |gs[k].members| ensures gs[k].members[i] in bs {
      assert gs[k].members[i] in gs[k].members && gs[k].members[i] in Of(bs);
    }
  }

  // What happens to one bufferevent
  method DoOn(bs: seq<Bev>, gs: seq<Group>, ghost v: View, n: nat, event: Event)
    requires Shows(bs, gs, v) && n < |bs| && May(v.bevs[n], event)
    modifies bs, Buckets(Of(bs), Of(gs))
    ensures Shows(bs, gs, v.(bevs := v.bevs[n := Happens(v.bevs[n], event)]))
  {
    hide Bev.Ok, Inv, InGroup, Happened, LineIs, PoolIs, Happens;
    Here(bs, gs, v, n);
    Likely(bs[n], gs, v.bevs[n], event);
    Happen(bs[n], event, Of(bs), Of(gs));
    StillOk(bs, gs, n);
    HasHappened(bs[n], gs, v.bevs[n], event);
    Changed(bs, gs, v, Some(n), None, v.(bevs := v.bevs[n := Happens(v.bevs[n], event)]));
  }

  lemma Likely(b: Bev, gs: seq<Group>, l: Line, e: Event)
    requires LineIs(b, gs, l) && May(l, e)
    ensures Possible(b, e)
  {
  }

  lemma StillOk(bs: seq<Bev>, gs: seq<Group>, n: nat)
    requires Inv(Of(bs), Of(gs)) && n < |bs|
    ensures bs[n].Ok()
  {
    assert bs[n] in Of(bs);
  }

  // One reason has come or gone.
  lemma OneReason(now: set<Reason>, was: set<Reason>, what: Reason)
    requires now - {what} == was - {what} && what != BwGroup
    ensures now - {BwGroup} == if what in now then was - {BwGroup} + {what} else was - {BwGroup} - {what}
  {
    forall r | r != what ensures r in now <==> r in was {
      assert r in now - {what} <==> r in now;
      assert r in was - {what} <==> r in was;
    }
  }

  twostate lemma Sides(new b: Bev, new what: Reason)
    requires old(allocated(b)) && b.ChangesOnly({what}) && what != BwGroup
    ensures b.group == old(b.group) && b.read.enabled == old(b.read.enabled) && b.write.enabled == old(b.write.enabled)
    ensures var r := old(b.read.suspended) - {BwGroup};
      b.read.suspended - {BwGroup} == if what in b.read.suspended then r + {what} else r - {what}
    ensures var w := old(b.write.suspended) - {BwGroup};
      b.write.suspended - {BwGroup} == if what in b.write.suspended then w + {what} else w - {what}
  {
    assert b.At(Reading) == b.read && b.At(Writing) == b.write;
    assert old(b.At(Reading)) == old(b.read) && old(b.At(Writing)) == old(b.write);
    OneReason(b.read.suspended, old(b.read.suspended), what);
    OneReason(b.write.suspended, old(b.write.suspended), what);
  }

  twostate lemma HasHappened(new b: Bev, new gs: seq<Group>, new l: Line, new e: Event)
    requires old(allocated(b)) && old(allocated(gs)) && old(LineIs(b, gs, l))
    requires Happened(b, e) && May(l, e) && b.group == old(b.group)
    ensures LineIs(b, gs, Happens(l, e))
  {
    hide LineIs, Limited, Limits;
    if e.SuspendedFor? || e.UnsuspendedFor? {
      HasReason(b, gs, l, e);
    } else if e.Enabled? || e.Disabled? {
      HasSwitched(b, gs, l, e);
    } else if e.LimitDecremented? {
      HasDecremented(b, gs, l, e);
    } else if e.LimitSet? {
      HasLimit(b, gs, l, e.c, e.tick, e.memoryLeft);
    }
  }

  twostate lemma HasReason(new b: Bev, new gs: seq<Group>, new l: Line, new e: Event)
    requires old(allocated(b)) && old(allocated(gs)) && old(LineIs(b, gs, l))
    requires Happened(b, e) && May(l, e) && (e.SuspendedFor? || e.UnsuspendedFor?)
    ensures LineIs(b, gs, Happens(l, e))
  {
    Sides(b, e.what);
    assert b.At(Reading) == b.read && b.At(Writing) == b.write;
  }

  twostate lemma HasSwitched(new b: Bev, new gs: seq<Group>, new l: Line, new e: Event)
    requires old(allocated(b)) && old(allocated(gs)) && old(LineIs(b, gs, l))
    requires Happened(b, e) && (e.Enabled? || e.Disabled?) && b.group == old(b.group)
    ensures LineIs(b, gs, Happens(l, e))
  {
    assert b.At(Reading) == b.read && b.At(Writing) == b.write;
  }

  twostate lemma HasDecremented(new b: Bev, new gs: seq<Group>, new l: Line, new e: Event)
    requires old(allocated(b)) && old(allocated(gs)) && old(LineIs(b, gs, l))
    requires Happened(b, e) && May(l, e) && e.LimitDecremented?
    ensures LineIs(b, gs, Happens(l, e))
  {
    Sides(b, Bw);
    assert b.At(Reading) == b.read && b.At(Writing) == b.write;
    assert b.bucket.Limit(Reading) == b.bucket.readLimit && b.bucket.Limit(Writing) == b.bucket.writeLimit;
    assert old(b.bucket.Limit(Reading)) == old(b.bucket.readLimit) && old(b.bucket.Limit(Writing)) == old(b.bucket.writeLimit);
  }

  twostate lemma HasLimit(new b: Bev, new gs: seq<Group>, new l: Line, new c: Option<Cfg>, new tick: int, new memoryLeft: bool)
    requires old(allocated(b)) && old(allocated(gs)) && old(LineIs(b, gs, l)) && b.ChangesOnly({Bw}) && Limited(b, c, tick, memoryLeft)
    ensures LineIs(b, gs, Limits(l, c, tick, memoryLeft))
  {
    Sides(b, Bw);
    assert b.At(Reading) == b.read && b.At(Writing) == b.write;
    assert b.bucket.Limit(Reading) == b.bucket.readLimit && b.bucket.Limit(Writing) == b.bucket.writeLimit;
    assert old(b.bucket.Limit(Reading)) == old(b.bucket.readLimit) && old(b.bucket.Limit(Writing)) == old(b.bucket.writeLimit);
  }

  // The refill timer of a bufferevent
  method DoTimer(bs: seq<Bev>, gs: seq<Group>, ghost v: View, n: nat, tick: int)
    requires Shows(bs, gs, v) && n < |bs| && v.bevs[n].pending && v.bevs[n].cfg.Some? && 0 <= tick < TWO_32
    modifies bs, Buckets(Of(bs), Of(gs))
    ensures Shows(bs, gs, v.(bevs := v.bevs[n := Rings(v.bevs[n], tick)]))
  {
    hide Bev.Ok, Inv, InGroup, Happened, LineIs, PoolIs, Rings;
    Here(bs, gs, v, n);
    Pending(bs[n], gs, v.bevs[n]);
    Happen(bs[n], TimerFired(tick), Of(bs), Of(gs));
    HasRung(bs[n], gs, v.bevs[n], tick);
    Changed(bs, gs, v, Some(n), None, v.(bevs := v.bevs[n := Rings(v.bevs[n], tick)]));
  }

  lemma Pending(b: Bev, gs: seq<Group>, l: Line)
    requires LineIs(b, gs, l)
    ensures b.refillPending == l.pending
  {
  }

  twostate lemma HasRung(new b: Bev, new gs: seq<Group>, new l: Line, new tick: int)
    requires old(allocated(b)) && old(allocated(gs)) && old(LineIs(b, gs, l)) && l.cfg.Some?
    requires Happened(b, TimerFired(tick)) && b.group == old(b.group)
    ensures LineIs(b, gs, Rings(l, tick))
  {
    hide RefilledTo, UpdatedLast;
    Sides(b, Bw);
    assert b.At(Reading) == b.read && b.At(Writing) == b.write;
    assert old(b.At(Reading)) == old(b.read) && old(b.At(Writing)) == old(b.write);
    assert b.bucket.Limit(Reading) == b.bucket.readLimit && b.bucket.Limit(Writing) == b.bucket.writeLimit;
    assert old(b.bucket.Limit(Reading)) == old(b.bucket.readLimit) && old(b.bucket.Limit(Writing)) == old(b.bucket.writeLimit);
  }

  // bufferevent_add_to_rate_limit_group
  method DoJoin(bs: seq<Bev>, gs: seq<Group>, ghost v: View, n: nat, k: nat, memoryLeft: bool)
    requires Shows(bs, gs, v) && n < |bs| && k < |gs|
    modifies bs, gs
    ensures Shows(bs, gs, if v.bevs[n].limiting || memoryLeft then Joined(v, n, Some(k), true) else v)
  {
    hide Bev.Ok, Inv, InGroup, LineIs, PoolIs, Joined, Shows, LineSame, Numbered;
    Here(bs, gs, v, n);
    HereGroup(bs, gs, v, k);
    GroupOf(bs[n], gs, v.bevs[n]);
    Which(bs[n], gs, v.bevs[n].group);
    var r := AddToGroup(bs[n], gs[k], memoryLeft, Of(bs), Of(gs));
    AllLinesSame(bs, n);
    if r == -1 {
      NothingDone(bs, gs, v, n);
    } else {
      AllNumbered(gs, v.bevs[n].group, Some(k));
      Regrouped(bs, gs, v, n, Some(k), true);
    }
  }

  // bufferevent_remove_from_rate_limit_group
  method DoLeave(bs: seq<Bev>, gs: seq<Group>, ghost v: View, n: nat)
    requires Shows(bs, gs, v) && n < |bs|
    modifies bs, gs
    ensures Shows(bs, gs, Joined(v, n, None, false))
  {
    hide Bev.Ok, Inv, InGroup, LineIs, PoolIs, Joined, Shows, LineSame, Numbered;
    Here(bs, gs, v, n);
    GroupOf(bs[n], gs, v.bevs[n]);
    Which(bs[n], gs, v.bevs[n].group);
    RemoveFromGroup(bs[n], Of(bs), Of(gs));
    AllLinesSame(bs, n);
    AllNumbered(gs, v.bevs[n].group, None);
    Regrouped(bs, gs, v, n, None, false);
  }

  lemma GroupOf(b: Bev, gs: seq<Group>, l: Line)
    requires LineIs(b, gs, l)
    ensures l.group.Some? ==> l.group.value < |gs|
    ensures b.group == (if l.group.None? then null else gs[l.group.value]) && b.limiting == l.limiting
  {
  }

  lemma Which(b: Bev, gs: seq<Group>, k: Option<nat>)
    requires (k.Some? ==> k.value < |gs|) && b.group == (if k.None? then null else gs[k.value])
    requires forall i, j :: 0 <= i < j < |gs| ==> gs[i] != gs[j]
    ensures forall j :: 0 <= j < |gs| ==> (b.group == gs[j] <==> k == Some(j))
  {
  }

  // Only the number of the members of a group has changed.
  twostate predicate Numbered(new g: Group, new more: int)
    requires old(allocated(g))
    reads g, g.bucket
  {
    && unchanged(g`read, g`write, g`cfg, g`minShare, g`configuredMinShare) && unchanged(g.bucket)
    && g.nMembers == old(g.nMembers) + more
  }

  function Gain(from: Option<nat>, to: Option<nat>, j: nat): int
  {
    if from == to then 0 else (if to == Some(j) then 1 else 0) - (if from == Some(j) then 1 else 0)
  }

  twostate lemma AllLinesSame(new bs: seq<Bev>, new n: nat)
    requires old(allocated(bs)) && forall i :: 0 <= i < |bs| && i != n ==> unchanged(bs[i]) && unchanged(bs[i].bucket)
    ensures forall i :: 0 <= i < |bs| && i != n ==> LineSame(bs[i])
  {
  }

  twostate lemma AllNumbered(new gs: seq<Group>, new from: Option<nat>, new to: Option<nat>)
    requires old(allocated(gs)) && forall g :: g in gs ==> unchanged(g.bucket)
    requires forall j :: 0 <= j < |gs| ==> RestSame(gs[j]) && gs[j].nMembers == old(gs[j].nMembers) + Gain(from, to, j)
    ensures forall j :: 0 <= j < |gs| ==> Numbered(gs[j], Gain(from, to, j))
  {
    assert forall j :: 0 <= j < |gs| ==> gs[j] in gs;
  }

  twostate predicate RestSame(new g: Group)
    requires old(allocated(g))
    reads g
  {
    unchanged(g`read, g`write, g`cfg, g`minShare, g`configuredMinShare)
  }

  twostate lemma NothingDone(new bs: seq<Bev>, new gs: seq<Group>, new v: View, new n: nat)
    requires old(allocated(bs)) && old(allocated(gs)) && old(Shows(bs, gs, v)) && Inv(Of(bs), Of(gs)) && n < |bs|
    requires forall i :: 0 <= i < |bs| && i != n ==> LineSame(bs[i])
    requires bs[n].read == old(bs[n].read) && bs[n].write == old(bs[n].write) && bs[n].group == old(bs[n].group) && bs[n].limiting == old(bs[n].limiting)
    requires bs[n].cfg == old(bs[n].cfg) && bs[n].refillPending == old(bs[n].refillPending) && unchanged(bs[n].bucket)
    requires forall j :: 0 <= j < |gs| ==> RestSame(gs[j]) && gs[j].nMembers == old(gs[j].nMembers) && unchanged(gs[j].bucket)
    ensures Shows(bs, gs, v)
  {
    hide Inv;
    Changed(bs, gs, v, None, None, v);
  }

  // Bufferevent n has changed its group, and the numbers of members have followed.
  twostate lemma Regrouped(new bs: seq<Bev>, new gs: seq<Group>, new v: View, new n: nat, new k: Option<nat>, new limiting: bool)
    requires old(allocated(bs)) && old(allocated(gs)) && old(Shows(bs, gs, v)) && Inv(Of(bs), Of(gs)) && n < |bs|
    requires (k.Some? ==> k.value < |gs|) && forall i :: 0 <= i < |bs| && i != n ==> LineSame(bs[i])
    requires v.bevs[n].group.Some? ==> v.bevs[n].group.value < |gs|
    requires forall j :: 0 <= j < |gs| ==> Numbered(gs[j], Gain(v.bevs[n].group, k, j))
    requires var b := bs[n];
      && b.cfg == old(b.cfg) && b.refillPending == old(b.refillPending) && unchanged(b.bucket)
      && b.group == (if k.None? then null else gs[k.value]) && b.limiting == (old(b.limiting) || limiting)
      && forall d :: b.At(d).suspended - {BwGroup} == old(b.At(d)).suspended - {BwGroup} && b.At(d).enabled == old(b.At(d)).enabled
    ensures Shows(bs, gs, Joined(v, n, k, limiting))
  {
    hide Inv, LineIs, PoolIs, Resized;
    var w := Joined(v, n, k, limiting);
    HasMoved(bs[n], gs, v.bevs[n], k, limiting);
    HaveResized(bs, gs, v, v.bevs[n].group, k);
    forall i | 0 <= i < |bs| ensures LineIs(bs[i], gs, w.bevs[i]) {
      if i != n {
        assert old(LineIs(bs[i], gs, v.bevs[i]));
        LineStays(bs[i], gs, v.bevs[i]);
      }
    }
  }

  twostate lemma LineStays(new b: Bev, new gs: seq<Group>, new l: Line)
    requires old(allocated(b)) && old(allocated(gs)) && old(LineIs(b, gs, l)) && LineSame(b)
    ensures LineIs(b, gs, l)
  {
  }

  // Members have come or gone.
  twostate lemma HaveResized(new bs: seq<Bev>, new gs: seq<Group>, new v: View, new from: Option<nat>, new to: Option<nat>)
    requires old(allocated(bs)) && old(allocated(gs)) && old(Shows(bs, gs, v))
    requires (to.Some? ==> to.value < |gs|) && (from.Some? ==> from.value < |gs|)
    requires forall j :: 0 <= j < |gs| ==> Numbered(gs[j], Gain(from, to, j))
    ensures var after := if from == to then v.groups else Resized(Resized(v.groups, from, -1), to, 1);
      |after| == |gs| && forall j :: 0 <= j < |gs| ==> PoolIs(gs[j], after[j])
  {
    var after := if from == to then v.groups else Resized(Resized(v.groups, from, -1), to, 1);
    forall j | 0 <= j < |gs| ensures PoolIs(gs[j], after[j]) {
      assert old(PoolIs(gs[j], v.groups[j]));
    }
  }

  twostate lemma HasMoved(new b: Bev, new gs: seq<Group>, new l: Line, new k: Option<nat>, new limiting: bool)
    requires old(allocated(b)) && old(allocated(gs)) && old(LineIs(b, gs, l)) && b.cfg == old(b.cfg)
    requires b.refillPending == old(b.refillPending) && unchanged(b.bucket) && (k.Some? ==> k.value < |gs|)
    requires b.group == (if k.None? then null else gs[k.value]) && b.limiting == (old(b.limiting) || limiting)
    requires forall d :: b.At(d).suspended - {BwGroup} == old(b.At(d)).suspended - {BwGroup} && b.At(d).enabled == old(b.At(d)).enabled
    ensures LineIs(b, gs, l.(limiting := l.limiting || limiting, group := k))
  {
    assert b.At(Reading) == b.read && b.At(Writing) == b.write;
    assert old(b.At(Reading)) == old(b.read) && old(b.At(Writing)) == old(b.write);
  }

  // What is taken from the bucket of a group by hand
  method DoTake(bs: seq<Bev>, gs: seq<Group>, ghost v: View, k: nat, d: Dir, decr: int)
    requires Shows(bs, gs, v) && k < |gs| && InRange(v.groups[k].level.Limit(d) - decr, v.groups[k].cfg.Max(d))
    modifies bs, gs, Buckets(Of(bs), Of(gs))
    ensures Shows(bs, gs, v.(groups := v.groups[k := Taken(v.groups[k], d, decr)]))
  {
    hide Bev.Ok, Inv, InGroup, LineIs, PoolIs, Taken;
    HereGroup(bs, gs, v, k);
    PoolLimits(gs[k], v.groups[k]);
    GroupDecrement(gs[k], d, decr, Of(bs), Of(gs));
    HasTaken(gs[k], v.groups[k], d, decr);
    Changed(bs, gs, v, None, Some(k), v.(groups := v.groups[k := Taken(v.groups[k], d, decr)]));
  }

  // The timer of a group
  method DoGroupTimer(bs: seq<Bev>, gs: seq<Group>, ghost v: View, k: nat, tick: int)
    requires Shows(bs, gs, v) && k < |gs| && 0 <= tick < TWO_32
    modifies bs, gs, Buckets(Of(bs), Of(gs))
    ensures Shows(bs, gs, v.(groups := v.groups[k := RingsAll(v.groups[k], tick)]))
  {
    hide Bev.Ok, Inv, InGroup, RefilledTo, UpdatedLast, LineIs, PoolIs, RingsAll;
    HereGroup(bs, gs, v, k);
    GroupRefillCallback(gs[k], tick, Of(bs), Of(gs));
    HasRungAll(gs[k], v.groups[k], tick);
    Changed(bs, gs, v, None, Some(k), v.(groups := v.groups[k := RingsAll(v.groups[k], tick)]));
  }

  // bufferevent_rate_limit_group_set_min_share, bufferevent_rate_limit_group_set_cfg
  method DoShare(bs: seq<Bev>, gs: seq<Group>, ghost v: View, k: nat, share: nat)
    requires Shows(bs, gs, v) && k < |gs|
    modifies gs
    ensures Shows(bs, gs, Next(v, Share(k, share)))
  {
    hide Bev.Ok, Inv, InGroup;
    HereGroup(bs, gs, v, k);
    var r := SetMinShare(gs[k], share, Of(bs), Of(gs));
    Changed(bs, gs, v, None, Some(k), Next(v, Share(k, share)));
  }

  method DoConfig(bs: seq<Bev>, gs: seq<Group>, ghost v: View, k: nat, c: Cfg)
    requires Shows(bs, gs, v) && k < |gs| && c.Valid()
    modifies gs, Buckets(Of(bs), Of(gs))
    ensures Shows(bs, gs, Next(v, Config(k, c)))
  {
    hide Bev.Ok, Inv, InGroup, LineIs, PoolIs;
    HereGroup(bs, gs, v, k);
    SetGroupCfg(gs[k], c, Of(bs), Of(gs));
    HasConfig(gs[k], v.groups[k], c);
    Changed(bs, gs, v, None, Some(k), Next(v, Config(k, c)));
  }

  lemma PoolLimits(g: Group, p: Pool)
    requires PoolIs(g, p)
    ensures g.cfg == p.cfg && forall d :: g.bucket.Limit(d) == p.level.Limit(d)
  {
  }

  twostate lemma HasTaken(new g: Group, new p: Pool, new d: Dir, new decr: int)
    requires old(allocated(g)) && old(PoolIs(g, p)) && unchanged(g`cfg, g`minShare, g`configuredMinShare, g`nMembers)
    requires g.bucket.Limit(d) == old(g.bucket.Limit(d)) - decr && g.bucket.Limit(Other(d)) == old(g.bucket.Limit(Other(d)))
    requires g.bucket.lastUpdated == old(g.bucket.lastUpdated) && g.At(Other(d)) == old(g.At(Other(d)))
    requires var before, after := old(g.bucket.Limit(d)) > 0, g.bucket.Limit(d) > 0;
      g.At(d).suspended == if before == after then old(g.At(d)).suspended else before
    ensures PoolIs(g, Taken(p, d, decr))
  {
  }

  twostate lemma HasRungAll(new g: Group, new p: Pool, new tick: int)
    requires old(allocated(g)) && old(PoolIs(g, p)) && unchanged(g`cfg, g`minShare, g`configuredMinShare, g`nMembers)
    requires forall d :: g.bucket.Limit(d) == RefilledTo(d, old(g.bucket.Limit(d)), old(g.bucket.lastUpdated), g.cfg, tick)
    requires g.bucket.lastUpdated == UpdatedLast(old(g.bucket.lastUpdated), tick)
    requires forall d :: g.At(d).suspended <==> old(g.At(d)).suspended && g.bucket.Limit(d) < g.minShare
    ensures PoolIs(g, RingsAll(p, tick))
  {
    hide RefilledTo, UpdatedLast;
    assert g.At(Reading) == g.read && g.At(Writing) == g.write;
    assert old(g.At(Reading)) == old(g.read) && old(g.At(Writing)) == old(g.write);
    assert g.bucket.Limit(Reading) == g.bucket.readLimit && g.bucket.Limit(Writing) == g.bucket.writeLimit;
    assert old(g.bucket.Limit(Reading)) == old(g.bucket.readLimit) && old(g.bucket.Limit(Writing)) == old(g.bucket.writeLimit);
  }

  twostate lemma HasConfig(new g: Group, new p: Pool, new c: Cfg)
    requires old(allocated(g)) && old(PoolIs(g, p)) && unchanged(g`read, g`write, g`nMembers, g`configuredMinShare)
    requires g.cfg == c && g.minShare == ShareFor(c, g.configuredMinShare)
    requires forall d :: g.bucket.Limit(d) == Clipped(old(g.bucket.Limit(d)), c.Max(d))
    requires g.bucket.lastUpdated == old(g.bucket.lastUpdated)
    ensures PoolIs(g, p.(cfg := c, level := p.level.Clip(c), minShare := ShareFor(c, p.configured)))
  {
    assert g.bucket.Limit(Reading) == g.bucket.readLimit && g.bucket.Limit(Writing) == g.bucket.writeLimit;
    assert old(g.bucket.Limit(Reading)) == old(g.bucket.readLimit) && old(g.bucket.Limit(Writing)) == old(g.bucket.writeLimit);
  }

  // The group of a bufferevent
  lemma HereOf(bs: seq<Bev>, gs: seq<Group>, v: View, n: nat)
    requires Shows(bs, gs, v) && n < |bs| && bs[n].group != null
    ensures v.bevs[n].group.Some? && v.bevs[n].group.value < |gs| && gs[v.bevs[n].group.value] == bs[n].group
    ensures PoolIs(bs[n].group, v.groups[v.bevs[n].group.value]) && bs[n].group.nMembers > 0 && bs[n].group.Ok()
    ensures bs[n].group in Of(gs) && forall i :: 0 <= i < |bs[n].group.members| ==> bs[n].group.members[i] in bs
  {
    Here(bs, gs, v, n);
    GroupOf(bs[n], gs, v.bevs[n]);
    HereGroup(bs, gs, v, v.bevs[n].group.value);
    GroupHasMember(Of(bs), Of(gs), bs[n]);
  }

  lemma GrantIs(bs: seq<Bev>, gs: seq<Group>, v: View, n: nat, d: Dir, tick: int, maxSingle: nat)
    requires Shows(bs, gs, v) && n < |bs|
    ensures bs[n].group != null ==> bs[n].group.nMembers > 0
    ensures Allowance(bs[n], d, tick, maxSingle) == Grant(v, n, d, tick, maxSingle)
  {
    hide Inv, Bev.Ok, RefilledTo, UpdatedLast, Shows;
    Here(bs, gs, v, n);
    GroupOf(bs[n], gs, v.bevs[n]);
    assert bs[n].bucket.Limit(d) == if d == Reading then bs[n].bucket.readLimit else bs[n].bucket.writeLimit;
    if bs[n].group != null {
      HereOf(bs, gs, v, n);
      PoolLimits(bs[n].group, v.groups[v.bevs[n].group.value]);
    }
  }

  // What is wanted and allowed is asked for, which updates the bucket.
  method Ask(bs: seq<Bev>, gs: seq<Group>, ghost v: View, n: nat, d: Dir, time: nat, want: nat, maxSingle: nat) returns (m: nat)
    requires Shows(bs, gs, v) && n < |bs|
    modifies bs, Buckets(Of(bs), Of(gs))
    ensures Shows(bs, gs, v.(bevs := v.bevs[n := Topped(v.bevs[n], time % TWO_32)]))
    ensures m == Amount(v, Io(n, d, time, want, maxSingle)) && unchanged(gs) && bs[n].group == old(bs[n].group)
    ensures bs[n].cfg.Some? ==> SSIZE_MIN <= bs[n].bucket.Limit(d) - m <= bs[n].cfg.value.Max(d)
    ensures bs[n].group != null ==> SSIZE_MIN <= bs[n].group.bucket.Limit(d) - m <= bs[n].group.cfg.Max(d)
  {
    hide Bev.Ok, Inv, InGroup, LineIs, PoolIs, Shows, RefilledTo, UpdatedLast, Grant, Topped, Allowance, LineSame, PoolSame;
    Here(bs, gs, v, n);
    GroupOf(bs[n], gs, v.bevs[n]);
    GrantIs(bs, gs, v, n, d, time % TWO_32, maxSingle);
    label asked:
    m := GetRlimMax(bs[n], d, time % TWO_32, maxSingle, Of(bs), Of(gs));
    HasTopped(bs[n], gs, v.bevs[n], time % TWO_32);
    ToppedSame(v.bevs[n], time % TWO_32);
    AllLinesSame(bs, n);
    AllPoolsSame(gs);
    WholeStill(bs, gs, v);
    Changed(bs, gs, v, Some(n), None, v.(bevs := v.bevs[n := Topped(v.bevs[n], time % TWO_32)]));
    InBounds(bs, gs, v.(bevs := v.bevs[n := Topped(v.bevs[n], time % TWO_32)]), n);
    m := Less(want, m);
    if bs[n].group != null && bs[n].group.bucket.Limit(d) - m < SSIZE_MIN {
      m := 0;
    }
  }

  lemma ToppedSame(l: Line, tick: int)
    ensures Topped(l, tick).group == l.group
  {
  }

  twostate lemma AllPoolsSame(new gs: seq<Group>)
    requires old(allocated(gs)) && unchanged(gs) && forall g :: g in gs ==> unchanged(g.bucket)
    ensures forall j :: 0 <= j < |gs| ==> PoolSame(gs[j])
  {
    assert forall j :: 0 <= j < |gs| ==> gs[j] in gs;
  }

  twostate lemma WholeStill(new bs: seq<Bev>, new gs: seq<Group>, new v: View)
    requires old(allocated(bs)) && old(allocated(gs)) && old(Shows(bs, gs, v)) && Inv(Of(bs), Of(gs))
    ensures Whole(bs, gs) && |bs| == |v.bevs| && |gs| == |v.groups|
  {
  }

  twostate lemma HasTopped(new b: Bev, new gs: seq<Group>, new l: Line, new tick: int)
    requires old(allocated(b)) && old(allocated(gs)) && old(LineIs(b, gs, l))
    requires b.read == old(b.read) && b.write == old(b.write) && unchanged(b`limiting, b`cfg, b`refillPending, b`group)
    requires b.cfg.Some? ==>
      && (forall e :: b.bucket.Limit(e) == RefilledTo(e, old(b.bucket.Limit(e)), old(b.bucket.lastUpdated), b.cfg.value, tick))
      && b.bucket.lastUpdated == UpdatedLast(old(b.bucket.lastUpdated), tick)
    ensures LineIs(b, gs, Topped(l, tick))
  {
    hide RefilledTo, UpdatedLast;
    assert b.bucket.Limit(Reading) == b.bucket.readLimit && b.bucket.Limit(Writing) == b.bucket.writeLimit;
    assert old(b.bucket.Limit(Reading)) == old(b.bucket.readLimit) && old(b.bucket.Limit(Writing)) == old(b.bucket.writeLimit);
  }

  // The limits of a bufferevent and of its group are in bounds.
  lemma InBounds(bs: seq<Bev>, gs: seq<Group>, v: View, n: nat)
    requires Shows(bs, gs, v) && n < |bs|
    ensures bs[n].cfg.Some? ==> forall d :: SSIZE_MIN <= bs[n].bucket.Limit(d) <= bs[n].cfg.value.Max(d)
    ensures bs[n].group != null ==>
      && v.bevs[n].group.Some? && v.bevs[n].group.value < |v.groups|
      && forall d ::
           && SSIZE_MIN <= bs[n].group.bucket.Limit(d) <= bs[n].group.cfg.Max(d)
           && bs[n].group.bucket.Limit(d) == v.groups[v.bevs[n].group.value].level.Limit(d)
  {
    Here(bs, gs, v, n);
    if bs[n].group != null {
      HereOf(bs, gs, v, n);
    }
  }

  // The buckets are told what has been moved.
  method Charge(bs: seq<Bev>, gs: seq<Group>, ghost v: View, n: nat, d: Dir, m: nat)
    requires Shows(bs, gs, v) && n < |bs| && m > 0
    requires bs[n].cfg.Some? ==> SSIZE_MIN <= bs[n].bucket.Limit(d) - m <= bs[n].cfg.value.Max(d)
    requires bs[n].group != null ==> SSIZE_MIN <= bs[n].group.bucket.Limit(d) - m <= bs[n].group.cfg.Max(d)
    modifies bs, gs, Buckets(Of(bs), Of(gs))
    ensures Shows(bs, gs, AllCharged(v, n, d, m))
  {
    hide Bev.Ok, Inv, InGroup, LineIs, PoolIs, Shows;
    Here(bs, gs, v, n);
    GroupOf(bs[n], gs, v.bevs[n]);
    if bs[n].group == null {
      ChargeAlone(bs, gs, v, n, d, m);
    } else {
      ChargeMember(bs, gs, v, n, v.bevs[n].group.value, d, m);
    }
  }

  method ChargeAlone(bs: seq<Bev>, gs: seq<Group>, ghost v: View, n: nat, d: Dir, m: nat)
    requires Shows(bs, gs, v) && n < |bs| && m > 0 && bs[n].group == null && v.bevs[n].group.None?
    requires bs[n].cfg.Some? ==> SSIZE_MIN <= bs[n].bucket.Limit(d) - m <= bs[n].cfg.value.Max(d)
    modifies bs, gs, Buckets(Of(bs), Of(gs))
    ensures Shows(bs, gs, AllCharged(v, n, d, m))
  {
    hide Bev.Ok, Inv, InGroup, LineIs, PoolIs, Shows, Charged, Drawn, LineSame, PoolSame, Bev.Told;
    Here(bs, gs, v, n);
    DecrementBuckets(bs[n], d, m, Of(bs), Of(gs));
    WholeStill(bs, gs, v);
    HasCharged(bs[n], gs, v.bevs[n], d, m);
    AllLinesSame(bs, n);
    PoolsSameBeside(gs, None);
    Changed(bs, gs, v, Some(n), None, AllCharged(v, n, d, m));
  }

  method ChargeMember(bs: seq<Bev>, gs: seq<Group>, ghost v: View, n: nat, ghost k: nat, d: Dir, m: nat)
    requires Shows(bs, gs, v) && n < |bs| && m > 0 && k < |gs| && bs[n].group == gs[k] && v.bevs[n].group == Some(k)
    requires bs[n].cfg.Some? ==> SSIZE_MIN <= bs[n].bucket.Limit(d) - m <= bs[n].cfg.value.Max(d)
    requires SSIZE_MIN <= gs[k].bucket.Limit(d) - m <= gs[k].cfg.Max(d)
    modifies bs, gs, Buckets(Of(bs), Of(gs))
    ensures Shows(bs, gs, AllCharged(v, n, d, m))
  {
    hide Bev.Ok, Inv, InGroup, LineIs, PoolIs, Shows, Charged, Drawn, LineSame, PoolSame, OnlyOthers, Bev.Told, Group.Told;
    Here(bs, gs, v, n);
    HereGroup(bs, gs, v, k);
    DecrementBuckets(bs[n], d, m, Of(bs), Of(gs));
    WholeStill(bs, gs, v);
    HasCharged(bs[n], gs, v.bevs[n], d, m);
    LinesSameBeside(bs, n, gs[k].members, d);
    HasDrawn(gs[k], v.groups[k], d, m);
    PoolsSameBeside(gs, Some(k));
    Changed(bs, gs, v, Some(n), Some(k), AllCharged(v, n, d, m));
  }

  twostate lemma LinesSameBeside(new bs: seq<Bev>, new n: nat, new members: seq<Bev>, new d: Dir)
    requires old(allocated(bs)) && old(allocated(members)) && n < |bs| && OnlyOthers(members, bs[n], d)
    requires forall i :: 0 <= i < |bs| && i != n ==>
      bs[i] != bs[n] && unchanged(bs[i].bucket) && (bs[i] !in members ==> unchanged(bs[i]))
    requires forall i :: 0 <= i < |bs| && i != n ==> PlainSame(bs[i])
    ensures forall i :: 0 <= i < |bs| && i != n ==> LineSame(bs[i])
  {
    forall i | 0 <= i < |bs| && i != n ensures LineSame(bs[i]) {
      if bs[i] in members {
        assert OnlyMark(bs[i], d);
        OnlyGroupFrom([bs[i]], d);
        assert bs[i] in [bs[i]];
      }
    }
  }

  twostate predicate PlainSame(new b: Bev)
    requires old(allocated(b))
    reads b
  {
    unchanged(b`limiting, b`cfg, b`refillPending)
  }

  twostate lemma PoolsSameBeside(new gs: seq<Group>, new k: Option<nat>)
    requires old(allocated(gs)) && forall j :: 0 <= j < |gs| && k != Some(j) ==> unchanged(gs[j]) && unchanged(gs[j].bucket)
    ensures forall j :: 0 <= j < |gs| && k != Some(j) ==> PoolSame(gs[j])
  {
  }

  twostate lemma HasCharged(new b: Bev, new gs: seq<Group>, new l: Line, new d: Dir, new m: nat)
    requires old(allocated(b)) && old(allocated(gs)) && old(LineIs(b, gs, l)) && m > 0
    requires b.limiting == old(b.limiting) && b.cfg == old(b.cfg) && b.group == old(b.group) && b.Told(d, m)
    ensures LineIs(b, gs, Charged(l, d, m))
  {
    TwoReasons(b.At(d).suspended, old(b.At(d).suspended));
    assert b.At(Reading) == b.read && b.At(Writing) == b.write;
    assert old(b.At(Reading)) == old(b.read) && old(b.At(Writing)) == old(b.write);
    assert b.bucket.Limit(Reading) == b.bucket.readLimit && b.bucket.Limit(Writing) == b.bucket.writeLimit;
    assert old(b.bucket.Limit(Reading)) == old(b.bucket.readLimit) && old(b.bucket.Limit(Writing)) == old(b.bucket.writeLimit);
  }

  lemma TwoReasons(now: set<Reason>, was: set<Reason>)
    requires now - {Bw, BwGroup} == was - {Bw, BwGroup}
    ensures now - {BwGroup} == if Bw in now then was - {BwGroup} + {Bw} else was - {BwGroup} - {Bw}
  {
    forall r | r != Bw && r != BwGroup ensures r in now <==> r in was {
      assert r in now - {Bw, BwGroup} <==> r in now;
      assert r in was - {Bw, BwGroup} <==> r in was;
    }
  }

  twostate lemma HasDrawn(new g: Group, new p: Pool, new d: Dir, new m: nat)
    requires old(allocated(g)) && old(PoolIs(g, p)) && m > 0 && unchanged(g`cfg, g`minShare, g`configuredMinShare, g`nMembers)
    requires g.Told(d, m)
    ensures PoolIs(g, Drawn(p, d, m))
  {
  }

  // A transfer: what is allowed is asked for, what is wanted of it is moved, and the buckets are told.
  method DoIo(bs: seq<Bev>, gs: seq<Group>, ghost v: View, a: Act) returns (m: nat)
    requires Shows(bs, gs, v) && a.Io? && a.n < |bs|
    modifies bs, gs, Buckets(Of(bs), Of(gs))
    ensures Shows(bs, gs, Next(v, a)) && m == Amount(v, a)
  {
    hide Shows, Amount, Topped, AllCharged;
    Sizes(bs, gs, v);
    ghost var w := v.(bevs := v.bevs[a.n := Topped(v.bevs[a.n], a.time % TWO_32)]);
    m := Ask(bs, gs, v, a.n, a.d, a.time, a.want, a.maxSingle);
    Sizes(bs, gs, w);
    if m > 0 {
      Charge(bs, gs, w, a.n, a.d, m);
    } else {
      NoneCharged(w, a.n, a.d);
    }
  }

  lemma Sizes(bs: seq<Bev>, gs: seq<Group>, v: View)
    requires Shows(bs, gs, v)
    ensures |bs| == |v.bevs| && |gs| == |v.groups|
  {
  }

  lemma NoneCharged(v: View, n: nat, d: Dir)
    requires n < |v.bevs|
    ensures AllCharged(v, n, d, 0) == v
  {
  }

  // bufferevent_socket_new, as far as limits are concerned
  method DoMakeBev(bs: seq<Bev>, gs: seq<Group>, ghost v: View) returns (b: Bev)
    requires Shows(bs, gs, v)
    ensures Shows(bs + [b], gs, Next(v, MakeBev)) && fresh(b) && fresh(b.bucket)
  {
    hide Inv;
    b := NewBev(Of(bs), Of(gs));
    assert Of(bs + [b]) == Of(bs) + {b};
    ghost var w := Next(v, MakeBev);
    forall n | 0 <= n <= |bs| ensures LineIs((bs + [b])[n], gs, w.bevs[n]) {
      assert n < |bs| ==> LineIs(bs[n], gs, v.bevs[n]);
    }
  }

  // bufferevent_rate_limit_group_new
  method DoMakeGroup(bs: seq<Bev>, gs: seq<Group>, ghost v: View, c: Cfg, time: nat) returns (g: Group)
    requires Shows(bs, gs, v) && c.Valid()
    ensures Shows(bs, gs + [g], Next(v, MakeGroup(c, time))) && fresh(g) && fresh(g.bucket)
  {
    hide Inv;
    g := NewGroup(c, time % TWO_32, Of(bs), Of(gs));
    assert Of(gs + [g]) == Of(gs) + {g};
    assert g.bucket.Limit(Reading) == g.bucket.readLimit && g.bucket.Limit(Writing) == g.bucket.writeLimit;
    ghost var w := Next(v, MakeGroup(c, time));
    forall n | 0 <= n < |bs| ensures LineIs(bs[n], gs + [g], w.bevs[n]) {
      assert LineIs(bs[n], gs, v.bevs[n]);
    }
    forall k | 0 <= k <= |gs| ensures PoolIs((gs + [g])[k], w.groups[k]) {
      assert k < |gs| ==> PoolIs(gs[k], v.groups[k]);
    }
  }

  // Whether a call is made, as the program itself sees it
  predicate Can(bs: seq<Bev>, gs: seq<Group>, a: Act)
    reads bs, set b | b in bs :: b.bucket, gs, set g | g in gs :: g.bucket
  {
    match a
    case MakeBev => true
    case MakeGroup(c, _) => c.Valid()
    case On(n, event) => n < |bs| && !event.TimerFired? && Possible(bs[n], event)
    case Timer(n, _) => n < |bs| && bs[n].refillPending && bs[n].cfg.Some?
    case Io(n, _, _, _, _) => n < |bs|
    case GroupTakes(k, d, decr) => k < |gs| && InRange(gs[k].bucket.Limit(d) - decr, gs[k].cfg.Max(d))
    case GroupTimer(k, _) => k < |gs|
    case Join(n, k, _) => n < |bs| && k < |gs|
    case Leave(n) => n < |bs|
    case Share(k, _) => k < |gs|
    case Config(k, c) => k < |gs| && c.Valid()
  }

  lemma CanIff(bs: seq<Bev>, gs: seq<Group>, v: View, a: Act)
    requires Shows(bs, gs, v)
    ensures Can(bs, gs, a) <==> Applies(v, a)
  {
    hide Inv;
    match a {
      case On(n, event) =>
        if n < |bs| {
          assert LineIs(bs[n], gs, v.bevs[n]);
        }
      case Timer(n, _) =>
        if n < |bs| {
          assert LineIs(bs[n], gs, v.bevs[n]);
        }
      case GroupTakes(k, d, _) =>
        if k < |gs| {
          assert PoolIs(gs[k], v.groups[k]);
          PoolLimits(gs[k], v.groups[k]);
        }
      case _ =>
    }
  }

  // One call, or one timer: the library goes from one view to the next and moves as much as it should.
  method Do(bs: seq<Bev>, gs: seq<Group>, ghost v: View, a: Act) returns (bs': seq<Bev>, gs': seq<Group>, m: nat)
    requires Shows(bs, gs, v)
    modifies bs, gs, Buckets(Of(bs), Of(gs))
    ensures Shows(bs', gs', Next(v, a)) && m == Amount(v, a) && bs <= bs' && gs <= gs'
    ensures forall i :: |bs| <= i < |bs'| ==> fresh(bs'[i]) && fresh(bs'[i].bucket)
    ensures forall k :: |gs| <= k < |gs'| ==> fresh(gs'[k]) && fresh(gs'[k].bucket)
  {
    hide Shows, Happens, Rings, Taken, RingsAll, Possible, Joined, Grant;
    CanIff(bs, gs, v, a);
    Sizes(bs, gs, v);
    bs', gs', m := bs, gs, 0;
    if !Can(bs, gs, a) {
      return;
    }
    match a {
      case MakeBev =>
        var b := DoMakeBev(bs, gs, v);
        bs' := bs + [b];
      case MakeGroup(c, time) =>
        var g := DoMakeGroup(bs, gs, v, c, time);
        gs' := gs + [g];
      case On(n, event) => DoOn(bs, gs, v, n, event);
      case Timer(n, time) => DoTimer(bs, gs, v, n, time % TWO_32);
      case Io(_, _, _, _, _) => m := DoIo(bs, gs, v, a);
      case GroupTakes(k, d, decr) => DoTake(bs, gs, v, k, d, decr);
      case GroupTimer(k, time) => DoGroupTimer(bs, gs, v, k, time % TWO_32);
      case Join(n, k, memoryLeft) => DoJoin(bs, gs, v, n, k, memoryLeft);
      case Leave(n) => DoLeave(bs, gs, v, n);
      case Share(k, share) => DoShare(bs, gs, v, k, share);
      case Config(k, c) => DoConfig(bs, gs, v, k, c);
    }
  }

  // Every history of a program: in the end everything is as the plain machine says, what every call moved is what the plain
  // machine says, and the backend of a bufferevent is on exactly while the user wants it to be and nothing speaks against it.
  method History(acts: seq<Act>) returns (bs: seq<Bev>, gs: seq<Group>, moved: seq<nat>)
    ensures Shows(bs, gs, Final(START, acts)) && moved == MovedBy(START, acts)
    ensures forall n, d :: 0 <= n < |bs| ==> (bs[n].At(d).on <==> Works(Final(START, acts), n, d))
    ensures (forall n :: 0 <= n < |bs| ==> fresh(bs[n])) && forall k :: 0 <= k < |gs| ==> fresh(gs[k])
  {
    hide Shows, Next, Amount, Works;
    bs, gs, moved := [], [], [];
    NothingMade();
    var i := 0;
    while i < |acts|
      invariant 0 <= i <= |acts| && Shows(bs, gs, Final(START, acts[..i])) && moved == MovedBy(START, acts[..i])
      invariant forall n :: 0 <= n < |bs| ==> fresh(bs[n]) && fresh(bs[n].bucket)
      invariant forall k :: 0 <= k < |gs| ==> fresh(gs[k]) && fresh(gs[k].bucket)
    {
      assert acts[..i + 1][..i] == acts[..i];
      var m;
      bs, gs, m := Do(bs, gs, Final(START, acts[..i]), acts[i]);
      moved := moved + [m];
      i := i + 1;
    }
    assert acts[..i] == acts;
    AllWork(bs, gs, Final(START, acts));
  }

  lemma NothingMade()
    ensures Shows([], [], START)
  {
    NothingYet();
    assert Of<Bev>([]) == {} && Of<Group>([]) == {};
  }

  lemma AllWork(bs: seq<Bev>, gs: seq<Group>, v: View)
    requires Shows(bs, gs, v)
    ensures |bs| == |v.bevs| && forall n, d :: 0 <= n < |bs| ==> (bs[n].At(d).on <==> Works(v, n, d))
  {
    hide Shows, Works, LineIs, Inv;
    Sizes(bs, gs, v);
    forall n, d | 0 <= n < |bs| ensures bs[n].At(d).on <==> Works(v, n, d) {
      WorksIff(bs, gs, v, n, d);
    }
  }

  lemma WorksIff(bs: seq<Bev>, gs: seq<Group>, v: View, n: nat, d: Dir)
    requires Shows(bs, gs, v) && n < |bs|
    ensures |bs| == |v.bevs| && (bs[n].At(d).on <==> Works(v, n, d))
  {
    hide Inv;
    Here(bs, gs, v, n);
    MemberMarked(Of(bs), Of(gs), bs[n]);
    var b, l := bs[n], v.bevs[n];
    if l.group.Some? {
      HereGroup(bs, gs, v, l.group.value);
    }
    assert b.At(d).suspended == {} <==> b.At(d).suspended - {BwGroup} == {} && BwGroup !in b.At(d).suspended;
  }

  lemma MemberMarked(bevs: set<Bev>, groups: set<Group>, b: Bev)
    requires Inv(bevs, groups) && b in bevs
    ensures forall d :: BwGroup in b.At(d).suspended <==> b.group != null && b.group.At(d).suspended
  {
    assert InGroup(b, groups);
  }
}
