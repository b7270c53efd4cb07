/** Suspending and resuming bufferevents: the reasons for which a direction is off (bufferevent.c), and the rate limits
    of bufferevents and groups that set two of them (bufferevent_ratelim.c), in a single-threaded program. */
module RateLimit {
  import opened TokenBucket

  datatype Option<T> = None | Some(value: T)

  // bufferevent_suspend_flags
  datatype Reason = Wm | Bw | BwGroup | Lookup | FiltRead

  // One direction of a bufferevent: EV_READ or EV_WRITE in `enabled`, the reasons it is suspended for, and whether
  // the backend is on.
  datatype Side = Side(enabled: bool, suspended: set<Reason>, on: bool)
  {
    // The backend works exactly if the user wants it to and nothing speaks against it.
    predicate Ok()
    {
      on <==> enabled && suspended == {}
    }
  }

  function Other(d: Dir): Dir { if d == Reading then Writing else Reading }

  // A limit under a new maximum.
  function Clipped(limit: int, max: int): int { if limit > max then max else limit }

  // One direction of a bucket after an update.
  function RefilledTo(d: Dir, limit: int, last: int, cfg: Cfg, tick: int): int
  {
    Updated(limit, last, cfg.Max(d), cfg.Rate(d), tick)
  }

  // struct bufferevent_private, and the bufferevent_rate_limit it may have (`limiting`)
  class Bev {
    var read: Side
    var write: Side
    var limiting: bool
    var cfg: Option<Cfg>
    const bucket: Bucket
    var refillPending: bool
    var group: Group?

    constructor ()
      ensures Ok() && group == null && fresh(bucket) && !limiting && cfg.None? && !refillPending
      ensures read == Side(false, {}, false) && write == Side(false, {}, false)
    {
      read, write := Side(false, {}, false), Side(false, {}, false);
      limiting, cfg, refillPending, group := false, None, false, null;
      bucket := new Bucket.Zero();
    }

    function At(d: Dir): Side
      reads this
    {
      if d == Reading then read else write
    }

    method Put(d: Dir, s: Side)
      modifies this`read, this`write
      ensures At(d) == s && At(Other(d)) == old(At(Other(d)))
    {
      if d == Reading {
        read := s;
      } else {
        write := s;
      }
    }

    // Nobody is stranded: an exhausted bucket suspends its direction, and while either direction is suspended for
    // bandwidth the refill timer is pending.
    ghost predicate Ok()
      reads this, bucket
    {
      && read.Ok() && write.Ok()
      && (cfg.Some? ==>
            && limiting && bucket.Fits(cfg.value)
            && (bucket.Limit(Reading) <= 0 ==> Bw in read.suspended)
            && (bucket.Limit(Writing) <= 0 ==> Bw in write.suspended))
      && (Bw in read.suspended || Bw in write.suspended ==> refillPending)
      && (refillPending ==> cfg.Some?)
      && (group != null ==> limiting)
    }

    // bufferevent_suspend_read_, bufferevent_suspend_write_
    method Suspend(d: Dir, what: Reason)
      requires At(d).Ok()
      modifies this`read, this`write
      ensures At(d) == old(At(d)).(suspended := old(At(d).suspended) + {what}, on := false)
      ensures At(Other(d)) == old(At(Other(d)))
    {
      if At(d).suspended == {} {
        Put(d, At(d).(on := false));
      }
      Put(d, At(d).(suspended := At(d).suspended + {what}));
    }

    // bufferevent_unsuspend_read_, bufferevent_unsuspend_write_
    method Unsuspend(d: Dir, what: Reason)
      requires At(d).Ok()
      modifies this`read, this`write
      ensures At(d).Ok() && At(d).enabled == old(At(d).enabled) && At(d).suspended == old(At(d).suspended) - {what}
      ensures At(Other(d)) == old(At(Other(d)))
    {
      Put(d, At(d).(suspended := At(d).suspended - {what}));
      if At(d).suspended == {} && At(d).enabled {
        Put(d, At(d).(on := true));
      }
    }

    // What the rest of the library and the user may do at any time: suspend and resume for other reasons
    // (watermarks, name lookups, filters), ...
    method SuspendFor(d: Dir, what: Reason)
      requires Ok() && what != Bw && what != BwGroup
      modifies this`read, this`write
      ensures Ok() && ChangesOnly({what}) && what in At(d).suspended && At(Other(d)) == old(At(Other(d)))
    {
      Suspend(d, what);
    }

    method UnsuspendFor(d: Dir, what: Reason)
      requires Ok() && what != Bw && what != BwGroup
      modifies this`read, this`write
      ensures Ok() && ChangesOnly({what}) && what !in At(d).suspended && At(Other(d)) == old(At(Other(d)))
    {
      Unsuspend(d, what);
    }

    // ... enable a direction (one direction of bufferevent_enable), ...
    method Enable(d: Dir)
      requires Ok()
      modifies this`read, this`write
      ensures Ok() && At(d).enabled && At(d).suspended == old(At(d).suspended)
      ensures At(Other(d)) == old(At(Other(d)))
    {
      var impl := At(d).suspended == {};
      Put(d, At(d).(enabled := true));
      if impl {
        Put(d, At(d).(on := true));
      }
    }

    // ... and disable it (bufferevent_disable).
    method Disable(d: Dir)
      requires Ok()
      modifies this`read, this`write
      ensures Ok() && !At(d).enabled && !At(d).on && At(d).suspended == old(At(d).suspended)
      ensures At(Other(d)) == old(At(Other(d)))
    {
      Put(d, At(d).(enabled := false));
      Put(d, At(d).(on := false));
    }

    // Only these reasons may have come or gone.
    twostate predicate ChangesOnly(what: set<Reason>)
      reads this
    {
      && group == old(group)
      && (forall d :: At(d).enabled == old(At(d).enabled))
      && (forall d :: At(d).suspended - what == old(At(d).suspended) - what)
    }

    // bufferevent_decrement_read_buckets_, bufferevent_decrement_write_buckets_: the bufferevent's own bucket
    method DecrementOwn(d: Dir, bytes: int)
      requires Ok() && cfg.Some?
      requires SSIZE_MIN <= bucket.Limit(d) - bytes <= cfg.value.Max(d)
      modifies this`read, this`write, this`refillPending, bucket
      ensures Ok() && ChangesOnly({Bw})
      ensures bucket.Limit(d) == old(bucket.Limit(d)) - bytes && bucket.Limit(Other(d)) == old(bucket.Limit(Other(d)))
      ensures bucket.lastUpdated == old(bucket.lastUpdated)
      ensures (Bw in At(d).suspended <==> bucket.Limit(d) <= 0) && At(Other(d)) == old(At(Other(d)))
      ensures refillPending ==
        (bucket.Limit(d) <= 0 || (old(refillPending) && (Bw in old(At(d)).suspended ==> Bw in At(Other(d)).suspended)))
    {
      if d == Reading {
        bucket.readLimit := bucket.readLimit - bytes;
      } else {
        bucket.writeLimit := bucket.writeLimit - bytes;
      }
      if bucket.Limit(d) <= 0 {
        Suspend(d, Bw);
        refillPending := true;
      } else if Bw in At(d).suspended {
        if Bw !in At(Other(d)).suspended {
          refillPending := false;
        }
        Unsuspend(d, Bw);
      }
    }

    // What a decrement of the own bucket, and of that of the group, does.
    twostate predicate Told(d: Dir, bytes: int)
      reads this, bucket
    {
      && (cfg.Some? ==>
            && bucket.Limit(d) == old(bucket.Limit(d)) - bytes && bucket.Limit(Other(d)) == old(bucket.Limit(Other(d)))
            && bucket.lastUpdated == old(bucket.lastUpdated) && (Bw in At(d).suspended <==> bucket.Limit(d) <= 0)
            && refillPending == (bucket.Limit(d) <= 0
                                 || (old(refillPending) && (Bw in old(At(d)).suspended ==> Bw in At(Other(d)).suspended))))
      && (cfg.None? ==> !refillPending && !old(refillPending) && Bw !in At(d).suspended && Bw !in old(At(d)).suspended)
      && At(Other(d)) == old(At(Other(d))) && At(d).enabled == old(At(d).enabled)
      && At(d).suspended - {Bw, BwGroup} == old(At(d).suspended) - {Bw, BwGroup}
    }

    // bufferevent_decrement_read_limit, bufferevent_decrement_write_limit. A negative decrement must not push the
    // limit above the maximum.
    method DecrementLimit(d: Dir, decr: int)
      requires Ok() && cfg.Some?
      requires SSIZE_MIN <= bucket.Limit(d) - decr <= cfg.value.Max(d)
      modifies this`read, this`write, this`refillPending, bucket
      ensures Ok() && ChangesOnly({Bw})
      ensures bucket.Limit(d) == old(bucket.Limit(d)) - decr && bucket.Limit(Other(d)) == old(bucket.Limit(Other(d)))
      ensures bucket.lastUpdated == old(bucket.lastUpdated) && At(Other(d)) == old(At(Other(d)))
      ensures var before, after := old(bucket.Limit(d)) > 0, bucket.Limit(d) > 0;
        && (Bw in At(d).suspended <==> if before == after then Bw in old(At(d)).suspended else before)
        && refillPending == (if before == after then old(refillPending)
                             else before || (old(refillPending) && Bw in At(Other(d)).suspended))
    {
      var oldLimit := bucket.Limit(d);
      var newLimit := oldLimit - decr;
      if d == Reading {
        bucket.readLimit := newLimit;
      } else {
        bucket.writeLimit := newLimit;
      }
      if oldLimit > 0 && newLimit <= 0 {
        Suspend(d, Bw);
        refillPending := true;
      } else if oldLimit <= 0 && newLimit > 0 {
        if Bw !in At(Other(d)).suspended {
          refillPending := false;
        }
        Unsuspend(d, Bw);
      }
    }

    // bev_refill_callback_, when the timer has gone off
    method RefillCallback(tick: int)
      requires Ok() && refillPending && 0 <= tick < TWO_32
      modifies this`read, this`write, this`refillPending, bucket
      ensures Ok() && ChangesOnly({Bw})
      ensures forall d :: Bw in At(d).suspended <==> Bw in old(At(d)).suspended && bucket.Limit(d) <= 0
      ensures forall d :: bucket.Limit(d) == RefilledTo(d, old(bucket.Limit(d)), old(bucket.lastUpdated), cfg.value, tick)
      ensures refillPending <==> Bw in read.suspended || Bw in write.suspended
      ensures bucket.lastUpdated == UpdatedLast(old(bucket.lastUpdated), tick)
    {
      refillPending := false;
      var again := false;
      var _ := bucket.Update(cfg.value, tick);
      if Bw in read.suspended {
        if bucket.Limit(Reading) > 0 {
          Unsuspend(Reading, Bw);
        } else {
          again := true;
        }
      }
      if Bw in write.suspended {
        if bucket.Limit(Writing) > 0 {
          Unsuspend(Writing, Bw);
        } else {
          again := true;
        }
      }
      if again {
        refillPending := true;
      }
    }

    // bufferevent_set_rate_limit; memoryLeft says whether there is memory for the rate limit.
    method SetRateLimit(c: Option<Cfg>, tick: int, memoryLeft: bool) returns (r: int)
      requires Ok() && 0 <= tick < TWO_32 && (c.Some? ==> c.value.Valid())
      modifies this`read, this`write, this`limiting, this`cfg, this`refillPending, bucket
      ensures Ok() && ChangesOnly({Bw})
      ensures r == if c.None? || old(limiting) || memoryLeft then 0 else -1
      ensures r == 0 ==> (if c.Some? then cfg.Some? && cfg.value.id == c.value.id else cfg.None?)
      ensures r == 0 && c.None? ==> Bw !in read.suspended && Bw !in write.suspended && !refillPending
      ensures r == -1 ==> unchanged(this) && unchanged(bucket)
      ensures limiting == (old(limiting) || (c.Some? && memoryLeft))
      ensures r == 0 && c.Some? && old(limiting && cfg.Some? && cfg.value.id == c.value.id) ==> unchanged(this) && unchanged(bucket)
      ensures r == 0 && c.Some? && !old(limiting && cfg.Some? && cfg.value.id == c.value.id) ==>
        && cfg == c && (refillPending <==> Bw in read.suspended || Bw in write.suspended)
        && bucket.lastUpdated == (if old(cfg).None? then tick else old(bucket.lastUpdated))
        && forall d :: (Bw in At(d).suspended <==> bucket.Limit(d) <= 0)
                       && bucket.Limit(d) == (if old(cfg).None? then c.value.Rate(d) else Clipped(old(bucket.Limit(d)), c.value.Max(d)))
    {
      if c.None? {
        if limiting {
          cfg := None;
          Unsuspend(Reading, Bw);
          Unsuspend(Writing, Bw);
          refillPending := false;
        }
        return 0;
      }
      if limiting && cfg.Some? && cfg.value.id == c.value.id {
        return 0;
      }
      if !limiting {
        if !memoryLeft {
          return -1;
        }
        limiting := true;
      }
      Limit(c.value, tick);
      return 0;
    }

    // The rest of bufferevent_set_rate_limit, for another configuration
    method Limit(c: Cfg, tick: int)
      requires Ok() && limiting && 0 <= tick < TWO_32 && c.Valid()
      modifies this`read, this`write, this`cfg, this`refillPending, bucket
      ensures Ok() && ChangesOnly({Bw}) && cfg == Some(c)
      ensures bucket.lastUpdated == if old(cfg).None? then tick else old(bucket.lastUpdated)
      ensures refillPending <==> Bw in read.suspended || Bw in write.suspended
      ensures forall d :: Bw in At(d).suspended <==> bucket.Limit(d) <= 0
      ensures forall d ::
        bucket.Limit(d) == if old(cfg).None? then c.Rate(d) else Clipped(old(bucket.Limit(d)), c.Max(d))
    {
      var reinit := cfg.Some?;
      cfg := Some(c);
      bucket.Init(c, tick, reinit);
      if reinit {
        refillPending := false;
      }
      // event_assign must not be applied to a pending timer
      assert !refillPending;
      var suspended := false;
      if bucket.Limit(Reading) > 0 {
        Unsuspend(Reading, Bw);
      } else {
        Suspend(Reading, Bw);
        suspended := true;
      }
      if bucket.Limit(Writing) > 0 {
        Unsuspend(Writing, Bw);
      } else {
        Suspend(Writing, Bw);
        suspended := true;
      }
      if suspended {
        refillPending := true;
      }
    }
  }

  const MIN_SHARE_DEFAULT: int := 64

  // How bufferevent_rate_limit_group_set_min_share adjusts a share: no more than one tick's worth.
  function ShareFor(c: Cfg, share: int): (s: int)
    ensures s <= share && s <= c.readRate && s <= c.writeRate && (s == share || s == c.readRate || s == c.writeRate)
  {
    var s := if share > c.readRate then c.readRate else share;
    if s > c.writeRate then c.writeRate else s
  }

  // One direction of a group.
  datatype GroupSide = GroupSide(suspended: bool, pendingUnsuspend: bool)

  // struct bufferevent_rate_limit_group
  class Group {
    var members: seq<Bev>
    var nMembers: nat
    var cfg: Cfg
    const bucket: Bucket
    var minShare: int
    var configuredMinShare: int
    var read: GroupSide
    var write: GroupSide

    // bufferevent_rate_limit_group_new
    constructor (c: Cfg, tick: int)
      requires c.Valid() && 0 <= tick < TWO_32
      ensures Ok() && members == [] && nMembers == 0 && cfg == c && !read.suspended && !write.suspended && fresh(bucket)
      ensures configuredMinShare == MIN_SHARE_DEFAULT && minShare == ShareFor(c, MIN_SHARE_DEFAULT)
      ensures bucket.lastUpdated == tick && forall d :: bucket.Limit(d) == c.Rate(d)
    {
      members, nMembers, cfg := [], 0, c;
      bucket := new Bucket(c, tick);
      read, write := GroupSide(false, false), GroupSide(false, false);
      configuredMinShare := MIN_SHARE_DEFAULT;
      minShare := ShareFor(c, MIN_SHARE_DEFAULT);
    }

    function At(d: Dir): GroupSide
      reads this
    {
      if d == Reading then read else write
    }

    // What a decrement of the bucket of a group does.
    twostate predicate Told(d: Dir, bytes: int)
      reads this, bucket
    {
      && bucket.Limit(d) == old(bucket.Limit(d)) - bytes && bucket.Limit(Other(d)) == old(bucket.Limit(Other(d)))
      && bucket.lastUpdated == old(bucket.lastUpdated)
      && (At(d).suspended <==> bucket.Limit(d) <= 0) && At(Other(d)) == old(At(Other(d)))
    }

    // In a single-threaded program no member is ever skipped, so nothing is left pending.
    ghost predicate Ok()
      reads this, bucket
    {
      && nMembers == |members| && (forall i, j :: 0 <= i < j < |members| ==> members[i] != members[j])
      && cfg.Valid() && bucket.Fits(cfg)
      && 0 <= minShare <= cfg.readRate && minShare <= cfg.writeRate && 0 <= configuredMinShare <= SSIZE_MAX
      && !read.pendingUnsuspend && !write.pendingUnsuspend
    }
  }

  // -- The whole program: all bufferevents and all groups --

  ghost function Buckets(bevs: set<Bev>, groups: set<Group>): set<Bucket>
  {
    (set b | b in bevs :: b.bucket) + (set g | g in groups :: g.bucket)
  }

  // A bufferevent carries the group reason exactly if it is in a group that is suspended.
  ghost predicate InGroup(b: Bev, groups: set<Group>)
    reads b, groups
  {
    if b.group == null then BwGroup !in b.read.suspended && BwGroup !in b.write.suspended
    else
      && b.group in groups && b in b.group.members
      && (BwGroup in b.read.suspended <==> b.group.read.suspended)
      && (BwGroup in b.write.suspended <==> b.group.write.suspended)
  }

  // Every bucket belongs to one bufferevent or group.
  ghost predicate Private(bevs: set<Bev>, groups: set<Group>)
  {
    && (forall a, b :: a in bevs && b in bevs && a != b ==> a.bucket != b.bucket)
    && (forall g, h :: g in groups && h in groups && g != h ==> g.bucket != h.bucket)
    && (forall b, g :: b in bevs && g in groups ==> b.bucket != g.bucket)
  }

  ghost predicate Inv(bevs: set<Bev>, groups: set<Group>)
    reads bevs, groups, Buckets(bevs, groups)
  {
    && Private(bevs, groups)
    && (forall b :: b in bevs ==> b.Ok() && InGroup(b, groups))
    && (forall g :: g in groups ==> g.Ok() && forall m :: m in g.members ==> m in bevs && m.group == g)
  }

  // Single-threaded, a group is suspended exactly if every one of its members carries the group reason; no member does
  // otherwise.
  lemma GroupIffMembers(bevs: set<Bev>, groups: set<Group>, g: Group, d: Dir)
    requires Inv(bevs, groups) && g in groups && g.members != []
    ensures g.At(d).suspended <==> forall m :: m in g.members ==> BwGroup in m.At(d).suspended
    ensures g.At(d).suspended <==> exists m :: m in g.members && BwGroup in m.At(d).suspended
  {
    var m := g.members[0];
    assert m in g.members && m in bevs && InGroup(m, groups);
    forall m | m in g.members ensures BwGroup in m.At(d).suspended <==> g.At(d).suspended {
      assert m in bevs && InGroup(m, groups);
    }
  }

  // A call that is about one bufferevent, and not about its group, keeps the invariant.
  twostate lemma LocalStep(new bevs: set<Bev>, new groups: set<Group>, new b: Bev, new what: set<Reason>)
    requires old(allocated(bevs)) && old(allocated(groups)) && old(Inv(bevs, groups)) && b in bevs
    requires b.Ok() && old(allocated(b)) && b.ChangesOnly(what) && BwGroup !in what
    requires forall o :: o in bevs && o != b ==> unchanged(o) && unchanged(o.bucket)
    requires forall g :: g in groups ==> unchanged(g) && unchanged(g.bucket)
    ensures Inv(bevs, groups)
  {
    assert old(InGroup(b, groups));
    assert b.At(Reading) == b.read && b.At(Writing) == b.write;
    assert b.read.suspended - what == old(b.read.suspended) - what && b.write.suspended - what == old(b.write.suspended) - what;
    assert BwGroup in b.read.suspended - what <==> BwGroup in b.read.suspended;
    assert BwGroup in b.write.suspended - what <==> BwGroup in b.write.suspended;
    forall o | o in bevs ensures o.Ok() && InGroup(o, groups) {
      assert old(o.Ok()) && old(InGroup(o, groups));
    }
    forall g | g in groups ensures g.Ok() {
      assert old(g.Ok());
    }
  }

  // A group has been switched on or off in one direction, and every member with it.
  ghost predicate Marked(members: seq<Bev>, lo: nat, hi: nat, d: Dir, on: bool)
    reads members
  {
    forall k :: lo <= k < hi && k < |members| ==> (BwGroup in members[k].At(d).suspended <==> on)
  }

  // While members are being marked: nothing else about them changes.
  twostate predicate OnlyMarks(new members: seq<Bev>, new d: Dir)
    requires old(allocated(members))
    reads members
  {
    forall m :: m in members ==> OnlyMark(m, d)
  }

  twostate predicate OnlyMark(new m: Bev, new d: Dir)
    requires old(allocated(m))
    reads m
  {
    m.read.Ok() && m.write.Ok() && m.ChangesOnly({BwGroup}) && m.At(Other(d)) == old(m.At(Other(d)))
  }

  // What marking leaves as it is
  datatype Stamp = Stamp(group: Group?, readEnabled: bool, writeEnabled: bool, read: set<Reason>, write: set<Reason>)

  ghost function StampOf(m: Bev): Stamp
    reads m
  {
    Stamp(m.group, m.read.enabled, m.write.enabled, m.read.suspended - {BwGroup}, m.write.suspended - {BwGroup})
  }

  // Only the group reason may have come or gone.
  twostate predicate OnlyGroup(new members: seq<Bev>)
    requires old(allocated(members))
    reads members
  {
    forall m :: m in members ==> StampOf(m) == old(StampOf(m))
  }

  twostate lemma OnlyGroupFrom(new members: seq<Bev>, new d: Dir)
    requires old(allocated(members)) && OnlyMarks(members, d)
    ensures OnlyGroup(members)
  {
    forall m | m in members ensures StampOf(m) == old(StampOf(m)) {
      assert OnlyMark(m, d);
      assert m.At(Reading) == m.read && m.At(Writing) == m.write && old(m.At(Reading)) == old(m.read);
      assert old(m.At(Writing)) == old(m.write);
    }
  }

  twostate lemma GroupStep(new bevs: set<Bev>, new groups: set<Group>, new g: Group, new d: Dir, new on: bool)
    requires old(allocated(bevs)) && old(allocated(groups)) && old(allocated(g)) && old(allocated(g.members))
    requires old(Inv(bevs, groups)) && g in groups && g.members == old(g.members)
    requires g.At(d) == GroupSide(on, false) && g.At(Other(d)) == old(g.At(Other(d)))
    requires unchanged(g`nMembers, g`cfg, g`minShare, g`configuredMinShare) && g.bucket.Fits(g.cfg)
    requires Marked(g.members, 0, |g.members|, d, on) && OnlyMarks(g.members, d)
    requires forall m :: m in g.members ==> unchanged(m`limiting, m`cfg, m`refillPending) && unchanged(m.bucket)
    requires forall o :: o in bevs && o !in g.members ==> unchanged(o) && unchanged(o.bucket)
    requires forall h :: h in groups && h != g ==> unchanged(h) && unchanged(h.bucket)
    ensures Inv(bevs, groups)
  {
    forall b | b in bevs ensures b.Ok() && InGroup(b, groups) {
      assert old(b.Ok()) && old(InGroup(b, groups));
      if b in g.members {
        MarkedAt(g.members, b, d, on);
        MemberStep(b);
        assert b.group == g;
        assert BwGroup in b.At(Other(d)).suspended <==> g.At(Other(d)).suspended;
        assert b.At(Reading) == b.read && b.At(Writing) == b.write && g.At(Reading) == g.read && g.At(Writing) == g.write;
      }
    }
    forall h | h in groups ensures h.Ok() {
      assert old(h.Ok());
    }
  }

  lemma MarkedAt(members: seq<Bev>, b: Bev, d: Dir, on: bool)
    requires Marked(members, 0, |members|, d, on) && b in members
    ensures BwGroup in b.At(d).suspended <==> on
  {
  }

  twostate lemma MemberStep(new b: Bev)
    requires old(allocated(b)) && old(b.Ok()) && b.read.Ok() && b.write.Ok() && b.ChangesOnly({BwGroup})
    requires unchanged(b`limiting, b`cfg, b`refillPending) && unchanged(b.bucket)
    ensures b.Ok()
  {
    assert b.At(Reading) == b.read && b.At(Writing) == b.write;
    assert old(b.At(Reading)) == old(b.read) && old(b.At(Writing)) == old(b.write);
    assert Bw in b.read.suspended - {BwGroup} <==> Bw in b.read.suspended;
    assert Bw in b.write.suspended - {BwGroup} <==> Bw in b.write.suspended;
    assert Bw in old(b.read.suspended) - {BwGroup} <==> Bw in old(b.read.suspended);
    assert Bw in old(b.write.suspended) - {BwGroup} <==> Bw in old(b.write.suspended);
  }

  twostate predicate MarkedAs(new m: Bev, new d: Dir, new on: bool)
    requires old(allocated(m))
    reads m
  {
    OnlyMark(m, d) && (BwGroup in m.At(d).suspended <==> on)
  }

  method MarkOne(m: Bev, d: Dir, on: bool)
    requires m.read.Ok() && m.write.Ok()
    modifies m`read, m`write
    ensures MarkedAs(m, d, on)
  {
    if on {
      m.Suspend(d, BwGroup);
    } else {
      m.Unsuspend(d, BwGroup);
    }
  }

  // LIST_FOREACH over the members
  method MarkAll(members: seq<Bev>, d: Dir)
    requires forall i, j :: 0 <= i < j < |members| ==> members[i] != members[j]
    requires forall i :: 0 <= i < |members| ==> members[i].read.Ok() && members[i].write.Ok()
    modifies members`read, members`write
    ensures OnlyMarks(members, d) && Marked(members, 0, |members|, d, true)
  {
    var k := 0;
    while k < |members|
      invariant 0 <= k <= |members|
      invariant forall i :: 0 <= i < k ==> MarkedAs(members[i], d, true)
      invariant forall i :: k <= i < |members| ==> unchanged(members[i])
    {
      MarkOne(members[k], d, true);
      k := k + 1;
    }
  }

  // FOREACH_RANDOM_ORDER: all members, from a random one on, and then the ones before it.
  method UnmarkAll(members: seq<Bev>, d: Dir)
    requires forall i, j :: 0 <= i < j < |members| ==> members[i] != members[j]
    requires forall i :: 0 <= i < |members| ==> members[i].read.Ok() && members[i].write.Ok()
    modifies members`read, members`write
    ensures OnlyMarks(members, d) && Marked(members, 0, |members|, d, false)
  {
    if |members| > 0 {
      var which: nat :| which < |members|;
      var k := which;
      while k < |members|
        invariant which <= k <= |members|
        invariant forall i :: which <= i < k ==> MarkedAs(members[i], d, false)
        invariant forall i :: 0 <= i < |members| && !(which <= i < k) ==> unchanged(members[i])
      {
        MarkOne(members[k], d, false);
        k := k + 1;
      }
      k := 0;
      while k < which
        invariant 0 <= k <= which
        invariant forall i :: which <= i < |members| ==> MarkedAs(members[i], d, false)
        invariant forall i :: 0 <= i < k ==> MarkedAs(members[i], d, false)
        invariant forall i :: k <= i < which ==> unchanged(members[i])
      {
        MarkOne(members[k], d, false);
        k := k + 1;
      }
    }
  }

  lemma MembersOk(bevs: set<Bev>, groups: set<Group>, g: Group)
    requires g in groups && (forall m :: m in g.members ==> m in bevs) && forall b :: b in bevs ==> b.Ok()
    ensures forall i :: 0 <= i < |g.members| ==> g.members[i].read.Ok() && g.members[i].write.Ok()
  {
    forall i | 0 <= i < |g.members| ensures g.members[i].read.Ok() && g.members[i].write.Ok() {
      assert g.members[i] in g.members;
    }
  }

  // bev_group_suspend_reading_, bev_group_suspend_writing_
  method SuspendGroup(g: Group, d: Dir, ghost bevs: set<Bev>, ghost groups: set<Group>)
    requires Inv(bevs, groups) && g in groups
    modifies g`read, g`write, g.members`read, g.members`write
    ensures Inv(bevs, groups) && g.At(d).suspended && g.At(Other(d)) == old(g.At(Other(d)))
    ensures OnlyMarks(g.members, d)
  {
    hide Marked;
    if d == Reading {
      g.read := GroupSide(true, false);
    } else {
      g.write := GroupSide(true, false);
    }
    MembersOk(bevs, groups, g);
    MarkAll(g.members, d);
    GroupStep(bevs, groups, g, d, true);
  }

  // bev_group_unsuspend_reading_, bev_group_unsuspend_writing_: the members from a random one on, then the others.
  method UnsuspendGroup(g: Group, d: Dir, ghost bevs: set<Bev>, ghost groups: set<Group>)
    requires Inv(bevs, groups) && g in groups
    modifies g`read, g`write, g.members`read, g.members`write
    ensures Inv(bevs, groups) && !g.At(d).suspended && g.At(Other(d)) == old(g.At(Other(d)))
    ensures OnlyMarks(g.members, d)
  {
    hide Marked;
    if d == Reading {
      g.read := GroupSide(false, false);
    } else {
      g.write := GroupSide(false, false);
    }
    MembersOk(bevs, groups, g);
    UnmarkAll(g.members, d);
    GroupStep(bevs, groups, g, d, false);
  }

  // C's division of a signed by a positive number
  function TruncDiv(a: int, n: int): (q: int)
    requires n > 0
    ensures a >= 0 ==> 0 <= q && q * n <= a < (q + 1) * n
    ensures a <= 0 ==> q <= 0 && (q - 1) * n < a <= q * n
  {
    if a >= 0 then a / n else -(-a / n)
  }

  // What an even division of the group's bucket gives each member, but not less than the minimum share.
  function EvenShare(g: Group, d: Dir): (s: int)
    requires g.nMembers > 0
    reads g, g.bucket
    ensures g.minShare <= s
    ensures g.minShare >= 0 ==>
      var l, n := g.bucket.Limit(d), g.nMembers; (s * n <= l < (s + 1) * n) || (s == g.minShare && l < (s + 1) * n)
  {
    var s := TruncDiv(g.bucket.Limit(d), g.nMembers);
    if s < g.minShare then g.minShare else s
  }

  // The group's part of bufferevent_get_rlim_max_. The branch for a suspended group changes nothing here: only a
  // member that another thread held while the group was suspended would still be on.
  method GroupShare(b: Bev, d: Dir) returns (share: int)
    requires b.Ok() && b.group != null && b.group.nMembers > 0
    requires b.group.At(d).suspended ==> BwGroup in b.At(d).suspended
    modifies b`read, b`write
    ensures b.read == old(b.read) && b.write == old(b.write)
    ensures share == if b.group.At(d).suspended then 0 else EvenShare(b.group, d)
    ensures !b.group.At(d).suspended ==> share >= b.group.minShare
    ensures !b.group.At(d).suspended && b.group.minShare >= 0 ==>
      var l, n := b.group.bucket.Limit(d), b.group.nMembers;
      (share * n <= l < (share + 1) * n) || (share == b.group.minShare && l < (share + 1) * n)
  {
    if b.group.At(d).suspended {
      b.Suspend(d, BwGroup);
      assert old(b.At(d)).suspended + {BwGroup} == old(b.At(d)).suspended;
      share := 0;
    } else {
      share := TruncDiv(b.group.bucket.Limit(d), b.group.nMembers);
      if share < b.group.minShare {
        share := b.group.minShare;
      }
    }
  }

  lemma GroupHasMember(bevs: set<Bev>, groups: set<Group>, b: Bev)
    requires Inv(bevs, groups) && b in bevs && b.group != null
    ensures b.group.nMembers > 0 && forall d :: b.group.At(d).suspended ==> BwGroup in b.At(d).suspended
  {
    assert InGroup(b, groups);
    assert b.group.Ok() && b in b.group.members;
  }

  // What may be moved now: no more than the bufferevent's own bucket holds after an update, or the caller's maximum if it
  // has no limit, and no more than its share of a group that is not suspended.
  function Allowance(b: Bev, d: Dir, tick: int, maxSingle: int): (n: int)
    requires b.group != null ==> b.group.nMembers > 0
    reads b, b.bucket, if b.group == null then {} else {b.group}, if b.group == null then {} else {b.group.bucket}
    ensures n >= 0
  {
    var own := if b.cfg.None? then maxSingle
               else RefilledTo(d, b.bucket.Limit(d), b.bucket.lastUpdated, b.cfg.value, tick);
    var share := if b.group == null then own else if b.group.At(d).suspended then 0 else EvenShare(b.group, d);
    LeastOf(own, share)
  }

  // The least of both, and nothing if that is negative
  function LeastOf(own: int, share: int): (m: int)
    ensures m >= 0 && (m == 0 || (m <= own && m <= share)) && (m == own || m == share || (m == 0 && (own < 0 || share < 0)))
  {
    var m := if own > share then share else own;
    if m < 0 then 0 else m
  }

  // What is granted to the member of a group: what its own bucket holds, or else an even share of the bucket of the group, but
  // not less than the minimum share; whichever is less.
  lemma ShareGranted(b: Bev, d: Dir, maxSingle: nat, m: int)
    requires b.group != null && b.group.nMembers > 0 && b.group.minShare >= 0
    requires m == LeastOf(if b.cfg.Some? then b.bucket.Limit(d) else maxSingle,
                          if b.group.At(d).suspended then 0 else EvenShare(b.group, d))
    ensures b.group.At(d).suspended ==> m == 0
    ensures !b.group.At(d).suspended ==>
      var own, l, n := if b.cfg.Some? then b.bucket.Limit(d) else maxSingle, b.group.bucket.Limit(d), b.group.nMembers;
      && m <= (if own < 0 then 0 else own) && (m * n <= l || m <= b.group.minShare)
      && (m == (if own < 0 then 0 else own) || (m >= b.group.minShare && l < (m + 1) * n))
  {
    var own, l, n := if b.cfg.Some? then b.bucket.Limit(d) else maxSingle, b.group.bucket.Limit(d), b.group.nMembers;
    if !b.group.At(d).suspended {
      var share := EvenShare(b.group, d);
      LessShare(m, share, l, n);
    }
  }

  lemma LessShare(m: nat, share: int, l: int, n: nat)
    requires n > 0 && m <= share
    ensures share * n <= l ==> m * n <= l
  {
    NotNegative(share - m, n);
  }

  lemma GroupShared(bevs: set<Bev>, groups: set<Group>, b: Bev)
    requires Inv(bevs, groups) && b in bevs && b.group != null
    ensures b.group.minShare >= 0 && b.group.bucket != b.bucket
  {
    assert InGroup(b, groups);
    assert b.group.Ok() && b in b.group.members;
  }

  method UpdateBucket(b: Bev, tick: int)
    requires b.Ok() && b.cfg.Some? && 0 <= tick < TWO_32
    modifies b.bucket
    ensures b.Ok() && b.bucket.lastUpdated == UpdatedLast(old(b.bucket.lastUpdated), tick)
    ensures forall e :: b.bucket.Limit(e) == RefilledTo(e, old(b.bucket.Limit(e)), old(b.bucket.lastUpdated), b.cfg.value, tick)
  {
    hide Updated;
    var _ := b.bucket.Update(b.cfg.value, tick);
  }

  lemma NoLimit(b: Bev)
    requires b.Ok() && !b.limiting
    ensures b.cfg.None? && b.group == null
  {
  }

  lemma NoTicks(b: Bucket, c: Cfg)
    ensures UpdatedLast(b.lastUpdated, b.lastUpdated) == b.lastUpdated
    ensures forall e :: RefilledTo(e, b.Limit(e), b.lastUpdated, c, b.lastUpdated) == b.Limit(e)
  {
  }

  // bufferevent_get_rlim_max_, as far as the bufferevent is concerned
  method OwnRlimMax(b: Bev, d: Dir, tick: int, maxSingle: int) returns (m: int)
    requires b.Ok() && 0 <= tick < TWO_32
    requires b.group != null ==> b.group.nMembers > 0 && (b.group.At(d).suspended ==> BwGroup in b.At(d).suspended)
    requires b.group != null ==> b.group.bucket != b.bucket
    modifies b`read, b`write, b.bucket
    ensures b.Ok() && b.read == old(b.read) && b.write == old(b.write)
    ensures maxSingle >= 0 ==> m == old(Allowance(b, d, tick, maxSingle))
    ensures b.cfg.None? && b.group == null ==> m == maxSingle || (b.limiting && maxSingle < 0 && m == 0)
    ensures b.cfg.Some? ==>
      && (forall e :: b.bucket.Limit(e) == RefilledTo(e, old(b.bucket.Limit(e)), old(b.bucket.lastUpdated), b.cfg.value, tick))
      && b.bucket.lastUpdated == UpdatedLast(old(b.bucket.lastUpdated), tick)
      && m <= (if b.bucket.Limit(d) < 0 then 0 else b.bucket.Limit(d))
      && (b.group == null ==> m == if b.bucket.Limit(d) < 0 then 0 else b.bucket.Limit(d))
    ensures b.group != null ==>
      m <= (if b.group.At(d).suspended || EvenShare(b.group, d) < 0 then 0 else EvenShare(b.group, d))
  {
    hide RefilledTo, UpdatedLast, EvenShare, Bev.Ok;
    m := maxSingle;
    if !b.limiting {
      NoLimit(b);
      return;
    }
    if b.cfg.Some? {
      if tick != b.bucket.lastUpdated {
        UpdateBucket(b, tick);
      } else {
        NoTicks(b.bucket, b.cfg.value);
      }
      m := b.bucket.Limit(d);
    }
    if b.group != null {
      var share := GroupShare(b, d);
      if m > share {
        m := share;
      }
    }
    if m < 0 {
      m := 0;
    }
  }

  // bufferevent_get_rlim_max_: how much may be moved now. Without a group it is what TokenBucket.Allowed asks for.
  method GetRlimMax(b: Bev, d: Dir, tick: int, maxSingle: int, ghost bevs: set<Bev>, ghost groups: set<Group>)
    returns (m: int)
    requires Inv(bevs, groups) && b in bevs && 0 <= tick < TWO_32
    modifies b`read, b`write, b.bucket
    ensures Inv(bevs, groups) && b.read == old(b.read) && b.write == old(b.write)
    ensures b.group != null ==> b.group.nMembers > 0
    ensures maxSingle >= 0 ==> m == old(Allowance(b, d, tick, maxSingle))
    ensures b.cfg.None? && b.group == null ==> m == maxSingle || (b.limiting && maxSingle < 0 && m == 0)
    ensures b.cfg.Some? ==>
      && (forall e :: b.bucket.Limit(e) == RefilledTo(e, old(b.bucket.Limit(e)), old(b.bucket.lastUpdated), b.cfg.value, tick))
      && b.bucket.lastUpdated == UpdatedLast(old(b.bucket.lastUpdated), tick)
      && m <= (if b.bucket.Limit(d) < 0 then 0 else b.bucket.Limit(d))
      && (b.group == null ==> m == if b.bucket.Limit(d) < 0 then 0 else b.bucket.Limit(d))
    ensures b.group != null ==>
      m <= (if b.group.At(d).suspended || EvenShare(b.group, d) < 0 then 0 else EvenShare(b.group, d))
    ensures maxSingle >= 0 && b.group != null && b.group.At(d).suspended ==> m == 0
    ensures maxSingle >= 0 && b.group != null && !b.group.At(d).suspended ==>
      var own, l, n := if b.cfg.Some? then b.bucket.Limit(d) else maxSingle, b.group.bucket.Limit(d), b.group.nMembers;
      && m <= (if own < 0 then 0 else own) && (m * n <= l || m <= b.group.minShare)
      && (m == (if own < 0 then 0 else own) || (m >= b.group.minShare && l < (m + 1) * n))
  {
    assert b.Ok();
    if b.group != null {
      GroupHasMember(bevs, groups, b);
      GroupShared(bevs, groups, b);
    }
    m := OwnRlimMax(b, d, tick, maxSingle);
    LocalStep(bevs, groups, b, {});
    if maxSingle >= 0 && b.group != null {
      ShareGranted(b, d, maxSingle, m);
    }
  }

  // The group's part of bufferevent_decrement_read_buckets_, bufferevent_decrement_write_buckets_
  method DecrementShared(g: Group, d: Dir, bytes: int, ghost bevs: set<Bev>, ghost groups: set<Group>)
    requires Inv(bevs, groups) && g in groups
    requires SSIZE_MIN <= g.bucket.Limit(d) - bytes <= g.cfg.Max(d)
    modifies g`read, g`write, g.bucket, g.members`read, g.members`write
    ensures Inv(bevs, groups) && g.Told(d, bytes) && OnlyMarks(g.members, d)
  {
    hide Bev.Ok, InGroup;
    MembersOk(bevs, groups, g);
    TakeFrom(g, d, bytes, bevs, groups);
    if g.bucket.Limit(d) <= 0 {
      SuspendGroup(g, d, bevs, groups);
    } else if g.At(d).suspended {
      UnsuspendGroup(g, d, bevs, groups);
    }
  }

  method TakeFrom(g: Group, d: Dir, bytes: int, ghost bevs: set<Bev>, ghost groups: set<Group>)
    requires Inv(bevs, groups) && g in groups
    requires SSIZE_MIN <= g.bucket.Limit(d) - bytes <= g.cfg.Max(d)
    modifies g.bucket
    ensures Inv(bevs, groups) && g.bucket.Limit(d) == old(g.bucket.Limit(d)) - bytes
    ensures g.bucket.Limit(Other(d)) == old(g.bucket.Limit(Other(d)))
    ensures g.bucket.lastUpdated == old(g.bucket.lastUpdated)
  {
    if d == Reading {
      g.bucket.readLimit := g.bucket.readLimit - bytes;
    } else {
      g.bucket.writeLimit := g.bucket.writeLimit - bytes;
    }
    BucketStep(bevs, groups, g);
  }

  // Only the bucket of a group has changed.
  twostate lemma BucketStep(new bevs: set<Bev>, new groups: set<Group>, new g: Group)
    requires old(allocated(bevs)) && old(allocated(groups)) && old(allocated(g)) && old(Inv(bevs, groups))
    requires g in groups
    requires g.bucket.Fits(g.cfg) && (forall h :: h in groups ==> unchanged(h) && (h != g ==> unchanged(h.bucket)))
    requires forall o :: o in bevs ==> unchanged(o) && unchanged(o.bucket)
    ensures Inv(bevs, groups)
  {
    forall o | o in bevs ensures o.Ok() && InGroup(o, groups) {
      assert old(o.Ok()) && old(InGroup(o, groups));
    }
    forall h | h in groups ensures h.Ok() {
      assert old(h.Ok());
    }
  }

  // What a decrement does to the other members of a group
  twostate predicate OnlyOthers(new members: seq<Bev>, new b: Bev, new d: Dir)
    requires old(allocated(members)) && old(allocated(b))
    reads members
  {
    forall m :: m in members && m != b ==> OnlyMark(m, d)
  }

  // bufferevent_decrement_read_buckets_, bufferevent_decrement_write_buckets_
  method DecrementBuckets(b: Bev, d: Dir, bytes: int, ghost bevs: set<Bev>, ghost groups: set<Group>)
    requires Inv(bevs, groups) && b in bevs
    requires b.cfg.Some? ==> SSIZE_MIN <= b.bucket.Limit(d) - bytes <= b.cfg.value.Max(d)
    requires b.group != null ==> SSIZE_MIN <= b.group.bucket.Limit(d) - bytes <= b.group.cfg.Max(d)
    modifies b`read, b`write, b`refillPending, b.bucket
    modifies (if b.group == null then {} else {b.group})`read, (if b.group == null then {} else {b.group})`write
    modifies (if b.group == null then {} else {b.group.bucket}), (if b.group == null then [] else b.group.members)`read
    modifies (if b.group == null then [] else b.group.members)`write
    ensures Inv(bevs, groups) && b.Told(d, bytes)
    ensures b.group != null ==> b.group.Told(d, bytes) && OnlyOthers(b.group.members, b, d)
  {
    hide Inv, InGroup;
    MemberFacts(bevs, groups, b);
    if !b.limiting {
      return;
    }
    DecrementMine(b, d, bytes, bevs, groups);
    if b.group != null {
      label own:
      DecrementShared(b.group, d, bytes, bevs, groups);
      assert OnlyMark@own(b, d);
      SameBesides(b.At(d).suspended, old@own(b.At(d)).suspended, {BwGroup});
    }
  }

  // The bufferevent's part
  method DecrementMine(b: Bev, d: Dir, bytes: int, ghost bevs: set<Bev>, ghost groups: set<Group>)
    requires Inv(bevs, groups) && b in bevs
    requires b.cfg.Some? ==> SSIZE_MIN <= b.bucket.Limit(d) - bytes <= b.cfg.value.Max(d)
    modifies b`read, b`write, b`refillPending, b.bucket
    ensures Inv(bevs, groups) && b.Told(d, bytes)
  {
    hide Inv, InGroup;
    MemberFacts(bevs, groups, b);
    if b.cfg.Some? {
      b.DecrementOwn(d, bytes);
      LocalStep(bevs, groups, b, {Bw});
    }
    SameBesides(b.At(d).suspended, old(b.At(d)).suspended, {Bw});
  }

  lemma MemberFacts(bevs: set<Bev>, groups: set<Group>, b: Bev)
    requires Inv(bevs, groups) && b in bevs
    ensures b.Ok() && forall o :: o in bevs && o != b ==> o.bucket != b.bucket
    ensures forall g :: g in groups ==> g.bucket != b.bucket
    ensures b.group != null ==>
      && b.group in groups && b in b.group.members && b.group.Ok()
      && forall m :: m in b.group.members ==> m in bevs && m.read.Ok() && m.write.Ok()
  {
    assert InGroup(b, groups);
    if b.group != null {
      forall m | m in b.group.members ensures m.read.Ok() && m.write.Ok() {
        assert m in bevs && m.Ok();
      }
    }
  }

  lemma SameBesides(now: set<Reason>, was: set<Reason>, what: set<Reason>)
    requires now - what == was - what
    ensures forall r :: r !in what ==> (r in now <==> r in was)
    ensures what <= {Bw, BwGroup} ==> now - {Bw, BwGroup} == was - {Bw, BwGroup}
  {
    forall r | r !in what ensures r in now <==> r in was {
      assert r in now - what <==> r in now;
      assert r in was - what <==> r in was;
    }
  }

  // bufferevent_rate_limit_group_decrement_read, bufferevent_rate_limit_group_decrement_write
  method GroupDecrement(g: Group, d: Dir, decr: int, ghost bevs: set<Bev>, ghost groups: set<Group>)
    requires Inv(bevs, groups) && g in groups
    requires SSIZE_MIN <= g.bucket.Limit(d) - decr <= g.cfg.Max(d)
    modifies g`read, g`write, g.bucket, g.members`read, g.members`write
    ensures Inv(bevs, groups) && g.bucket.Limit(d) == old(g.bucket.Limit(d)) - decr
    ensures g.bucket.Limit(Other(d)) == old(g.bucket.Limit(Other(d))) && g.bucket.lastUpdated == old(g.bucket.lastUpdated)
    ensures g.At(Other(d)) == old(g.At(Other(d)))
    ensures var before, after := old(g.bucket.Limit(d)) > 0, g.bucket.Limit(d) > 0;
      g.At(d).suspended == if before == after then old(g.At(d)).suspended else before
    ensures OnlyGroup(g.members)
  {
    hide Bev.Ok, InGroup;
    var oldLimit := g.bucket.Limit(d);
    TakeFrom(g, d, decr, bevs, groups);
    var newLimit := g.bucket.Limit(d);
    if oldLimit > 0 && newLimit <= 0 {
      SuspendGroup(g, d, bevs, groups);
      OnlyGroupFrom(g.members, d);
    } else if oldLimit <= 0 && newLimit > 0 {
      UnsuspendGroup(g, d, bevs, groups);
      OnlyGroupFrom(g.members, d);
    }
  }

  method UpdateGroup(g: Group, tick: int, ghost bevs: set<Bev>, ghost groups: set<Group>)
    requires Inv(bevs, groups) && g in groups && 0 <= tick < TWO_32
    modifies g.bucket
    ensures Inv(bevs, groups) && g.bucket.lastUpdated == UpdatedLast(old(g.bucket.lastUpdated), tick)
    ensures forall d :: g.bucket.Limit(d) == RefilledTo(d, old(g.bucket.Limit(d)), old(g.bucket.lastUpdated), g.cfg, tick)
  {
    assert g.Ok();
    var _ := g.bucket.Update(g.cfg, tick);
    BucketStep(bevs, groups, g);
  }

  // bev_group_refill_callback_, which runs every tick: a suspended group is resumed once its bucket holds the
  // minimum share.
  method GroupRefillCallback(g: Group, tick: int, ghost bevs: set<Bev>, ghost groups: set<Group>)
    requires Inv(bevs, groups) && g in groups && 0 <= tick < TWO_32
    modifies g`read, g`write, g.bucket, g.members`read, g.members`write
    ensures Inv(bevs, groups) && g.bucket.lastUpdated == UpdatedLast(old(g.bucket.lastUpdated), tick)
    ensures forall d :: g.bucket.Limit(d) == RefilledTo(d, old(g.bucket.Limit(d)), old(g.bucket.lastUpdated), g.cfg, tick)
    ensures forall d :: g.At(d).suspended <==> old(g.At(d)).suspended && g.bucket.Limit(d) < g.minShare
    ensures OnlyGroup(g.members)
  {
    hide Bev.Ok, InGroup, RefilledTo, UpdatedLast;
    assert g.Ok();
    UpdateGroup(g, tick, bevs, groups);
    if g.read.pendingUnsuspend || (g.read.suspended && g.bucket.readLimit >= g.minShare) {
      UnsuspendGroup(g, Reading, bevs, groups);
      OnlyGroupFrom(g.members, Reading);
    }
    if g.write.pendingUnsuspend || (g.write.suspended && g.bucket.writeLimit >= g.minShare) {
      label read:
      UnsuspendGroup(g, Writing, bevs, groups);
      OnlyGroupFrom@read(g.members, Writing);
    }
    assert g.At(Reading) == g.read && g.At(Writing) == g.write;
  }

  // No group is stranded: the minimum share is at most one tick's worth, so enough ticks bring it.
  lemma GroupRecovers(g: Group, d: Dir, limit: int, n: int)
    requires g.Ok() && limit <= g.cfg.Max(d) && n > 0 && limit + n * g.cfg.Rate(d) >= g.cfg.Rate(d)
    ensures Naive(limit, g.cfg.Max(d), g.cfg.Rate(d), n) >= g.minShare
  {
    assert g.cfg.Rate(d) <= g.cfg.Max(d) && g.minShare <= g.cfg.Rate(d);
  }

  // bufferevent_rate_limit_group_set_min_share
  method SetMinShare(g: Group, share: nat, ghost bevs: set<Bev>, ghost groups: set<Group>) returns (r: int)
    requires Inv(bevs, groups) && g in groups
    modifies g`minShare, g`configuredMinShare
    ensures Inv(bevs, groups) && r == if share > SSIZE_MAX then -1 else 0
    ensures r == 0 ==> g.configuredMinShare == share && g.minShare == ShareFor(g.cfg, share)
    ensures r == -1 ==> unchanged(g)
  {
    assert g.Ok();
    if share > SSIZE_MAX {
      return -1;
    }
    g.configuredMinShare := share;
    g.minShare := ShareFor(g.cfg, share);
    ConfigStep(bevs, groups, g);
    return 0;
  }

  // bufferevent_rate_limit_group_set_cfg
  method SetGroupCfg(g: Group, c: Cfg, ghost bevs: set<Bev>, ghost groups: set<Group>)
    requires Inv(bevs, groups) && g in groups && c.Valid()
    modifies g`cfg, g`minShare, g`configuredMinShare, g.bucket
    ensures Inv(bevs, groups) && g.cfg == c && g.minShare == ShareFor(c, g.configuredMinShare)
    ensures g.configuredMinShare == old(g.configuredMinShare)
    ensures forall d :: g.bucket.Limit(d) == Clipped(old(g.bucket.Limit(d)), c.Max(d))
    ensures g.bucket.lastUpdated == old(g.bucket.lastUpdated)
  {
    assert g.Ok();
    g.cfg := c;
    if g.bucket.readLimit > c.readMax {
      g.bucket.readLimit := c.readMax;
    }
    if g.bucket.writeLimit > c.writeMax {
      g.bucket.writeLimit := c.writeMax;
    }
    g.minShare := ShareFor(c, g.configuredMinShare);
    ConfigStep(bevs, groups, g);
  }

  // Only the configuration of a group, and its bucket, have changed.
  twostate lemma ConfigStep(new bevs: set<Bev>, new groups: set<Group>, new g: Group)
    requires old(allocated(bevs)) && old(allocated(groups)) && old(allocated(g)) && old(Inv(bevs, groups))
    requires g in groups
    requires g.Ok() && unchanged(g`members, g`read, g`write)
    requires forall h :: h in groups && h != g ==> unchanged(h) && unchanged(h.bucket)
    requires forall o :: o in bevs ==> unchanged(o) && unchanged(o.bucket)
    ensures Inv(bevs, groups)
  {
    forall o | o in bevs ensures o.Ok() && InGroup(o, groups) {
      assert old(o.Ok()) && old(InGroup(o, groups));
    }
    forall h | h in groups ensures h.Ok() {
      assert h != g ==> old(h.Ok());
    }
  }

  // LIST_REMOVE of member i
  lemma Removed(members: seq<Bev>, i: nat)
    requires i < |members| && forall i, j :: 0 <= i < j < |members| ==> members[i] != members[j]
    ensures var r := members[..i] + members[i + 1..];
      && (forall m :: m in r <==> m in members && m != members[i])
      && (forall i, j :: 0 <= i < j < |r| ==> r[i] != r[j])
      && multiset(r) == multiset(members) - multiset{members[i]}
  {
    assert members == members[..i] + [members[i]] + members[i + 1..];
  }

  // bufferevent_remove_from_rate_limit_group
  method RemoveFromGroup(b: Bev, ghost bevs: set<Bev>, ghost groups: set<Group>)
    requires Inv(bevs, groups) && b in bevs
    modifies b`read, b`write, b`group
    modifies (if b.group == null then {} else {b.group})`members, (if b.group == null then {} else {b.group})`nMembers
    ensures Inv(bevs, groups) && b.group == null
    ensures old(b.group) != null ==> multiset(old(b.group).members) == old(multiset(b.group.members)) - multiset{b}
    ensures old(b.group) != null ==> old(b.group).nMembers == old(b.group.nMembers) - 1
    ensures forall d :: b.At(d).suspended == old(b.At(d)).suspended - {BwGroup} && b.At(d).enabled == old(b.At(d)).enabled
  {
    hide Inv;
    GroupKnown(bevs, groups, b);
    var g := b.group;
    if b.limiting && g != null {
      Unlink(b, g);
    }
    Unmark(b);
    LeaveStep(bevs, groups, b, g);
  }

  lemma GroupKnown(bevs: set<Bev>, groups: set<Group>, b: Bev)
    requires Inv(bevs, groups) && b in bevs
    ensures b.read.Ok() && b.write.Ok()
    ensures b.group != null ==> b.limiting && b.group in groups && b.group.Ok() && b in b.group.members
  {
    assert b.Ok() && InGroup(b, groups);
  }

  // LIST_REMOVE
  method Unlink(b: Bev, g: Group)
    requires b.group == g && g.Ok() && b in g.members
    modifies b`group, g`members, g`nMembers
    ensures b.group == null && g.Ok() && g.nMembers == old(g.nMembers) - 1
    ensures multiset(g.members) == old(multiset(g.members)) - multiset{b}
    ensures forall m :: m in g.members <==> m in old(g.members) && m != b
  {
    b.group := null;
    g.nMembers := g.nMembers - 1;
    var i: nat :| i < |g.members| && g.members[i] == b;
    Removed(g.members, i);
    g.members := g.members[..i] + g.members[i + 1..];
  }

  method Unmark(b: Bev)
    requires b.read.Ok() && b.write.Ok()
    modifies b`read, b`write
    ensures b.read.Ok() && b.write.Ok()
    ensures b.read.suspended == old(b.read.suspended) - {BwGroup} && b.read.enabled == old(b.read.enabled)
    ensures b.write.suspended == old(b.write.suspended) - {BwGroup} && b.write.enabled == old(b.write.enabled)
  {
    assert b.At(Reading) == b.read && b.At(Writing) == b.write;
    b.Unsuspend(Reading, BwGroup);
    assert b.At(Reading) == b.read && b.At(Writing) == b.write;
    b.Unsuspend(Writing, BwGroup);
    assert b.At(Reading) == b.read && b.At(Writing) == b.write;
  }

  // b has left g, or was in no group.
  twostate lemma LeaveStep(new bevs: set<Bev>, new groups: set<Group>, new b: Bev, new g: Group?)
    requires old(allocated(bevs)) && old(allocated(groups)) && old(allocated(b)) && old(allocated(g))
    requires old(Inv(bevs, groups)) && b in bevs && g == old(b.group) && b.group == null
    requires b.read.Ok() && b.write.Ok() && unchanged(b`limiting, b`cfg, b`refillPending) && unchanged(b.bucket)
    requires b.read.suspended == old(b.read.suspended) - {BwGroup}
    requires b.write.suspended == old(b.write.suspended) - {BwGroup}
    requires g != null ==>
      && unchanged(g`cfg, g`minShare, g`configuredMinShare, g`read, g`write) && g.Ok()
      && forall m :: m in g.members <==> m in old(g.members) && m != b
    requires forall o :: o in bevs ==> unchanged(o.bucket) && (o != b ==> unchanged(o))
    requires forall h :: h in groups ==> unchanged(h.bucket) && (h != g ==> unchanged(h))
    ensures Inv(bevs, groups)
  {
    assert old(b.Ok());
    forall o | o in bevs ensures o.Ok() && InGroup(o, groups) {
      assert old(o.Ok()) && old(InGroup(o, groups));
    }
    forall h | h in groups ensures h.Ok() && forall m :: m in h.members ==> m in bevs && m.group == h {
      assert old(h.Ok());
    }
  }

  // bufferevent_add_to_rate_limit_group; memoryLeft says whether there is memory for the rate limit.
  method AddToGroup(b: Bev, g: Group, memoryLeft: bool, ghost bevs: set<Bev>, ghost groups: set<Group>) returns (r: int)
    requires Inv(bevs, groups) && b in bevs && g in groups
    modifies b`read, b`write, b`group, b`limiting, g`members, g`nMembers
    modifies (if b.group == null then {} else {b.group})`members, (if b.group == null then {} else {b.group})`nMembers
    ensures Inv(bevs, groups)
    ensures r == if old(b.limiting) || memoryLeft then 0 else -1
    ensures r == 0 ==> b.group == g && b in g.members && b.limiting
    ensures r == 0 ==> g.nMembers == old(g.nMembers) + if old(b.group) == g then 0 else 1
    ensures r == 0 && old(b.group) != null && old(b.group) != g ==> old(b.group).nMembers == old(b.group.nMembers) - 1
    ensures r == -1 ==>
      && b.group == old(b.group) && b.read == old(b.read) && b.write == old(b.write) && !b.limiting && g.nMembers == old(g.nMembers)
      && (b.group != null ==> b.group.nMembers == old(b.group.nMembers))
    ensures forall d :: b.At(d).suspended - {BwGroup} == old(b.At(d)).suspended - {BwGroup} && b.At(d).enabled == old(b.At(d)).enabled
  {
    assert b.Ok() && g.Ok() && InGroup(b, groups);
    if !b.limiting {
      if !memoryLeft {
        return -1;
      }
      b.limiting := true;
      LocalStep(bevs, groups, b, {});
    }
    if b.group == g {
      return 0;
    }
    if b.group != null {
      RemoveFromGroup(b, bevs, groups);
    }
    JoinGroup(b, g, bevs, groups);
    return 0;
  }

  // The part of bufferevent_add_to_rate_limit_group for a bufferevent in no group.
  method JoinGroup(b: Bev, g: Group, ghost bevs: set<Bev>, ghost groups: set<Group>)
    requires Inv(bevs, groups) && b in bevs && g in groups && b.group == null && b.limiting
    modifies b`read, b`write, b`group, g`members, g`nMembers
    ensures Inv(bevs, groups) && b.group == g && g.members == [b] + old(g.members) && g.nMembers == old(g.nMembers) + 1
    ensures forall d :: b.At(d).suspended - {BwGroup} == old(b.At(d)).suspended - {BwGroup} && b.At(d).enabled == old(b.At(d)).enabled
  {
    NewMember(bevs, groups, b, g);
    b.group := g;
    g.nMembers := g.nMembers + 1;
    g.members := [b] + g.members;
    SuspendLike(b, g);
    JoinStep(bevs, groups, b, g);
  }

  lemma NewMember(bevs: set<Bev>, groups: set<Group>, b: Bev, g: Group)
    requires Inv(bevs, groups) && b in bevs && g in groups && b.group == null
    ensures b.read.Ok() && b.write.Ok() && g.Ok() && b !in g.members
  {
    assert b.Ok() && g.Ok() && InGroup(b, groups);
  }

  // A new member is suspended as its group is.
  method SuspendLike(b: Bev, g: Group)
    requires b.read.Ok() && b.write.Ok()
    modifies b`read, b`write
    ensures b.read.Ok() && b.write.Ok() && b.read.enabled == old(b.read.enabled) && b.write.enabled == old(b.write.enabled)
    ensures b.read.suspended == old(b.read.suspended) + if g.read.suspended then {BwGroup} else {}
    ensures b.write.suspended == old(b.write.suspended) + if g.write.suspended then {BwGroup} else {}
  {
    assert b.At(Reading) == b.read && b.At(Writing) == b.write;
    if g.read.suspended {
      b.Suspend(Reading, BwGroup);
      assert b.At(Reading) == b.read && b.At(Writing) == b.write;
    }
    if g.write.suspended {
      b.Suspend(Writing, BwGroup);
      assert b.At(Reading) == b.read && b.At(Writing) == b.write;
    }
  }

  twostate lemma JoinStep(new bevs: set<Bev>, new groups: set<Group>, new b: Bev, new g: Group)
    requires old(allocated(bevs)) && old(allocated(groups)) && old(allocated(b)) && old(allocated(g))
    requires old(Inv(bevs, groups)) && b in bevs && g in groups && b.group == g && old(b.group) == null && b.limiting
    requires b.read.Ok() && b.write.Ok() && unchanged(b`limiting, b`cfg, b`refillPending) && unchanged(b.bucket)
    requires b.read.suspended == old(b.read.suspended) + if g.read.suspended then {BwGroup} else {}
    requires b.write.suspended == old(b.write.suspended) + if g.write.suspended then {BwGroup} else {}
    requires unchanged(g`cfg, g`minShare, g`configuredMinShare, g`read, g`write) && g.Ok()
    requires g.members == [b] + old(g.members)
    requires forall o :: o in bevs ==> unchanged(o.bucket) && (o != b ==> unchanged(o))
    requires forall h :: h in groups ==> unchanged(h.bucket) && (h != g ==> unchanged(h))
    ensures Inv(bevs, groups)
  {
    assert old(b.Ok()) && old(InGroup(b, groups));
    forall o | o in bevs ensures o.Ok() && InGroup(o, groups) {
      assert old(o.Ok()) && old(InGroup(o, groups));
    }
    forall h | h in groups ensures h.Ok() && forall m :: m in h.members ==> m in bevs && m.group == h {
      assert old(h.Ok());
    }
  }

  // -- Runs: what can happen to one bufferevent apart from transfers and group changes --

  datatype Event =
    | SuspendedFor(d: Dir, what: Reason)
    | UnsuspendedFor(d: Dir, what: Reason)
    | Enabled(d: Dir)
    | Disabled(d: Dir)
    | LimitSet(c: Option<Cfg>, tick: int, memoryLeft: bool)
    | LimitDecremented(d: Dir, decr: int)
    | TimerFired(tick: int)

  predicate Possible(b: Bev, e: Event)
    reads b, b.bucket
  {
    match e
    case SuspendedFor(_, what) => what != Bw && what != BwGroup
    case UnsuspendedFor(_, what) => what != Bw && what != BwGroup
    case Enabled(_) => true
    case Disabled(_) => true
    case LimitSet(c, tick, _) => 0 <= tick < TWO_32 && (c.Some? ==> c.value.Valid())
    case LimitDecremented(d, decr) => b.cfg.Some? && SSIZE_MIN <= b.bucket.Limit(d) - decr <= b.cfg.value.Max(d)
    case TimerFired(tick) => b.refillPending && 0 <= tick < TWO_32
  }

  // The invariant holds at the start, for a new bufferevent, for a new group, and after every event.
  lemma NothingYet()
    ensures Inv({}, {})
  {
  }

  method NewBev(ghost bevs: set<Bev>, ghost groups: set<Group>) returns (b: Bev)
    requires Inv(bevs, groups)
    ensures fresh(b) && fresh(b.bucket) && b.group == null && !b.limiting && Inv(bevs + {b}, groups)
    ensures b.cfg.None? && !b.refillPending
    ensures b.read == Side(false, {}, false) && b.write == Side(false, {}, false)
  {
    b := new Bev();
    forall o | o in bevs ensures o.Ok() && InGroup(o, groups) {
      assert old(o.Ok()) && old(InGroup(o, groups));
    }
  }

  method NewGroup(c: Cfg, tick: int, ghost bevs: set<Bev>, ghost groups: set<Group>) returns (g: Group)
    requires Inv(bevs, groups) && c.Valid() && 0 <= tick < TWO_32
    ensures fresh(g) && fresh(g.bucket) && g.members == [] && g.nMembers == 0 && g.cfg == c && Inv(bevs, groups + {g})
    ensures !g.read.suspended && !g.write.suspended
    ensures g.configuredMinShare == MIN_SHARE_DEFAULT && g.minShare == ShareFor(c, MIN_SHARE_DEFAULT)
    ensures g.bucket.lastUpdated == tick && forall d :: g.bucket.Limit(d) == c.Rate(d)
  {
    g := new Group(c, tick);
    forall o | o in bevs ensures o.Ok() && InGroup(o, groups + {g}) {
      assert old(o.Ok()) && old(InGroup(o, groups));
    }
  }

  // What an event achieves. The bandwidth reasons and the timer follow from the bucket.
  twostate predicate Happened(new b: Bev, new e: Event)
    requires old(allocated(b))
    reads b, b.bucket
  {
    match e
    case SuspendedFor(d, what) => b.ChangesOnly({what}) && what in b.At(d).suspended && Beside(b, d)
    case UnsuspendedFor(d, what) => b.ChangesOnly({what}) && what !in b.At(d).suspended && Beside(b, d)
    case Enabled(d) => b.At(d).enabled && b.At(d).suspended == old(b.At(d)).suspended && Beside(b, d)
    case Disabled(d) => !b.At(d).enabled && b.At(d).suspended == old(b.At(d)).suspended && Beside(b, d)
    case LimitSet(c, tick, memoryLeft) => b.ChangesOnly({Bw}) && Limited(b, c, tick, memoryLeft)
    case LimitDecremented(d, decr) =>
      && b.ChangesOnly({Bw}) && b.cfg == old(b.cfg) && b.limiting == old(b.limiting)
      && b.bucket.Limit(d) == old(b.bucket.Limit(d)) - decr && b.At(Other(d)) == old(b.At(Other(d)))
      && b.bucket.Limit(Other(d)) == old(b.bucket.Limit(Other(d))) && b.bucket.lastUpdated == old(b.bucket.lastUpdated)
      && var before, after := old(b.bucket.Limit(d)) > 0, b.bucket.Limit(d) > 0;
         && (Bw in b.At(d).suspended <==> if before == after then Bw in old(b.At(d)).suspended else before)
         && b.refillPending == (if before == after then old(b.refillPending)
                                else before || (old(b.refillPending) && Bw in b.At(Other(d)).suspended))
    case TimerFired(tick) =>
      && b.ChangesOnly({Bw}) && b.cfg.Some? && b.cfg == old(b.cfg) && b.limiting == old(b.limiting)
      && (forall d :: Bw in b.At(d).suspended <==> Bw in old(b.At(d)).suspended && b.bucket.Limit(d) <= 0)
      && (b.refillPending <==> Bw in b.read.suspended || Bw in b.write.suspended)
      && b.bucket.lastUpdated == UpdatedLast(old(b.bucket.lastUpdated), tick)
      && forall d ::
           b.bucket.Limit(d) == RefilledTo(d, old(b.bucket.Limit(d)), old(b.bucket.lastUpdated), b.cfg.value, tick)
  }

  // Nothing else than one direction
  twostate predicate Beside(new b: Bev, new d: Dir)
    requires old(allocated(b))
    reads b, b.bucket
  {
    b.At(Other(d)) == old(b.At(Other(d))) && unchanged(b`limiting, b`cfg, b`refillPending) && unchanged(b.bucket)
  }

  twostate predicate Limited(new b: Bev, new c: Option<Cfg>, new tick: int, new memoryLeft: bool)
    requires old(allocated(b))
    reads b, b.bucket
  {
    var same := c.Some? && old(b.limiting && b.cfg.Some? && b.cfg.value.id == c.value.id);
    && b.limiting == (old(b.limiting) || (c.Some? && memoryLeft))
    && if c.None? then b.cfg == None && Bw !in b.read.suspended && Bw !in b.write.suspended && !b.refillPending
       else if same || !(old(b.limiting) || memoryLeft) then unchanged(b) && unchanged(b.bucket)
       else
         && b.cfg == c && (b.refillPending <==> Bw in b.read.suspended || Bw in b.write.suspended)
         && b.bucket.lastUpdated == (if old(b.cfg).None? then tick else old(b.bucket.lastUpdated))
         && forall d ::
              && (Bw in b.At(d).suspended <==> b.bucket.Limit(d) <= 0)
              && b.bucket.Limit(d) == if old(b.cfg).None? then c.value.Rate(d) else Clipped(old(b.bucket.Limit(d)), c.value.Max(d))
  }

  method Happen(b: Bev, e: Event, ghost bevs: set<Bev>, ghost groups: set<Group>)
    requires Inv(bevs, groups) && b in bevs && Possible(b, e)
    modifies b`read, b`write, b`limiting, b`cfg, b`refillPending, b.bucket
    ensures Inv(bevs, groups) && b.group == old(b.group)
    ensures Happened(b, e)
  {
    hide InGroup, Happened;
    assert b.Ok();
    HappenTo(b, e);
    GroupReasonStays(b, e);
    LocalSame(b, bevs, groups);
  }

  method HappenTo(b: Bev, e: Event)
    requires b.Ok() && Possible(b, e)
    modifies b`read, b`write, b`limiting, b`cfg, b`refillPending, b.bucket
    ensures b.Ok() && Happened(b, e)
  {
    match e {
      case SuspendedFor(d, what) =>
        b.SuspendFor(d, what);
      case UnsuspendedFor(d, what) =>
        b.UnsuspendFor(d, what);
      case Enabled(d) =>
        b.Enable(d);
      case Disabled(d) =>
        b.Disable(d);
      case LimitSet(c, tick, memoryLeft) =>
        var _ := b.SetRateLimit(c, tick, memoryLeft);
      case LimitDecremented(d, decr) =>
        b.DecrementLimit(d, decr);
      case TimerFired(tick) =>
        b.RefillCallback(tick);
    }
  }

  // No event is about the group.
  twostate lemma GroupReasonStays(new b: Bev, new e: Event)
    requires old(allocated(b)) && old(Possible(b, e)) && Happened(b, e)
    ensures BwGroup in b.read.suspended <==> BwGroup in old(b.read.suspended)
    ensures BwGroup in b.write.suspended <==> BwGroup in old(b.write.suspended)
  {
    hide Limited, RefilledTo, UpdatedLast;
    var what := match e case SuspendedFor(_, w) => {w} case UnsuspendedFor(_, w) => {w} case _ => {Bw};
    assert b.At(Reading) == b.read && b.At(Writing) == b.write;
    assert old(b.At(Reading)) == old(b.read) && old(b.At(Writing)) == old(b.write);
    if !e.Enabled? && !e.Disabled? {
      SameBesides(b.read.suspended, old(b.read.suspended), what);
      SameBesides(b.write.suspended, old(b.write.suspended), what);
    }
  }

  twostate lemma LocalSame(new b: Bev, new bevs: set<Bev>, new groups: set<Group>)
    requires old(allocated(bevs)) && old(allocated(groups)) && old(Inv(bevs, groups)) && b in bevs
    requires b.Ok() && old(allocated(b)) && b.group == old(b.group)
    requires BwGroup in b.read.suspended <==> BwGroup in old(b.read.suspended)
    requires BwGroup in b.write.suspended <==> BwGroup in old(b.write.suspended)
    requires forall o :: o in bevs && o != b ==> unchanged(o) && unchanged(o.bucket)
    requires forall g :: g in groups ==> unchanged(g) && unchanged(g.bucket)
    ensures Inv(bevs, groups)
  {
    forall o | o in bevs ensures o.Ok() && InGroup(o, groups) {
      assert old(o.Ok()) && old(InGroup(o, groups));
    }
    forall g | g in groups ensures g.Ok() {
      assert old(g.Ok());
    }
  }
}
