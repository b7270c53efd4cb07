/** What a program of bufferevents and rate-limit groups does, on plain values: who may move how much, what that makes of the
    buckets, and who is suspended for want of bandwidth. RateLimitRuns proves that the library does exactly this. */
module RateLimitSpec {
  import opened TokenBucket
  import opened RateLimit

  // A bucket
  datatype Level = Level(read: int, write: int, last: int)
  {
    function Limit(d: Dir): int { if d == Reading then read else write }

    function Minus(d: Dir, n: int): Level { if d == Reading then this.(read := read - n) else this.(write := write - n) }

    function Refilled(c: Cfg, tick: int): Level
    {
      Level(RefilledTo(Reading, read, last, c, tick), RefilledTo(Writing, write, last, c, tick), UpdatedLast(last, tick))
    }

    function Clip(c: Cfg): Level { Level(Clipped(read, c.readMax), Clipped(write, c.writeMax), last) }
  }

  // One direction of a bufferevent, and the reasons for which it is suspended, apart from its group
  datatype Half = Half(enabled: bool, reasons: set<Reason>)
  {
    function Off(off: bool): Half { if off then this.(reasons := reasons + {Bw}) else this.(reasons := reasons - {Bw}) }
  }

  // A bufferevent. The level counts while there is a limit. group is the number of its group.
  datatype Line = Line(read: Half, write: Half, limiting: bool, cfg: Option<Cfg>, level: Level, pending: bool, group: Option<nat>)
  {
    function At(d: Dir): Half { if d == Reading then read else write }

    function Put(d: Dir, h: Half): Line { if d == Reading then this.(read := h) else this.(write := h) }

    function IsOff(d: Dir): bool { Bw in At(d).reasons }
  }

  // A group
  datatype Pool = Pool(readOff: bool, writeOff: bool, cfg: Cfg, level: Level, minShare: int, configured: int, size: nat)
  {
    function Off(d: Dir): bool { if d == Reading then readOff else writeOff }

    function PutOff(d: Dir, off: bool): Pool { if d == Reading then this.(readOff := off) else this.(writeOff := off) }
  }

  datatype View = View(bevs: seq<Line>, groups: seq<Pool>)

  const START := View([], [])

  // The calls of a program and the timers. Bufferevents and groups are named by their numbers, and calls that name none
  // do nothing. Times are counted without wrap-around; the library sees them modulo 2^32.
  datatype Act =
    | MakeBev
    | MakeGroup(c: Cfg, time: nat)
    | On(n: nat, event: Event)
    | Timer(n: nat, time: nat)
    | Io(n: nat, d: Dir, time: nat, want: nat, maxSingle: nat)
    | GroupTakes(k: nat, d: Dir, decr: int)
    | GroupTimer(k: nat, time: nat)
    | Join(n: nat, k: nat, memoryLeft: bool)
    | Leave(n: nat)
    | Share(k: nat, share: nat)
    | Config(k: nat, c: Cfg)

  // A call that would make a limit wrap around, or push it above its maximum, is not made.
  predicate Applies(v: View, a: Act)
  {
    match a
    case MakeBev => true
    case MakeGroup(c, _) => c.Valid()
    case On(n, event) => n < |v.bevs| && May(v.bevs[n], event)
    case Timer(n, _) => n < |v.bevs| && v.bevs[n].pending && v.bevs[n].cfg.Some?
    case Io(n, _, _, _, _) => n < |v.bevs|
    case GroupTakes(k, d, decr) => k < |v.groups| && InRange(v.groups[k].level.Limit(d) - decr, v.groups[k].cfg.Max(d))
    case GroupTimer(k, _) => k < |v.groups|
    case Join(n, k, _) => n < |v.bevs| && k < |v.groups|
    case Leave(n) => n < |v.bevs|
    case Share(k, _) => k < |v.groups|
    case Config(k, c) => k < |v.groups| && c.Valid()
  }

  predicate InRange(limit: int, max: int)
  {
    SSIZE_MIN <= limit <= max
  }

  predicate May(b: Line, e: Event)
  {
    match e
    case SuspendedFor(_, what) => what != Bw && what != BwGroup
    case UnsuspendedFor(_, what) => what != Bw && what != BwGroup
    case Enabled(_) => true
    case Disabled(_) => true
    case LimitSet(c, tick, _) => 0 <= tick < TWO_32 && (c.Some? ==> c.value.Valid())
    case LimitDecremented(d, decr) => b.cfg.Some? && InRange(b.level.Limit(d) - decr, b.cfg.value.Max(d))
    case TimerFired(_) => false
  }

  function Happens(b: Line, e: Event): Line
  {
    match e
    case SuspendedFor(d, what) => b.Put(d, b.At(d).(reasons := b.At(d).reasons + {what}))
    case UnsuspendedFor(d, what) => b.Put(d, b.At(d).(reasons := b.At(d).reasons - {what}))
    case Enabled(d) => b.Put(d, b.At(d).(enabled := true))
    case Disabled(d) => b.Put(d, b.At(d).(enabled := false))
    case LimitSet(c, tick, memoryLeft) => Limits(b, c, tick, memoryLeft)
    case LimitDecremented(d, decr) =>
      var before, after := b.level.Limit(d) > 0, b.level.Limit(d) - decr > 0;
      var u := b.(level := b.level.Minus(d, decr));
      if before == after then u
      else u.Put(d, b.At(d).Off(before)).(pending := before || (b.pending && b.IsOff(Other(d))))
    case TimerFired(_) => b
  }

  // A direction is off exactly while its bucket is empty, and the timer runs exactly while one is.
  function Judged(b: Line): Line
  {
    b.(read := b.read.Off(b.level.read <= 0), write := b.write.Off(b.level.write <= 0),
       pending := b.level.read <= 0 || b.level.write <= 0)
  }

  function Limits(b: Line, c: Option<Cfg>, tick: int, memoryLeft: bool): Line
  {
    if c.None? then b.(cfg := None, read := b.read.Off(false), write := b.write.Off(false), pending := false)
    else if (b.limiting && b.cfg.Some? && b.cfg.value.id == c.value.id) || !(b.limiting || memoryLeft) then b
    else Judged(b.(limiting := true, cfg := c,
                   level := if b.cfg.None? then Level(c.value.readRate, c.value.writeRate, tick) else b.level.Clip(c.value)))
  }

  function Rings(b: Line, tick: int): Line
    requires b.cfg.Some?
  {
    var l := b.level.Refilled(b.cfg.value, tick);
    var read, write := b.IsOff(Reading) && l.read <= 0, b.IsOff(Writing) && l.write <= 0;
    b.(level := l, read := b.read.Off(read), write := b.write.Off(write), pending := read || write)
  }

  // The even share of a group
  function ShareOf(p: Pool, d: Dir): (s: int)
    ensures s >= p.minShare
    ensures p.size > 0 && p.minShare >= 0 ==>
      var l, n := p.level.Limit(d), p.size; (s * n <= l < (s + 1) * n) || (s == p.minShare && l < (s + 1) * n)
  {
    var s := if p.size == 0 then 0 else TruncDiv(p.level.Limit(d), p.size);
    if s < p.minShare then p.minShare else s
  }

  function Topped(b: Line, tick: int): Line
  {
    if b.cfg.None? then b else b.(level := b.level.Refilled(b.cfg.value, tick))
  }

  // What a bufferevent may move now: no more than its own bucket holds, or the caller's maximum if it has no limit, and no
  // more than its share of a group that is not suspended.
  function Grant(v: View, n: nat, d: Dir, tick: int, maxSingle: nat): nat
    requires n < |v.bevs|
  {
    var b := v.bevs[n];
    var own := if b.cfg.None? then maxSingle else Topped(b, tick).level.Limit(d);
    var share :=
      if b.group.None? || b.group.value >= |v.groups| then own
      else if v.groups[b.group.value].Off(d) then 0 else ShareOf(v.groups[b.group.value], d);
    var m := if own > share then share else own;
    if m < 0 then 0 else m
  }

  function Less(a: int, b: int): int { if a < b then a else b }

  // What a call moves: what is wanted and allowed.
  function Amount(v: View, a: Act): nat
  {
    if !(a.Io? && a.n < |v.bevs|) then 0
    else
      var m, g := Less(a.want, Grant(v, a.n, a.d, a.time % TWO_32, a.maxSingle)), v.bevs[a.n].group;
      if g.Some? && g.value < |v.groups| && v.groups[g.value].level.Limit(a.d) - m < SSIZE_MIN then 0 else m
  }

  // The own bucket after a transfer
  function Charged(b: Line, d: Dir, m: nat): Line
  {
    if m == 0 || b.cfg.None? then b
    else
      var u := b.(level := b.level.Minus(d, m));
      if u.level.Limit(d) <= 0 then u.Put(d, b.At(d).Off(true)).(pending := true)
      else u.Put(d, b.At(d).Off(false)).(pending := b.pending && (b.IsOff(d) ==> b.IsOff(Other(d))))
  }

  // The bucket of a group after a transfer by a member
  function Drawn(p: Pool, d: Dir, m: nat): Pool
  {
    if m == 0 then p else p.(level := p.level.Minus(d, m)).PutOff(d, p.level.Limit(d) - m <= 0)
  }

  // Both
  function AllCharged(v: View, n: nat, d: Dir, m: nat): View
    requires n < |v.bevs|
  {
    var b := v.bevs[n];
    View(v.bevs[n := Charged(b, d, m)],
         if b.group.Some? && b.group.value < |v.groups|
         then v.groups[b.group.value := Drawn(v.groups[b.group.value], d, m)] else v.groups)
  }

  function Taken(p: Pool, d: Dir, decr: int): Pool
  {
    var before, after := p.level.Limit(d) > 0, p.level.Limit(d) - decr > 0;
    p.(level := p.level.Minus(d, decr)).PutOff(d, if before == after then p.Off(d) else before)
  }

  function RingsAll(p: Pool, tick: int): Pool
  {
    var l := p.level.Refilled(p.cfg, tick);
    p.(level := l, readOff := p.readOff && l.read < p.minShare, writeOff := p.writeOff && l.write < p.minShare)
  }

  // A group has more members, or fewer.
  function Resized(groups: seq<Pool>, k: Option<nat>, more: int): seq<Pool>
  {
    if k.Some? && k.value < |groups| && groups[k.value].size + more >= 0
    then groups[k.value := groups[k.value].(size := groups[k.value].size + more)] else groups
  }

  // Bufferevent n is in this group now, or in none.
  function Joined(v: View, n: nat, k: Option<nat>, limiting: bool): View
    requires n < |v.bevs|
  {
    var b := v.bevs[n];
    View(v.bevs[n := b.(limiting := b.limiting || limiting, group := k)],
         if b.group == k then v.groups else Resized(Resized(v.groups, b.group, -1), k, 1))
  }

  function Next(v: View, a: Act): View
  {
    if !Applies(v, a) then v
    else match a
      case MakeBev =>
        v.(bevs := v.bevs + [Line(Half(false, {}), Half(false, {}), false, None, Level(0, 0, 0), false, None)])
      case MakeGroup(c, time) =>
        v.(groups := v.groups + [Pool(false, false, c, Level(c.readRate, c.writeRate, time % TWO_32),
                                      ShareFor(c, MIN_SHARE_DEFAULT), MIN_SHARE_DEFAULT, 0)])
      case On(n, event) => v.(bevs := v.bevs[n := Happens(v.bevs[n], event)])
      case Timer(n, time) => v.(bevs := v.bevs[n := Rings(v.bevs[n], time % TWO_32)])
      case Io(n, d, time, _, _) =>
        AllCharged(v.(bevs := v.bevs[n := Topped(v.bevs[n], time % TWO_32)]), n, d, Amount(v, a))
      case GroupTakes(k, d, decr) => v.(groups := v.groups[k := Taken(v.groups[k], d, decr)])
      case GroupTimer(k, time) => v.(groups := v.groups[k := RingsAll(v.groups[k], time % TWO_32)])
      case Join(n, k, memoryLeft) =>
        if !(v.bevs[n].limiting || memoryLeft) then v else Joined(v, n, Some(k), true)
      case Leave(n) => Joined(v, n, None, false)
      case Share(k, share) =>
        var p := v.groups[k];
        if share > SSIZE_MAX then v
        else v.(groups := v.groups[k := p.(configured := share, minShare := ShareFor(p.cfg, share))])
      case Config(k, c) =>
        var p := v.groups[k];
        v.(groups := v.groups[k := p.(cfg := c, level := p.level.Clip(c), minShare := ShareFor(c, p.configured))])
  }

  // The backend of a bufferevent is on exactly if the user wants it to be and nothing speaks against it.
  predicate Works(v: View, n: nat, d: Dir)
    requires n < |v.bevs|
  {
    var b := v.bevs[n];
    && b.At(d).enabled && b.At(d).reasons == {}
    && !(b.group.Some? && b.group.value < |v.groups| && v.groups[b.group.value].Off(d))
  }

  function Final(v: View, acts: seq<Act>): View
  {
    if acts == [] then v else Next(Final(v, acts[..|acts| - 1]), acts[|acts| - 1])
  }

  // The view when act i comes
  function Then(v: View, acts: seq<Act>, i: nat): View
    requires i <= |acts|
  {
    Final(v, acts[..i])
  }

  // What every call has moved
  function MovedBy(v: View, acts: seq<Act>): (moved: seq<nat>)
    ensures |moved| == |acts|
  {
    if acts == [] then []
    else var k := |acts| - 1; MovedBy(v, acts[..k]) + [Amount(Final(v, acts[..k]), acts[k])]
  }

  // -- What every history keeps --

  ghost predicate Fits(b: Line)
  {
    b.cfg.Some? ==>
      && b.limiting && b.cfg.value.Valid() && 0 <= b.level.last < TWO_32
      && forall d :: b.level.Limit(d) <= b.cfg.value.Max(d)
  }

  ghost predicate Holds(p: Pool)
  {
    && p.cfg.Valid() && 0 <= p.level.last < TWO_32 && (forall d :: p.level.Limit(d) <= p.cfg.Max(d))
    && p.configured >= 0 && p.minShare == ShareFor(p.cfg, p.configured)
  }

  ghost predicate Sound(v: View)
  {
    (forall n :: 0 <= n < |v.bevs| ==> Fits(v.bevs[n])) && forall k :: 0 <= k < |v.groups| ==> Holds(v.groups[k])
  }

  lemma SoundNext(v: View, a: Act)
    requires Sound(v)
    ensures Sound(Next(v, a))
  {
    hide Fits, Holds, Happens, Rings, Topped, Charged, Drawn, Taken, RingsAll, Amount, May;
    if Applies(v, a) {
      match a {
        case MakeBev => NewFits();
        case MakeGroup(c, time) => NewHolds(c, time);
        case On(n, event) => HappensFits(v.bevs[n], event);
        case Timer(n, time) => RingsFits(v.bevs[n], time % TWO_32);
        case Io(n, d, time, _, _) => IoSound(v, n, d, time % TWO_32, Amount(v, a));
        case GroupTakes(k, d, decr) => TakenHolds(v.groups[k], d, decr);
        case GroupTimer(k, time) => RingsAllHolds(v.groups[k], time % TWO_32);
        case Join(n, k, _) => JoinedSound(v, n, Some(k), true);
        case Leave(n) => JoinedSound(v, n, None, false);
        case Share(k, share) => ShareHolds(v.groups[k], share);
        case Config(k, c) => ConfigHolds(v.groups[k], c);
      }
    }
  }

  lemma NewFits()
    ensures Fits(Line(Half(false, {}), Half(false, {}), false, None, Level(0, 0, 0), false, None))
  {
  }

  lemma NewHolds(c: Cfg, time: nat)
    requires c.Valid()
    ensures Holds(Pool(false, false, c, Level(c.readRate, c.writeRate, time % TWO_32),
                       ShareFor(c, MIN_SHARE_DEFAULT), MIN_SHARE_DEFAULT, 0))
  {
  }

  lemma LevelStays(l: Level, c: Cfg, tick: int)
    requires c.Valid() && 0 <= tick < TWO_32 && 0 <= l.last < TWO_32 && forall d :: l.Limit(d) <= c.Max(d)
    ensures var r := l.Refilled(c, tick); 0 <= r.last < TWO_32 && forall d :: l.Limit(d) <= r.Limit(d) <= c.Max(d)
  {
    NotNegative(Ticks(l.last, tick), c.readRate);
    NotNegative(Ticks(l.last, tick), c.writeRate);
    assert l.Limit(Reading) == l.read && l.Limit(Writing) == l.write;
  }

  lemma HappensFits(b: Line, e: Event)
    requires Fits(b) && May(b, e)
    ensures Fits(Happens(b, e))
  {
  }

  lemma RingsFits(b: Line, tick: int)
    requires Fits(b) && b.cfg.Some? && 0 <= tick < TWO_32
    ensures Fits(Rings(b, tick))
  {
    hide RefilledTo, UpdatedLast;
    LevelStays(b.level, b.cfg.value, tick);
  }

  lemma IoSound(v: View, n: nat, d: Dir, tick: int, m: nat)
    requires Sound(v) && n < |v.bevs| && 0 <= tick < TWO_32
    ensures Sound(AllCharged(v.(bevs := v.bevs[n := Topped(v.bevs[n], tick)]), n, d, m))
  {
    hide RefilledTo, UpdatedLast;
    var b := v.bevs[n];
    if b.cfg.Some? {
      LevelStays(b.level, b.cfg.value, tick);
    }
    assert Fits(Charged(Topped(b, tick), d, m));
  }

  lemma TakenHolds(p: Pool, d: Dir, decr: int)
    requires Holds(p) && p.level.Limit(d) - decr <= p.cfg.Max(d)
    ensures Holds(Taken(p, d, decr))
  {
  }

  lemma RingsAllHolds(p: Pool, tick: int)
    requires Holds(p) && 0 <= tick < TWO_32
    ensures Holds(RingsAll(p, tick))
  {
    hide RefilledTo, UpdatedLast;
    LevelStays(p.level, p.cfg, tick);
  }

  lemma JoinedSound(v: View, n: nat, k: Option<nat>, limiting: bool)
    requires Sound(v) && n < |v.bevs|
    ensures Sound(Joined(v, n, k, limiting))
  {
  }

  lemma ShareHolds(p: Pool, share: nat)
    requires Holds(p)
    ensures Holds(p.(configured := share, minShare := ShareFor(p.cfg, share)))
  {
  }

  lemma ConfigHolds(p: Pool, c: Cfg)
    requires Holds(p) && c.Valid()
    ensures Holds(p.(cfg := c, level := p.level.Clip(c), minShare := ShareFor(c, p.configured)))
  {
  }

  lemma {:induction false} SoundFinal(v: View, acts: seq<Act>)
    requires Sound(v)
    ensures Sound(Final(v, acts)) && |v.bevs| <= |Final(v, acts).bevs| && |v.groups| <= |Final(v, acts).groups|
  {
    if acts != [] {
      var k := |acts| - 1;
      SoundFinal(v, acts[..k]);
      SoundNext(Final(v, acts[..k]), acts[k]);
      Grows(Final(v, acts[..k]), acts[k]);
    }
  }

  // Nothing ever goes.
  lemma Grows(v: View, a: Act)
    ensures |v.bevs| <= |Next(v, a).bevs| && |v.groups| <= |Next(v, a).groups|
  {
    hide Happens, Rings, Topped, Charged, Drawn, Taken, RingsAll, Amount, May;
  }

  // -- One bufferevent --

  // The calls that update its bucket
  predicate About(a: Act, n: nat)
  {
    (a.Io? || a.Timer?) && a.n == n
  }

  // Everything that leaves the configuration of bufferevent n as it is and puts nothing into its bucket.
  predicate Harmless(a: Act, n: nat, id: nat)
  {
    a.On? && a.n == n ==>
      match a.event
      case LimitSet(c, _, _) => c.Some? && c.value.id == id
      case LimitDecremented(_, decr) => decr >= 0
      case _ => true
  }

  function BytesOf(v: View, a: Act, n: nat, d: Dir): nat
  {
    if a.Io? && a.n == n && a.d == d then Amount(v, a) else 0
  }

  // What bufferevent n moves in direction d
  function LineBytes(v: View, acts: seq<Act>, n: nat, d: Dir): nat
  {
    if acts == [] then 0
    else var i := |acts| - 1; LineBytes(v, acts[..i], n, d) + BytesOf(Final(v, acts[..i]), acts[i], n, d)
  }

  // The updates of its bucket, each with what is moved after it
  function Run(v: View, acts: seq<Act>, n: nat, d: Dir): seq<Transfer>
  {
    if acts == [] then []
    else
      var i := |acts| - 1;
      var before, w := Run(v, acts[..i], n, d), Final(v, acts[..i]);
      if About(acts[i], n) && Applies(w, acts[i]) then before + [Transfer(acts[i].time, BytesOf(w, acts[i], n, d))] else before
  }

  // The calls that update the bucket come in the order of their times.
  predicate OnTime(acts: seq<Act>, n: nat, start: nat, end: nat)
  {
    && start <= end
    && (forall i :: 0 <= i < |acts| && About(acts[i], n) ==> start <= acts[i].time <= end)
    && (forall i, j :: 0 <= i < j < |acts| && About(acts[i], n) && About(acts[j], n) ==> acts[i].time <= acts[j].time)
  }

  // What one call does to the bucket of bufferevent n
  lemma LineStep(v: View, a: Act, n: nat, d: Dir)
    requires Sound(v) && n < |v.bevs| && v.bevs[n].cfg.Some? && Harmless(a, n, v.bevs[n].cfg.value.id)
    ensures var b, w, m := v.bevs[n], Next(v, a), BytesOf(v, a, n, d);
      && n < |w.bevs| && w.bevs[n].cfg == b.cfg
      && if About(a, n) && Applies(v, a)
         then var l := RefilledTo(d, b.level.Limit(d), b.level.last, b.cfg.value, a.time % TWO_32);
           && m <= (if l < 0 then 0 else l) && w.bevs[n].level.Limit(d) == l - m
           && w.bevs[n].level.last == UpdatedLast(b.level.last, a.time % TWO_32)
         else m == 0 && w.bevs[n].level.Limit(d) <= b.level.Limit(d) && w.bevs[n].level.last == b.level.last
  {
    hide RefilledTo, UpdatedLast, Drawn, Taken, RingsAll, ShareOf, Resized, Happens, Rings, Charged, Topped, Grant;
    Grows(v, a);
    assert Fits(v.bevs[n]);
    if a.Io? && a.n == n {
      IoLine(v, a, d);
    } else if a.On? && a.n == n && May(v.bevs[n], a.event) {
      OnLine(v.bevs[n], a.event, d);
    } else if a.Timer? && a.n == n && Applies(v, a) {
      RingsLine(v.bevs[n], a.time % TWO_32, d);
    }
  }

  lemma OnLine(b: Line, e: Event, d: Dir)
    requires Fits(b) && b.cfg.Some? && May(b, e) && Harmless(On(0, e), 0, b.cfg.value.id)
    ensures var w := Happens(b, e); w.cfg == b.cfg && w.level.Limit(d) <= b.level.Limit(d) && w.level.last == b.level.last
  {
  }

  lemma RingsLine(b: Line, tick: int, d: Dir)
    requires b.cfg.Some?
    ensures var w := Rings(b, tick);
      && w.cfg == b.cfg && w.level.last == UpdatedLast(b.level.last, tick)
      && w.level.Limit(d) == RefilledTo(d, b.level.Limit(d), b.level.last, b.cfg.value, tick)
  {
    hide RefilledTo, UpdatedLast;
  }

  lemma IoLine(v: View, a: Act, d: Dir)
    requires a.Io? && a.n < |v.bevs| && v.bevs[a.n].cfg.Some?
    ensures var b, w, m := v.bevs[a.n], Next(v, a).bevs[a.n], BytesOf(v, a, a.n, d);
      var l := RefilledTo(d, b.level.Limit(d), b.level.last, b.cfg.value, a.time % TWO_32);
      && w.cfg == b.cfg && m <= (if l < 0 then 0 else l) && w.level.Limit(d) == l - m
      && w.level.last == UpdatedLast(b.level.last, a.time % TWO_32)
  {
    hide RefilledTo, UpdatedLast, Drawn, ShareOf;
  }

  // So the bucket lives through a run of allowed transfers, or there is even less in it.
  lemma {:induction false} LineLives(v: View, acts: seq<Act>, n: nat, d: Dir, start: nat, end: nat)
    requires Sound(v) && n < |v.bevs| && v.bevs[n].cfg.Some? && OnTime(acts, n, start, end)
    requires forall i :: 0 <= i < |acts| ==> Harmless(acts[i], n, v.bevs[n].cfg.value.id)
    ensures var b, w, run := v.bevs[n], Final(v, acts), Run(v, acts, n, d);
      && n < |w.bevs| && w.bevs[n].cfg == b.cfg && Moved(run) == LineBytes(v, acts, n, d)
      && var c, l := b.cfg.value, w.bevs[n].level;
      && Allowed(b.level.Limit(d), b.level.last, c.Max(d), c.Rate(d), run)
      && l.Limit(d) <= LimitAfter(b.level.Limit(d), b.level.last, c.Max(d), c.Rate(d), run)
      && l.last == LastAfter(b.level.last, run)
      && (run != [] ==> start <= run[0].time && run[|run| - 1].time <= end)
  {
    hide Updated, UpdatedLast, Sound, Next, Harmless, Amount;
    var b := v.bevs[n];
    if acts != [] {
      var k := |acts| - 1;
      var w := Final(v, acts[..k]);
      var end' := if About(acts[k], n) then acts[k].time else end;
      var c, before := b.cfg.value, Run(v, acts[..k], n, d);
      LineLives(v, acts[..k], n, d, start, end');
      SoundFinal(v, acts[..k]);
      LineStep(w, acts[k], n, d);
      if About(acts[k], n) && Applies(w, acts[k]) {
        var t := Transfer(acts[k].time, BytesOf(w, acts[k], n, d));
        var most := LimitAfter(b.level.Limit(d), b.level.last, c.Max(d), c.Rate(d), before);
        UpdatedLess(w.bevs[n].level.Limit(d), most, w.bevs[n].level.last, c.Max(d), c.Rate(d), t.time % TWO_32);
        AllowedMore(b.level.Limit(d), b.level.last, c.Max(d), c.Rate(d), before, t);
      }
    }
  }

  // In no window of time, from anywhere in a history on, does a bufferevent with a limit move more than the burst size and
  // the worth of the ticks, in a group or not, whatever the tick counter does.
  lemma LineThroughput(before: seq<Act>, acts: seq<Act>, n: nat, d: Dir, start: nat, end: nat)
    requires var v := Final(START, before);
      && n < |v.bevs| && v.bevs[n].cfg.Some? && OnTime(acts, n, start, end)
      && forall i :: 0 <= i < |acts| ==> Harmless(acts[i], n, v.bevs[n].cfg.value.id)
    ensures var v := Final(START, before); var c := v.bevs[n].cfg.value;
      LineBytes(v, acts, n, d) <= c.Max(d) + (end - start) * c.Rate(d)
  {
    hide Final, Sound, Harmless, OnTime, Allowed, LimitAfter, LastAfter;
    var v := Final(START, before);
    StartSound();
    SoundFinal(START, before);
    LineLives(v, acts, n, d, start, end);
    KnownRate(v, n);
    var c, l, run := v.bevs[n].cfg.value, v.bevs[n].level, Run(v, acts, n, d);
    Ordered(acts, n, start, end);
    if run == [] {
      Within(start, start, end, end, c.Rate(d));
    } else {
      Throughput(l.Limit(d), l.last, c.Max(d), c.Rate(d), run);
      Within(start, run[0].time, run[|run| - 1].time, end, c.Rate(d));
    }
  }

  lemma Within(start: nat, from: nat, to: int, end: nat, rate: nat)
    requires start <= from && to <= end && start <= end
    ensures (to - from) * rate <= (end - start) * rate && 0 <= (end - start) * rate
  {
    NotNegative((end - start) - (to - from), rate);
    NotNegative(end - start, rate);
    assert (end - start) * rate == (to - from) * rate + ((end - start) - (to - from)) * rate;
  }

  lemma StartSound()
    ensures Sound(START)
  {
  }

  lemma Ordered(acts: seq<Act>, n: nat, start: nat, end: nat)
    requires OnTime(acts, n, start, end)
    ensures start <= end
  {
  }

  lemma KnownRate(v: View, n: nat)
    requires Sound(v) && n < |v.bevs| && v.bevs[n].cfg.Some?
    ensures v.bevs[n].cfg.value.Valid() && 0 <= v.bevs[n].level.last < TWO_32
    ensures forall d :: v.bevs[n].level.Limit(d) <= v.bevs[n].cfg.value.Max(d)
  {
    assert Fits(v.bevs[n]);
  }

  // -- One group --

  // A group that is not suspended has something to share out.
  ghost predicate Funded(p: Pool)
  {
    p.configured > 0 && forall d :: p.Off(d) || p.level.Limit(d) > 0
  }

  predicate Zero(a: Act, k: nat)
  {
    a.Share? && a.k == k && a.share == 0
  }

  // Only a share of 0 can leave a group unsuspended with nothing to share out.
  lemma FundedNext(v: View, a: Act, k: nat)
    requires Sound(v) && k < |v.groups| && Funded(v.groups[k]) && !Zero(a, k)
    ensures k < |Next(v, a).groups| && Funded(Next(v, a).groups[k])
  {
    hide RefilledTo, UpdatedLast, Happens, Rings, Topped, Charged, Drawn, Amount, RingsAll, Joined, Taken;
    Grows(v, a);
    assert Holds(v.groups[k]);
    match a {
      case Io(_, d, _, _, _) => DrawnFunded(v.groups[k], d, Amount(v, a));
      case GroupTimer(l, time) => RingsAllFunded(v.groups[k], time % TWO_32);
      case Join(n, l, _) =>
        if Applies(v, a) {
          JoinedSame(v, n, Some(l), true, k);
        }
      case Leave(n) =>
        if Applies(v, a) {
          JoinedSame(v, n, None, false, k);
        }
      case Config(l, c) => ClipFunded(v.groups[k], c);
      case GroupTakes(l, d, decr) => TakenFunded(v.groups[k], d, decr);
      case _ =>
    }
  }

  lemma ClipFunded(p: Pool, c: Cfg)
    requires Funded(p)
    ensures c.Valid() ==> Funded(p.(cfg := c, level := p.level.Clip(c), minShare := ShareFor(c, p.configured)))
  {
    forall e | c.Valid() ensures p.Off(e) || p.level.Clip(c).Limit(e) > 0 {
      assert p.Off(e) || p.level.Limit(e) > 0;
    }
  }

  lemma TakenFunded(p: Pool, d: Dir, decr: int)
    requires Funded(p)
    ensures Funded(Taken(p, d, decr))
  {
    var q := Taken(p, d, decr);
    forall e ensures q.Off(e) || q.level.Limit(e) > 0 {
      assert p.Off(e) || p.level.Limit(e) > 0;
    }
  }

  lemma DrawnFunded(p: Pool, d: Dir, m: nat)
    requires Funded(p)
    ensures Funded(Drawn(p, d, m))
  {
    var q := Drawn(p, d, m);
    forall e ensures q.Off(e) || q.level.Limit(e) > 0 {
      assert p.Off(e) || p.level.Limit(e) > 0;
    }
  }

  lemma RingsAllFunded(p: Pool, tick: int)
    requires Holds(p) && Funded(p) && 0 <= tick < TWO_32
    ensures Funded(RingsAll(p, tick))
  {
    hide RefilledTo, UpdatedLast;
    LevelStays(p.level, p.cfg, tick);
    assert p.Off(Reading) == p.readOff && p.Off(Writing) == p.writeOff;
    assert p.level.Limit(Reading) == p.level.read && p.level.Limit(Writing) == p.level.write;
  }

  // Whoever joins or leaves, the rest of a group stays.
  lemma JoinedSame(v: View, n: nat, to: Option<nat>, limiting: bool, k: nat)
    requires n < |v.bevs| && k < |v.groups|
    ensures var w := Joined(v, n, to, limiting); |w.groups| == |v.groups| && w.groups[k] == v.groups[k].(size := w.groups[k].size)
  {
  }

  // In every history without a share of 0 every group that is not suspended has something to share out.
  lemma {:induction false} FundedAlways(acts: seq<Act>, k: nat)
    requires k < |Final(START, acts).groups| && forall i :: 0 <= i < |acts| ==> !Zero(acts[i], k)
    ensures Funded(Final(START, acts).groups[k])
  {
    hide Next, Sound, Funded;
    var i := |acts| - 1;
    var w := Final(START, acts[..i]);
    StartSound();
    SoundFinal(START, acts[..i]);
    if k < |w.groups| {
      FundedAlways(acts[..i], k);
      FundedNext(w, acts[i], k);
    } else {
      NewFunded(w, acts[i], k);
    }
  }

  lemma NewFunded(v: View, a: Act, k: nat)
    requires |v.groups| <= k < |Next(v, a).groups|
    ensures Funded(Next(v, a).groups[k])
  {
    hide Happens, Rings, Topped, Charged, Drawn, Taken, RingsAll, Amount, May;
  }

  // The calls that leave the bucket of a group to its members and its timer: whoever joins or leaves, and whatever
  // happens to other groups.
  predicate Steady(a: Act, k: nat)
  {
    match a
    case GroupTakes(l, _, decr) => l == k ==> decr >= 0
    case Share(l, _) => l != k
    case Config(l, _) => l != k
    case _ => true
  }

  predicate Ticked(a: Act, k: nat)
  {
    a.GroupTimer? && a.k == k
  }

  // What a member of group k moves in direction d
  function MemberBytes(v: View, a: Act, k: nat, d: Dir): nat
  {
    if a.Io? && a.d == d && a.n < |v.bevs| && v.bevs[a.n].group == Some(k) then Amount(v, a) else 0
  }

  // What all bufferevents move while they are members
  function GroupBytes(v: View, acts: seq<Act>, k: nat, d: Dir): nat
  {
    if acts == [] then 0
    else var i := |acts| - 1; GroupBytes(v, acts[..i], k, d) + MemberBytes(Final(v, acts[..i]), acts[i], k, d)
  }

  // The timer of group k runs at times between start and end, in order.
  predicate InTime(acts: seq<Act>, k: nat, start: nat, end: nat)
  {
    && start <= end
    && (forall i :: 0 <= i < |acts| && Ticked(acts[i], k) ==> start <= acts[i].time <= end)
    && (forall i, j :: 0 <= i < j < |acts| && Ticked(acts[i], k) && Ticked(acts[j], k) ==> acts[i].time <= acts[j].time)
  }

  // The last time that it has run
  function LastTick(acts: seq<Act>, k: nat, start: nat): nat
  {
    if acts == [] then start
    else var i := |acts| - 1; if Ticked(acts[i], k) then acts[i].time else LastTick(acts[..i], k, start)
  }

  // What one call does to the bucket of group k: its timer refills it, and otherwise what a member moves is taken from it.
  // Nobody moves anything once it is empty, so that it is never overdrawn by more than the minimum share.
  lemma PoolStep(v: View, a: Act, k: nat, d: Dir)
    requires Sound(v) && k < |v.groups| && Funded(v.groups[k]) && Steady(a, k)
    ensures var p, w, m := v.groups[k], Next(v, a), MemberBytes(v, a, k, d);
      && k < |w.groups| && w.groups[k].cfg == p.cfg && w.groups[k].minShare == p.minShare && Funded(w.groups[k])
      && var l := w.groups[k].level;
      if Ticked(a, k)
      then l.Limit(d) == RefilledTo(d, p.level.Limit(d), p.level.last, p.cfg, a.time % TWO_32)
           && l.last == UpdatedLast(p.level.last, a.time % TWO_32) && m == 0
      else l.Limit(d) <= p.level.Limit(d) - m && l.last == p.level.last && (m > 0 ==> l.Limit(d) >= -p.minShare)
  {
    hide RefilledTo, UpdatedLast, Happens, Rings, Topped, Charged, Drawn, Amount, Joined, Funded;
    Grows(v, a);
    FundedNext(v, a, k);
    assert Holds(v.groups[k]);
    if a.Io? {
      IoPool(v, a, k, d);
    } else if a.Join? && Applies(v, a) {
      JoinedSame(v, a.n, Some(a.k), true, k);
    } else if a.Leave? && Applies(v, a) {
      JoinedSame(v, a.n, None, false, k);
    }
  }

  lemma IoPool(v: View, a: Act, k: nat, d: Dir)
    requires a.Io? && k < |v.groups| && Funded(v.groups[k]) && Holds(v.groups[k])
    ensures var p, w, m := v.groups[k], Next(v, a), MemberBytes(v, a, k, d);
      && k < |w.groups| && w.groups[k].cfg == p.cfg && w.groups[k].minShare == p.minShare
      && w.groups[k].level.last == p.level.last && w.groups[k].level.Limit(d) == p.level.Limit(d) - m
      && (m > 0 ==> w.groups[k].level.Limit(d) >= -p.minShare)
  {
    hide RefilledTo, UpdatedLast, Charged, ShareOf;
    var p := v.groups[k];
    if MemberBytes(v, a, k, d) > 0 {
      ShareBound(p, d);
      assert p.Off(d) || p.level.Limit(d) > 0;
    }
  }

  // An even share overdraws the bucket by at most the minimum share.
  lemma ShareBound(p: Pool, d: Dir)
    requires Holds(p)
    ensures p.level.Limit(d) > 0 ==> p.level.Limit(d) - ShareOf(p, d) >= -p.minShare
  {
    if p.level.Limit(d) > 0 && p.size > 0 {
      Quotient(p.level.Limit(d), p.size);
    }
  }

  lemma Quotient(l: nat, n: nat)
    requires n > 0
    ensures l / n <= l
  {
    NotNegative(n - 1, l + 1);
    QuotientLess(l, n, l + 1);
  }

  // What members of a group have moved in direction d since time start, up to the last time that its timer has run
  ghost predicate Ledger(p: Pool, d: Dir, moved: nat, start: nat, seen: nat)
  {
    && start <= seen && Seen(p.level.last, seen)
    && moved + p.level.Limit(d) <= p.cfg.Max(d) + (seen - start) * p.cfg.Rate(d)
    && moved <= p.cfg.Max(d) + p.minShare + (seen - start) * p.cfg.Rate(d)
  }

  lemma LedgerRefreshed(p: Pool, q: Pool, d: Dir, moved: nat, start: nat, seen: nat, time: nat)
    requires Holds(p) && Ledger(p, d, moved, start, seen) && seen <= time && q.cfg == p.cfg && q.minShare == p.minShare
    requires q.level.Limit(d) == RefilledTo(d, p.level.Limit(d), p.level.last, p.cfg, time % TWO_32)
    requires q.level.last == UpdatedLast(p.level.last, time % TWO_32)
    ensures Ledger(q, d, moved, start, time)
  {
    hide Updated, UpdatedLast, Seen;
    TicksBound(p.level.last, seen, time);
    UpdateBound(p.level.Limit(d), p.level.last, p.cfg.Max(d), p.cfg.Rate(d), seen, time);
    NotNegative(time - seen, p.cfg.Rate(d));
    assert (time - start) * p.cfg.Rate(d) == (time - seen) * p.cfg.Rate(d) + (seen - start) * p.cfg.Rate(d);
  }

  lemma {:induction false} GroupLedger(v: View, acts: seq<Act>, k: nat, d: Dir, start: nat, end: nat)
    requires Sound(v) && k < |v.groups| && Funded(v.groups[k]) && InTime(acts, k, start, end) && Seen(v.groups[k].level.last, start)
    requires forall i :: 0 <= i < |acts| ==> Steady(acts[i], k)
    ensures var w := Final(v, acts);
      && k < |w.groups| && w.groups[k].cfg == v.groups[k].cfg && w.groups[k].minShare == v.groups[k].minShare
      && Funded(w.groups[k]) && LastTick(acts, k, start) <= end
      && Ledger(w.groups[k], d, GroupBytes(v, acts, k, d), start, LastTick(acts, k, start))
  {
    hide RefilledTo, UpdatedLast, Next, Funded, Sound, Steady, MemberBytes, Seen;
    KnownPool(v, k);
    if acts != [] {
      var i := |acts| - 1;
      var w := Final(v, acts[..i]);
      GroupLedger(v, acts[..i], k, d, start, if Ticked(acts[i], k) then acts[i].time else end);
      SoundFinal(v, acts[..i]);
      PoolStep(w, acts[i], k, d);
      KnownPool(w, k);
      if Ticked(acts[i], k) {
        LedgerRefreshed(w.groups[k], Next(w, acts[i]).groups[k], d, GroupBytes(v, acts[..i], k, d), start,
                        LastTick(acts[..i], k, start), acts[i].time);
      }
    }
  }

  // When a group has just been made, or its timer has run, the counter shows no earlier ticks.
  lemma JustSeen(v: View, a: Act, k: nat)
    requires Sound(v) && Applies(v, a) && (Ticked(a, k) || (a.MakeGroup? && k == |v.groups|))
    ensures k < |Next(v, a).groups| && Seen(Next(v, a).groups[k].level.last, a.time)
  {
    assert Ticks(a.time % TWO_32, a.time % TWO_32) == 0;
    if Ticked(a, k) {
      assert Holds(v.groups[k]);
    }
  }

  lemma KnownPool(v: View, k: nat)
    requires Sound(v) && k < |v.groups|
    ensures Holds(v.groups[k]) && 0 <= v.groups[k].minShare
  {
  }

  // From anywhere in a history on, whoever joins and leaves meanwhile, all members of a group together move no more than its
  // burst size, its minimum share and the worth of the ticks, whatever the tick counter does.
  lemma GroupThroughput(before: seq<Act>, acts: seq<Act>, k: nat, d: Dir, start: nat, end: nat)
    requires var v := Final(START, before);
      k < |v.groups| && InTime(acts, k, start, end) && Seen(v.groups[k].level.last, start)
    requires forall i :: 0 <= i < |before| ==> !Zero(before[i], k)
    requires forall i :: 0 <= i < |acts| ==> Steady(acts[i], k)
    ensures var v := Final(START, before); var p := v.groups[k];
      GroupBytes(v, acts, k, d) <= p.cfg.Max(d) + p.minShare + (end - start) * p.cfg.Rate(d)
  {
    hide Final, Sound, Funded, InTime, Seen, Steady, GroupBytes;
    var v := Final(START, before);
    StartSound();
    SoundFinal(START, before);
    FundedAlways(before, k);
    KnownPool(v, k);
    GroupLedger(v, acts, k, d, start, end);
    Within(start, start, LastTick(acts, k, start), end, v.groups[k].cfg.Rate(d));
  }

  // -- What a group shares out --

  ghost function Members(v: View, k: nat): set<nat>
  {
    set n: nat | n < |v.bevs| && v.bevs[n].group == Some(k)
  }

  // Each bufferevent is in no group or in one that there is, and groups count their members rightly.
  ghost predicate Enrolled(v: View)
  {
    && (forall n :: 0 <= n < |v.bevs| && v.bevs[n].group.Some? ==> v.bevs[n].group.value < |v.groups|)
    && forall k :: 0 <= k < |v.groups| ==> v.groups[k].size == |Members(v, k)|
  }

  lemma EnrolledNext(v: View, a: Act)
    requires Enrolled(v)
    ensures Enrolled(Next(v, a))
  {
    hide Happens, Rings, Charged, Drawn, Taken, RingsAll, Amount, May, Joined, Enrolled, ShareFor, Topped;
    if Applies(v, a) {
      if a.Join? || a.Leave? {
        var k := if a.Join? then Some(a.k) else None;
        JoinedEnrolled(v, a.n, k, a.Join?);
      } else {
        Aside(v, a);
        SameMembers(v, Next(v, a));
      }
    }
  }

  // Nobody joins or leaves.
  lemma Aside(v: View, a: Act)
    requires Applies(v, a) && !a.Join? && !a.Leave?
    ensures var w := Next(v, a);
      && |w.bevs| >= |v.bevs| && |w.groups| >= |v.groups|
      && (forall n :: 0 <= n < |v.bevs| ==> w.bevs[n].group == v.bevs[n].group)
      && (forall n :: |v.bevs| <= n < |w.bevs| ==> w.bevs[n].group == None)
      && (forall k :: 0 <= k < |v.groups| ==> w.groups[k].size == v.groups[k].size)
      && (forall k :: |v.groups| <= k < |w.groups| ==> w.groups[k].size == 0)
  {
    hide RefilledTo, UpdatedLast, Amount, May, ShareFor;
  }

  lemma SameMembers(v: View, w: View)
    requires Enrolled(v) && |w.bevs| >= |v.bevs| && |w.groups| >= |v.groups|
    requires forall n :: 0 <= n < |v.bevs| ==> w.bevs[n].group == v.bevs[n].group
    requires forall n :: |v.bevs| <= n < |w.bevs| ==> w.bevs[n].group == None
    requires forall k :: 0 <= k < |v.groups| ==> w.groups[k].size == v.groups[k].size
    requires forall k :: |v.groups| <= k < |w.groups| ==> w.groups[k].size == 0
    ensures Enrolled(w)
  {
    forall k | 0 <= k < |w.groups| ensures w.groups[k].size == |Members(w, k)| {
      assert Members(w, k) == Members(v, k);
      if k >= |v.groups| {
        assert Members(v, k) == {};
      }
    }
  }

  lemma JoinedEnrolled(v: View, n: nat, k: Option<nat>, limiting: bool)
    requires Enrolled(v) && n < |v.bevs| && (k.Some? ==> k.value < |v.groups|)
    ensures Enrolled(Joined(v, n, k, limiting))
  {
    var w, was := Joined(v, n, k, limiting), v.bevs[n].group;
    forall l: nat | l < |v.groups|
      ensures |Members(w, l)| == |Members(v, l)| + (if k == Some(l) then 1 else 0) - (if was == Some(l) then 1 else 0)
    {
      Reenrolled(v, w, n, k, l);
    }
    if was.Some? {
      assert n in Members(v, was.value);
      assert |Members(v, was.value)| > 0;
    }
  }

  lemma Reenrolled(v: View, w: View, n: nat, k: Option<nat>, l: nat)
    requires n < |v.bevs| && |w.bevs| == |v.bevs| && w.bevs[n].group == k
    requires forall m :: 0 <= m < |v.bevs| && m != n ==> w.bevs[m].group == v.bevs[m].group
    ensures |Members(w, l)| == |Members(v, l)| + (if k == Some(l) then 1 else 0) - (if v.bevs[n].group == Some(l) then 1 else 0)
  {
    hide Members;
    OneMember(v, n, l);
    OneMember(w, n, l);
    assert Others(v, n, l) == Others(w, n, l);
  }

  ghost function Others(v: View, n: nat, k: nat): set<nat>
  {
    set m: nat | m < |v.bevs| && m != n && v.bevs[m].group == Some(k)
  }

  lemma OneMember(v: View, n: nat, k: nat)
    requires n < |v.bevs|
    ensures |Members(v, k)| == |Others(v, n, k)| + if v.bevs[n].group == Some(k) then 1 else 0
  {
    if v.bevs[n].group == Some(k) {
      assert Members(v, k) == Others(v, n, k) + {n};
    } else {
      assert Members(v, k) == Others(v, n, k);
    }
  }

  lemma {:induction false} EnrolledAlways(acts: seq<Act>)
    ensures Enrolled(Final(START, acts))
  {
    hide Next, Enrolled;
    if acts == [] {
      NoneEnrolled();
    } else {
      EnrolledAlways(acts[..|acts| - 1]);
      EnrolledNext(Final(START, acts[..|acts| - 1]), acts[|acts| - 1]);
    }
  }

  lemma NoneEnrolled()
    ensures Enrolled(START)
  {
  }

  // What the own bucket of a bufferevent, or the maximum of a single transfer, leaves it
  function Own(v: View, a: Act): int
    requires a.Io? && a.n < |v.bevs|
  {
    var b := v.bevs[a.n];
    if b.cfg.None? then a.maxSingle else Topped(b, a.time % TWO_32).level.Limit(a.d)
  }

  // A bufferevent without a group moves just what it wants and its own bucket holds.
  lemma AloneMoves(v: View, a: Act)
    requires a.Io? && a.n < |v.bevs| && v.bevs[a.n].group.None?
    ensures Own(v, a) <= 0 ==> Amount(v, a) == 0
    ensures Own(v, a) > 0 ==> Amount(v, a) <= a.want && Amount(v, a) <= Own(v, a)
    ensures Own(v, a) > 0 ==> Amount(v, a) == a.want || Amount(v, a) == Own(v, a)
  {
  }

  // A member of a group that is suspended moves nothing. One of a group that is not moves what it wants, what its own bucket
  // holds, or else its even share of the bucket of the group, rounded down, or the minimum share if that is more; whichever
  // is least.
  lemma MemberMoves(v: View, a: Act, k: nat)
    requires Sound(v) && a.Io? && a.n < |v.bevs| && v.bevs[a.n].group == Some(k) && k < |v.groups| && v.groups[k].size > 0
    ensures v.groups[k].Off(a.d) ==> Amount(v, a) == 0
    ensures !v.groups[k].Off(a.d) && v.groups[k].level.Limit(a.d) > 0 ==>
      var p, m := v.groups[k], Amount(v, a); var l, n := p.level.Limit(a.d), p.size;
      && m <= a.want && (Own(v, a) < 0 ==> m == 0) && (Own(v, a) >= 0 ==> m <= Own(v, a)) && (m <= p.minShare || m * n <= l)
      && (m == a.want || m == Own(v, a) || (m == 0 && Own(v, a) < 0) || (m >= p.minShare && l < (m + 1) * n))
  {
    hide Topped;
    var p := v.groups[k];
    KnownPool(v, k);
    if !p.Off(a.d) && p.level.Limit(a.d) > 0 {
      var m, s, l := Amount(v, a), ShareOf(p, a.d), p.level.Limit(a.d);
      ShareBound(p, a.d);
      assert Holds(p);
      if s * p.size <= l && m <= s {
        LessShare(m, s, l, p.size);
      }
    }
  }

  // What all these transfers would move if each was the next one
  function Granted(v: View, asks: seq<Act>): nat
  {
    if asks == [] then 0 else Granted(v, asks[..|asks| - 1]) + Amount(v, asks[|asks| - 1])
  }

  // Each member asks once for direction d.
  ghost predicate AllAsk(v: View, k: nat, d: Dir, asks: seq<Act>)
  {
    && (forall i :: 0 <= i < |asks| ==> asks[i].Io? && asks[i].d == d && asks[i].n in Members(v, k))
    && |asks| == |Members(v, k)| && forall i, j :: 0 <= i < j < |asks| ==> asks[i].n != asks[j].n
  }

  // It wants, and its own bucket holds, what its part of this comes to.
  predicate Willing(v: View, a: Act, l: int, size: nat)
    requires a.Io? && a.n < |v.bevs|
  {
    l < (a.want + 1) * size && l < (Own(v, a) + 1) * size
  }

  // In every history: unless their own buckets stop them, the members of a group that is not suspended together are granted
  // all that is in its bucket but for what is lost by rounding, which is less than a byte for each.
  lemma SharedFully(acts: seq<Act>, k: nat, d: Dir, asks: seq<Act>)
    requires var v := Final(START, acts);
      && k < |v.groups| && !v.groups[k].Off(d) && asks != [] && AllAsk(v, k, d, asks)
      && forall i :: 0 <= i < |asks| ==> Willing(v, asks[i], v.groups[k].level.Limit(d), |asks|)
    ensures var v := Final(START, acts); Granted(v, asks) >= v.groups[k].level.Limit(d) - |asks| + 1
  {
    hide Final, Sound, Enrolled, Granted, Amount;
    var v := Final(START, acts);
    StartSound();
    SoundFinal(START, acts);
    EnrolledAlways(acts);
    var l := v.groups[k].level.Limit(d);
    assert v.groups[k].size == |asks| by { CountedRight(v, k); }
    if l > 0 {
      forall i | 0 <= i < |asks| ensures l < (Amount(v, asks[i]) + 1) * |asks| {
        GrantedEnough(v, asks[i], k);
      }
      GrantedTogether(v, asks, l, |asks|);
      Lost(Granted(v, asks), l, |asks|);
    }
  }

  lemma CountedRight(v: View, k: nat)
    requires Enrolled(v) && k < |v.groups|
    ensures v.groups[k].size == |Members(v, k)|
  {
  }

  lemma GrantedEnough(v: View, a: Act, k: nat)
    requires Sound(v) && a.Io? && a.n < |v.bevs| && v.bevs[a.n].group == Some(k) && k < |v.groups| && v.groups[k].size > 0
    requires !v.groups[k].Off(a.d) && v.groups[k].level.Limit(a.d) > 0
    requires Willing(v, a, v.groups[k].level.Limit(a.d), v.groups[k].size)
    ensures v.groups[k].level.Limit(a.d) < (Amount(v, a) + 1) * v.groups[k].size
  {
    hide Amount, Own, Sound;
    MemberMoves(v, a, k);
  }

  lemma {:induction false} GrantedTogether(v: View, asks: seq<Act>, l: nat, n: nat)
    requires forall i :: 0 <= i < |asks| ==> l < (Amount(v, asks[i]) + 1) * n
    ensures (Granted(v, asks) + |asks|) * n >= |asks| * (l + 1)
  {
    hide Amount;
    if asks != [] {
      var k := |asks| - 1;
      GrantedTogether(v, asks[..k], l, n);
      var g, m := Granted(v, asks[..k]), Amount(v, asks[k]);
      assert (g + m + k + 1) * n == (g + k) * n + (m + 1) * n;
      assert (k + 1) * (l + 1) == k * (l + 1) + (l + 1);
    }
  }

  lemma Lost(sum: nat, l: nat, n: nat)
    requires n > 0 && (sum + n) * n >= n * (l + 1)
    ensures sum >= l - n + 1
  {
    assert n * (l + 1) == (sum + n) * n + (l + 1 - sum - n) * n;
    if sum + n < l + 1 {
      NotNegative(l - sum - n, n);
    }
  }

  // -- Who is suspended --

  // A direction that has used up its bucket is suspended, and while one is suspended for this the refill timer is pending.
  ghost predicate Guarded(b: Line)
  {
    && (b.pending ==> b.cfg.Some?)
    && forall d :: (b.cfg.Some? && b.level.Limit(d) <= 0 ==> Bw in b.At(d).reasons) && (Bw in b.At(d).reasons ==> b.pending)
  }

  lemma GuardedNext(v: View, a: Act, n: nat)
    requires Sound(v) && n < |v.bevs| && Guarded(v.bevs[n])
    ensures n < |Next(v, a).bevs| && Guarded(Next(v, a).bevs[n])
  {
    hide RefilledTo, UpdatedLast, Happens, Rings, Charged, Topped, Drawn, Taken, RingsAll, ShareOf, Resized, Amount, Guarded, Fits;
    Grows(v, a);
    assert Fits(v.bevs[n]);
    if Applies(v, a) {
      match a {
        case On(m, event) =>
          if m == n {
            HappensGuarded(v.bevs[n], event);
          }
        case Timer(m, time) =>
          if m == n {
            RingsGuarded(v.bevs[n], time % TWO_32);
          }
        case Io(m, d, time, _, _) =>
          if m == n {
            ToppedGuarded(v.bevs[n], time % TWO_32);
            ChargedGuarded(Topped(v.bevs[n], time % TWO_32), d, Amount(v, a));
          }
        case Join(m, k, _) => JoinedGuarded(v, m, Some(k), true, n);
        case Leave(m) => JoinedGuarded(v, m, None, false, n);
        case _ =>
      }
    }
  }

  lemma HappensGuarded(b: Line, e: Event)
    requires Guarded(b) && May(b, e)
    ensures Guarded(Happens(b, e))
  {
    match e {
      case LimitDecremented(d, decr) =>
        assert b.level.Minus(d, decr).Limit(Other(d)) == b.level.Limit(Other(d)) && (d == Reading || d == Writing);
      case _ =>
    }
  }

  lemma RingsGuarded(b: Line, tick: int)
    requires Guarded(b) && b.cfg.Some? && Fits(b) && 0 <= tick < TWO_32
    ensures Guarded(Rings(b, tick))
  {
    hide RefilledTo, UpdatedLast;
    LevelStays(b.level, b.cfg.value, tick);
    assert b.level.Limit(Reading) == b.level.read && b.level.Limit(Writing) == b.level.write;
    assert b.level.Refilled(b.cfg.value, tick).Limit(Reading) >= b.level.read;
  }

  lemma ToppedGuarded(b: Line, tick: int)
    requires Guarded(b) && Fits(b) && 0 <= tick < TWO_32
    ensures Guarded(Topped(b, tick))
  {
    hide RefilledTo, UpdatedLast;
    if b.cfg.Some? {
      LevelStays(b.level, b.cfg.value, tick);
      var w := Topped(b, tick);
      forall d ensures w.level.Limit(d) <= 0 ==> Bw in w.At(d).reasons {
        assert b.level.Limit(d) <= w.level.Limit(d);
      }
    }
  }

  lemma ChargedGuarded(b: Line, d: Dir, m: nat)
    requires Guarded(b)
    ensures Guarded(Charged(b, d, m))
  {
    var w := Charged(b, d, m);
    forall e ensures (w.cfg.Some? && w.level.Limit(e) <= 0 ==> Bw in w.At(e).reasons) && (Bw in w.At(e).reasons ==> w.pending) {
      assert e == d || e == Other(d);
      assert b.cfg.Some? && b.level.Limit(e) <= 0 ==> Bw in b.At(e).reasons;
    }
  }

  lemma JoinedGuarded(v: View, m: nat, k: Option<nat>, limiting: bool, n: nat)
    requires m < |v.bevs| && n < |v.bevs| && Guarded(v.bevs[n])
    ensures Guarded(Joined(v, m, k, limiting).bevs[n])
  {
  }

  // In every history: nothing goes on over its limit, and nothing is suspended for this without a timer to resume it.
  lemma {:induction false} GuardedAlways(acts: seq<Act>, n: nat)
    requires n < |Final(START, acts).bevs|
    ensures Guarded(Final(START, acts).bevs[n])
  {
    hide Next, Sound, Guarded;
    var i := |acts| - 1;
    var w := Final(START, acts[..i]);
    StartSound();
    SoundFinal(START, acts[..i]);
    if n < |w.bevs| {
      GuardedAlways(acts[..i], n);
      GuardedNext(w, acts[i], n);
    } else {
      NewGuarded(w, acts[i], n);
    }
  }

  lemma NewGuarded(v: View, a: Act, n: nat)
    requires |v.bevs| <= n < |Next(v, a).bevs|
    ensures Guarded(Next(v, a).bevs[n])
  {
    hide Happens, Rings, Topped, Charged, Drawn, Taken, RingsAll, Amount, May;
  }

  // The refill timer resumes exactly the directions whose bucket holds something then, and runs again exactly for the others.
  lemma TimerResumes(v: View, n: nat, time: nat)
    requires n < |v.bevs| && v.bevs[n].pending && v.bevs[n].cfg.Some?
    ensures var b, c, w := v.bevs[n], v.bevs[n].cfg.value, Next(v, Timer(n, time)).bevs[n];
      && (forall d :: w.level.Limit(d) == Updated(b.level.Limit(d), b.level.last, c.Max(d), c.Rate(d), time % TWO_32))
      && (forall d :: Bw in w.At(d).reasons <==> Bw in b.At(d).reasons && w.level.Limit(d) <= 0)
      && (w.pending <==> Bw in w.read.reasons || Bw in w.write.reasons)
      && (forall d, r :: r != Bw ==> (r in w.At(d).reasons <==> r in b.At(d).reasons)) && w.read.enabled == b.read.enabled
      && w.write.enabled == b.write.enabled && w.cfg == b.cfg && w.group == b.group
  {
    hide Updated, UpdatedLast;
  }

  // What is moved is taken from the own bucket, and the direction is suspended exactly if nothing is left.
  lemma MovedIsCharged(v: View, a: Act)
    requires a.Io? && a.n < |v.bevs| && v.bevs[a.n].cfg.Some? && Amount(v, a) > 0
    ensures var w := Next(v, a).bevs[a.n];
      && w.level.Limit(a.d) == Own(v, a) - Amount(v, a) && (Bw in w.At(a.d).reasons <==> w.level.Limit(a.d) <= 0)
      && (w.level.Limit(a.d) <= 0 ==> w.pending) && w.At(Other(a.d)) == v.bevs[a.n].At(Other(a.d))
      && (Bw !in w.read.reasons && Bw !in w.write.reasons && Bw in v.bevs[a.n].At(a.d).reasons ==> !w.pending)
  {
    hide RefilledTo, UpdatedLast, Amount, Drawn;
  }

  // The same for a group.
  lemma MovedIsDrawn(v: View, a: Act, k: nat)
    requires a.Io? && a.n < |v.bevs| && v.bevs[a.n].group == Some(k) && k < |v.groups| && Amount(v, a) > 0
    ensures k < |Next(v, a).groups|
    ensures var p, q := v.groups[k], Next(v, a).groups[k];
      && q.level.Limit(a.d) == p.level.Limit(a.d) - Amount(v, a) && (q.Off(a.d) <==> q.level.Limit(a.d) <= 0)
      && q.level.Limit(Other(a.d)) == p.level.Limit(Other(a.d)) && q.Off(Other(a.d)) == p.Off(Other(a.d))
  {
    hide RefilledTo, UpdatedLast, Amount, Charged;
  }

  // A limit that is set by hand, or taken from: a new configuration starts with one tick's worth, another one clips what there
  // is, and a direction is suspended exactly if it has nothing; the same one changes nothing, and none resumes both.
  lemma LimitIsSet(b: Line, c: Option<Cfg>, tick: int, memory: bool)
    ensures var w := Happens(b, LimitSet(c, tick, memory));
      if c.None? then w.cfg.None? && Bw !in w.read.reasons && Bw !in w.write.reasons && !w.pending
      else if (b.limiting && b.cfg.Some? && b.cfg.value.id == c.value.id) || (!b.limiting && !memory) then w == b
      else
        && w.limiting && w.cfg == c
        && (forall d :: w.level.Limit(d) == if b.cfg.None? then c.value.Rate(d)
                                            else if b.level.Limit(d) > c.value.Max(d) then c.value.Max(d) else b.level.Limit(d))
        && w.level.last == (if b.cfg.None? then tick else b.level.last)
        && (forall d :: Bw in w.At(d).reasons <==> w.level.Limit(d) <= 0)
        && (w.pending <==> Bw in w.read.reasons || Bw in w.write.reasons)
  {
  }

  // The reasons of the library and the user: exactly the one that is named comes or goes.
  lemma ReasonIsSet(b: Line, d: Dir, what: Reason)
    ensures var w := Happens(b, SuspendedFor(d, what));
      w.At(d) == Half(b.At(d).enabled, b.At(d).reasons + {what}) && w == b.Put(d, w.At(d)) && w.At(Other(d)) == b.At(Other(d))
    ensures var w := Happens(b, UnsuspendedFor(d, what));
      w.At(d) == Half(b.At(d).enabled, b.At(d).reasons - {what}) && w == b.Put(d, w.At(d)) && w.At(Other(d)) == b.At(Other(d))
    ensures var w := Happens(b, Enabled(d));
      w.At(d) == Half(true, b.At(d).reasons) && w == b.Put(d, w.At(d)) && w.At(Other(d)) == b.At(Other(d))
    ensures var w := Happens(b, Disabled(d));
      w.At(d) == Half(false, b.At(d).reasons) && w == b.Put(d, w.At(d)) && w.At(Other(d)) == b.At(Other(d))
  {
  }

  // Taking from the own bucket, or from that of a group, by hand: suspended or resumed exactly if the bucket has run dry or holds
  // something again.
  lemma TakenByHand(b: Line, p: Pool, d: Dir, decr: int)
    requires Guarded(b) && b.cfg.Some?
    ensures var w := Happens(b, LimitDecremented(d, decr));
      && w.level == b.level.Minus(d, decr) && w.level.Limit(d) == b.level.Limit(d) - decr
      && (w.level.Limit(d) <= 0 ==> Bw in w.At(d).reasons)
      && (b.level.Limit(d) <= 0 && w.level.Limit(d) > 0 ==> Bw !in w.At(d).reasons)
      && (b.level.Limit(d) > 0 && w.level.Limit(d) > 0 ==> w.At(d) == b.At(d)) && w.At(Other(d)) == b.At(Other(d))
      && (b.level.Limit(d) <= 0 && w.level.Limit(d) > 0 ==> (w.pending <==> Bw in b.At(Other(d)).reasons))
    ensures var q := Taken(p, d, decr);
      && q.level == p.level.Minus(d, decr) && q.Off(Other(d)) == p.Off(Other(d))
      && (q.Off(d) <==> if p.level.Limit(d) > 0 <==> q.level.Limit(d) > 0 then p.Off(d) else q.level.Limit(d) <= 0)
  {
  }

  // The timer of a group resumes it exactly if it then has the minimum share.
  lemma GroupResumes(v: View, k: nat, time: nat, d: Dir)
    requires k < |v.groups|
    ensures k < |Next(v, GroupTimer(k, time)).groups|
    ensures var p, c, q := v.groups[k], v.groups[k].cfg, Next(v, GroupTimer(k, time)).groups[k];
      && q.level.Limit(d) == Updated(p.level.Limit(d), p.level.last, c.Max(d), c.Rate(d), time % TWO_32)
      && (q.Off(d) <==> p.Off(d) && q.level.Limit(d) < p.minShare)
      && q.cfg == c && q.minShare == p.minShare && q.size == p.size
  {
    hide Updated, UpdatedLast;
  }

  // Joining and leaving, and the share of a group
  lemma MembersMove(v: View, n: nat, k: nat, memory: bool)
    requires n < |v.bevs| && k < |v.groups|
    ensures var w := Next(v, Join(n, k, memory));
      if v.bevs[n].limiting || memory then |w.bevs| == |v.bevs| && w.bevs[n] == v.bevs[n].(limiting := true, group := Some(k)) else w == v
    ensures var w := Next(v, Leave(n)); |w.bevs| == |v.bevs| && w.bevs[n] == v.bevs[n].(group := None)
    ensures forall share: nat :: var w := Next(v, Share(k, share));
      if share > SSIZE_MAX then w == v
      else |w.groups| == |v.groups| && w.groups[k].configured == share && w.groups[k].minShare == ShareFor(v.groups[k].cfg, share)
  {
  }

  lemma WorksExact(v: View, n: nat, d: Dir)
    requires Enrolled(v) && n < |v.bevs|
    ensures var b := v.bevs[n];
      Works(v, n, d) <==> b.At(d).enabled && b.At(d).reasons == {} && (b.group.None? || !v.groups[b.group.value].Off(d))
  {
  }

  // The bytes that are counted are those that the calls move.
  lemma BytesCounted(v: View, acts: seq<Act>, a: Act, n: nat, k: nat, d: Dir)
    ensures var w, m := Final(v, acts), MovedBy(v, acts + [a])[|acts|];
      && LineBytes(v, acts + [a], n, d) == LineBytes(v, acts, n, d) + (if a.Io? && a.n == n && a.d == d then m else 0)
      && GroupBytes(v, acts + [a], k, d) ==
           GroupBytes(v, acts, k, d) + (if a.Io? && a.d == d && a.n < |w.bevs| && w.bevs[a.n].group == Some(k) then m else 0)
      && MovedBy(v, acts + [a])[..|acts|] == MovedBy(v, acts)
  {
    hide Amount, Final;
    assert (acts + [a])[..|acts|] == acts;
  }
}
