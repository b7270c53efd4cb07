/** Token buckets (ev_token_bucket_* in bufferevent_ratelim.c): a refill that avoids overflow, under a tick counter
    that wraps around, and the bound on throughput that follows. */
module TokenBucket {

  const TWO_64: int := 0x1_0000_0000_0000_0000
  const SSIZE_MAX: int := 0x7fff_ffff_ffff_ffff
  const SSIZE_MIN: int := -0x8000_0000_0000_0000
  const TWO_32: int := 0x1_0000_0000
  const INT_MAX: int := 0x7fff_ffff

  datatype Dir = Reading | Writing

  // struct ev_token_bucket_cfg; id stands for its address
  datatype Cfg = Cfg(id: nat, readRate: int, readMax: int, writeRate: int, writeMax: int)
  {
    function Rate(d: Dir): int { if d == Reading then readRate else writeRate }

    function Max(d: Dir): int { if d == Reading then readMax else writeMax }

    // What ev_token_bucket_cfg_new accepts.
    predicate Valid()
    {
      1 <= readRate <= readMax <= SSIZE_MAX && 1 <= writeRate <= writeMax <= SSIZE_MAX
    }
  }

  // The value of an ssize_t after a 64-bit computation.
  function Signed(x: int): (r: int)
    ensures SSIZE_MIN <= r <= SSIZE_MAX
  {
    (x - SSIZE_MIN) % TWO_64 + SSIZE_MIN
  }

  // The ticks between two readings of a 32-bit tick counter.
  function Ticks(last: int, now: int): (n: int)
    ensures 0 <= n < TWO_32
  {
    (now - last) % TWO_32
  }

  predicate Moves(n: int)
  {
    0 < n <= INT_MAX
  }

  // One direction of ev_token_bucket_update_ after n ticks, as it is computed: in unsigned 64-bit arithmetic.
  function Refilled(limit: int, max: int, rate: int, n: int): int
    requires Moves(n)
  {
    if (max - limit) % TWO_64 / n < rate then max else Signed(limit + n * rate)
  }

  // What it stands for.
  function Naive(limit: int, max: int, rate: int, n: int): int
  {
    if limit + n * rate > max then max else limit + n * rate
  }

  // The comparison of the quotient is the comparison of the product.
  lemma QuotientLess(d: int, n: int, rate: int)
    requires n > 0
    ensures d / n < rate <==> d < n * rate
  {
    var q := d / n;
    assert d == n * q + d % n;
    if q < rate {
      assert n * (q + 1) <= n * rate;
    } else {
      assert n * rate <= n * q;
    }
  }

  // The refill is the saturating one exactly when the limit is not above the maximum, or so little above what the
  // ticks bring that the unsigned difference, which has wrapped around, is made up for.
  lemma RefillExact(limit: int, max: int, rate: int, n: int)
    requires SSIZE_MIN <= limit <= SSIZE_MAX && 1 <= rate <= max <= SSIZE_MAX && Moves(n)
    ensures Refilled(limit, max, rate, n) == Naive(limit, max, rate, n) <==> limit <= max || n * rate >= TWO_64 + max - limit
  {
    var d := (max - limit) % TWO_64;
    QuotientLess(d, n, rate);
    assert n * rate >= 1;
    if limit <= max {
      assert d == max - limit;
    } else {
      assert d == TWO_64 + max - limit;
      var sum := limit + n * rate;
      if n * rate < d {
        assert sum < TWO_64 + max;
        assert Signed(sum) == if sum <= SSIZE_MAX then sum else sum - TWO_64;
      } else if n * rate == d {
        assert sum == TWO_64 + max;
      }
    }
  }

  // Then it is a refill: no lower than before and not above the maximum.
  lemma RefillGrows(limit: int, max: int, rate: int, n: int)
    requires SSIZE_MIN <= limit <= max && 1 <= rate <= max <= SSIZE_MAX && Moves(n)
    ensures Refilled(limit, max, rate, n) == Naive(limit, max, rate, n)
    ensures limit <= Naive(limit, max, rate, n) <= max
  {
    hide Refilled;
    RefillExact(limit, max, rate, n);
    assert n * rate >= 1;
  }

  // A bucket that was pushed above its maximum (a negative decrement does that) keeps growing.
  lemma RefillAboveMaximum()
    ensures Refilled(1025, 1024, 512, 1) == 1537 && Naive(1025, 1024, 512, 1) == 1024
  {
    assert (1024 - 1025) % TWO_64 == TWO_64 - 1;
  }

  // Two refills in a row are one.
  lemma RefillsCompose(limit: int, max: int, rate: int, n: int, m: int)
    requires SSIZE_MIN <= limit <= max && 1 <= rate <= max <= SSIZE_MAX && Moves(n) && Moves(m) && Moves(n + m)
    ensures Refilled(Refilled(limit, max, rate, n), max, rate, m) == Refilled(limit, max, rate, n + m)
  {
    RefillExact(limit, max, rate, n);
    assert (n + m) * rate == n * rate + m * rate && n * rate >= 1 && m * rate >= 1;
    RefillExact(Refilled(limit, max, rate, n), max, rate, m);
    RefillExact(limit, max, rate, n + m);
  }

  // struct ev_token_bucket
  class Bucket {
    var readLimit: int
    var writeLimit: int
    var lastUpdated: int

    function Limit(d: Dir): int
      reads this
    {
      if d == Reading then readLimit else writeLimit
    }

    // What is kept as long as nobody pushes a limit above its maximum.
    ghost predicate Fits(cfg: Cfg)
      reads this
    {
      && cfg.Valid() && 0 <= lastUpdated < TWO_32
      && SSIZE_MIN <= readLimit <= cfg.readMax && SSIZE_MIN <= writeLimit <= cfg.writeMax
    }

    // ev_token_bucket_init_ without reinitialize
    constructor (cfg: Cfg, tick: int)
      requires cfg.Valid() && 0 <= tick < TWO_32
      ensures Fits(cfg) && readLimit == cfg.readRate && writeLimit == cfg.writeRate && lastUpdated == tick
    {
      readLimit, writeLimit, lastUpdated := cfg.readRate, cfg.writeRate, tick;
    }

    // a bucket that has not been initialized
    constructor Zero()
      ensures readLimit == 0 && writeLimit == 0 && lastUpdated == 0
    {
      readLimit, writeLimit, lastUpdated := 0, 0, 0;
    }

    // ev_token_bucket_init_: reinitializing only clips downwards.
    method Init(cfg: Cfg, tick: int, reinitialize: bool)
      requires cfg.Valid() && 0 <= tick < TWO_32
      requires reinitialize ==> 0 <= lastUpdated < TWO_32 && SSIZE_MIN <= readLimit && SSIZE_MIN <= writeLimit
      modifies this
      ensures Fits(cfg)
      ensures reinitialize ==> forall d :: Limit(d) == if old(Limit(d)) > cfg.Max(d) then cfg.Max(d) else old(Limit(d))
      ensures reinitialize ==> lastUpdated == old(lastUpdated)
      ensures !reinitialize ==> lastUpdated == tick && forall d :: Limit(d) == cfg.Rate(d)
    {
      if reinitialize {
        if readLimit > cfg.readMax {
          readLimit := cfg.readMax;
        }
        if writeLimit > cfg.writeMax {
          writeLimit := cfg.writeMax;
        }
      } else {
        readLimit, writeLimit, lastUpdated := cfg.readRate, cfg.writeRate, tick;
      }
    }

    // ev_token_bucket_update_: the ticks since the last update, counted modulo 2^32, refill both directions.
    method Update(cfg: Cfg, tick: int) returns (r: bool)
      requires Fits(cfg) && 0 <= tick < TWO_32
      modifies this
      ensures Fits(cfg) && r == Moves(Ticks(old(lastUpdated), tick))
      ensures lastUpdated == if r then tick else old(lastUpdated)
      ensures forall d :: Limit(d) == Updated(old(Limit(d)), old(lastUpdated), cfg.Max(d), cfg.Rate(d), tick)
      ensures forall d :: Limit(d) >= old(Limit(d))
      ensures var n := (tick - old(lastUpdated)) % TWO_32;
        && r == (0 < n <= INT_MAX)
        && forall d :: Limit(d) == if !r then old(Limit(d))
                                   else if old(Limit(d)) + n * cfg.Rate(d) > cfg.Max(d) then cfg.Max(d) else old(Limit(d)) + n * cfg.Rate(d)
    {
      hide Refilled;
      var n := Ticks(lastUpdated, tick);
      if n == 0 || n > INT_MAX {
        return false;
      }
      RefillGrows(readLimit, cfg.readMax, cfg.readRate, n);
      RefillGrows(writeLimit, cfg.writeMax, cfg.writeRate, n);
      readLimit := Refilled(readLimit, cfg.readMax, cfg.readRate, n);
      writeLimit := Refilled(writeLimit, cfg.writeMax, cfg.writeRate, n);
      lastUpdated := tick;
      return true;
    }
  }

  // -- Throughput --

  // One direction of a bucket after an update: min(max, limit + n * rate) for the n ticks that the counter shows.
  function Updated(limit: int, last: int, max: int, rate: int, tick: int): int
  {
    var n := Ticks(last, tick);
    if Moves(n) then Naive(limit, max, rate, n) else limit
  }

  function UpdatedLast(last: int, tick: int): int
  {
    if Moves(Ticks(last, tick)) then tick else last
  }

  // n ticks later, up to INT_MAX of them, the bucket holds n * rate more, but no more than its maximum.
  lemma UpdatedAfter(limit: int, last: int, max: int, rate: int, n: int)
    requires 0 <= last < TWO_32 && 0 <= n < TWO_32
    ensures var tick := (last + n) % TWO_32;
      if 0 < n <= INT_MAX
      then
        && Updated(limit, last, max, rate, tick) == (if limit + n * rate > max then max else limit + n * rate)
        && UpdatedLast(last, tick) == tick
      else Updated(limit, last, max, rate, tick) == limit && UpdatedLast(last, tick) == last
  {
    ModAdd(last + n, -last);
    assert Ticks(last, (last + n) % TWO_32) == n;
  }

  // A transfer at a point in time that is counted without wrap-around.
  datatype Transfer = Transfer(time: nat, bytes: nat)

  // Every transfer moves no more than bufferevent_get_rlim_max_ allows for a bucket of one's own: the updated limit,
  // or nothing if that is negative. The limit is lowered by what was moved.
  ghost predicate Allowed(limit: int, last: int, max: int, rate: int, run: seq<Transfer>)
    decreases |run|
  {
    run != [] ==>
      var t := run[0];
      var l := Updated(limit, last, max, rate, t.time % TWO_32);
      && t.bytes <= (if l < 0 then 0 else l)
      && Allowed(l - t.bytes, UpdatedLast(last, t.time % TWO_32), max, rate, run[1..])
      && (|run| > 1 ==> t.time <= run[1].time)
  }

  function Moved(run: seq<Transfer>): nat
  {
    if run == [] then 0 else run[0].bytes + Moved(run[1..])
  }

  function LimitAfter(limit: int, last: int, max: int, rate: int, run: seq<Transfer>): int
    decreases |run|
  {
    if run == [] then limit
    else
      var t := run[0];
      LimitAfter(Updated(limit, last, max, rate, t.time % TWO_32) - t.bytes, UpdatedLast(last, t.time % TWO_32), max, rate, run[1..])
  }

  // The counter shows no ticks of before time v: it was read then, or it shows more than INT_MAX.
  ghost predicate Seen(last: int, v: nat)
  {
    0 <= last < TWO_32 && !Moves(Ticks(last, v % TWO_32))
  }

  // Then an update at a later time never counts more ticks than have passed since v, however long that is.
  lemma TicksBound(last: int, v: nat, t: nat)
    requires Seen(last, v) && v <= t
    ensures var n := Ticks(last, t % TWO_32); Moves(n) ==> n <= t - v
    ensures Seen(UpdatedLast(last, t % TWO_32), t)
  {
    var m := Ticks(last, v % TWO_32);
    TicksLater(last, v, t);
    if Moves((m + (t - v)) % TWO_32) && t - v < TWO_32 {
      assert m == 0 || m + (t - v) >= TWO_32 || m + (t - v) < TWO_32;
      if m + (t - v) >= TWO_32 {
        assert (m + (t - v)) % TWO_32 == m + (t - v) - TWO_32;
      }
    }
  }

  lemma TicksLater(last: int, v: nat, t: nat)
    requires v <= t
    ensures Ticks(last, t % TWO_32) == (Ticks(last, v % TWO_32) + (t - v)) % TWO_32
  {
    ModAdd(v % TWO_32 - last, t - v);
    ModAdd(v - last, t - v);
    ModShift(v, last);
    ModShift(t, last);
  }

  lemma ModAdd(a: int, b: int)
    ensures (a % TWO_32 + b) % TWO_32 == (a + b) % TWO_32
  {
    var q := a / TWO_32;
    assert a == q * TWO_32 + a % TWO_32;
    ModMultiple(a % TWO_32 + b, q);
  }

  lemma ModShift(a: int, b: int)
    ensures (a % TWO_32 - b) % TWO_32 == (a - b) % TWO_32
  {
    ModAdd(a, -b);
  }

  lemma ModMultiple(x: int, q: int)
    ensures (x + q * TWO_32) % TWO_32 == x % TWO_32
  {
    var y := x / TWO_32;
    assert x + q * TWO_32 == (y + q) * TWO_32 + x % TWO_32;
  }

  // From a time v that the counter has seen on, what is moved and what is left is at most what there was and what the
  // ticks since v bring.
  lemma {:induction false} MovedBound(limit: int, last: int, max: int, rate: int, run: seq<Transfer>, v: nat)
    requires 0 <= last < TWO_32 && limit <= max && 1 <= rate && Allowed(limit, last, max, rate, run)
    requires Seen(last, v) && (run != [] ==> v <= run[0].time)
    ensures var end := if run == [] then v else run[|run| - 1].time;
      && v <= end && Moved(run) + LimitAfter(limit, last, max, rate, run) <= limit + (end - v) * rate
    decreases |run|
  {
    if run != [] {
      var t := run[0];
      var l := Updated(limit, last, max, rate, t.time % TWO_32);
      var last' := UpdatedLast(last, t.time % TWO_32);
      TicksBound(last, v, t.time);
      UpdateBound(limit, last, max, rate, v, t.time);
      MovedBound(l - t.bytes, last', max, rate, run[1..], t.time);
      var end := run[|run| - 1].time;
      assert (end - v) * rate == (end - t.time) * rate + (t.time - v) * rate;
    }
  }

  lemma UpdateBound(limit: int, last: int, max: int, rate: int, v: nat, t: nat)
    requires limit <= max && 1 <= rate && Seen(last, v) && v <= t
    ensures Updated(limit, last, max, rate, t % TWO_32) <= limit + (t - v) * rate
    ensures Updated(limit, last, max, rate, t % TWO_32) <= max
  {
    TicksBound(last, v, t);
    var n := Ticks(last, t % TWO_32);
    if Moves(n) {
      assert n * rate <= (t - v) * rate;
    } else {
      assert 0 <= (t - v) * rate;
    }
  }

  // Less in the bucket is less after an update.
  lemma UpdatedLess(less: int, limit: int, last: int, max: int, rate: int, tick: int)
    requires less <= limit
    ensures Updated(less, last, max, rate, tick) <= Updated(limit, last, max, rate, tick)
  {
  }

  // The limit never becomes negative.
  lemma {:induction false} NeverNegative(limit: int, last: int, max: int, rate: int, run: seq<Transfer>)
    requires 0 <= limit <= max && 1 <= rate && Allowed(limit, last, max, rate, run)
    ensures 0 <= LimitAfter(limit, last, max, rate, run) <= max
    decreases |run|
  {
    if run != [] {
      var n := Ticks(last, run[0].time % TWO_32);
      assert Moves(n) ==> n * rate >= 0;
      NeverNegative(Updated(limit, last, max, rate, run[0].time % TWO_32) - run[0].bytes,
                    UpdatedLast(last, run[0].time % TWO_32), max, rate, run[1..]);
    }
  }

  // A bucket that somebody else has overdrawn stays negative only as long as nothing is moved.
  lemma {:induction false} NotOverdrawn(limit: int, last: int, max: int, rate: int, run: seq<Transfer>)
    requires limit <= max && 1 <= rate && Allowed(limit, last, max, rate, run)
    ensures Moved(run) == 0 || LimitAfter(limit, last, max, rate, run) >= 0
    decreases |run|
  {
    if run != [] {
      var t := run[0];
      var l := Updated(limit, last, max, rate, t.time % TWO_32);
      var n := Ticks(last, t.time % TWO_32);
      assert Moves(n) ==> n * rate >= 0;
      if l >= 0 {
        NeverNegative(l - t.bytes, UpdatedLast(last, t.time % TWO_32), max, rate, run[1..]);
      } else {
        NotOverdrawn(l - t.bytes, UpdatedLast(last, t.time % TWO_32), max, rate, run[1..]);
      }
    }
  }

  // In any window of time, from its first to its last transfer, at most the burst size and the ticks' worth is moved,
  // whatever the counter showed when it began.
  lemma Throughput(limit: int, last: int, max: int, rate: int, run: seq<Transfer>)
    requires limit <= max && 0 <= last < TWO_32 && 1 <= rate <= max && Allowed(limit, last, max, rate, run) && run != []
    ensures Moved(run) <= max + (run[|run| - 1].time - run[0].time) * rate
  {
    var t := run[0];
    var l := Updated(limit, last, max, rate, t.time % TWO_32);
    var last' := UpdatedLast(last, t.time % TWO_32);
    var n := Ticks(last, t.time % TWO_32);
    assert Moves(n) ==> n * rate >= 0;
    assert Ticks(t.time % TWO_32, t.time % TWO_32) == 0;
    assert Seen(last', t.time);
    MovedBound(l - t.bytes, last', max, rate, run[1..], t.time);
    NotOverdrawn(limit, last, max, rate, run);
    NotNegative(run[|run| - 1].time - t.time, rate);
  }

  lemma NotNegative(a: int, b: int)
    requires a >= 0 && b >= 0
    ensures a * b >= 0
  {
  }

  function LastAfter(last: int, run: seq<Transfer>): int
    decreases |run|
  {
    if run == [] then last else LastAfter(UpdatedLast(last, run[0].time % TWO_32), run[1..])
  }

  // One more transfer at the end of a run.
  lemma {:induction false} AllowedMore(limit: int, last: int, max: int, rate: int, run: seq<Transfer>, t: Transfer)
    requires Allowed(limit, last, max, rate, run) && (run != [] ==> run[|run| - 1].time <= t.time)
    requires var l := Updated(LimitAfter(limit, last, max, rate, run), LastAfter(last, run), max, rate, t.time % TWO_32);
      t.bytes <= if l < 0 then 0 else l
    ensures Allowed(limit, last, max, rate, run + [t]) && Moved(run + [t]) == Moved(run) + t.bytes
    ensures LimitAfter(limit, last, max, rate, run + [t]) ==
      Updated(LimitAfter(limit, last, max, rate, run), LastAfter(last, run), max, rate, t.time % TWO_32) - t.bytes
    ensures LastAfter(last, run + [t]) == UpdatedLast(LastAfter(last, run), t.time % TWO_32)
    decreases |run|
  {
    hide Updated, UpdatedLast;
    var more := run + [t];
    if run == [] {
      assert more == [t] && more[1..] == [];
    } else {
      var first := run[0].time % TWO_32;
      AllowedMore(Updated(limit, last, max, rate, first) - run[0].bytes, UpdatedLast(last, first), max, rate, run[1..], t);
      assert more[1..] == run[1..] + [t];
    }
  }
}
