/** Reserving space (evbuffer_reserve_space) and what a reservation is good for; reading from a socket (evbuffer_read). */
module EvBufferRead {
  import opened Bytes
  import opened EvBufferCore
  import opened EvBufferDrain
  import opened EvBufferExpand
  import opened EvBufferExpandFast
  import opened EvBufferSpace
  import opened EvBufferCommit

  const EVBUFFER_MAX_READ: nat := 4096
  const NUM_READ_IOVEC: nat := 4

  // evbuffer_reserve_space. With one vec the space may be that of the chain behind the first one with room.
  method ReserveSpace(buf: EvBuffer, size: int, nVecs: int) returns (n: int, vecs: seq<Vec>, ghost k: nat)
    requires buf.Valid() && -0x8000_0000_0000_0000 <= size <= CHAIN_MAX
    modifies buf`first, buf`last, buf`lastWithDatap, buf`totalLen, buf`chains, buf`pieces, buf`lwd, buf`store, buf.store
    ensures buf.Valid() && fresh(buf.store - old(buf.store)) && buf.Contents() == old(buf.Contents())
    ensures n == -1 || n == |vecs|
    ensures buf.freezeEnd || nVecs < 1 ==> n == -1
    ensures buf.ample && !buf.freezeEnd && nVecs >= 1 && 0 <= size && size + MAX_TO_COPY_IN_EXPAND <= LARGEST ==> n != -1
    ensures nVecs == 1 && n != -1 ==>
      && n == 1 && k < |buf.chains| && Roomy(buf, buf.chains[k], k, if size < 0 then 0 else size)
      && vecs[0] == Vec(SpacePtr(buf.chains[k]), Room(buf.chains[k]))
    ensures nVecs == 1 && n != -1 && old(|buf.chains| <= buf.lwd + 1) ==>
      k == |buf.chains| - 1 && (k == buf.lwd || buf.pieces[buf.lwd] != [])
    ensures nVecs == 1 && size >= 0 && !buf.freezeEnd && old(NextHasRoom(buf, size)) ==>
      unchanged(buf) && n == 1 && k == buf.lwd + 1 && forall c :: c in buf.chains ==> unchanged(c)
    ensures nVecs > 1 && n != -1 ==>
      && buf.chains != [] && n <= nVecs && 0 <= size <= Sum(Lens(vecs)) && Offered(buf, FirstRoom(buf), vecs)
      && Filled(vecs) && Seated(buf)
      && (old(|buf.chains|) < nVecs ==> Appended(old(buf.chains), buf.chains, size))
    ensures old(Compact(buf.pieces, buf.lwd)) ==> Compact(buf.pieces, buf.lwd)
  {
    hide Rooted, Flatten, DataEndsAt, HasRoom, Sum, Lens, FirstRoom, Seated, Filled, Compact, Appended;
    n, vecs, k := -1, [], 0;
    if buf.freezeEnd {
      return;
    }
    if nVecs < 1 {
      return;
    }
    // the conversion to size_t
    var datlen: nat := if size < 0 then SIZE_MAX + 1 + size else size;
    if nVecs == 1 {
      var chain;
      chain, k := ExpandSinglechain(buf, datlen);
      if chain == null {
        return;
      }
      vecs := [Vec(SpacePtr(chain), chain.SpaceLen())];
      n := 1;
    } else {
      var expanded := ExpandFast(buf, datlen, nVecs);
      if expanded < 0 {
        return;
      }
      var chainp;
      n, vecs, chainp := SetupVecs(buf, size, nVecs, false);
      if n >= 0 {
        HasChains(buf, size, nVecs);
      }
    }
  }

  // used is a prefix of vecs, filled at most as far as it goes.
  ghost predicate Shrunk(used: seq<Vec>, vecs: seq<Vec>)
  {
    |used| <= |vecs| && forall i :: 0 <= i < |used| ==> used[i].base == vecs[i].base && used[i].len <= vecs[i].len
  }

  lemma SpacePtrsDiffer(buf: EvBuffer, i: nat, j: nat)
    requires Rooted(buf) && i < |buf.chains| && j < |buf.chains| && SpacePtr(buf.chains[i]) == SpacePtr(buf.chains[j])
    ensures i == j
  {
    if i != j {
      Distinct(buf, i, j);
    }
  }

  // A reservation of two or more vecs can be committed, as far as it was filled.
  lemma ReservationCommits(buf: EvBuffer, vecs: seq<Vec>, used: seq<Vec>)
    requires buf.Valid() && buf.chains != [] && Offered(buf, FirstRoom(buf), vecs) && Shrunk(used, vecs)
    ensures CommitSafe(buf, used)
    ensures CommitAccepts(buf, used) <==> !buf.freezeEnd
  {
    hide Rooted, Flatten, DataEndsAt;
    OfferedShrink(buf, FirstRoom(buf), vecs, used);
    FirstRoomBound(buf);
    if LastMatch(buf, used) {
      SpacePtrsDiffer(buf, FirstRoom(buf), |buf.chains| - 1);
    }
  }

  lemma OfferedShrink(buf: EvBuffer, s: nat, vecs: seq<Vec>, used: seq<Vec>)
    requires Offered(buf, s, vecs) && Shrunk(used, vecs)
    ensures Offered(buf, s, used)
  {
  }

  // A reservation of one vec can be committed exactly if its chain is the last one or the first one with room.
  // One that was just made is safe to commit.
  lemma OneVecCommits(buf: EvBuffer, k: nat, len: nat)
    requires buf.Valid() && k < |buf.chains| && len <= Room(buf.chains[k])
    ensures Roomy(buf, buf.chains[k], k, len) ==> CommitSafe(buf, [Vec(SpacePtr(buf.chains[k]), len)])
    ensures CommitAccepts(buf, [Vec(SpacePtr(buf.chains[k]), len)]) <==>
      !buf.freezeEnd && (k == |buf.chains| - 1 || k == FirstRoom(buf))
  {
    hide Rooted, Flatten, DataEndsAt;
    var vecs := [Vec(SpacePtr(buf.chains[k]), len)];
    var s, last := FirstRoom(buf), |buf.chains| - 1;
    FirstRoomBound(buf);
    if LastMatch(buf, vecs) {
      SpacePtrsDiffer(buf, k, last);
    } else if s < |buf.chains| && SpacePtr(buf.chains[s]) == SpacePtr(buf.chains[k]) {
      SpacePtrsDiffer(buf, s, k);
    }
  }

  // The regions that n bytes laid out over vecs cover.
  function Clip(vecs: seq<Vec>, n: nat): (w: seq<Vec>)
    ensures Shrunk(w, vecs)
  {
    if vecs == [] || n == 0 then []
    else if vecs[0].len >= n then [Vec(vecs[0].base, n)]
    else [vecs[0]] + Clip(vecs[1..], n - vecs[0].len)
  }

  lemma {:induction false} ClipSum(vecs: seq<Vec>, n: nat)
    requires n <= Sum(Lens(vecs))
    ensures Sum(Lens(Clip(vecs, n))) == n
  {
    hide Sum, Lens;
    NoSum();
    if vecs != [] {
      LensCons(vecs[0], vecs[1..]);
      assert vecs == [vecs[0]] + vecs[1..];
      if vecs[0].len < n {
        ClipSum(vecs[1..], n - vecs[0].len);
        LensCons(vecs[0], Clip(vecs[1..], n - vecs[0].len));
      } else if n > 0 {
        LensCons(Vec(vecs[0].base, n), []);
        assert [Vec(vecs[0].base, n)] + [] == [Vec(vecs[0].base, n)];
      }
    }
  }

  lemma NoSum()
    ensures Sum(Lens([])) == 0
  {
  }

  lemma LensCons(v: Vec, vecs: seq<Vec>)
    ensures Sum(Lens([v] + vecs)) == v.len + Sum(Lens(vecs))
  {
    assert Lens([v] + vecs)[1..] == Lens(vecs);
  }

  // The first region of what is left.
  lemma ClipStep(vecs: seq<Vec>, n: nat, i: nat, remaining: nat)
    requires i <= |vecs| && 0 < remaining <= Sum(Lens(vecs[i..]))
    requires i <= |Clip(vecs, n)| && Clip(vecs, n)[i..] == Clip(vecs[i..], remaining)
    ensures i < |vecs| && i < |Clip(vecs, n)|
    ensures Clip(vecs, n)[i].len == Min(vecs[i].len, remaining)
    ensures vecs[i].len < remaining ==>
      && i + 1 < |vecs| && Clip(vecs, n)[i + 1..] == Clip(vecs[i + 1..], remaining - vecs[i].len)
      && remaining - vecs[i].len <= Sum(Lens(vecs[i + 1..]))
    ensures vecs[i].len >= remaining ==> |Clip(vecs, n)| == i + 1
  {
    var w, rest := Clip(vecs, n), vecs[i..];
    assert rest != [];
    assert rest[1..] == vecs[i + 1..];
    assert w[i..][0] == w[i] && w[i..][1..] == w[i + 1..];
    assert Lens(rest)[1..] == Lens(rest[1..]);
  }

  // Bytes are put into the free space of chain k.
  method FillRoom(buf: EvBuffer, ghost k: nat, v: Vec, data: seq<byte>)
    requires Rooted(buf) && k < |buf.chains| && v.base == SpacePtr(buf.chains[k])
    requires |data| == v.len <= Room(buf.chains[k])
    modifies v.base.memory
    ensures Rooted(buf) && VecBytes(v) == data
  {
    hide Segment, Objects;
    DerefSlot(buf, k);
    ghost var chain := buf.chains[k];
    ghost var was := chain.buffer[..];
    CopyIn(v.base.memory, v.base.offset, data);
    assert chain.buffer[chain.misalign..chain.misalign + chain.off] == was[chain.misalign..chain.misalign + chain.off];
    assert buf.pieces == old(buf.pieces)[k := buf.pieces[k]];
    RootedUpdate(buf, k, buf.pieces[k]);
  }

  // The first i of the regions w hold a prefix of incoming.
  ghost predicate Laid(w: seq<Vec>, i: nat, done: nat, incoming: seq<byte>)
    reads Memories(w)
  {
    && i <= |w| && done <= |incoming| && Flatten(Parts(w)[..i]) == incoming[..done]
    && done + Sum(Lens(w[i..])) <= |incoming|
  }

  lemma LaidStart(w: seq<Vec>, incoming: seq<byte>)
    requires Sum(Lens(w)) <= |incoming|
    ensures Laid(w, 0, 0, incoming)
  {
    assert w[0..] == w;
  }

  lemma LensFrom(w: seq<Vec>, i: nat)
    requires i < |w|
    ensures Sum(Lens(w[i..])) == w[i].len + Sum(Lens(w[i + 1..]))
  {
    assert Lens(w[i..])[1..] == Lens(w[i + 1..]);
  }

  twostate lemma LaidStep(new w: seq<Vec>, new i: nat, new done: nat, new incoming: seq<byte>)
    requires old(allocated(w)) && i < |w| && old(Laid(w, i, done, incoming))
    requires forall j {:trigger w[j]} :: 0 <= j < i ==> VecBytes(w[j]) == old(VecBytes(w[j]))
    requires done + w[i].len <= |incoming| && VecBytes(w[i]) == incoming[done..done + w[i].len]
    ensures Laid(w, i + 1, done + w[i].len, incoming)
  {
    assert Parts(w)[..i] == old(Parts(w)[..i]);
    FlattenTake(Parts(w), i);
    LensFrom(w, i);
  }

  // The next region is filled; the others share no memory with it.
  method LayOne(buf: EvBuffer, ghost s: nat, w: seq<Vec>, i: nat, done: nat, ghost n: nat, incoming: seq<byte>)
    returns (upto: nat)
    requires Rooted(buf) && Offered(buf, s, w) && Laid(w, i, done, incoming) && i < |w| && done + Sum(Lens(w[i..])) == n
    modifies Memories(w)
    ensures Rooted(buf) && Laid(w, i + 1, upto, incoming) && upto + Sum(Lens(w[i + 1..])) == n
  {
    hide Rooted, Flatten, Parts, Laid, Sum, Lens;
    upto := done + w[i].len;
    LensFrom(w, i);
    LaidBound(w, i, done, incoming);
    assert w[i].base == SpacePtr(buf.chains[s + i]) && w[i] in w && w[i].base.memory in Memories(w);
    forall j | 0 <= j < i ensures w[j].base.At? && w[j].base.memory != w[i].base.memory {
      Distinct(buf, s + j, s + i);
      assert w[j].base == SpacePtr(buf.chains[s + j]);
    }
    FillRoom(buf, s + i, w[i], incoming[done..done + w[i].len]);
    LaidStep(w, i, done, incoming);
  }

  lemma LaidBound(w: seq<Vec>, i: nat, done: nat, incoming: seq<byte>)
    requires Laid(w, i, done, incoming)
    ensures done + Sum(Lens(w[i..])) <= |incoming|
  {
  }

  // readv: the kernel lays the bytes that have come in over the regions, and says how many there are.
  method Readv(buf: EvBuffer, ghost s: nat, vecs: seq<Vec>, incoming: seq<byte>) returns (n: nat)
    requires Rooted(buf) && Offered(buf, s, vecs)
    modifies Memories(vecs)
    ensures Rooted(buf) && n == Min(|incoming|, Sum(Lens(vecs)))
    ensures Flatten(Parts(Clip(vecs, n))) == incoming[..n]
  {
    hide Rooted, Flatten, Parts, Laid, Clip, Offered, Sum, Lens;
    n := Min(|incoming|, Sum(Lens(vecs)));
    var w := Clip(vecs, n);
    ClipSum(vecs, n);
    ClipMemories(w, vecs);
    OfferedShrink(buf, s, vecs, w);
    LaidStart(w, incoming);
    var i: nat, done: nat := 0, 0;
    while i < |w|
      invariant i <= |w| && Rooted(buf) && Laid(w, i, done, incoming) && done + Sum(Lens(w[i..])) == n
    {
      done := LayOne(buf, s, w, i, done, n, incoming);
      i := i + 1;
    }
    LaidEnd(w, done, incoming);
  }

  lemma ClipMemories(w: seq<Vec>, vecs: seq<Vec>)
    requires Shrunk(w, vecs)
    ensures Memories(w) <= Memories(vecs)
  {
    forall v | v in w && v.base.At? ensures v.base.memory in Memories(vecs) {
      var i :| 0 <= i < |w| && w[i] == v;
      assert vecs[i] in vecs;
    }
  }

  lemma LaidEnd(w: seq<Vec>, done: nat, incoming: seq<byte>)
    requires Laid(w, |w|, done, incoming)
    ensures Flatten(Parts(w)) == incoming[..done] && Sum(Lens(w[|w|..])) == 0
  {
    assert Parts(w)[..|w|] == Parts(w);
  }

  // From vec i on the vecs are all the free space of their chains, except that the last one may be less.
  ghost predicate Gauged(buf: EvBuffer, s: nat, vecs: seq<Vec>, i: nat)
    reads buf`chains, buf.chains
  {
    && s + |vecs| <= |buf.chains|
    && forall j :: i <= j < |vecs| ==>
         && vecs[j].len <= Room(buf.chains[s + j])
         && (vecs[j].len < Room(buf.chains[s + j]) ==> j == |vecs| - 1)
  }

  lemma GaugeStart(buf: EvBuffer, vecs: seq<Vec>, howmuch: nat)
    requires buf.chains != [] ==> buf.lwd < |buf.chains|
    requires Gathered(buf, vecs, Sum(Lens(vecs)), howmuch, true)
    ensures Gauged(buf, FirstRoom(buf), vecs, 0) && Offered(buf, FirstRoom(buf), vecs) && Sum(Lens(vecs)) <= howmuch
  {
  }

  twostate lemma GaugeSame(new buf: EvBuffer, new s: nat, new vecs: seq<Vec>, new i: nat)
    requires old(allocated(buf)) && old(allocated(vecs)) && old(Gauged(buf, s, vecs, i)) && unchanged(buf`chains)
    requires forall j {:trigger buf.chains[j]} :: 0 <= j < |buf.chains| && j != s + i ==>
      buf.chains[j].misalign == old(buf.chains[j].misalign) && buf.chains[j].off == old(buf.chains[j].off)
    ensures Gauged(buf, s, vecs, i + 1)
  {
  }

  // What one step of the loop of evbuffer_read adds to its chain.
  lemma ReadStep(buf: EvBuffer, s: nat, vecs: seq<Vec>, n: nat, i: nat, remaining: nat)
    requires Gauged(buf, s, vecs, i) && i <= |vecs| && 0 < remaining <= Sum(Lens(vecs[i..]))
    requires i <= |Clip(vecs, n)| && Clip(vecs, n)[i..] == Clip(vecs[i..], remaining)
    ensures i < |vecs| && s + i < |buf.chains| && i < |Clip(vecs, n)| && vecs[i].len <= Room(buf.chains[s + i])
    ensures Clip(vecs, n)[i].len == Min(Room(buf.chains[s + i]), remaining)
    ensures Room(buf.chains[s + i]) >= remaining ==> |Clip(vecs, n)| == i + 1
  {
    hide Clip, Sum, Lens, Gauged, Room;
    ClipStep(vecs, n, i, remaining);
    GaugeAt(buf, s, vecs, i);
    if i == |vecs| - 1 {
      LensFrom(vecs, i);
      NoLens(vecs);
    }
  }

  lemma GaugeAt(buf: EvBuffer, s: nat, vecs: seq<Vec>, i: nat)
    requires Gauged(buf, s, vecs, i) && i < |vecs|
    ensures s + i < |buf.chains| && vecs[i].len <= Room(buf.chains[s + i])
    ensures vecs[i].len < Room(buf.chains[s + i]) ==> i == |vecs| - 1
  {
  }

  // A chain that is filled, and is not the last one.
  method TakeAll(buf: EvBuffer, chain: Chain, ghost s: nat, ghost vecs: seq<Vec>, ghost w: seq<Vec>, ghost i: nat, space: nat,
                 ghost lwd: nat, ghost was: seq<byte>)
    requires Rooted(buf) && Committing(buf, s, w, i, lwd, was) && Gauged(buf, s, vecs, i) && i < |w|
    requires s + i < |buf.chains| && chain == buf.chains[s + i] && space == w[i].len
    modifies buf`pieces, chain`off
    ensures Rooted(buf) && Gauged(buf, s, vecs, i + 1)
    ensures Committing(buf, s, w, i + 1, if space == 0 then lwd else s + i, was)
    ensures space > 0 && old(Tight(buf.pieces, lwd, s + i)) ==> Tight(buf.pieces, s + i, s + i + 1)
  {
    hide Rooted, Committing, Gauged, Tight;
    DistinctBefore(buf, s + i);
    CommitOne(buf, chain, s, w, i, space, lwd, was);
    GaugeSame(buf, s, vecs, i);
  }

  // The last one.
  method TakeLast(buf: EvBuffer, chain: Chain, chainp: Slot, ghost s: nat, ghost w: seq<Vec>, ghost i: nat, remaining: nat,
                  ghost lwd: nat, ghost was: seq<byte>)
    requires Rooted(buf) && Committing(buf, s, w, i, lwd, was) && i + 1 == |w|
    requires s + i < |buf.chains| && chain == buf.chains[s + i] && 0 < remaining == w[i].len
    requires chainp == SlotAt(buf.chains, s + i)
    modifies buf`pieces, buf`lastWithDatap, buf`lwd, chain`off
    ensures Rooted(buf) && DataEndsAt(buf.pieces, buf.lwd) && buf.lwd == s + i
    ensures buf.lastWithDatap == SlotAt(buf.chains, buf.lwd)
    ensures buf.Contents() == was + old(Flatten(Parts(w)))
    ensures old(Tight(buf.pieces, lwd, s + i)) ==> Compact(buf.pieces, buf.lwd)
  {
    hide Rooted, Committing, Parts, Flatten, DataEndsAt, Tight, Compact;
    CommitOne(buf, chain, s, w, i, remaining, lwd, was);
    TightCompact(buf.pieces, s + i, s + i + 1);
    CommitEnd(buf, s, w, s + i, was);
    PartsSame(w);
    buf.lastWithDatap := chainp;
    buf.lwd := s + i;
  }

  lemma TightCompact(pieces: seq<seq<byte>>, lwd: nat, k: nat)
    ensures Tight(pieces, lwd, k) ==> Compact(pieces, lwd)
  {
  }

  // The state of the loop of evbuffer_read after i regions: remaining bytes lie in the others.
  ghost predicate Reading(buf: EvBuffer, s: nat, vecs: seq<Vec>, n: nat, i: nat, remaining: nat, lwd: nat, was: seq<byte>)
    reads buf`chains, buf`pieces, buf.chains, Memories(Clip(vecs, n))
  {
    var w := Clip(vecs, n);
    && i <= |w| && i <= |vecs| && Committing(buf, s, w, i, lwd, was) && Gauged(buf, s, vecs, i)
    && 0 < remaining <= EVBUFFER_MAX_READ && remaining <= Sum(Lens(vecs[i..])) && w[i..] == Clip(vecs[i..], remaining)
  }

  lemma ReadingStart(buf: EvBuffer, s: nat, vecs: seq<Vec>, n: nat)
    requires Rooted(buf) && DataEndsAt(buf.pieces, buf.lwd) && buf.lwd <= s
    requires Offered(buf, s, vecs) && Gauged(buf, s, vecs, 0) && 0 < n <= Sum(Lens(vecs)) && n <= EVBUFFER_MAX_READ
    ensures Reading(buf, s, vecs, n, 0, n, buf.lwd, buf.Contents())
  {
    hide Rooted, DataEndsAt, Offered, Gauged, Clip, Sum, Lens, Committing;
    OfferedShrink(buf, s, vecs, Clip(vecs, n));
    CommitBegin(buf, s, Clip(vecs, n));
    ClipAll(vecs, n);
  }

  lemma ReadingHere(buf: EvBuffer, s: nat, vecs: seq<Vec>, n: nat, i: nat, remaining: nat, lwd: nat, was: seq<byte>)
    requires Reading(buf, s, vecs, n, i, remaining, lwd, was)
    ensures i < |vecs| && s + i < |buf.chains| && i < |Clip(vecs, n)| && remaining > 0
    ensures Committing(buf, s, Clip(vecs, n), i, lwd, was) && Gauged(buf, s, vecs, i)
    ensures vecs[i].len <= Room(buf.chains[s + i])
    ensures var space := Room(buf.chains[s + i]);
      && Clip(vecs, n)[i].len == Min(space, remaining)
      && (space >= remaining ==> |Clip(vecs, n)| == i + 1)
  {
    hide Gauged, Clip, Sum, Lens, Committing, Room;
    ReadStep(buf, s, vecs, n, i, remaining);
  }

  lemma ReadingNext(buf: EvBuffer, s: nat, vecs: seq<Vec>, n: nat, i: nat, remaining: nat, space: nat)
    requires i < |vecs| && 0 < remaining <= Sum(Lens(vecs[i..])) && i < |Clip(vecs, n)|
    requires Clip(vecs, n)[i..] == Clip(vecs[i..], remaining)
    requires space < remaining && Clip(vecs, n)[i].len == space
    ensures i + 1 <= |vecs| && remaining - space <= Sum(Lens(vecs[i + 1..]))
    ensures Clip(vecs, n)[i + 1..] == Clip(vecs[i + 1..], remaining - space)
  {
    ClipStep(vecs, n, i, remaining);
  }

  // One round of the loop of evbuffer_read.
  method ReadRound(buf: EvBuffer, chainp: Slot, ghost s: nat, ghost vecs: seq<Vec>, ghost n: nat, ghost i: nat, remaining: nat,
                   ghost lwd: nat, ghost was: seq<byte>)
    returns (left: nat, next: Slot, ghost lwd': nat)
    requires Rooted(buf) && Reading(buf, s, vecs, n, i, remaining, lwd, was)
    requires s + i <= |buf.chains| && chainp == SlotAt(buf.chains, s + i)
    modifies buf`pieces, buf`lastWithDatap, buf`lwd, buf.chains`off
    ensures Rooted(buf)
    ensures left > 0 ==>
      && Reading(buf, s, vecs, n, i + 1, left, lwd', was) && s + i + 1 <= |buf.chains| && next == SlotAt(buf.chains, s + i + 1)
      && (Filled(vecs) && old(Tight(buf.pieces, lwd, s + i)) ==> Tight(buf.pieces, lwd', s + i + 1))
    ensures left == 0 ==>
      && DataEndsAt(buf.pieces, buf.lwd) && buf.lwd < |buf.chains| && buf.lastWithDatap == SlotAt(buf.chains, buf.lwd)
      && buf.Contents() == was + old(Flatten(Parts(Clip(vecs, n))))
      && (old(Tight(buf.pieces, lwd, s + i)) ==> Compact(buf.pieces, buf.lwd))
  {
    hide Rooted, Flatten, DataEndsAt, Parts, Committing, Gauged, Clip, Sum, Lens, Tight, Compact;
    ReadingHere(buf, s, vecs, n, i, remaining, lwd, was);
    ghost var w := Clip(vecs, n);
    DerefSlot(buf, s + i);
    var chain := Deref(buf, chainp);
    var space := chain.SpaceLen();
    if space > CHAIN_MAX {
      space := CHAIN_MAX;
    }
    if space < remaining {
      TakeAll(buf, chain, s, vecs, w, i, space, lwd, was);
      ReadingNext(buf, s, vecs, n, i, remaining, space);
      lwd' := if space == 0 then lwd else s + i;
      left, next := remaining - space, NextOf(chain);
    } else {
      TakeLast(buf, chain, chainp, s, w, i, remaining, lwd, was);
      left, next, lwd' := 0, chainp, buf.lwd;
    }
  }

  // The loop of evbuffer_read: n bytes that lie in the regions become part of the chains.
  method CommitRead(buf: EvBuffer, firstchainp: Slot, ghost s: nat, vecs: seq<Vec>, n: nat)
    requires Rooted(buf) && DataEndsAt(buf.pieces, buf.lwd) && s + |vecs| <= |buf.chains| && buf.lwd <= s
    requires firstchainp == SlotAt(buf.chains, s) && Offered(buf, s, vecs) && Gauged(buf, s, vecs, 0)
    requires 0 < n <= Sum(Lens(vecs)) && n <= EVBUFFER_MAX_READ
    modifies buf`pieces, buf`lastWithDatap, buf`lwd, buf.chains`off
    ensures Rooted(buf) && DataEndsAt(buf.pieces, buf.lwd) && buf.lwd < |buf.chains|
    ensures buf.lastWithDatap == SlotAt(buf.chains, buf.lwd)
    ensures buf.Contents() == old(buf.Contents() + Flatten(Parts(Clip(vecs, n))))
    ensures Filled(vecs) && old(Tight(buf.pieces, buf.lwd, s)) ==> Compact(buf.pieces, buf.lwd)
  {
    hide Rooted, Flatten, DataEndsAt, Offered, Parts, Reading, Gauged, Clip, Sum, Lens, Tight, Compact, Filled;
    ghost var was, lwd: nat := buf.Contents(), buf.lwd;
    ghost var tight := Filled(vecs) && Tight(buf.pieces, buf.lwd, s);
    ReadingStart(buf, s, vecs, n);
    var chainp, remaining, i: nat := firstchainp, n, 0;
    while i < |vecs|
      invariant i <= |vecs| && Rooted(buf) && Reading(buf, s, vecs, n, i, remaining, lwd, was)
      invariant s + i <= |buf.chains| && chainp == SlotAt(buf.chains, s + i)
      invariant tight ==> Tight(buf.pieces, lwd, s + i)
    {
      PartsSame(Clip(vecs, n));
      remaining, chainp, lwd := ReadRound(buf, chainp, s, vecs, n, i, remaining, lwd, was);
      if remaining == 0 {
        return;
      }
      i := i + 1;
    }
    NothingToRead(buf, s, vecs, n, i, remaining, lwd, was);
  }

  lemma NothingToRead(buf: EvBuffer, s: nat, vecs: seq<Vec>, n: nat, i: nat, remaining: nat, lwd: nat, was: seq<byte>)
    requires Reading(buf, s, vecs, n, i, remaining, lwd, was)
    ensures i < |vecs|
  {
    hide Clip, Committing, Gauged;
    NoLens(vecs);
  }

  lemma NoLens(vecs: seq<Vec>)
    ensures Sum(Lens(vecs[|vecs|..])) == 0
  {
  }

  lemma ClipAll(vecs: seq<Vec>, n: nat)
    ensures vecs[0..] == vecs && Clip(vecs, n)[0..] == Clip(vecs[0..], n)
  {
  }

  lemma CommitBegin(buf: EvBuffer, s: nat, vecs: seq<Vec>)
    requires Rooted(buf) && DataEndsAt(buf.pieces, buf.lwd) && buf.lwd <= s && Offered(buf, s, vecs)
    ensures Committing(buf, s, vecs, 0, buf.lwd, buf.Contents())
  {
    assert vecs[0..] == vecs;
    assert buf.Contents() + [] == buf.Contents();
  }

  // How many bytes evbuffer_read asks for; readable is what FIONREAD reports.
  function ReadLimit(howmuch: int, readable: int): (n: nat)
    ensures n <= EVBUFFER_MAX_READ && (howmuch >= 0 ==> n <= howmuch) && (0 < readable <= EVBUFFER_MAX_READ ==> n <= readable)
    ensures n == EVBUFFER_MAX_READ || (howmuch >= 0 && n == howmuch) || (0 < readable <= EVBUFFER_MAX_READ && n == readable)
  {
    var n := if readable <= 0 || readable > EVBUFFER_MAX_READ then EVBUFFER_MAX_READ else readable;
    if howmuch < 0 || howmuch > n then n else howmuch
  }

  lemma OfferedStored(buf: EvBuffer, s: nat, vecs: seq<Vec>)
    requires Rooted(buf) && Offered(buf, s, vecs)
    ensures forall m :: m in Memories(vecs) ==> m in buf.store
    ensures s + |vecs| <= |buf.chains|
  {
    forall v | v in vecs && v.base.At? ensures v.base.memory in buf.store {
      var i :| 0 <= i < |vecs| && vecs[i] == v;
      ObjectsAt(buf.chains, s + i);
    }
  }

  // The end of evbuffer_read.
  method Account(buf: EvBuffer, chainp: Slot, ghost s: nat, vecs: seq<Vec>, n: nat)
    requires buf.Valid() && s + |vecs| <= |buf.chains| && buf.lwd <= s
    requires chainp == SlotAt(buf.chains, s) && Offered(buf, s, vecs) && Gauged(buf, s, vecs, 0)
    requires 0 < n <= Sum(Lens(vecs)) && n <= EVBUFFER_MAX_READ && |Flatten(Parts(Clip(vecs, n)))| == n
    modifies buf`pieces, buf`lastWithDatap, buf`lwd, buf`totalLen, buf`nAddForCb, buf.chains`off
    ensures buf.Valid() && buf.nAddForCb == old(buf.nAddForCb) + n
    ensures buf.Contents() == old(buf.Contents() + Flatten(Parts(Clip(vecs, n))))
    ensures Filled(vecs) && old(Tight(buf.pieces, buf.lwd, s)) ==> Compact(buf.pieces, buf.lwd)
  {
    hide Rooted, Flatten, DataEndsAt, Offered, Parts, Gauged, Clip, Sum, Lens, Tight, Compact, Filled;
    CommitRead(buf, chainp, s, vecs, n);
    buf.totalLen := buf.totalLen + n;
    buf.nAddForCb := buf.nAddForCb + n;
  }

  // evbuffer_read once there is room.
  method ReadInto(buf: EvBuffer, want: nat, fails: bool, incoming: seq<byte>) returns (r: int)
    requires buf.Valid() && HasRoom(buf, want, NUM_READ_IOVEC) && want <= EVBUFFER_MAX_READ
    modifies buf`pieces, buf`lastWithDatap, buf`lwd, buf`totalLen, buf`nAddForCb, buf.store
    ensures buf.Valid()
    ensures if fails then r == -1 else r == Min(|incoming|, want)
    ensures buf.Contents() == old(buf.Contents()) + if r == -1 then [] else incoming[..r]
    ensures buf.nAddForCb == old(buf.nAddForCb) + if r == -1 then 0 else r
    ensures old(Seated(buf) && Compact(buf.pieces, buf.lwd)) ==> Compact(buf.pieces, buf.lwd)
  {
    hide Rooted, Flatten, DataEndsAt, Offered, Parts, HasRoom, Gathered, Gauged, Clip, Sum, Lens, FirstRoom, Tight, Filled, Seated, Compact;
    HasChains(buf, want, NUM_READ_IOVEC);
    SeatedTight(buf);
    FirstRoomBound(buf);
    var nvecs, vecs, chainp := SetupVecs(buf, want, NUM_READ_IOVEC, true);
    if fails {
      return -1;
    }
    ghost var s := FirstRoom(buf);
    GaugeStart(buf, vecs, want);
    OfferedStored(buf, s, vecs);
    var n := Readv(buf, s, vecs, incoming);
    if n == 0 {
      return 0;
    }
    Account(buf, chainp, s, vecs, n);
    return n;
  }

  // A buffer whose first chain with room directly follows the bytes may be filled from there.
  lemma SeatedTight(buf: EvBuffer)
    requires buf.Valid() && buf.chains != []
    ensures Seated(buf) && Compact(buf.pieces, buf.lwd) ==> Tight(buf.pieces, buf.lwd, FirstRoom(buf))
  {
    hide Rooted;
  }

  // evbuffer_read, when readv is to deliver the bytes of incoming as far as there is room, or to fail. No more is read
  // than asked for, than FIONREAD reports, and than 4096 bytes, and no less than all of these and what there is allow.
  method Read(buf: EvBuffer, howmuch: int, readable: int, fails: bool, incoming: seq<byte>) returns (r: int)
    requires buf.Valid()
    modifies buf, buf.store
    ensures buf.Valid() && fresh(buf.store - old(buf.store))
    ensures buf.freezeEnd || fails ==> r == -1
    ensures buf.ample && !buf.freezeEnd && !fails ==> r >= 0
    ensures r == -1 || 0 <= r <= |incoming|
    ensures r <= 4096 && (howmuch >= 0 ==> r <= howmuch) && (0 < readable <= 4096 ==> r <= readable)
    ensures r == -1 || r == |incoming| || r == 4096 || (howmuch >= 0 && r == howmuch) || (0 < readable <= 4096 && r == readable)
    ensures buf.Contents() == old(buf.Contents()) + if r == -1 then [] else incoming[..r]
    ensures buf.nAddForCb == old(buf.nAddForCb) + if r == -1 then 0 else r
    ensures unchanged(buf`freezeStart, buf`freezeEnd, buf`nDelForCb)
    ensures old(Compact(buf.pieces, buf.lwd)) ==> Compact(buf.pieces, buf.lwd)
  {
    hide Rooted, Flatten, DataEndsAt, HasRoom, Seated, Compact;
    if buf.freezeEnd {
      return -1;
    }
    var want := ReadLimit(howmuch, readable);
    var expanded := ExpandFast(buf, want, NUM_READ_IOVEC);
    if expanded == -1 {
      return -1;
    }
    r := ReadInto(buf, want, fails, incoming);
  }

  lemma {:induction false} ClipFilled(vecs: seq<Vec>, n: nat)
    requires Filled(vecs)
    ensures Filled(Clip(vecs, n)) && Unskipped(Clip(vecs, n))
  {
    if vecs != [] && n > 0 && vecs[0].len < n {
      ClipFilled(vecs[1..], n - vecs[0].len);
    }
  }

  // What a fresh reservation of two or more vecs, filled with n bytes, is good for.
  lemma ClipCommits(buf: EvBuffer, vecs: seq<Vec>, n: nat)
    requires buf.Valid() && buf.chains != [] && Offered(buf, FirstRoom(buf), vecs) && !buf.freezeEnd
    ensures CommitSafe(buf, Clip(vecs, n)) && CommitAccepts(buf, Clip(vecs, n))
    ensures Filled(vecs) && Seated(buf) && Compact(buf.pieces, buf.lwd) ==> InOrder(buf, Clip(vecs, n))
  {
    hide Rooted, Flatten, DataEndsAt, Clip, Filled, Compact, Seated, Tight;
    var used := Clip(vecs, n);
    ReservationCommits(buf, vecs, used);
    if Filled(vecs) {
      ClipFilled(vecs, n);
    }
    SeatedTight(buf);
    FirstRoomBound(buf);
    if LastMatch(buf, used) {
      SpacePtrsDiffer(buf, FirstRoom(buf), |buf.chains| - 1);
    }
  }

  twostate lemma ReservationSame(new buf: EvBuffer, new vecs: seq<Vec>)
    requires old(allocated(buf)) && old(allocated(vecs)) && buf.chains != [] && buf.lwd < |buf.chains| && unchanged(buf)
    requires forall c :: c in buf.chains ==> unchanged(c)
    requires old(Offered(buf, FirstRoom(buf), vecs))
    ensures FirstRoom(buf) == old(FirstRoom(buf)) && Offered(buf, FirstRoom(buf), vecs)
    ensures Seated(buf) == old(Seated(buf))
  {
    forall i {:trigger buf.chains[i]} | 0 <= i < |buf.chains|
      ensures buf.chains[i].misalign == old(buf.chains[i].misalign) && buf.chains[i].off == old(buf.chains[i].off)
    {
      assert buf.chains[i] in buf.chains;
    }
    OfferedSame(buf, FirstRoom(buf), vecs);
  }

  // The first n bytes that a reservation has room for become part of the buffer.
  method CommitFilled(buf: EvBuffer, vecs: seq<Vec>, n: nat)
    requires buf.Valid() && buf.chains != [] && Offered(buf, FirstRoom(buf), vecs) && !buf.freezeEnd
    requires |Flatten(Parts(Clip(vecs, n)))| == n
    modifies buf`pieces, buf`lastWithDatap, buf`lwd, buf`totalLen, buf`nAddForCb, buf.chains`off
    ensures buf.Valid() && buf.Contents() == old(buf.Contents() + Flatten(Parts(Clip(vecs, n))))
    ensures buf.nAddForCb == old(buf.nAddForCb) + n
    ensures old(Filled(vecs) && Seated(buf) && Compact(buf.pieces, buf.lwd)) ==> Compact(buf.pieces, buf.lwd)
  {
    hide Rooted, Flatten, Offered, Clip, Filled, Compact, Seated, CommitSafe, CommitAccepts, InOrder, FirstRoom, DataEndsAt, Parts;
    ClipCommits(buf, vecs, n);
    var r := Commit(buf, Clip(vecs, n));
    PartsSame(Clip(vecs, n));
    assert r == 0;
  }

  // A reservation is written to, as far as it goes, and committed.
  method FillReserved(buf: EvBuffer, vecs: seq<Vec>, data: seq<byte>) returns (n: nat)
    requires buf.Valid() && buf.chains != [] && Offered(buf, FirstRoom(buf), vecs) && !buf.freezeEnd
    modifies buf`pieces, buf`lastWithDatap, buf`lwd, buf`totalLen, buf`nAddForCb, buf.store
    ensures buf.Valid() && n == Min(|data|, Sum(Lens(vecs)))
    ensures buf.Contents() == old(buf.Contents()) + data[..n] && buf.nAddForCb == old(buf.nAddForCb) + n
    ensures old(Filled(vecs) && Seated(buf) && Compact(buf.pieces, buf.lwd)) ==> Compact(buf.pieces, buf.lwd)
  {
    hide Rooted, Flatten, Offered, Clip, Filled, Compact, Seated, Sum, Lens, FirstRoom, DataEndsAt, Parts;
    OfferedStored(buf, FirstRoom(buf), vecs);
    label reserved:
    n := Readv(buf, FirstRoom(buf), vecs, data);
    ReservationSame@reserved(buf, vecs);
    CommitFilled(buf, vecs, n);
  }

  // A caller that reserves space in two or more chains, writes as much of data as there is room for, and commits it.
  method Fill(buf: EvBuffer, size: nat, more: nat, data: seq<byte>) returns (n: int)
    requires buf.Valid() && size <= CHAIN_MAX
    modifies buf, buf.store
    ensures buf.Valid() && fresh(buf.store - old(buf.store))
    ensures n == -1 || Min(|data|, size) <= n <= |data|
    ensures buf.freezeEnd ==> n == -1
    ensures buf.ample && !buf.freezeEnd && size + MAX_TO_COPY_IN_EXPAND <= LARGEST ==> n >= 0
    ensures buf.Contents() == old(buf.Contents()) + if n == -1 then [] else data[..n]
    ensures buf.nAddForCb == old(buf.nAddForCb) + if n == -1 then 0 else n
    ensures unchanged(buf`freezeStart, buf`freezeEnd, buf`nDelForCb)
    ensures old(Compact(buf.pieces, buf.lwd)) ==> Compact(buf.pieces, buf.lwd)
  {
    hide Rooted, Flatten, Offered, Clip, Filled, Compact, Seated, Sum, Lens, FirstRoom, DataEndsAt, Parts;
    var k, vecs;
    ghost var at;
    k, vecs, at := ReserveSpace(buf, size, 2 + more);
    if k == -1 {
      return -1;
    }
    n := FillReserved(buf, vecs, data);
  }

  lemma OneVecPlace(buf: EvBuffer, k: nat, len: nat)
    requires buf.Valid() && k < |buf.chains| && Roomy(buf, buf.chains[k], k, len)
    ensures var used := [Vec(SpacePtr(buf.chains[k]), len)];
      CommitAccepts(buf, used) ==>
        && CommitPlace(buf, used) == k
        && (Compact(buf.pieces, buf.lwd) && (k == buf.lwd || buf.pieces[buf.lwd] != []) ==> InOrder(buf, used))
  {
    hide Flatten, DataEndsAt, FirstRoom;
    var used := [Vec(SpacePtr(buf.chains[k]), len)];
    FirstRoomBound(buf);
    if LastMatch(buf, used) {
      SpacePtrsDiffer(buf, k, |buf.chains| - 1);
    } else if CommitAccepts(buf, used) {
      SpacePtrsDiffer(buf, k, FirstRoom(buf));
    }
  }

  lemma GrownByOne(before: seq<seq<byte>>, after: seq<seq<byte>>, k: nat, used: seq<Vec>)
    requires |used| == 1 && Grown(before, after, k, Parts(used)) && k < |before|
    ensures after == before[k := before[k] + VecBytes(used[0])]
  {
    forall i | 0 <= i < |before| ensures after[i] == before[k := before[k] + VecBytes(used[0])][i] {
      assert i != k ==> after[i] == before[i] + [];
    }
  }

  // The one vec of a reservation is written to, as far as it goes, and committed. -1: it cannot be committed.
  method FillOneReserved(buf: EvBuffer, v: Vec, ghost k: nat, data: seq<byte>) returns (n: int)
    requires buf.Valid() && k < |buf.chains| && Roomy(buf, buf.chains[k], k, 0) && v == Vec(SpacePtr(buf.chains[k]), Room(buf.chains[k]))
    modifies buf`pieces, buf`lastWithDatap, buf`lwd, buf`totalLen, buf`nAddForCb, buf.store
    ensures buf.Valid()
    ensures n == if !buf.freezeEnd && old(k == |buf.chains| - 1 || k == FirstRoom(buf)) then Min(|data|, v.len) else -1
    ensures buf.Contents() == old(buf.Contents()) + if n == -1 then [] else data[..n]
    ensures n != -1 ==> buf.pieces == old(buf.pieces)[k := old(buf.pieces[k]) + data[..n]]
    ensures buf.nAddForCb == old(buf.nAddForCb) + if n == -1 then 0 else n
    ensures old(Compact(buf.pieces, buf.lwd) && (k == buf.lwd || buf.pieces[buf.lwd] != [])) ==> Compact(buf.pieces, buf.lwd)
  {
    hide Rooted, Flatten, DataEndsAt, FirstRoom, Parts, Grown;
    n := Min(|data|, v.len);
    var used := [Vec(v.base, n)];
    FillRoom(buf, k, used[0], data[..n]);
    OneVecCommits(buf, k, n);
    OneVecPlace(buf, k, n);
    OnePart(used);
    ghost var was := buf.Contents();
    assert was + [] == was;
    label filled:
    var r := Commit(buf, used);
    PartsSame@filled(used);
    if r == -1 {
      n := -1;
    } else {
      GrownByOne(old(buf.pieces), buf.pieces, k, used);
    }
  }

  lemma LastData(buf: EvBuffer, k: nat)
    requires buf.Valid() && k < |buf.chains|
    ensures buf.lwd < |buf.chains| == |buf.pieces| && Deref(buf, buf.lastWithDatap) == buf.chains[buf.lwd]
    ensures buf.chains[buf.lwd].off == |buf.pieces[buf.lwd]|
    ensures SpacePtr(buf.chains[k]) == SpacePtr(buf.chains[buf.lwd]) ==> k == buf.lwd
  {
    hide Flatten;
    DerefSlot(buf, buf.lwd);
    if SpacePtr(buf.chains[k]) == SpacePtr(buf.chains[buf.lwd]) {
      SpacePtrsDiffer(buf, k, buf.lwd);
    }
  }

  // A careful caller that reserves space in one chain, writes as much of data as there is room for, and commits it, unless
  // it would come behind an empty chain. -1: no space, or the space that there is cannot be committed.
  method FillOne(buf: EvBuffer, size: nat, data: seq<byte>) returns (n: int)
    requires buf.Valid() && size <= CHAIN_MAX
    modifies buf, buf.store
    ensures buf.Valid() && fresh(buf.store - old(buf.store))
    ensures n == -1 || Min(|data|, size) <= n <= |data|
    ensures buf.freezeEnd ==> n == -1
    ensures buf.ample && !buf.freezeEnd && size + MAX_TO_COPY_IN_EXPAND <= LARGEST && old(|buf.chains| <= buf.lwd + 1) ==> n >= 0
    ensures buf.Contents() == old(buf.Contents()) + if n == -1 then [] else data[..n]
    ensures buf.nAddForCb == old(buf.nAddForCb) + if n == -1 then 0 else n
    ensures unchanged(buf`freezeStart, buf`freezeEnd, buf`nDelForCb)
    ensures old(Compact(buf.pieces, buf.lwd)) ==> Compact(buf.pieces, buf.lwd)
  {
    hide EvBuffer.Valid, Flatten, FirstRoom, Compact;
    LengthOf(buf);
    ghost var was := buf.Contents();
    assert was + [] == was;
    var r, vecs;
    ghost var k;
    r, vecs, k := ReserveSpace(buf, size, 1);
    if r == -1 {
      return -1;
    }
    LengthOf(buf);
    LastData(buf, k);
    var chain := Deref(buf, buf.lastWithDatap);
    if chain != null && chain.off == 0 && vecs[0].base != SpacePtr(chain) {
      return -1;
    }
    n := FillOneReserved(buf, vecs[0], k, data);
  }
}
