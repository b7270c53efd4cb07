/** Committing reserved space: evbuffer_commit_space, and what a reservation of it is good for. */
module EvBufferCommit {
  import opened Bytes
  import opened EvBufferCore
  import opened EvBufferDrain
  import opened EvBufferExpand
  import opened EvBufferExpandFast
  import opened EvBufferSpace
  import opened EvBufferTransfer

  ghost function Memories(vecs: seq<Vec>): set<array<byte>>
  {
    set v | v in vecs && v.base.At? :: v.base.memory
  }

  // The bytes that lie in a region.
  ghost function VecBytes(v: Vec): seq<byte>
    reads if v.base.At? then {v.base.memory} else {}
  {
    if v.base.At? && v.base.offset + v.len <= v.base.memory.Length then
      v.base.memory[v.base.offset..v.base.offset + v.len]
    else []
  }

  ghost function Parts(vecs: seq<Vec>): (ps: seq<seq<byte>>)
    reads Memories(vecs)
    ensures |ps| == |vecs| && forall i :: 0 <= i < |vecs| ==> ps[i] == VecBytes(vecs[i])
  {
    seq(|vecs|, i requires 0 <= i < |vecs| reads Memories(vecs) => VecBytes(vecs[i]))
  }

  // len bytes that already lie behind the data of chain k become part of it.
  method ExtendChain(buf: EvBuffer, chain: Chain, ghost k: nat, len: nat)
    requires Rooted(buf) && k < |buf.chains| && chain == buf.chains[k] && len <= Room(chain)
    modifies buf`pieces, chain`off
    ensures Rooted(buf) && chain.off == old(chain.off) + len
    ensures buf.pieces == old(buf.pieces)[k := old(buf.pieces[k]) + VecBytes(Vec(old(SpacePtr(chain)), len))]
  {
    hide Segment, Objects;
    DerefSlot(buf, k);
    ghost var at := chain.misalign + chain.off;
    ghost var piece := buf.pieces[k] + chain.buffer[at..at + len];
    chain.off := chain.off + len;
    buf.pieces := buf.pieces[k := piece];
    assert chain.buffer[chain.misalign..chain.misalign + chain.off] == piece;
    RootedUpdate(buf, k, piece);
  }

  // Data behind everything there is so far, at or behind the last piece with data.
  lemma CommitStep(pieces: seq<seq<byte>>, lwd: nat, k: nat, data: seq<byte>)
    requires DataEndsAt(pieces, lwd) && lwd <= k < |pieces|
    ensures var after := pieces[k := pieces[k] + data];
      && Flatten(after) == Flatten(pieces) + data && DataEndsAt(after, if data == [] then lwd else k)
      && (data == [] ==> after == pieces)
  {
    FlattenExtend(pieces, k, data);
    if data == [] {
      assert pieces[k] + data == pieces[k];
      assert pieces[k := pieces[k] + data] == pieces;
    }
  }

  // Data may go to chain k without leaving an empty chain in front of it, and no empty one is in front already.
  ghost predicate Tight(pieces: seq<seq<byte>>, lwd: nat, k: nat)
  {
    Compact(pieces, lwd) && lwd < |pieces| && (k == lwd || (k == lwd + 1 && pieces[lwd] != []))
  }

  lemma TightStep(pieces: seq<seq<byte>>, lwd: nat, k: nat, data: seq<byte>)
    requires Tight(pieces, lwd, k) && k < |pieces| && data != []
    ensures Tight(pieces[k := pieces[k] + data], k, k + 1)
  {
  }

  // No vec is empty that comes before one that is not.
  ghost predicate Unskipped(vecs: seq<Vec>)
  {
    forall i, j :: 0 <= i < j < |vecs| && vecs[j].len > 0 ==> vecs[i].len > 0
  }

  // Every piece has grown by the part that was committed to its chain, the parts lying one after another from piece s on.
  ghost predicate Grown(before: seq<seq<byte>>, after: seq<seq<byte>>, s: nat, parts: seq<seq<byte>>)
  {
    && |after| == |before|
    && forall i :: 0 <= i < |after| ==> after[i] == before[i] + if s <= i < s + |parts| then parts[i - s] else []
  }

  lemma GrownNot(pieces: seq<seq<byte>>, s: nat)
    ensures Grown(pieces, pieces, s, [])
  {
    forall i | 0 <= i < |pieces| ensures pieces[i] == pieces[i] + [] {
    }
  }

  lemma GrownStep(before: seq<seq<byte>>, now: seq<seq<byte>>, s: nat, parts: seq<seq<byte>>, i: nat)
    requires i < |parts| && s + i < |now| && Grown(before, now, s, parts[..i])
    ensures Grown(before, now[s + i := now[s + i] + parts[i]], s, parts[..i + 1])
  {
    var after := now[s + i := now[s + i] + parts[i]];
    forall j | 0 <= j < |after| ensures after[j] == before[j] + if s <= j < s + i + 1 then parts[..i + 1][j - s] else [] {
      if s <= j < s + i {
        assert parts[..i + 1][j - s] == parts[..i][j - s];
      } else if j == s + i {
        assert now[j] == before[j];
      }
    }
  }

  // The loop of the first pass: every vec is the free space of its chain, and no longer than it.
  method VecsMatch(buf: EvBuffer, vecs: seq<Vec>, slot: Slot, ghost s: nat) returns (ok: bool)
    requires buf.Valid() && s <= |buf.chains| && slot == SlotAt(buf.chains, s)
    ensures ok == Offered(buf, s, vecs)
  {
    hide Rooted, Flatten, DataEndsAt;
    DerefSlot(buf, s);
    var chain := Deref(buf, slot);
    var i := 0;
    while i < |vecs|
      invariant 0 <= i <= |vecs| && s + i <= |buf.chains| && chain == ChainAt(buf.chains, s + i)
      invariant Offered(buf, s, vecs[..i])
    {
      if chain == null {
        return false;
      }
      NextChain(buf, s + i);
      if vecs[i].base != SpacePtr(chain) || vecs[i].len > chain.SpaceLen() {
        assert chain == buf.chains[s + i];
        return false;
      }
      OfferedSnoc(buf, s, vecs, i);
      chain := chain.next;
      i := i + 1;
    }
    assert vecs[..i] == vecs;
    return true;
  }

  lemma OfferedSnoc(buf: EvBuffer, s: nat, vecs: seq<Vec>, i: nat)
    requires i < |vecs| && Offered(buf, s, vecs[..i]) && s + i < |buf.chains|
    requires vecs[i].base == SpacePtr(buf.chains[s + i]) && vecs[i].len <= Room(buf.chains[s + i])
    ensures Offered(buf, s, vecs[..i + 1])
  {
    assert vecs[..i + 1] == vecs[..i] + [vecs[i]];
  }

  lemma OfferedRest(buf: EvBuffer, s: nat, vecs: seq<Vec>)
    requires Offered(buf, s, vecs) && vecs != []
    ensures s + |vecs| <= |buf.chains| && Offered(buf, s + 1, vecs[1..])
    ensures vecs[0].base == SpacePtr(buf.chains[s]) && vecs[0].len <= Room(buf.chains[s])
  {
  }

  // After i vecs have been made part of their chains: the bytes they cover have been appended, the last chain
  // with data is chain lwd, and the other vecs are still free space.
  ghost predicate Committing(buf: EvBuffer, s: nat, vecs: seq<Vec>, i: nat, lwd: nat, was: seq<byte>)
    reads buf`chains, buf`pieces, buf.chains, Memories(vecs)
  {
    && i <= |vecs| && s + |vecs| <= |buf.chains| == |buf.pieces|
    && DataEndsAt(buf.pieces, lwd) && lwd <= s + i
    && buf.Contents() == was + Flatten(Parts(vecs)[..i])
    && Offered(buf, s + i, vecs[i..])
  }

  lemma CommitStart(buf: EvBuffer, s: nat, vecs: seq<Vec>)
    requires buf.Valid() && buf.lwd <= s && Offered(buf, s, vecs)
    ensures Committing(buf, s, vecs, 0, buf.lwd, buf.Contents())
  {
    assert vecs[0..] == vecs;
    assert buf.Contents() + [] == buf.Contents();
  }

  lemma CommitEnd(buf: EvBuffer, s: nat, vecs: seq<Vec>, lwd: nat, was: seq<byte>)
    requires Committing(buf, s, vecs, |vecs|, lwd, was)
    ensures buf.Contents() == was + Flatten(Parts(vecs)) && DataEndsAt(buf.pieces, lwd) && lwd <= |buf.chains|
  {
    assert Parts(vecs)[..|vecs|] == Parts(vecs);
  }

  lemma CommitHere(buf: EvBuffer, s: nat, vecs: seq<Vec>, i: nat, lwd: nat, was: seq<byte>)
    requires Rooted(buf) && Committing(buf, s, vecs, i, lwd, was) && i < |vecs|
    ensures s + i < |buf.chains| && DataEndsAt(buf.pieces, lwd) && lwd <= s + i && s + |vecs| <= |buf.chains|
    ensures vecs[i].base == SpacePtr(buf.chains[s + i]) && vecs[i].len <= Room(buf.chains[s + i])
    ensures Offered(buf, s + i + 1, vecs[i + 1..])
    ensures buf.Contents() == was + Flatten(Parts(vecs)[..i])
    ensures VecBytes(vecs[i]) == VecBytes(Vec(SpacePtr(buf.chains[s + i]), vecs[i].len))
    ensures |VecBytes(vecs[i])| == vecs[i].len
  {
    hide Rooted, Flatten, Offered, VecBytes, Parts, DataEndsAt;
    assert vecs[i..][0] == vecs[i] && vecs[i..][1..] == vecs[i + 1..];
    OfferedRest(buf, s + i, vecs[i..]);
    DerefSlot(buf, s + i);
    SpaceBytes(buf.chains[s + i], vecs[i]);
  }

  lemma SpaceBytes(chain: Chain, v: Vec)
    requires chain.misalign + chain.off <= chain.buffer.Length && v.base == SpacePtr(chain) && v.len <= Room(chain)
    ensures |VecBytes(v)| == v.len && VecBytes(v) == VecBytes(Vec(SpacePtr(chain), v.len))
  {
  }

  twostate lemma OfferedSame(new buf: EvBuffer, new s: nat, new vecs: seq<Vec>)
    requires old(allocated(buf)) && old(allocated(vecs)) && old(Offered(buf, s, vecs)) && unchanged(buf`chains)
    requires forall i {:trigger buf.chains[i]} :: s <= i < |buf.chains| ==>
      buf.chains[i].misalign == old(buf.chains[i].misalign) && buf.chains[i].off == old(buf.chains[i].off)
    ensures Offered(buf, s, vecs)
  {
  }

  // The next vec becomes part of its chain.
  method CommitOne(buf: EvBuffer, chain: Chain, ghost s: nat, ghost vecs: seq<Vec>, ghost i: nat, len: nat,
                   ghost lwd: nat, ghost was: seq<byte>)
    requires Rooted(buf) && Committing(buf, s, vecs, i, lwd, was) && i < |vecs|
    requires s + i < |buf.chains| && chain == buf.chains[s + i] && len == vecs[i].len
    modifies buf`pieces, chain`off
    ensures Rooted(buf) && Committing(buf, s, vecs, i + 1, if len == 0 then lwd else s + i, was)
    ensures |buf.Contents()| == |old(buf.Contents())| + len
    ensures len > 0 && old(Tight(buf.pieces, lwd, s + i)) ==> Tight(buf.pieces, s + i, s + i + 1)
    ensures len == 0 ==> buf.pieces == old(buf.pieces)
    ensures s + i < |buf.pieces| && buf.pieces == old(buf.pieces)[s + i := old(buf.pieces[s + i] + VecBytes(vecs[i]))]
  {
    hide Rooted, Flatten, DataEndsAt, Offered, VecBytes, Committing, Tight, Room, Parts;
    ghost var data := VecBytes(vecs[i]);
    CommitHere(buf, s, vecs, i, lwd, was);
    CommitStep(buf.pieces, lwd, s + i, data);
    DistinctBefore(buf, s + i);
    ghost var ps := Parts(vecs);
    FlattenTake(ps, i);
    assert was + Flatten(ps[..i]) + data == was + (Flatten(ps[..i]) + data);
    if len > 0 && Tight(buf.pieces, lwd, s + i) {
      TightStep(buf.pieces, lwd, s + i, data);
    }
    ExtendChain(buf, chain, s + i, len);
    OfferedSame(buf, s + i + 1, vecs[i + 1..]);
    PartsSame(vecs);
    CommitDone(buf, s, vecs, i + 1, if len == 0 then lwd else s + i, was);
  }

  twostate lemma PartsSame(new vecs: seq<Vec>)
    requires old(allocated(vecs))
    requires forall m :: m in Memories(vecs) ==> m[..] == old(m[..])
    ensures Parts(vecs) == old(Parts(vecs))
  {
    forall i | 0 <= i < |vecs| ensures VecBytes(vecs[i]) == old(VecBytes(vecs[i])) {
      if vecs[i].base.At? {
        assert vecs[i].base.memory in Memories(vecs);
        assert vecs[i].base.memory[..] == old(vecs[i].base.memory[..]);
      }
    }
  }

  lemma CommitDone(buf: EvBuffer, s: nat, vecs: seq<Vec>, i: nat, lwd: nat, was: seq<byte>)
    requires i <= |vecs| && s + |vecs| <= |buf.chains| == |buf.pieces| && DataEndsAt(buf.pieces, lwd) && lwd <= s + i
    requires Flatten(buf.pieces) == was + Flatten(Parts(vecs)[..i]) && Offered(buf, s + i, vecs[i..])
    ensures Committing(buf, s, vecs, i, lwd, was)
  {
  }

  twostate lemma CommittingSame(new buf: EvBuffer, new s: nat, new vecs: seq<Vec>, new i: nat, new lwd: nat, new was: seq<byte>)
    requires old(allocated(buf)) && old(allocated(vecs)) && old(Committing(buf, s, vecs, i, lwd, was))
    requires unchanged(buf`chains, buf`pieces)
    requires forall c :: c in buf.chains ==> c.misalign == old(c.misalign) && c.off == old(c.off)
    requires forall m :: m in Memories(vecs) ==> m[..] == old(m[..])
    ensures Committing(buf, s, vecs, i, lwd, was)
  {
    PartsSame(vecs);
    OfferedSame(buf, s + i, vecs[i..]);
  }

  // The body of the loop of the second pass.
  method CommitNext(buf: EvBuffer, chain: Chain, chainp: Slot, ghost s: nat, vecs: seq<Vec>, i: nat, ghost was: seq<byte>)
    requires i < |vecs| && s + i < |buf.chains| && chain == buf.chains[s + i] && chainp == SlotAt(buf.chains, s + i)
    requires Rooted(buf) && Committing(buf, s, vecs, i, buf.lwd, was)
    requires buf.lwd < |buf.chains| && buf.lastWithDatap == SlotAt(buf.chains, buf.lwd)
    modifies buf`pieces, buf`lastWithDatap, buf`lwd, chain`off
    ensures Rooted(buf) && Committing(buf, s, vecs, i + 1, buf.lwd, was)
    ensures buf.lwd < |buf.chains| && buf.lastWithDatap == SlotAt(buf.chains, buf.lwd)
    ensures |buf.Contents()| == |old(buf.Contents())| + vecs[i].len
    ensures old(Tightly(buf.pieces, buf.lwd, s, vecs, i)) ==> Tightly(buf.pieces, buf.lwd, s, vecs, i + 1)
    ensures s + i < |buf.pieces| && buf.pieces == old(buf.pieces)[s + i := old(buf.pieces[s + i] + VecBytes(vecs[i]))]
  {
    hide Rooted, Flatten, DataEndsAt, Offered, Parts, Committing, Tight, Tightly, VecBytes;
    TightlyNow(buf.pieces, buf.lwd, s, vecs, i);
    CommitHere(buf, s, vecs, i, buf.lwd, was);
    CommitOne(buf, chain, s, vecs, i, vecs[i].len, buf.lwd, was);
    if vecs[i].len != 0 {
      label found:
      buf.lastWithDatap := chainp;
      buf.lwd := s + i;
      CommittingSame@found(buf, s, vecs, i + 1, s + i, was);
    }
    TightlyThen(buf.pieces, buf.lwd, s, vecs, i);
  }

  // As long as no vec is empty the next one may be filled; after the first empty one all are.
  ghost predicate Tightly(pieces: seq<seq<byte>>, lwd: nat, s: nat, vecs: seq<Vec>, i: nat)
  {
    && Unskipped(vecs) && i <= |vecs| && Compact(pieces, lwd)
    && (Filled(vecs[..i]) ==> Tight(pieces, lwd, s + i))
  }

  lemma TightlyNow(pieces: seq<seq<byte>>, lwd: nat, s: nat, vecs: seq<Vec>, i: nat)
    requires i < |vecs|
    ensures Tightly(pieces, lwd, s, vecs, i) ==> Compact(pieces, lwd) && Unskipped(vecs)
    ensures Tightly(pieces, lwd, s, vecs, i) && vecs[i].len > 0 ==> Tight(pieces, lwd, s + i)
  {
  }

  lemma TightlyThen(pieces: seq<seq<byte>>, lwd: nat, s: nat, vecs: seq<Vec>, i: nat)
    requires i < |vecs|
    ensures Unskipped(vecs) && (if vecs[i].len > 0 then Tight(pieces, lwd, s + i + 1) else Compact(pieces, lwd)) ==>
      Tightly(pieces, lwd, s, vecs, i + 1)
  {
    assert vecs[..i + 1][i] == vecs[i];
  }

  lemma TightlyStart(pieces: seq<seq<byte>>, lwd: nat, s: nat, vecs: seq<Vec>)
    requires Tight(pieces, lwd, s) && Unskipped(vecs)
    ensures Tightly(pieces, lwd, s, vecs, 0)
  {
  }

  // One round of the second pass.
  method CommitWalk(buf: EvBuffer, chainp: Slot, ghost s: nat, vecs: seq<Vec>, i: nat, ghost was: seq<byte>) returns (next: Slot)
    requires i < |vecs| && s + i <= |buf.chains| && chainp == SlotAt(buf.chains, s + i)
    requires Rooted(buf) && Committing(buf, s, vecs, i, buf.lwd, was)
    requires buf.lwd < |buf.chains| && buf.lastWithDatap == SlotAt(buf.chains, buf.lwd)
    modifies buf`pieces, buf`lastWithDatap, buf`lwd, buf.chains`off
    ensures Rooted(buf) && Committing(buf, s, vecs, i + 1, buf.lwd, was)
    ensures buf.lwd < |buf.chains| && buf.lastWithDatap == SlotAt(buf.chains, buf.lwd)
    ensures |buf.Contents()| == |old(buf.Contents())| + vecs[i].len
    ensures s + i + 1 <= |buf.chains| && next == SlotAt(buf.chains, s + i + 1)
    ensures old(Tightly(buf.pieces, buf.lwd, s, vecs, i)) ==> Tightly(buf.pieces, buf.lwd, s, vecs, i + 1)
    ensures s + i < |buf.pieces| && buf.pieces == old(buf.pieces)[s + i := old(buf.pieces[s + i] + VecBytes(vecs[i]))]
  {
    hide Rooted, Flatten, DataEndsAt, Offered, Parts, Committing, Tightly, VecBytes;
    CommitHere(buf, s, vecs, i, buf.lwd, was);
    DerefSlot(buf, s + i);
    var chain := Deref(buf, chainp);
    CommitNext(buf, chain, chainp, s, vecs, i, was);
    next := NextOf(chain);
  }

  // The loop of the second pass.
  method CommitVecs(buf: EvBuffer, vecs: seq<Vec>, firstchainp: Slot, ghost s: nat) returns (added: nat)
    requires buf.Valid() && buf.lwd <= s && s < |buf.chains| && Offered(buf, s, vecs)
    requires firstchainp == SlotAt(buf.chains, s)
    modifies buf`pieces, buf`lastWithDatap, buf`lwd, buf.chains`off
    ensures Rooted(buf) && DataEndsAt(buf.pieces, buf.lwd) && buf.lwd < |buf.chains|
    ensures buf.lastWithDatap == SlotAt(buf.chains, buf.lwd)
    ensures buf.Contents() == old(buf.Contents()) + Flatten(Parts(vecs))
    ensures |buf.Contents()| == |old(buf.Contents())| + added
    ensures old(Tight(buf.pieces, buf.lwd, s)) && Unskipped(vecs) ==> Compact(buf.pieces, buf.lwd)
    ensures Grown(old(buf.pieces), buf.pieces, s, old(Parts(vecs)))
  {
    hide Rooted, Flatten, DataEndsAt, Offered, Parts, Committing, Tight, Tightly, Unskipped, Grown, VecBytes;
    ghost var tight := Tight(buf.pieces, buf.lwd, s) && Unskipped(vecs);
    if tight {
      TightlyStart(buf.pieces, buf.lwd, s, vecs);
    }
    ghost var was, pieces, parts := buf.Contents(), buf.pieces, Parts(vecs);
    CommitStart(buf, s, vecs);
    GrownNot(pieces, s);
    var chainp := firstchainp;
    added := 0;
    var i: nat := 0;
    while i < |vecs|
      invariant i <= |vecs| && Rooted(buf) && Committing(buf, s, vecs, i, buf.lwd, was)
      invariant s + i <= |buf.chains| && chainp == SlotAt(buf.chains, s + i)
      invariant buf.lwd < |buf.chains| && buf.lastWithDatap == SlotAt(buf.chains, buf.lwd)
      invariant |buf.Contents()| == |was| + added
      invariant tight ==> Tightly(buf.pieces, buf.lwd, s, vecs, i)
      invariant Grown(pieces, buf.pieces, s, parts[..i])
    {
      PartsSame(vecs);
      GrownAt(buf, s, vecs, i, was);
      GrownStep(pieces, buf.pieces, s, parts, i);
      chainp := CommitWalk(buf, chainp, s, vecs, i, was);
      added := added + vecs[i].len;
      i := i + 1;
    }
    assert parts[..i] == parts;
    CommitEnd(buf, s, vecs, buf.lwd, was);
    TightlyEnd(buf.pieces, buf.lwd, s, vecs);
  }

  lemma GrownAt(buf: EvBuffer, s: nat, vecs: seq<Vec>, i: nat, was: seq<byte>)
    requires i < |vecs| && Committing(buf, s, vecs, i, buf.lwd, was)
    ensures s + i < |buf.pieces| && Parts(vecs)[i] == VecBytes(vecs[i])
  {
  }

  lemma TightlyEnd(pieces: seq<seq<byte>>, lwd: nat, s: nat, vecs: seq<Vec>)
    ensures Tightly(pieces, lwd, s, vecs, |vecs|) ==> Compact(pieces, lwd)
  {
  }

  // The one vec is the free space of the last chain.
  ghost predicate LastMatch(buf: EvBuffer, vecs: seq<Vec>)
    reads buf`chains, buf.chains
  {
    |vecs| == 1 && buf.chains != [] && vecs[0].base == SpacePtr(buf.chains[|buf.chains| - 1])
  }

  // What evbuffer_commit_space accepts.
  ghost predicate CommitAccepts(buf: EvBuffer, vecs: seq<Vec>)
    requires buf.chains != [] ==> buf.lwd < |buf.chains|
    reads buf`chains, buf`lwd, buf`freezeEnd, buf.chains
  {
    && !buf.freezeEnd
    && (vecs == []
        || if LastMatch(buf, vecs) then vecs[0].len <= Room(buf.chains[|buf.chains| - 1])
           else buf.chains != [] && Offered(buf, FirstRoom(buf), vecs))
  }

  // The chain of the first vec.
  ghost function CommitPlace(buf: EvBuffer, vecs: seq<Vec>): nat
    requires buf.chains != [] ==> buf.lwd < |buf.chains|
    reads buf`chains, buf`lwd, buf.chains
  {
    if LastMatch(buf, vecs) then |buf.chains| - 1 else FirstRoom(buf)
  }

  // The data continues what is there: no chain is skipped.
  ghost predicate InOrder(buf: EvBuffer, vecs: seq<Vec>)
    requires buf.chains != [] ==> buf.lwd < |buf.chains|
    reads buf`chains, buf`pieces, buf`lwd, buf.chains
  {
    Unskipped(vecs) && Tight(buf.pieces, buf.lwd, CommitPlace(buf, vecs))
  }

  // Committing to the last chain must not skip an empty one: advance_last_with_data would not get there.
  ghost predicate CommitSafe(buf: EvBuffer, vecs: seq<Vec>)
    requires buf.chains != [] ==> buf.lwd < |buf.chains|
    reads buf`chains, buf`lwd, buf`freezeEnd, buf.chains
  {
    CommitAccepts(buf, vecs) && LastMatch(buf, vecs) && vecs[0].len > 0 ==> |buf.chains| <= buf.lwd + 2
  }

  // Exactly then is advance_last_with_data right about new data in the last chain.
  lemma CommitExact(pieces: seq<seq<byte>>, lwd: nat, data: seq<byte>)
    requires DataEndsAt(pieces, lwd) && pieces != [] && data != []
    ensures var k := |pieces| - 1; var after := pieces[k := pieces[k] + data];
      DataEndsAt(after, AdvanceFrom(after, lwd)) <==> |pieces| <= lwd + 2
  {
    var k := |pieces| - 1;
    var after := pieces[k := pieces[k] + data];
    AdvanceExact(after, lwd);
    if |pieces| > lwd + 2 {
      assert after[lwd + 1] == [] && after[k] != [];
    }
  }

  lemma GrownLast(pieces: seq<seq<byte>>, parts: seq<seq<byte>>)
    requires pieces != [] && |parts| == 1
    ensures var k := |pieces| - 1; Grown(pieces, pieces[k := pieces[k] + parts[0]], k, parts)
  {
  }

  lemma TightLast(pieces: seq<seq<byte>>, lwd: nat, data: seq<byte>)
    requires data != [] && pieces != []
    ensures var k := |pieces| - 1; var after := pieces[k := pieces[k] + data];
      Tight(pieces, lwd, k) && DataEndsAt(after, AdvanceFrom(after, lwd)) ==> Compact(after, AdvanceFrom(after, lwd))
  {
    hide AdvanceFrom;
    var k := |pieces| - 1;
    var after := pieces[k := pieces[k] + data];
    assert after[k] != [];
  }

  // The branch of evbuffer_commit_space for the last chain.
  method CommitLast(buf: EvBuffer, vecs: seq<Vec>)
    requires buf.Valid() && LastMatch(buf, vecs) && vecs[0].len <= Room(buf.chains[|buf.chains| - 1])
    requires vecs[0].len > 0 ==> |buf.chains| <= buf.lwd + 2
    modifies buf`pieces, buf`lastWithDatap, buf`lwd, buf`totalLen, buf`nAddForCb, buf.chains`off
    ensures buf.Valid() && buf.nAddForCb == old(buf.nAddForCb) + (|buf.Contents()| - |old(buf.Contents())|)
    ensures buf.Contents() == old(buf.Contents()) + Flatten(Parts(vecs))
    ensures old(InOrder(buf, vecs)) ==> Compact(buf.pieces, buf.lwd)
    ensures Grown(old(buf.pieces), buf.pieces, |buf.pieces| - 1, old(Parts(vecs)))
  {
    hide Rooted, Flatten, DataEndsAt, AdvanceFrom, Parts, Compact, Grown;
    var len := vecs[0].len;
    ghost var k := |buf.chains| - 1;
    ghost var data := VecBytes(vecs[0]);
    OnePart(vecs);
    PartsSame(vecs);
    GrownLast(buf.pieces, Parts(vecs));
    DerefSlot(buf, k);
    if len > 0 {
      CommitExact(buf.pieces, buf.lwd, data);
      TightLast(buf.pieces, buf.lwd, data);
    }
    CommitStep(buf.pieces, buf.lwd, k, data);
    ExtendChain(buf, buf.last, k, len);
    if len > 0 {
      Advance(buf);
    }
    buf.totalLen := buf.totalLen + len;
    buf.nAddForCb := buf.nAddForCb + len;
    PartsSame(vecs);
  }

  // The two passes; nothing is done when a vec does not match.
  method CommitAll(buf: EvBuffer, vecs: seq<Vec>) returns (r: int)
    requires buf.Valid() && buf.chains != [] && vecs != []
    modifies buf`pieces, buf`lastWithDatap, buf`lwd, buf`totalLen, buf`nAddForCb, buf.chains`off
    ensures buf.Valid() && r == if old(Offered(buf, FirstRoom(buf), vecs)) then 0 else -1
    ensures buf.Contents() == old(buf.Contents()) + if r == 0 then Flatten(Parts(vecs)) else []
    ensures buf.nAddForCb == old(buf.nAddForCb) + (|buf.Contents()| - |old(buf.Contents())|)
    ensures r == -1 ==> unchanged(buf) && forall c :: c in buf.chains ==> unchanged(c)
    ensures r == 0 && Unskipped(vecs) && old(Tight(buf.pieces, buf.lwd, FirstRoom(buf))) ==> Compact(buf.pieces, buf.lwd)
    ensures r == 0 ==> Grown(old(buf.pieces), buf.pieces, old(FirstRoom(buf)), old(Parts(vecs)))
  {
    hide Rooted, Flatten, DataEndsAt, Offered, Parts, VecBytes, FirstRoom, Tight, Unskipped, Compact, Grown;
    var firstchainp := FirstRoomSlot(buf);
    ghost var s := FirstRoom(buf);
    FirstRoomBound(buf);
    var ok := VecsMatch(buf, vecs, firstchainp, s);
    if !ok {
      return -1;
    }
    OfferedBound(buf, s, vecs);
    var added := CommitVecs(buf, vecs, firstchainp, s);
    buf.totalLen := buf.totalLen + added;
    buf.nAddForCb := buf.nAddForCb + added;
    PartsSame(vecs);
    return 0;
  }

  // evbuffer_commit_space: all of vecs or nothing.
  method Commit(buf: EvBuffer, vecs: seq<Vec>) returns (r: int)
    requires buf.Valid() && CommitSafe(buf, vecs)
    modifies buf`pieces, buf`lastWithDatap, buf`lwd, buf`totalLen, buf`nAddForCb, buf.chains`off
    ensures buf.Valid() && r == if old(CommitAccepts(buf, vecs)) then 0 else -1
    ensures buf.Contents() == old(buf.Contents()) + if r == 0 then Flatten(Parts(vecs)) else []
    ensures buf.nAddForCb == old(buf.nAddForCb) + (|buf.Contents()| - |old(buf.Contents())|)
    ensures r == -1 ==> unchanged(buf) && forall c :: c in buf.chains ==> unchanged(c)
    ensures r == 0 && vecs != [] && old(InOrder(buf, vecs)) ==> Compact(buf.pieces, buf.lwd)
    ensures r == 0 ==> Grown(old(buf.pieces), buf.pieces, old(CommitPlace(buf, vecs)), old(Parts(vecs)))
    ensures vecs == [] ==> unchanged(buf)
  {
    hide Rooted, Flatten, DataEndsAt, Offered, Parts, VecBytes, FirstRoom, Tight, Unskipped, Compact, Grown;
    GrownNot(buf.pieces, CommitPlace(buf, vecs));
    if buf.freezeEnd {
      return -1;
    }
    if |vecs| == 0 {
      NoParts(vecs);
      assert Parts(vecs) == [];
      return 0;
    } else if |vecs| == 1 && buf.last != null && vecs[0].base == SpacePtr(buf.last) {
      DerefSlot(buf, |buf.chains| - 1);
      if vecs[0].len > buf.last.SpaceLen() {
        return -1;
      }
      CommitLast(buf, vecs);
      return 0;
    }
    DerefSlot(buf, buf.lwd);
    if Deref(buf, buf.lastWithDatap) == null {
      return -1;
    }
    r := CommitAll(buf, vecs);
  }

  lemma NoParts(vecs: seq<Vec>)
    requires vecs == []
    ensures Flatten(Parts(vecs)) == []
  {
  }

  lemma OnePart(vecs: seq<Vec>)
    requires |vecs| == 1
    ensures Flatten(Parts(vecs)) == VecBytes(vecs[0])
  {
    assert Parts(vecs) == [VecBytes(vecs[0])];
    FlattenSingle(VecBytes(vecs[0]));
  }

  lemma FirstRoomBound(buf: EvBuffer)
    requires buf.Valid() && buf.chains != []
    ensures buf.lwd <= FirstRoom(buf) <= |buf.chains|
  {
  }

  lemma OfferedBound(buf: EvBuffer, s: nat, vecs: seq<Vec>)
    requires Offered(buf, s, vecs) && vecs != []
    ensures s < |buf.chains|
  {
  }
}
