/** How a caller of buffer.c comes to a buffer with a gap, an empty chain in front of data: three runs of calls, each from
    a new buffer, that lead to the states that TransferExact and CommitExact exclude. */
module EvBufferGaps {
  import opened Bytes
  import opened EvBufferCore
  import opened EvBufferAdd
  import opened EvBufferExpand
  import opened EvBufferExpandFast
  import opened EvBufferSpace
  import opened EvBufferCommit
  import opened EvBufferTransfer
  import opened EvBufferRead

  // The k chains of an empty buffer, none with more than 2 * size + MIN_BUFFER_SIZE bytes.
  ghost predicate Bare(buf: EvBuffer, k: nat, size: nat)
    reads buf, buf.store
  {
    && buf.Valid() && buf.Contents() == [] && |buf.chains| == k && buf.ample && !buf.freezeEnd
    && forall i :: 0 <= i < k ==> buf.chains[i].buffer.Length <= 2 * size + MIN_BUFFER_SIZE
  }

  lemma BareNew(buf: EvBuffer)
    requires buf.Valid() && buf.chains == [] && buf.Contents() == [] && buf.ample && !buf.freezeEnd
    ensures Bare(buf, 0, 0)
  {
  }

  lemma NoData(buf: EvBuffer)
    requires buf.Valid() && buf.Contents() == []
    ensures buf.lwd == 0 && forall i :: 0 <= i < |buf.pieces| ==> buf.pieces[i] == []
  {
    forall i | 0 <= i < |buf.pieces| ensures buf.pieces[i] == [] {
      FlattenAt(buf.pieces, i);
    }
  }

  // A sum of many numbers, none of them large.
  lemma {:induction false} SumBound(rs: seq<nat>, most: nat)
    requires forall i :: 0 <= i < |rs| ==> rs[i] <= most
    ensures Sum(rs) <= |rs| * most
  {
    if rs != [] {
      SumBound(rs[1..], most);
    }
  }

  // Space for so much that the k chains there are cannot hold it: one more is made, and the vecs are those of all chains.
  method ReserveMore(buf: EvBuffer, k: nat, size: nat, more: nat) returns (vecs: seq<Vec>)
    requires Bare(buf, k, size) && k <= 2 && k * (2 * size + MIN_BUFFER_SIZE) < more && more <= 0x10000 && size <= more
    modifies buf, buf.store
    ensures Bare(buf, k + 1, more) && fresh(buf.store - old(buf.store)) && unchanged(buf`freezeStart)
    ensures |vecs| == k + 1 && Offered(buf, 0, vecs) && FirstRoom(buf) == 0
    ensures more - k * (2 * size + MIN_BUFFER_SIZE) <= vecs[k].len
  {
    hide Rooted, Flatten, DataEndsAt, Sum, Lens, Offered;
    ghost var most := 2 * size + MIN_BUFFER_SIZE;
    var n;
    ghost var at;
    n, vecs, at := ReserveSpace(buf, more, 3);
    NoData(buf);
    SmallVecs(buf, vecs);
    ManyVecs(vecs, k, most, more);
  }

  lemma SmallVecs(buf: EvBuffer, vecs: seq<Vec>)
    requires Offered(buf, 0, vecs)
    ensures |vecs| <= |buf.chains| && forall i :: 0 <= i < |vecs| ==> vecs[i].len <= buf.chains[i].buffer.Length
  {
  }

  // k small vecs are not enough for what together they cannot hold.
  lemma ManyVecs(vecs: seq<Vec>, k: nat, most: nat, more: nat)
    requires k <= 2 && k * most < more <= Sum(Lens(vecs)) && forall i :: 0 <= i < |vecs| && i < k ==> vecs[i].len <= most
    ensures |vecs| > k
    ensures |vecs| == k + 1 ==> more - k * most <= vecs[k].len
  {
    hide Sum, Lens;
    var few := if |vecs| < k then vecs else vecs[..k];
    SumBound(Lens(few), most);
    assert |vecs| <= k ==> few == vecs && |vecs| * most <= k * most;
    if |vecs| == k + 1 {
      LensSnoc(few, vecs[k]);
      assert few + [vecs[k]] == vecs;
    }
  }

  // Space in one chain, then in two; nothing is put into the first one and five bytes into the second. To take two of
  // them out with evbuffer_remove_buffer is not safe any more.
  method SkippedChain(dst: EvBuffer) returns (buf: EvBuffer)
    requires dst.Valid()
    ensures fresh(buf) && buf.Valid() && |buf.Contents()| == 5 && !TransferAllowed(buf, dst, 2)
  {
    hide Rooted, Flatten, DataEndsAt, Offered, Sum, Lens, TransferSafe, WalksOver;
    buf := new EvBuffer(true);
    var one := ReserveMore(buf, 0, 0, 1);
    var two := ReserveMore(buf, 1, 1, 5 + 1026);
    CommitSecond(buf, two);
    TransferUnsafe(buf.pieces, buf.lwd, dst.pieces, dst.lwd, 2);
  }

  method CommitSecond(buf: EvBuffer, vecs: seq<Vec>)
    requires buf.Valid() && buf.Contents() == [] && |buf.chains| == 2 && !buf.freezeEnd
    requires |vecs| == 2 && Offered(buf, 0, vecs) && FirstRoom(buf) == 0 && vecs[1].len >= 5
    modifies buf, buf.store
    ensures buf.Valid() && |buf.pieces| == 2 && buf.pieces[0] == [] && |buf.pieces[1]| == 5
  {
    hide Rooted, Flatten, DataEndsAt;
    var used := [Vec(vecs[0].base, 0), Vec(vecs[1].base, 5)];
    NoData(buf);
    ReservationCommits(buf, vecs, used);
    DerefSlot(buf, 0);
    DerefSlot(buf, 1);
    SpaceBytes(buf.chains[0], used[0]);
    SpaceBytes(buf.chains[1], used[1]);
    ghost var parts := Parts(used);
    assert CommitPlace(buf, used) == 0;
    var r := Commit(buf, used);
  }

  // Space in two chains; no bytes at all are put in front, which leaves the first chain no free space behind its bytes, of
  // which there are none; then space for five bytes in one vec, which is that of the second chain, and it is committed.
  method EmptyPrepend(dst: EvBuffer) returns (buf: EvBuffer)
    requires dst.Valid()
    ensures fresh(buf) && buf.Valid() && |buf.Contents()| == 5 && !TransferAllowed(buf, dst, 2)
  {
    hide Rooted, Flatten, DataEndsAt, Offered, Sum, Lens, TransferSafe, WalksOver;
    buf := new EvBuffer(true);
    var one := ReserveMore(buf, 0, 0, 1);
    var two := ReserveMore(buf, 1, 1, 5 + 1026);
    FillBehindNothing(buf, two);
    TransferUnsafe(buf.pieces, buf.lwd, dst.pieces, dst.lwd, 2);
  }

  lemma SecondHasRoom(buf: EvBuffer, vecs: seq<Vec>)
    requires buf.Valid() && buf.Contents() == [] && |buf.chains| == 2
    requires |vecs| == 2 && Offered(buf, 0, vecs) && vecs[1].len >= 5
    ensures buf.lwd == 0 && buf.pieces == [[], []] && Room(buf.chains[1]) >= 5 && buf.chains[1] != buf.chains[0]
    ensures buf.chains[0].off == 0
  {
    hide Rooted, Flatten, DataEndsAt;
    NoData(buf);
    DerefSlot(buf, 0);
    Distinct(buf, 0, 1);
  }

  lemma FirstEmpty(buf: EvBuffer)
    requires buf.Valid() && buf.pieces == [[], []]
    ensures |buf.chains| == 2 && buf.chains[0].off == 0
  {
    hide Flatten;
    DerefSlot(buf, 0);
  }

  lemma NextReady(buf: EvBuffer)
    requires buf.Valid() && buf.lwd == 0 && buf.pieces == [[], []] && Room(buf.chains[1]) >= 5
    requires buf.chains[0].misalign == buf.chains[0].buffer.Length
    ensures NextHasRoom(buf, 5)
  {
    hide Rooted, Flatten;
    NextChain(buf, 0);
    NextChain(buf, 1);
  }

  lemma RoomyAny(buf: EvBuffer, k: nat)
    requires buf.Valid() && k < |buf.chains| && Roomy(buf, buf.chains[k], k, 5)
    ensures Roomy(buf, buf.chains[k], k, 0) && Room(buf.chains[k]) >= 5
  {
    hide EvBuffer.Valid;
  }

  method FillBehindNothing(buf: EvBuffer, vecs: seq<Vec>)
    requires buf.Valid() && buf.Contents() == [] && |buf.chains| == 2 && !buf.freezeEnd && !buf.freezeStart && buf.ample
    requires |vecs| == 2 && Offered(buf, 0, vecs) && vecs[1].len >= 5
    modifies buf, buf.store
    ensures buf.Valid() && |buf.pieces| == 2 && buf.pieces[0] == [] && |buf.pieces[1]| == 5
  {
    hide EvBuffer.Valid, Flatten, Sum, Lens, Roomy;
    SecondHasRoom(buf, vecs);
    LengthOf(buf);
    assert buf.chains[1] in buf.chains;
    var r := Prepend(buf, []);
    FirstEmpty(buf);
    NextReady(buf);
    var n, v;
    ghost var k;
    n, v, k := ReserveSpace(buf, 5, 1);
    LengthOf(buf);
    RoomyAny(buf, k);
    assert Room(buf.chains[k]) >= 5;
    n := FillOneReserved(buf, v[0], k, [1, 2, 3, 4, 5]);
  }

  // Space in one chain, in two, in three; then five bytes are committed to the last one alone, which
  // evbuffer_commit_space accepts: between the last data and these there is an empty chain.
  method SkippedVec() returns (buf: EvBuffer, vecs: seq<Vec>)
    ensures fresh(buf) && buf.Valid() && |buf.chains| == 3 && CommitAccepts(buf, vecs) && !CommitSafe(buf, vecs)
  {
    hide Rooted, Flatten, DataEndsAt, Offered, Sum, Lens, CommitAccepts, CommitSafe, FirstRoom, Bare, EvBuffer.Valid;
    buf := new EvBuffer(true);
    BareNew(buf);
    vecs := ReserveMore(buf, 0, 0, 1);
    vecs := ReserveMore(buf, 1, 1, 5 + 1026);
    vecs := ReserveMore(buf, 2, 1031, 5 + 2 * 3086);
    LastVec(buf, vecs, 5 + 2 * 3086);
    vecs := [Vec(vecs[2].base, 5)];
  }

  lemma LastVec(buf: EvBuffer, vecs: seq<Vec>, size: nat)
    requires Bare(buf, 3, size) && |vecs| == 3 && Offered(buf, 0, vecs) && vecs[2].len >= 5
    ensures buf.Valid() && |buf.chains| == 3
    ensures var v := [Vec(vecs[2].base, 5)]; CommitAccepts(buf, v) && !CommitSafe(buf, v)
  {
    hide Rooted, Flatten, DataEndsAt, Room;
    NoData(buf);
    assert vecs[2].base == SpacePtr(buf.chains[2]) && 5 <= Room(buf.chains[2]);
  }
}
