/** Moving a prefix of one evbuffer to another (evbuffer_remove_buffer), and exactly when its shortcut for
    last_with_datap is right. */
module EvBufferTransfer {
  import opened Bytes
  import opened EvBufferCore
  import opened EvBufferAdd
  import opened EvBufferDrain
  import opened EvBufferMove

  // Where advance_last_with_data comes to from piece k: it stops in front of the first empty piece.
  function AdvanceFrom(pieces: seq<seq<byte>>, k: nat): (r: nat)
    requires k < |pieces|
    ensures k <= r < |pieces|
    decreases |pieces| - k
  {
    if k + 1 < |pieces| && pieces[k + 1] != [] then AdvanceFrom(pieces, k + 1) else k
  }

  // Behind piece k no empty piece is followed by one with data.
  ghost predicate NoGapBehind(pieces: seq<seq<byte>>, k: nat)
  {
    forall i, j :: k < i < j < |pieces| && pieces[i] == [] ==> pieces[j] == []
  }

  // advance_last_with_data finds the last piece with data if and only if there is no gap.
  lemma {:induction false} AdvanceExact(pieces: seq<seq<byte>>, k: nat)
    requires k < |pieces| && (k > 0 ==> pieces[k] != [])
    ensures DataEndsAt(pieces, AdvanceFrom(pieces, k)) <==> NoGapBehind(pieces, k)
    decreases |pieces| - k
  {
    if k + 1 < |pieces| && pieces[k + 1] != [] {
      AdvanceExact(pieces, k + 1);
      if NoGapBehind(pieces, k + 1) {
        forall i, j | k < i < j < |pieces| && pieces[i] == [] ensures pieces[j] == [] {
          assert i != k + 1;
        }
      }
    } else if k + 1 < |pieces| {
      if NoGapBehind(pieces, k) {
        forall i | k < i < |pieces| ensures pieces[i] == [] {
          assert i == k + 1 || pieces[k + 1] == [];
        }
      }
    }
  }

  // advance_last_with_data
  method Advance(buf: EvBuffer)
    requires Rooted(buf) && buf.chains != [] && buf.lwd < |buf.chains|
    requires buf.lastWithDatap == SlotAt(buf.chains, buf.lwd)
    modifies buf`lastWithDatap, buf`lwd
    ensures Rooted(buf) && buf.lwd == AdvanceFrom(buf.pieces, old(buf.lwd))
    ensures buf.lastWithDatap == SlotAt(buf.chains, buf.lwd)
  {
    hide Rooted, AdvanceFrom;
    DerefSlot(buf, buf.lwd);
    NextChain(buf, buf.lwd);
    var here := Deref(buf, buf.lastWithDatap);
    while here.next != null && here.next.off != 0
      invariant Rooted(buf) && buf.lwd < |buf.chains| && here == buf.chains[buf.lwd]
      invariant here.next == ChainAt(buf.chains, buf.lwd + 1)
      invariant buf.lastWithDatap == SlotAt(buf.chains, buf.lwd)
      invariant AdvanceFrom(buf.pieces, old(buf.lwd)) == AdvanceFrom(buf.pieces, buf.lwd)
      decreases |buf.chains| - buf.lwd
    {
      AdvanceOne(buf, here);
      here := here.next;
      NextChain(buf, buf.lwd);
    }
    DerefSlot(buf, buf.lwd + 1);
    AdvanceStep(buf.pieces, buf.lwd);
  }

  // The body of the loop.
  method AdvanceOne(buf: EvBuffer, here: Chain)
    requires Rooted(buf) && buf.lwd + 1 < |buf.chains| && here == buf.chains[buf.lwd]
    requires buf.chains[buf.lwd + 1].off != 0
    modifies buf`lastWithDatap, buf`lwd
    ensures Rooted(buf) && buf.lwd == old(buf.lwd) + 1 && buf.lastWithDatap == SlotAt(buf.chains, buf.lwd)
    ensures AdvanceFrom(buf.pieces, old(buf.lwd)) == AdvanceFrom(buf.pieces, buf.lwd)
  {
    hide Rooted, AdvanceFrom;
    AdvanceStep(buf.pieces, buf.lwd);
    DerefSlot(buf, buf.lwd + 1);
    buf.lastWithDatap := NextOf(here);
    buf.lwd := buf.lwd + 1;
  }

  lemma AdvanceStep(pieces: seq<seq<byte>>, k: nat)
    requires k < |pieces|
    ensures AdvanceFrom(pieces, k) == if k + 1 < |pieces| && pieces[k + 1] != [] then AdvanceFrom(pieces, k + 1) else k
  {
  }

  // The chains of src that a transfer of len bytes walks over.
  ghost predicate WalksOver(pieces: seq<seq<byte>>, len: nat, k: nat)
  {
    && k < |pieces|
    && |Flatten(pieces[..k])| <= len < |Flatten(pieces[..k])| + |pieces[k]|
  }

  // The destination's pieces after k source pieces have been appended, and where its last data was before.
  ghost function Joined(dst: seq<seq<byte>>, dstLwd: nat, src: seq<seq<byte>>, k: nat): seq<seq<byte>>
    requires DataEndsAt(dst, dstLwd) && k <= |src|
  {
    dst[..Kept(dst, dstLwd)] + src[..k]
  }

  // When the shortcuts of evbuffer_remove_buffer keep last_with_datap right in both buffers. What matters are the
  // empty chains in front of data: if only empty chains are walked over, the last chain with data must not be the
  // next one; otherwise there must be no gap among the chains that move.
  ghost predicate TransferSafe(dst: seq<seq<byte>>, dstLwd: nat, src: seq<seq<byte>>, srcLwd: nat, k: nat)
    requires DataEndsAt(dst, dstLwd) && k <= |src|
  {
    if Flatten(src[..k]) == [] then k == 0 || k < srcLwd
    else NoGapBehind(Joined(dst, dstLwd, src, k), dstLwd)
  }

  // What last_with_datap designates afterwards, as the code computes it, is the last chain with data in both
  // buffers if and only if the transfer is safe.
  lemma TransferExact(dst: seq<seq<byte>>, dstLwd: nat, src: seq<seq<byte>>, srcLwd: nat, len: nat, k: nat)
    requires DataEndsAt(dst, dstLwd) && DataEndsAt(src, srcLwd) && WalksOver(src, len, k)
    ensures k <= srcLwd
    ensures Flatten(src[..k]) != [] ==> dstLwd < |Joined(dst, dstLwd, src, k)|
    ensures TransferSafe(dst, dstLwd, src, srcLwd, k) <==>
      if Flatten(src[..k]) == [] then DataEndsAt(src, if k == srcLwd then 0 else srcLwd)
      else
        && DataEndsAt(Joined(dst, dstLwd, src, k), AdvanceFrom(Joined(dst, dstLwd, src, k), dstLwd))
        && DataEndsAt(src[k..], srcLwd - k)
  {
    assert k <= srcLwd;
    if Flatten(src[..k]) == [] {
      assert srcLwd > 0 ==> src[srcLwd] != [];
    } else {
      var all := Joined(dst, dstLwd, src, k);
      assert k > 0 by {
        EmptyPrefix(src);
      }
      TrimPieces(dst, dstLwd);
      AdvanceExact(all, dstLwd);
    }
  }

  // A source whose first chain is empty and whose second one holds its data, of which some are to stay: the transfer
  // breaks it, whatever the destination.
  lemma TransferUnsafe(src: seq<seq<byte>>, srcLwd: nat, dst: seq<seq<byte>>, dstLwd: nat, len: nat)
    requires |src| >= 2 && src[0] == [] && len < |src[1]| && forall i :: 2 <= i < |src| ==> src[i] == []
    requires DataEndsAt(src, srcLwd) && DataEndsAt(dst, dstLwd)
    ensures |Flatten(src)| == |src[1]| && WalksOver(src, len, 1) && !TransferSafe(dst, dstLwd, src, srcLwd, 1)
  {
    FlattenAt(src, 1);
    FlattenEmpty(src[2..]);
    FlattenEmpty(src[..1]);
  }

  // The first k chains of src become a list of their own.
  method CutFront(src: EvBuffer, chain: Chain, previous: Chain, ghost k: nat) returns (head: Chain)
    requires Rooted(src) && 0 < k < |src.chains| && chain == src.chains[k] && previous == src.chains[k - 1]
    modifies src`first, src`chains, src`pieces, src`store, previous`next
    ensures Rooted(src) && src.chains == old(src.chains[k..]) && src.pieces == old(src.pieces[k..])
    ensures var moved, movedPieces := old(src.chains)[..k], old(src.pieces)[..k];
      && Separate(moved) && Linked(head, moved) && Stored(moved, movedPieces)
      && Objects(moved) <= old(src.store) && Objects(moved) !! src.store
    ensures src.store <= old(src.store)
  {
    hide Rooted, Objects, Separate, Stored, Segment;
    ghost var moved, movedPieces := src.chains[..k], src.pieces[..k];
    FrontList(src, k);
    head := src.first;
    DropFront(src, chain, k);
    previous.next := null;
    FrontCut(moved, movedPieces, chain);
  }

  // A list of chains with data goes behind the chains of dst.
  method AppendMoved(dst: EvBuffer, head: Chain, tip: Chain, nread: nat, ghost moved: seq<Chain>, ghost pieces: seq<seq<byte>>)
    requires dst.Valid() && moved != [] && |moved| == |pieces| && tip == moved[|moved| - 1]
    requires Separate(moved) && Linked(head, moved) && Stored(moved, pieces)
    requires dst.store !! Objects(moved) && dst !in Objects(moved)
    requires nread == |Flatten(pieces)| && nread > 0
    requires NoGapBehind(dst.pieces[..Kept(dst.pieces, dst.lwd)] + pieces, dst.lwd)
    modifies dst`first, dst`last, dst`lastWithDatap, dst`totalLen, dst`chains, dst`pieces, dst`lwd, dst`store, dst`nAddForCb
    modifies dst.chains`next
    ensures dst.Valid() && dst.Contents() == old(dst.Contents()) + Flatten(pieces)
    ensures dst.nAddForCb == old(dst.nAddForCb) + nread
    ensures dst.store <= old(dst.store) + Objects(moved)
    ensures old(Compact(dst.pieces, dst.lwd)) && (forall i :: 0 <= i < |pieces| ==> pieces[i] != []) ==>
      Compact(dst.pieces, dst.lwd)
    ensures pieces[|pieces| - 1] != [] ==> Tidy(dst.pieces, dst.lwd)
  {
    hide Rooted, Flatten, DataEndsAt, Objects, Separate, Stored, Linked, NoGapBehind, Kept, AdvanceFrom, Compact, Tidy;
    MovedCompact(dst.pieces, dst.lwd, pieces);
    AdvanceSafe(dst.pieces, dst.lwd, pieces);
    FlattenAppend(dst.pieces[..Kept(dst.pieces, dst.lwd)], pieces);
    TrimPieces(dst.pieces, dst.lwd);
    var chp := FreeTrailingEmptyChains(dst);
    ListSame(head, moved, pieces);
    JoinSlot(dst.chains, moved, dst.lwd);
    LinkBehind(dst, chp, head, moved, pieces);
    dst.last := tip;
    dst.totalLen := dst.totalLen + nread;
    dst.nAddForCb := dst.nAddForCb + nread;
    Advance(dst);
  }

  lemma MovedCompact(dst: seq<seq<byte>>, dstLwd: nat, moved: seq<seq<byte>>)
    requires DataEndsAt(dst, dstLwd) && moved != []
    ensures var all := dst[..Kept(dst, dstLwd)] + moved;
      && dstLwd < |all|
      && (Compact(dst, dstLwd) && (forall i :: 0 <= i < |moved| ==> moved[i] != []) ==> Compact(all, AdvanceFrom(all, dstLwd)))
  {
  }

  lemma JoinSlot(a: seq<Chain>, b: seq<Chain>, i: nat)
    requires b != [] && i == (if a == [] then 0 else |a| - 1)
    ensures SlotAt(a + b, i) == SlotAt(a, i)
    ensures (a + b)[|a + b| - 1] == b[|b| - 1]
  {
  }

  lemma AdvanceSafe(dst: seq<seq<byte>>, dstLwd: nat, moved: seq<seq<byte>>)
    requires DataEndsAt(dst, dstLwd) && moved != []
    requires NoGapBehind(dst[..Kept(dst, dstLwd)] + moved, dstLwd)
    ensures var all := dst[..Kept(dst, dstLwd)] + moved;
      dstLwd < |all| && DataEndsAt(all, AdvanceFrom(all, dstLwd))
      && (moved[|moved| - 1] != [] ==> Tidy(all, AdvanceFrom(all, dstLwd)))
  {
    var all := dst[..Kept(dst, dstLwd)] + moved;
    TrimPieces(dst, dstLwd);
    AdvanceExact(all, dstLwd);
    assert all[|all| - 1] == moved[|moved| - 1];
  }

  // The first k chains are a list that leads on to chain k.
  lemma FrontList(src: EvBuffer, k: nat)
    requires Rooted(src) && 0 < k < |src.chains|
    ensures var moved, movedPieces := src.chains[..k], src.pieces[..k];
      && Separate(moved) && Segment(moved, src.chains[k]) && Stored(moved, movedPieces) && src.first == moved[0]
      && Objects(moved) <= src.store && Objects(moved) !! Objects(src.chains[k..]) && src.chains[k - 1] in Objects(moved)
  {
    SegmentSplit(src.chains, k, null);
    SeparateParts(src.chains, k);
    StoredParts(src.chains, src.pieces, k);
    SlotInFront(src.chains, k, []);
    ObjectsAt(src.chains[..k], k - 1);
  }

  // ... and that stands alone once its last next pointer is cleared.
  twostate lemma FrontCut(new moved: seq<Chain>, new movedPieces: seq<seq<byte>>, new chain: Chain)
    requires old(allocated(moved)) && old(allocated(chain)) && moved != [] && |moved| == |movedPieces|
    requires Separate(moved) && old(Segment(moved, chain)) && old(Stored(moved, movedPieces))
    requires forall i :: 0 <= i < |moved| - 1 ==> moved[i].next == old(moved[i].next)
    requires forall i :: 0 <= i < |moved| ==> Same(moved[i])
    requires moved[|moved| - 1].next == null
    ensures Segment(moved, null) && Stored(moved, movedPieces)
  {
    SegmentRedirect(moved, chain);
    StoredSame(moved, movedPieces);
  }

  // What moves and what stays when the walk has passed k pieces and `rest` more bytes are to move.
  lemma TransferPieces(pieces: seq<seq<byte>>, k: nat, rest: nat, lwd: nat)
    requires DataEndsAt(pieces, lwd) && k < |pieces| && k <= lwd && rest < |pieces[k]|
    ensures var all, n := Flatten(pieces), |Flatten(pieces[..k])|;
      && n + rest < |all| && Flatten(pieces[..k]) == all[..n]
      && all[..n] + pieces[k][..rest] == all[..n + rest]
      && Flatten(pieces[k..][0 := pieces[k][rest..]]) == all[n + rest..]
      && DataEndsAt(pieces[k..][0 := pieces[k][rest..]], lwd - k)
      && (n == 0 ==> Flatten(pieces[k := pieces[k][rest..]]) == all[rest..])
  {
    hide Flatten, DataEndsAt;
    var all, n := Flatten(pieces), |Flatten(pieces[..k])|;
    DropPieces(pieces, k, rest, lwd);
    FlattenAt(pieces, k);
    assert all[..n] == Flatten(pieces[..k]);
    assert all[n..n + rest] == pieces[k][..rest];
    assert all[..n + rest] == all[..n] + all[n..n + rest];
    if n == 0 {
      var after := pieces[k := pieces[k][rest..]];
      FlattenAt(after, k);
      assert after[..k] == pieces[..k] && after[k + 1..] == pieces[k + 1..];
    }
  }

  // Giving up fewer bytes than a piece has keeps the shape.
  lemma ShortenedShape(pieces: seq<seq<byte>>, k: nat, rest: nat, lwd: nat)
    requires DataEndsAt(pieces, lwd) && k < |pieces| && rest < |pieces[k]|
    ensures DataEndsAt(pieces[k := pieces[k][rest..]], lwd)
    ensures Compact(pieces, lwd) ==> Compact(pieces[k := pieces[k][rest..]], lwd)
  {
  }

  // The bytes at the front of what chain k of buf stores.
  method FrontBytes(buf: EvBuffer, chain: Chain, ghost k: nat, n: nat) returns (data: seq<byte>)
    requires Rooted(buf) && k < |buf.chains| && chain == buf.chains[k] && n <= |buf.pieces[k]|
    ensures Rooted(buf) && data == buf.pieces[k][..n] && |data| <= LARGEST
  {
    DerefSlot(buf, k);
    data := chain.buffer[chain.misalign..chain.misalign + n];
  }

  // The whole chains of a transfer: how many bytes are still to be copied, and from which chain.
  method TransferChains(src: EvBuffer, dst: EvBuffer, datlen: nat) returns (chain: Chain, rest: nat, ghost idx: nat)
    requires src.Valid() && dst.Valid() && Apart(dst, src) && 0 < datlen < |src.Contents()|
    requires forall k :: WalksOver(src.pieces, datlen, k) ==> TransferSafe(dst.pieces, dst.lwd, src.pieces, src.lwd, k)
    modifies dst`first, dst`last, dst`lastWithDatap, dst`totalLen, dst`chains, dst`pieces, dst`lwd, dst`store, dst`nAddForCb
    modifies dst.store, src`first, src`lastWithDatap, src`chains, src`pieces, src`lwd, src`store, src.store
    ensures Rooted(src) && dst.Valid() && Apart(dst, src) && dst.store + src.store <= old(dst.store) + old(src.store)
    ensures src.chains != [] && src.last == src.chains[|src.chains| - 1]
    ensures idx < |src.chains| && chain == src.chains[idx] && rest < |src.pieces[idx]| && rest <= datlen
    ensures DataEndsAt(src.pieces, src.lwd) && src.lastWithDatap == SlotAt(src.chains, src.lwd)
    ensures var all := old(src.Contents());
      && dst.Contents() == old(dst.Contents()) + all[..datlen - rest]
      && all[..datlen - rest] + src.pieces[idx][..rest] == all[..datlen]
      && Flatten(src.pieces[idx := src.pieces[idx][rest..]]) == all[datlen..]
    ensures old(Compact(src.pieces, src.lwd)) ==> Compact(src.pieces, src.lwd)
    ensures old(Tidy(src.pieces, src.lwd)) ==> Tidy(src.pieces, src.lwd)
    ensures dst.nAddForCb == old(dst.nAddForCb) + (datlen - rest)
    ensures old(Compact(dst.pieces, dst.lwd) && Compact(src.pieces, src.lwd)) ==> Compact(dst.pieces, dst.lwd)
    ensures old(Tidy(dst.pieces, dst.lwd) && Tidy(src.pieces, src.lwd) && Compact(src.pieces, src.lwd)) ==>
      Tidy(dst.pieces, dst.lwd)
  {
    hide Compact, Tidy, Rooted, Flatten, DataEndsAt, Objects, Separate, Stored, Linked, NoGapBehind, Kept;
    ghost var was := src.pieces;
    var previous;
    ghost var k;
    chain, previous, rest, k := DrainWalk(src, datlen);
    assert WalksOver(src.pieces, datlen, k);
    TransferPieces(src.pieces, k, rest, src.lwd);
    TransferExact(dst.pieces, dst.lwd, src.pieces, src.lwd, datlen, k);
    EmptyPrefix(src.pieces);
    idx := k;
    if datlen - rest > 0 {
      ghost var moved, movedPieces := src.chains[..k], src.pieces[..k];
      SourceShape(src.chains, src.pieces, src.lwd, k);
      if Compact(src.pieces, src.lwd) {
        FrontData(src.pieces, src.lwd, k);
      }
      var head := CutFront(src, chain, previous, k);
      AppendMoved(dst, head, previous, datlen - rest, moved, movedPieces);
      src.lwd := src.lwd - k;
      idx := 0;
    }
  }

  lemma FrontData(pieces: seq<seq<byte>>, lwd: nat, k: nat)
    requires Compact(pieces, lwd) && k <= lwd && k <= |pieces|
    ensures forall i :: 0 <= i < k ==> pieces[..k][i] != []
  {
  }

  // The source's ends after its first k chains are gone.
  lemma SourceShape(cs: seq<Chain>, pieces: seq<seq<byte>>, lwd: nat, k: nat)
    requires |cs| == |pieces| && DataEndsAt(pieces, lwd) && k <= lwd < |pieces|
    ensures DataEndsAt(pieces[k..], lwd - k)
    ensures Compact(pieces, lwd) ==> Compact(pieces[k..], lwd - k)
    ensures Tidy(pieces, lwd) ==> Tidy(pieces[k..], lwd - k)
    ensures SlotAt(cs[k..], lwd - k) == if k == lwd then Head else SlotAt(cs, lwd)
    ensures cs[k..] != [] && cs[k..][|cs[k..]| - 1] == cs[|cs| - 1]
  {
  }

  // The caller's side of a transfer: nothing is asked when it moves everything or nothing.
  ghost predicate TransferAllowed(src: EvBuffer, dst: EvBuffer, datlen: nat)
    requires src.Valid() && dst.Valid()
    reads src, src.store, dst, dst.store
  {
    0 < datlen < |src.Contents()| ==>
      forall k :: WalksOver(src.pieces, datlen, k) ==> TransferSafe(dst.pieces, dst.lwd, src.pieces, src.lwd, k)
  }

  // A source without gaps can always be moved from.
  lemma CompactAllowed(src: EvBuffer, dst: EvBuffer, datlen: nat)
    requires src.Valid() && dst.Valid() && Compact(src.pieces, src.lwd)
    ensures TransferAllowed(src, dst, datlen)
  {
    hide Rooted;
    if 0 < datlen < |src.Contents()| {
      forall k | WalksOver(src.pieces, datlen, k) ensures TransferSafe(dst.pieces, dst.lwd, src.pieces, src.lwd, k) {
        CompactSafe(dst.pieces, dst.lwd, src.pieces, src.lwd, datlen, k);
      }
    }
  }

  lemma CompactSafe(dst: seq<seq<byte>>, dstLwd: nat, src: seq<seq<byte>>, srcLwd: nat, len: nat, k: nat)
    requires DataEndsAt(dst, dstLwd) && DataEndsAt(src, srcLwd) && WalksOver(src, len, k) && Compact(src, srcLwd)
    ensures TransferSafe(dst, dstLwd, src, srcLwd, k)
  {
    TransferExact(dst, dstLwd, src, srcLwd, len, k);
    if k > 0 {
      FlattenAt(src[..k], 0);
      assert src[..k][0] == src[0] != [];
    }
  }

  lemma EmptyCompact(pieces: seq<seq<byte>>, lwd: nat)
    requires DataEndsAt(pieces, lwd) && Flatten(pieces) == []
    ensures Compact(pieces, lwd)
  {
    if lwd > 0 {
      FlattenAt(pieces, lwd);
    }
  }

  // evbuffer_remove_buffer. `added` is what evbuffer_add returned for the part that is copied; the code ignores it,
  // and when it is -1 (no memory, or a length overflow) the bytes of that part are lost.
  method RemoveBuffer(src: EvBuffer, dst: EvBuffer, datlen: nat) returns (r: int, added: int)
    requires src.Valid() && dst.Valid() && (dst == src || Apart(dst, src))
    requires dst != src ==> TransferAllowed(src, dst, datlen)
    modifies src, src.store, dst, dst.store
    ensures src.Valid() && dst.Valid() && (dst == src || Apart(dst, src))
    ensures fresh((src.store + dst.store) - (old(src.store) + old(dst.store)))
    ensures datlen == 0 || dst == src ==> r == 0
    ensures datlen > 0 && dst != src ==>
      r == if dst.freezeEnd || src.freezeStart then -1 else Min(datlen, old(|src.Contents()|))
    ensures datlen == 0 || dst == src || r == -1 ==>
      src.Contents() == old(src.Contents()) && dst.Contents() == old(dst.Contents())
    ensures datlen > 0 && dst != src && r >= 0 ==>
      var moved := |dst.Contents()| - old(|dst.Contents()|);
      && 0 <= moved <= r && (added == 0 ==> moved == r)
      && (dst.ample && old(|dst.Contents()|) + r <= SIZE_MAX ==> added == 0)
      && dst.Contents() == old(dst.Contents()) + old(src.Contents())[..moved]
      && src.Contents() == old(src.Contents())[r..]
      && dst.nAddForCb == old(dst.nAddForCb) + moved && src.nDelForCb == old(src.nDelForCb) + r
    ensures old(Compact(src.pieces, src.lwd)) ==> Compact(src.pieces, src.lwd)
    ensures old(Tidy(src.pieces, src.lwd)) ==> Tidy(src.pieces, src.lwd)
    ensures old(Compact(dst.pieces, dst.lwd) && Compact(src.pieces, src.lwd)) ==> Compact(dst.pieces, dst.lwd)
    ensures old(Tidy(dst.pieces, dst.lwd) && Tidy(src.pieces, src.lwd) && Compact(src.pieces, src.lwd)) ==>
      Tidy(dst.pieces, dst.lwd)
    ensures unchanged(src`freezeStart, src`freezeEnd, dst`freezeStart, dst`freezeEnd)
  {
    hide Compact, Tidy, Rooted, Flatten, DataEndsAt, TransferSafe, WalksOver;
    added := 0;
    if datlen == 0 || dst == src {
      return 0, 0;
    }
    if dst.freezeEnd || src.freezeStart {
      return -1, 0;
    }
    if datlen >= src.totalLen {
      var n := src.totalLen;
      var moved := AddBuffer(dst, src);
      EmptyCompact(src.pieces, src.lwd);
      return n, 0;
    }
    added := TransferPart(src, dst, datlen);
    r := datlen;
  }

  // evbuffer_remove_buffer when some data stays behind.
  method TransferPart(src: EvBuffer, dst: EvBuffer, datlen: nat) returns (added: int)
    requires src.Valid() && dst.Valid() && Apart(dst, src) && 0 < datlen < |src.Contents()|
    requires TransferAllowed(src, dst, datlen)
    modifies src, src.store, dst, dst.store
    ensures src.Valid() && dst.Valid() && Apart(dst, src)
    ensures fresh((src.store + dst.store) - (old(src.store) + old(dst.store)))
    ensures dst.ample && !dst.freezeEnd && old(|dst.Contents()|) + datlen <= SIZE_MAX ==> added == 0
    ensures var moved := |dst.Contents()| - old(|dst.Contents()|);
      && 0 <= moved <= datlen && (added == 0 ==> moved == datlen)
      && dst.Contents() == old(dst.Contents()) + old(src.Contents())[..moved]
      && src.Contents() == old(src.Contents())[datlen..]
      && dst.nAddForCb == old(dst.nAddForCb) + moved && src.nDelForCb == old(src.nDelForCb) + datlen
    ensures old(Compact(src.pieces, src.lwd)) ==> Compact(src.pieces, src.lwd)
    ensures old(Tidy(src.pieces, src.lwd)) ==> Tidy(src.pieces, src.lwd)
    ensures old(Compact(dst.pieces, dst.lwd) && Compact(src.pieces, src.lwd)) ==> Compact(dst.pieces, dst.lwd)
    ensures old(Tidy(dst.pieces, dst.lwd) && Tidy(src.pieces, src.lwd) && Compact(src.pieces, src.lwd)) ==>
      Tidy(dst.pieces, dst.lwd)
    ensures unchanged(src`freezeStart, src`freezeEnd, dst`freezeStart, dst`freezeEnd)
  {
    hide EvBuffer.Valid, Compact, Tidy, Flatten, DataEndsAt, TransferSafe, WalksOver, Objects, Rooted;
    LengthOf(src);
    LengthOf(dst);
    var chain, rest, idx := TransferChains(src, dst, datlen);
    MovedInAll(old(dst.Contents()), old(src.Contents()), datlen - rest, src.pieces[idx][..rest]);
    added := CopyRest(src, dst, chain, idx, rest, datlen);
  }

  // The bytes of the chain that is only moved in part are copied.
  method CopyRest(src: EvBuffer, dst: EvBuffer, chain: Chain, ghost idx: nat, rest: nat, datlen: nat) returns (added: int)
    requires Rooted(src) && DataEndsAt(src.pieces, src.lwd) && src.lastWithDatap == SlotAt(src.chains, src.lwd)
    requires src.chains != [] && src.last == src.chains[|src.chains| - 1] && dst.Valid() && Apart(dst, src)
    requires idx < |src.chains| && chain == src.chains[idx] && rest < |src.pieces[idx]| && datlen <= src.totalLen
    requires |Flatten(src.pieces[idx := src.pieces[idx][rest..]])| == src.totalLen - datlen
    modifies src`pieces, src`totalLen, src`nDelForCb, src.store, dst, dst.store
    ensures src.Valid() && dst.Valid() && fresh(dst.store - old(dst.store)) && (added == 0 || added == -1)
    ensures dst.ample && !dst.freezeEnd && old(|dst.Contents()|) + rest <= SIZE_MAX ==> added == 0
    ensures dst.Contents() == old(dst.Contents()) + if added == 0 then old(src.pieces[idx])[..rest] else []
    ensures src.Contents() == Flatten(old(src.pieces)[idx := old(src.pieces[idx])[rest..]])
    ensures dst.nAddForCb == old(dst.nAddForCb) + (if added == 0 then rest else 0) && src.nDelForCb == old(src.nDelForCb) + datlen
    ensures old(Compact(src.pieces, src.lwd)) ==> Compact(src.pieces, src.lwd)
    ensures old(Tidy(src.pieces, src.lwd)) ==> Tidy(src.pieces, src.lwd)
    ensures old(Compact(dst.pieces, dst.lwd)) ==> Compact(dst.pieces, dst.lwd)
    ensures old(Tidy(dst.pieces, dst.lwd)) ==> Tidy(dst.pieces, dst.lwd)
    ensures unchanged(dst`freezeStart, dst`freezeEnd)
  {
    hide EvBuffer.Valid, Compact, Tidy, Flatten, DataEndsAt, Objects, Rooted;
    ChainOf(src, idx);
    var data := FrontBytes(src, chain, idx, rest);
    added := Add(dst, data);
    GiveUp(src, chain, idx, rest, datlen);
  }

  lemma ChainOf(buf: EvBuffer, k: nat)
    requires Rooted(buf) && k < |buf.chains|
    ensures |buf.chains| == |buf.pieces| && buf.chains[k] in buf.store
  {
    ObjectsAt(buf.chains, k);
  }

  lemma MovedInAll(base: seq<byte>, all: seq<byte>, n: nat, data: seq<byte>)
    requires n + |data| <= |all| && all[..n] + data == all[..n + |data|]
    ensures base + all[..n] + data == base + all[..n + |data|]
    ensures |base + all[..n]| == |base| + n && |base + all[..n + |data|]| == |base| + n + |data|
  {
    assert base + all[..n] + data == base + (all[..n] + data);
  }

  // The copied bytes leave the source.
  method GiveUp(src: EvBuffer, chain: Chain, ghost idx: nat, rest: nat, datlen: nat)
    requires Rooted(src) && DataEndsAt(src.pieces, src.lwd) && src.lastWithDatap == SlotAt(src.chains, src.lwd)
    requires src.chains != [] && src.last == src.chains[|src.chains| - 1]
    requires idx < |src.chains| && chain == src.chains[idx] && rest < |src.pieces[idx]|
    requires datlen <= src.totalLen
    requires |Flatten(src.pieces[idx := src.pieces[idx][rest..]])| == src.totalLen - datlen
    modifies src`pieces, src`totalLen, src`nDelForCb, chain`misalign, chain`off
    ensures src.Valid() && src.Contents() == Flatten(old(src.pieces)[idx := old(src.pieces)[idx][rest..]])
    ensures old(Compact(src.pieces, src.lwd)) ==> Compact(src.pieces, src.lwd)
    ensures old(Tidy(src.pieces, src.lwd)) ==> Tidy(src.pieces, src.lwd)
    ensures src.nDelForCb == old(src.nDelForCb) + datlen
  {
    hide Rooted, Flatten, DataEndsAt, Compact;
    ShortenedShape(src.pieces, idx, rest, src.lwd);
    Consume(src, chain, idx, rest);
    src.totalLen := src.totalLen - datlen;
    src.nDelForCb := src.nDelForCb + datlen;
  }
}
