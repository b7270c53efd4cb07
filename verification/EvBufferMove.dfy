/** Moving whole chains between two evbuffers: evbuffer_add_buffer, evbuffer_prepend_buffer, evbuffer_remove_buffer. */
module EvBufferMove {
  import opened Bytes
  import opened EvBufferCore
  import opened EvBufferAdd
  import opened EvBufferDrain

  // Two buffers that are the same one or share nothing.
  ghost predicate Apart(a: EvBuffer, b: EvBuffer)
    reads a`store, b`store
  {
    a != b && a.store !! b.store && a !in b.store && b !in a.store
  }

  // COPY_CHAIN after the chains of dst have been freed, then ZERO_CHAIN of src
  method TakeOver(dst: EvBuffer, src: EvBuffer)
    requires src.Valid() && Apart(dst, src)
    modifies dst, src
    ensures dst.Valid() && dst.Contents() == old(src.Contents()) && dst.store == old(src.store)
    ensures dst.pieces == old(src.pieces) && dst.lwd == old(src.lwd)
    ensures Compact(src.pieces, src.lwd) && Tidy(src.pieces, src.lwd)
    ensures src.Valid() && src.Contents() == [] && src.store == {}
    ensures unchanged(dst`freezeStart, dst`freezeEnd, dst`nAddForCb, dst`nDelForCb)
    ensures unchanged(src`freezeStart, src`freezeEnd, src`nAddForCb, src`nDelForCb)
  {
    hide EvBuffer.Valid, Flatten;
    LengthOf(src);
    CopyChain(dst, src);
    ZeroChain(src);
  }

  // COPY_CHAIN
  method CopyChain(dst: EvBuffer, src: EvBuffer)
    requires src.Valid() && Apart(dst, src)
    modifies dst`first, dst`last, dst`lastWithDatap, dst`totalLen, dst`chains, dst`pieces, dst`lwd, dst`store
    ensures dst.Valid() && dst.Contents() == src.Contents() && dst.store == src.store
    ensures dst.pieces == src.pieces && dst.lwd == src.lwd
  {
    hide Rooted, Flatten, DataEndsAt;
    dst.first := src.first;
    dst.lastWithDatap := if src.lastWithDatap == Head then Head else src.lastWithDatap;
    dst.last, dst.totalLen := src.last, src.totalLen;
    dst.chains, dst.pieces, dst.lwd, dst.store := src.chains, src.pieces, src.lwd, src.store;
    SameList(dst, src);
  }

  lemma SameList(dst: EvBuffer, src: EvBuffer)
    requires Rooted(src) && dst !in src.store
    requires dst.first == src.first && dst.chains == src.chains && dst.pieces == src.pieces && dst.store == src.store
    ensures Rooted(dst)
  {
  }

  // The pieces of one buffer behind those of another that ends with data.
  lemma JoinShape(a: seq<seq<byte>>, b: seq<seq<byte>>, lwd: nat)
    requires DataEndsAt(b, lwd) && Flatten(b) != []
    ensures Flatten(a + b) == Flatten(a) + Flatten(b)
    ensures DataEndsAt(a + b, |a| + lwd)
  {
    FlattenAppend(a, b);
    LastHasData(b, lwd);
  }

  lemma LastHasData(pieces: seq<seq<byte>>, lwd: nat)
    requires DataEndsAt(pieces, lwd) && Flatten(pieces) != []
    ensures lwd < |pieces| && pieces[lwd] != []
  {
    if pieces != [] && pieces[lwd] == [] {
      FlattenEmpty(pieces);
    }
  }

  lemma KeptCompact(a: seq<seq<byte>>, lwd: nat)
    requires DataEndsAt(a, lwd)
    ensures var m := Kept(a, lwd); Compact(a, lwd) ==> Compact(a[..m], m)
  {
  }

  lemma JoinCompact(a: seq<seq<byte>>, b: seq<seq<byte>>, lwd: nat)
    ensures Compact(a, |a|) && Compact(b, lwd) ==> Compact(a + b, |a| + lwd)
  {
  }

  // Data of one buffer in front of another: no gap arises if and only if no empty chain comes between.
  lemma PrependExact(a: seq<seq<byte>>, aLwd: nat, b: seq<seq<byte>>, lwd: nat)
    requires DataEndsAt(a, aLwd) && a != [] && a[aLwd] != [] && Compact(a, aLwd) && Compact(b, lwd)
    ensures Compact(a + b, |a| + lwd) <==> aLwd + 1 == |a|
  {
    if aLwd + 1 < |a| {
      assert (a + b)[aLwd + 1] == a[aLwd + 1] == [];
    }
  }

  lemma JoinSlots(a: seq<Chain>, b: seq<Chain>, i: nat)
    requires b != [] && i < |b|
    ensures SlotAt(a + b, |a| + i) == if i == 0 then SlotAt(a, |a|) else SlotAt(b, i)
    ensures (a + b)[|a + b| - 1] == b[|b| - 1]
  {
  }

  // A list of chains that has data, as another buffer holds it.
  ghost predicate ListWithData(head: Chain?, tip: Chain?, slot: Slot, total: nat, cs: seq<Chain>, pieces: seq<seq<byte>>, lwd: nat)
    reads cs, Buffers(cs)
  {
    && |cs| == |pieces| && cs != []
    && Separate(cs) && Linked(head, cs) && Stored(cs, pieces)
    && tip == cs[|cs| - 1] && DataEndsAt(pieces, lwd) && Flatten(pieces) != []
    && slot == SlotAt(cs, lwd) && total == |Flatten(pieces)|
  }

  // APPEND_CHAIN, as far as dst is concerned
  method AppendList(dst: EvBuffer, head: Chain?, tip: Chain?, slot: Slot, total: nat,
                    ghost cs: seq<Chain>, ghost pieces: seq<seq<byte>>, ghost lwd: nat)
    requires dst.Valid() && ListWithData(head, tip, slot, total, cs, pieces, lwd)
    requires dst.store !! Objects(cs) && dst !in Objects(cs)
    modifies dst`first, dst`last, dst`lastWithDatap, dst`totalLen, dst`chains, dst`pieces, dst`lwd, dst`store, dst.chains`next
    ensures dst.Valid() && dst.Contents() == old(dst.Contents()) + Flatten(pieces)
    ensures dst.store <= old(dst.store) + Objects(cs)
    ensures old(Compact(dst.pieces, dst.lwd)) && Compact(pieces, lwd) ==> Compact(dst.pieces, dst.lwd)
    ensures Tidy(pieces, lwd) ==> Tidy(dst.pieces, dst.lwd)
  {
    hide Rooted, Flatten, DataEndsAt, Objects, Separate, Stored, Linked, Kept, Compact;
    LastHasData(pieces, lwd);
    KeptCompact(dst.pieces, dst.lwd);
    var chp := FreeTrailingEmptyChains(dst);
    ListSame(head, cs, pieces);
    LinkList(dst, chp, head, cs, pieces, lwd);
    SetEnd(dst, tip, if slot == Head then chp else slot, |dst.chains| - |cs| + lwd, dst.totalLen + total);
  }

  // The fields beside the list.
  method SetEnd(buf: EvBuffer, tip: Chain, slot: Slot, ghost lwd: nat, total: nat)
    requires Rooted(buf) && DataEndsAt(buf.pieces, lwd) && buf.chains != [] && tip == buf.chains[|buf.chains| - 1]
    requires slot == SlotAt(buf.chains, lwd) && total == |buf.Contents()|
    modifies buf`last, buf`lastWithDatap, buf`totalLen, buf`lwd
    ensures buf.Valid() && buf.lwd == lwd
  {
    hide Rooted, Flatten, DataEndsAt;
    buf.last, buf.lastWithDatap, buf.lwd, buf.totalLen := tip, slot, lwd, total;
  }

  // The links of APPEND_CHAIN, and where the data ends then.
  method LinkList(dst: EvBuffer, chp: Slot, head: Chain?, ghost cs: seq<Chain>, ghost pieces: seq<seq<byte>>, ghost lwd: nat)
    requires Rooted(dst) && chp == SlotAt(dst.chains, |dst.chains|) && |cs| == |pieces| && cs != []
    requires Separate(cs) && Linked(head, cs) && Stored(cs, pieces) && DataEndsAt(pieces, lwd) && Flatten(pieces) != []
    requires dst.store !! Objects(cs) && dst !in Objects(cs)
    modifies dst`first, dst`chains, dst`pieces, dst`store, dst.chains`next
    ensures Rooted(dst) && dst.store <= old(dst.store) + Objects(cs)
    ensures dst.chains == old(dst.chains) + cs && dst.Contents() == old(dst.Contents()) + Flatten(pieces)
    ensures dst.pieces == old(dst.pieces) + pieces
    ensures DataEndsAt(dst.pieces, |old(dst.chains)| + lwd) && lwd < |cs|
    ensures SlotAt(dst.chains, |old(dst.chains)| + lwd) == if lwd == 0 then chp else SlotAt(cs, lwd)
    ensures dst.chains[|dst.chains| - 1] == cs[|cs| - 1]
    ensures old(Compact(dst.pieces, |dst.pieces|)) && Compact(pieces, lwd) ==> Compact(dst.pieces, |old(dst.chains)| + lwd)
  {
    hide Rooted, Flatten, DataEndsAt, Objects, Separate, Stored, Linked, Compact;
    LastHasData(pieces, lwd);
    JoinCompact(dst.pieces, pieces, lwd);
    JoinShape(dst.pieces, pieces, lwd);
    JoinSlots(dst.chains, cs, lwd);
    LinkBehind(dst, chp, head, cs, pieces);
  }

  twostate lemma ListSame(new head: Chain?, new cs: seq<Chain>, new pieces: seq<seq<byte>>)
    requires old(allocated(head)) && old(allocated(cs)) && |cs| == |pieces|
    requires old(Linked(head, cs)) && old(Stored(cs, pieces))
    requires forall c :: c in cs ==> c.next == old(c.next) && Same(c)
    ensures Linked(head, cs) && Stored(cs, pieces)
  {
    SegmentSame(cs, null);
    StoredSame(cs, pieces);
  }

  // APPEND_CHAIN, then ZERO_CHAIN of src
  method AppendChain(dst: EvBuffer, src: EvBuffer)
    requires dst.Valid() && src.Valid() && Apart(dst, src) && src.Contents() != []
    modifies dst, dst.store, src
    ensures dst.Valid() && dst.Contents() == old(dst.Contents()) + old(src.Contents())
    ensures dst.store <= old(dst.store) + old(src.store)
    ensures src.Valid() && src.Contents() == [] && src.store == {}
    ensures unchanged(dst`freezeStart, dst`freezeEnd, dst`nAddForCb, dst`nDelForCb)
    ensures unchanged(src`freezeStart, src`freezeEnd, src`nAddForCb, src`nDelForCb)
    ensures old(Compact(dst.pieces, dst.lwd) && Compact(src.pieces, src.lwd)) ==> Compact(dst.pieces, dst.lwd)
    ensures Compact(src.pieces, src.lwd) && Tidy(src.pieces, src.lwd)
    ensures old(Tidy(src.pieces, src.lwd)) ==> Tidy(dst.pieces, dst.lwd)
  {
    hide Rooted, Flatten, DataEndsAt, Objects, ListWithData, Compact, Tidy;
    ListOf(src);
    AppendList(dst, src.first, src.last, src.lastWithDatap, src.totalLen, src.chains, src.pieces, src.lwd);
    ZeroChain(src);
  }

  // The chains of a buffer as a list of their own.
  lemma ListOf(buf: EvBuffer)
    requires buf.Valid() && buf.Contents() != []
    ensures ListWithData(buf.first, buf.last, buf.lastWithDatap, buf.totalLen, buf.chains, buf.pieces, buf.lwd)
  {
    LastHasData(buf.pieces, buf.lwd);
  }

  // evbuffer_add_buffer
  method AddBuffer(outbuf: EvBuffer, inbuf: EvBuffer) returns (r: int)
    requires outbuf.Valid() && inbuf.Valid() && (outbuf == inbuf || Apart(outbuf, inbuf))
    modifies outbuf, outbuf.store, inbuf, inbuf.store
    ensures outbuf.Valid() && inbuf.Valid() && (outbuf == inbuf || Apart(outbuf, inbuf))
    ensures outbuf.store + inbuf.store <= old(outbuf.store) + old(inbuf.store)
    ensures var n := old(|inbuf.Contents()|);
      && r == (if n > 0 && outbuf != inbuf && (outbuf.freezeEnd || inbuf.freezeStart) then -1 else 0)
      && (n > 0 && outbuf != inbuf && r == 0 ==>
            && outbuf.Contents() == old(outbuf.Contents()) + old(inbuf.Contents()) && inbuf.Contents() == []
            && inbuf.nDelForCb == old(inbuf.nDelForCb) + n && outbuf.nAddForCb == old(outbuf.nAddForCb) + n)
      && (n == 0 || outbuf == inbuf || r == -1 ==>
            && outbuf.Contents() == old(outbuf.Contents()) && inbuf.Contents() == old(inbuf.Contents())
            && unchanged(outbuf`nAddForCb, inbuf`nDelForCb))
    ensures unchanged(outbuf`freezeStart, outbuf`freezeEnd, inbuf`freezeStart, inbuf`freezeEnd)
    ensures old(Compact(outbuf.pieces, outbuf.lwd) && Compact(inbuf.pieces, inbuf.lwd)) ==>
      Compact(outbuf.pieces, outbuf.lwd) && Compact(inbuf.pieces, inbuf.lwd)
    ensures old(Tidy(inbuf.pieces, inbuf.lwd)) ==> Tidy(inbuf.pieces, inbuf.lwd)
    ensures old(Tidy(outbuf.pieces, outbuf.lwd) && Tidy(inbuf.pieces, inbuf.lwd)) ==> Tidy(outbuf.pieces, outbuf.lwd)
  {
    hide Rooted, Flatten, DataEndsAt, Compact, Tidy;
    var inTotalLen, outTotalLen := inbuf.totalLen, outbuf.totalLen;
    if inTotalLen == 0 || outbuf == inbuf {
      return 0;
    }
    if outbuf.freezeEnd || inbuf.freezeStart {
      return -1;
    }
    if outTotalLen == 0 {
      TakeOver(outbuf, inbuf);
    } else {
      AppendChain(outbuf, inbuf);
    }
    inbuf.nDelForCb := inbuf.nDelForCb + inTotalLen;
    outbuf.nAddForCb := outbuf.nAddForCb + inTotalLen;
    return 0;
  }

  // PREPEND_CHAIN, as far as dst, which has data, is concerned
  method PrependList(dst: EvBuffer, head: Chain, tip: Chain, slot: Slot, total: nat,
                     ghost cs: seq<Chain>, ghost pieces: seq<seq<byte>>, ghost lwd: nat)
    requires dst.Valid() && dst.Contents() != [] && ListWithData(head, tip, slot, total, cs, pieces, lwd)
    requires dst.store !! Objects(cs) && dst !in Objects(cs)
    modifies dst`first, dst`lastWithDatap, dst`totalLen, dst`chains, dst`pieces, dst`lwd, dst`store, tip`next
    ensures dst.Valid() && dst.Contents() == Flatten(pieces) + old(dst.Contents())
    ensures dst.store == old(dst.store) + Objects(cs)
    ensures dst.pieces == pieces + old(dst.pieces) && dst.lwd == |cs| + old(dst.lwd)
  {
    hide Rooted, Flatten, DataEndsAt, Objects, Separate, Stored, Segment;
    LastHasData(dst.pieces, dst.lwd);
    JoinShape(pieces, dst.pieces, dst.lwd);
    JoinSlots(cs, dst.chains, dst.lwd);
    LinkFront(dst, head, tip, cs, pieces);
    if dst.lastWithDatap == Head {
      dst.lastWithDatap := NextOf(tip);
    }
    dst.lwd := |cs| + dst.lwd;
    dst.totalLen := dst.totalLen + total;
  }

  // PREPEND_CHAIN, then ZERO_CHAIN of src
  method PrependChains(dst: EvBuffer, src: EvBuffer)
    requires dst.Valid() && src.Valid() && Apart(dst, src) && src.Contents() != [] && dst.Contents() != []
    modifies dst, src, src.store
    ensures dst.Valid() && dst.Contents() == old(src.Contents()) + old(dst.Contents())
    ensures dst.store <= old(dst.store) + old(src.store)
    ensures src.Valid() && src.Contents() == [] && src.store == {}
    ensures unchanged(dst`freezeStart, dst`freezeEnd, dst`nAddForCb, dst`nDelForCb)
    ensures unchanged(src`freezeStart, src`freezeEnd, src`nAddForCb, src`nDelForCb)
    ensures old(Compact(dst.pieces, dst.lwd) && Compact(src.pieces, src.lwd) && src.lwd + 1 == |src.pieces|) ==>
      Compact(dst.pieces, dst.lwd)
    ensures Compact(src.pieces, src.lwd) && Tidy(src.pieces, src.lwd)
    ensures old(Tidy(dst.pieces, dst.lwd)) ==> Tidy(dst.pieces, dst.lwd)
  {
    hide Rooted, Flatten, DataEndsAt, Objects, ListWithData, Compact;
    ListOf(src);
    TipOf(src);
    LastHasData(src.pieces, src.lwd);
    if Compact(src.pieces, src.lwd) && Compact(dst.pieces, dst.lwd) {
      PrependExact(src.pieces, src.lwd, dst.pieces, dst.lwd);
    }
    PrependList(dst, src.first, src.last, src.lastWithDatap, src.totalLen, src.chains, src.pieces, src.lwd);
    ZeroChain(src);
  }

  lemma TipOf(buf: EvBuffer)
    requires buf.Valid() && buf.Contents() != []
    ensures buf.chains != [] && buf.first != null && buf.last != null && buf.last in buf.store
  {
    LastHasData(buf.pieces, buf.lwd);
  }

  // evbuffer_prepend_buffer
  method PrependBuffer(outbuf: EvBuffer, inbuf: EvBuffer) returns (r: int)
    requires outbuf.Valid() && inbuf.Valid() && (outbuf == inbuf || Apart(outbuf, inbuf))
    modifies outbuf, outbuf.store, inbuf, inbuf.store
    ensures outbuf.Valid() && inbuf.Valid() && (outbuf == inbuf || Apart(outbuf, inbuf))
    ensures outbuf.store + inbuf.store <= old(outbuf.store) + old(inbuf.store)
    ensures var n := old(|inbuf.Contents()|);
      && r == (if n > 0 && outbuf != inbuf && (outbuf.freezeStart || inbuf.freezeStart) then -1 else 0)
      && (n > 0 && outbuf != inbuf && r == 0 ==>
            && outbuf.Contents() == old(inbuf.Contents()) + old(outbuf.Contents()) && inbuf.Contents() == []
            && inbuf.nDelForCb == old(inbuf.nDelForCb) + n && outbuf.nAddForCb == old(outbuf.nAddForCb) + n)
      && (n == 0 || outbuf == inbuf || r == -1 ==>
            && outbuf.Contents() == old(outbuf.Contents()) && inbuf.Contents() == old(inbuf.Contents())
            && unchanged(outbuf`nAddForCb, inbuf`nDelForCb))
    ensures unchanged(outbuf`freezeStart, outbuf`freezeEnd, inbuf`freezeStart, inbuf`freezeEnd)
    ensures old(Compact(outbuf.pieces, outbuf.lwd) && Compact(inbuf.pieces, inbuf.lwd)
                && (outbuf.Contents() == [] || inbuf.lwd + 1 == |inbuf.pieces|)) ==>
      Compact(outbuf.pieces, outbuf.lwd) && Compact(inbuf.pieces, inbuf.lwd)
    ensures old(Tidy(inbuf.pieces, inbuf.lwd)) ==> Tidy(inbuf.pieces, inbuf.lwd)
    ensures old(Tidy(outbuf.pieces, outbuf.lwd) && Tidy(inbuf.pieces, inbuf.lwd)) ==> Tidy(outbuf.pieces, outbuf.lwd)
  {
    hide Rooted, Flatten, DataEndsAt, Compact, Tidy;
    var inTotalLen, outTotalLen := inbuf.totalLen, outbuf.totalLen;
    if inTotalLen == 0 || inbuf == outbuf {
      return 0;
    }
    if outbuf.freezeStart || inbuf.freezeStart {
      return -1;
    }
    if outTotalLen == 0 {
      TakeOver(outbuf, inbuf);
    } else {
      PrependChains(outbuf, inbuf);
    }
    inbuf.nDelForCb := inbuf.nDelForCb + inTotalLen;
    outbuf.nAddForCb := outbuf.nAddForCb + inTotalLen;
    return 0;
  }
}
