/** Appending to and prepending to an evbuffer (evbuffer_add, evbuffer_prepend). */
module EvBufferAdd {
  import opened Bytes
  import opened EvBufferCore

  const CHAIN_MAX_AUTO_SIZE: nat := 4096
  const MAX_TO_REALIGN_IN_EXPAND: nat := 2048

  // evbuffer_chain_should_realign
  function ShouldRealign(chain: Chain, datlen: nat): bool
    requires chain.off <= chain.buffer.Length
    reads chain
  {
    chain.buffer.Length - chain.off >= datlen && chain.off < chain.buffer.Length / 2 && chain.off <= MAX_TO_REALIGN_IN_EXPAND
  }

  // evbuffer_chain_align: moves the bytes of chain k to the start of its memory.
  method ChainAlign(buf: EvBuffer, chain: Chain, ghost k: nat)
    requires Rooted(buf) && k < |buf.chains| && chain == buf.chains[k]
    modifies chain`misalign, chain.buffer
    ensures Rooted(buf) && chain.misalign == 0
  {
    hide Segment, Objects;
    DerefSlot(buf, k);
    ghost var piece := buf.pieces[k];
    MoveToStart(chain.buffer, chain.misalign, chain.off);
    chain.misalign := 0;
    assert buf.pieces == old(buf.pieces)[k := piece];
    RootedUpdate(buf, k, piece);
  }

  // Filling the last chain with data appends to the buffer.
  lemma ExtendPieces(pieces: seq<seq<byte>>, k: nat, data: seq<byte>)
    requires DataEndsAt(pieces, k) && k < |pieces|
    ensures DataEndsAt(pieces[k := pieces[k] + data], k)
    ensures Flatten(pieces[k := pieces[k] + data]) == Flatten(pieces) + data
    ensures Compact(pieces, k) ==> Compact(pieces[k := pieces[k] + data], k)
  {
    FlattenExtend(pieces, k, data);
  }

  // The part of evbuffer_add that fills the last chain with data on.
  method FillLast(buf: EvBuffer, chain: Chain, data: seq<byte>)
    requires buf.Valid() && buf.chains != [] && chain == buf.chains[buf.lwd]
    requires chain.misalign + chain.off + |data| <= chain.buffer.Length
    modifies buf`pieces, buf`totalLen, buf`nAddForCb, chain`off, chain.buffer
    ensures buf.Valid() && buf.Contents() == old(buf.Contents()) + data
    ensures old(Compact(buf.pieces, buf.lwd)) ==> Compact(buf.pieces, buf.lwd)
    ensures old(Tidy(buf.pieces, buf.lwd)) ==> Tidy(buf.pieces, buf.lwd)
    ensures buf.nAddForCb == old(buf.nAddForCb) + |data|
  {
    hide Rooted, Flatten, DataEndsAt, Compact;
    ExtendPieces(buf.pieces, buf.lwd, data);
    WriteBehind(buf, chain, buf.lwd, data);
    buf.totalLen := buf.totalLen + |data|;
    buf.nAddForCb := buf.nAddForCb + |data|;
  }

  // The part of evbuffer_add for a last chain that has room once its bytes are moved to the start of its memory.
  method AlignAndFill(buf: EvBuffer, chain: Chain, data: seq<byte>)
    requires buf.Valid() && buf.chains != [] && chain == buf.chains[buf.lwd]
    requires chain.off + |data| <= chain.buffer.Length
    modifies buf`pieces, buf`totalLen, buf`nAddForCb, chain`off, chain`misalign, chain.buffer
    ensures buf.Valid() && buf.Contents() == old(buf.Contents()) + data
    ensures old(Compact(buf.pieces, buf.lwd)) ==> Compact(buf.pieces, buf.lwd)
    ensures old(Tidy(buf.pieces, buf.lwd)) ==> Tidy(buf.pieces, buf.lwd)
    ensures buf.nAddForCb == old(buf.nAddForCb) + |data|
  {
    hide Rooted, Flatten, DataEndsAt, Compact, Tidy;
    ChainAlign(buf, chain, buf.lwd);
    FillLast(buf, chain, data);
  }

  // The chain evbuffer_add writes to: the last one with data, or a new one; null when memory runs out.
  method ChainToFill(buf: EvBuffer, datlen: nat) returns (chain: Chain?)
    requires buf.Valid()
    modifies buf`first, buf`last, buf`lastWithDatap, buf`totalLen, buf`chains, buf`pieces, buf`lwd, buf`store, buf.chains`next
    ensures buf.Valid() && fresh(buf.store - old(buf.store))
    ensures buf.Contents() == old(buf.Contents())
    ensures old(Compact(buf.pieces, buf.lwd)) ==> Compact(buf.pieces, buf.lwd)
    ensures old(Tidy(buf.pieces, buf.lwd)) ==> Tidy(buf.pieces, buf.lwd)
    ensures chain != null ==> buf.chains != [] && chain == buf.chains[buf.lwd]
    ensures buf.ample && datlen <= LARGEST ==> chain != null
  {
    hide Rooted, Flatten, DataEndsAt;
    DerefSlot(buf, buf.lwd);
    var target := Deref(buf, buf.lastWithDatap);
    chain := if target == null then buf.last else target;
    if chain == null {
      chain := ChainNew(datlen, buf.ample);
      if chain == null {
        return;
      }
      ChainInsert(buf, chain, []);
      assert |buf.chains| == 1;
    }
  }

  lemma CompactNext(pieces: seq<seq<byte>>, lwd: nat, piece: seq<byte>, after: nat)
    requires DataEndsAt(pieces, lwd) && DataEndsAt(pieces[..Kept(pieces, lwd)] + [piece], after)
    ensures Compact(pieces, lwd) ==> Compact(pieces[..Kept(pieces, lwd)] + [piece], after)
    ensures piece != [] ==> Tidy(pieces[..Kept(pieces, lwd)] + [piece], after)
  {
    var all := pieces[..Kept(pieces, lwd)] + [piece];
    assert all[|all| - 1] == piece;
    assert forall i :: 0 <= i < Kept(pieces, lwd) ==> all[i] == pieces[i];
  }

  // A new chain that holds data goes behind the others.
  method AddBehind(buf: EvBuffer, tmp: Chain, data: seq<byte>)
    requires buf.Valid() && data != [] && tmp.next == null && tmp.Holds(data)
    requires Objects([tmp]) !! buf.store && buf !in Objects([tmp])
    modifies buf, buf.chains`next
    ensures buf.Valid() && buf.store <= old(buf.store) + Objects([tmp])
    ensures buf.Contents() == old(buf.Contents()) + data
    ensures old(Compact(buf.pieces, buf.lwd)) ==> Compact(buf.pieces, buf.lwd)
    ensures old(Tidy(buf.pieces, buf.lwd)) ==> Tidy(buf.pieces, buf.lwd)
    ensures buf.nAddForCb == old(buf.nAddForCb) + |data| && unchanged(buf`freezeStart, buf`freezeEnd, buf`nDelForCb)
  {
    hide Rooted, Flatten, DataEndsAt, Objects, Compact, Kept, Tidy;
    ghost var ps, lwd := buf.pieces, buf.lwd;
    ChainInsert(buf, tmp, data);
    CompactNext(ps, lwd, data, buf.lwd);
    buf.nAddForCb := buf.nAddForCb + |data|;
  }

  // The end of evbuffer_add: what does not fit the last chain goes to a new one.
  method AddChain(buf: EvBuffer, chain: Chain, remain: nat, data: seq<byte>) returns (r: int)
    requires buf.Valid() && buf.chains != [] && chain == buf.chains[buf.lwd]
    requires chain.misalign + chain.off + remain == chain.buffer.Length && remain < |data|
    modifies buf, buf.store
    ensures buf.Valid() && fresh(buf.store - old(buf.store))
    ensures r == 0 || r == -1
    ensures buf.ample && |data| <= LARGEST ==> r == 0
    ensures buf.Contents() == if r == 0 then old(buf.Contents()) + data else old(buf.Contents())
    ensures old(Compact(buf.pieces, buf.lwd)) ==> Compact(buf.pieces, buf.lwd)
    ensures old(Tidy(buf.pieces, buf.lwd)) ==> Tidy(buf.pieces, buf.lwd)
    ensures buf.nAddForCb == old(buf.nAddForCb) + if r == 0 then |data| else 0
    ensures unchanged(buf`freezeStart, buf`freezeEnd, buf`nDelForCb)
  {
    hide Rooted, Flatten, DataEndsAt, Objects, Compact, Tidy;
    DerefSlot(buf, buf.lwd);
    var toAlloc := chain.buffer.Length;
    if toAlloc <= CHAIN_MAX_AUTO_SIZE / 2 {
      toAlloc := toAlloc * 2;
    }
    if |data| > toAlloc {
      toAlloc := |data|;
    }
    var tmp := ChainHolding(toAlloc, false, data[remain..], buf.ample);
    if tmp == null {
      return -1;
    }
    FillLast(buf, chain, data[..remain]);
    ghost var filled := buf.Contents();
    AddBehind(buf, tmp, data[remain..]);
    assert filled + data[remain..] == old(buf.Contents()) + data;
    return 0;
  }

  // evbuffer_add. It fails when the end is frozen, the length would overflow or memory runs out;
  // a failed call leaves the bytes alone.
  method Add(buf: EvBuffer, data: seq<byte>) returns (r: int)
    requires buf.Valid()
    modifies buf, buf.store
    ensures buf.Valid() && fresh(buf.store - old(buf.store))
    ensures r == 0 || r == -1
    ensures buf.Contents() == if r == 0 then old(buf.Contents()) + data else old(buf.Contents())
    ensures buf.nAddForCb == old(buf.nAddForCb) + if r == 0 then |data| else 0
    ensures old(Compact(buf.pieces, buf.lwd)) ==> Compact(buf.pieces, buf.lwd)
    ensures old(Tidy(buf.pieces, buf.lwd)) ==> Tidy(buf.pieces, buf.lwd)
    ensures buf.freezeEnd || |data| + old(|buf.Contents()|) > SIZE_MAX ==> r == -1
    ensures buf.ample && |data| <= LARGEST ==> (r == 0 <==> !buf.freezeEnd && |data| + old(|buf.Contents()|) <= SIZE_MAX)
    ensures unchanged(buf`freezeStart, buf`freezeEnd, buf`nDelForCb)
  {
    hide Rooted, Flatten, DataEndsAt, Compact, Tidy;
    if buf.freezeEnd {
      return -1;
    }
    if |data| > SIZE_MAX - buf.totalLen {
      return -1;
    }
    var chain := ChainToFill(buf, |data|);
    if chain == null {
      return -1;
    }
    DerefSlot(buf, buf.lwd);
    var remain := chain.SpaceLen();
    if remain >= |data| {
      FillLast(buf, chain, data);
      return 0;
    } else if ShouldRealign(chain, |data|) {
      AlignAndFill(buf, chain, data);
      return 0;
    }
    r := AddChain(buf, chain, remain, data);
  }

  // Data in front of the first piece.
  lemma PrependPieces(pieces: seq<seq<byte>>, k: nat, data: seq<byte>)
    requires DataEndsAt(pieces, k) && pieces != []
    ensures DataEndsAt(pieces[0 := data + pieces[0]], k)
    ensures Flatten(pieces[0 := data + pieces[0]]) == data + Flatten(pieces)
    ensures Compact(pieces, k) ==> Compact(pieces[0 := data + pieces[0]], k)
  {
    assert pieces[0 := data + pieces[0]][1..] == pieces[1..];
    assert data + (pieces[0] + Flatten(pieces[1..])) == data + pieces[0] + Flatten(pieces[1..]);
  }

  // One more piece with data in front of all others.
  lemma PrependShape(pieces: seq<seq<byte>>, k: nat, data: seq<byte>)
    requires DataEndsAt(pieces, k) && pieces != [] && pieces[0] != []
    ensures DataEndsAt([data] + pieces, k + 1)
    ensures Flatten([data] + pieces) == data + Flatten(pieces)
    ensures Compact(pieces, k) && data != [] ==> Compact([data] + pieces, k + 1)
  {
    FlattenAppend([data], pieces);
    FlattenSingle(data);
  }

  // Fills the free space in front of the bytes of the first chain.
  method FillFirst(buf: EvBuffer, chain: Chain, data: seq<byte>)
    requires buf.Valid() && buf.chains != [] && chain == buf.chains[0]
    requires |data| <= chain.misalign
    modifies buf`pieces, buf`totalLen, buf`nAddForCb, chain`off, chain`misalign, chain.buffer
    ensures buf.Valid() && buf.Contents() == data + old(buf.Contents())
    ensures buf.pieces == old(buf.pieces)[0 := data + old(buf.pieces[0])]
    ensures chain.misalign == old(chain.misalign) - |data|
    ensures buf.nAddForCb == old(buf.nAddForCb) + |data|
    ensures old(Compact(buf.pieces, buf.lwd)) ==> Compact(buf.pieces, buf.lwd)
    ensures old(Tidy(buf.pieces, buf.lwd)) ==> Tidy(buf.pieces, buf.lwd)
    ensures data == [] ==> unchanged(buf`pieces, chain`off, chain`misalign)
  {
    hide Rooted, Flatten, DataEndsAt, Compact;
    PrependPieces(buf.pieces, buf.lwd, data);
    WriteBefore(buf, chain, 0, data);
    assert data == [] ==> data + old(buf.pieces[0]) == old(buf.pieces[0]) && buf.pieces == old(buf.pieces);
    buf.totalLen := buf.totalLen + |data|;
    buf.nAddForCb := buf.nAddForCb + |data|;
  }

  // An empty first chain is treated as empty at its beginning.
  method MisalignEmpty(buf: EvBuffer, chain: Chain)
    requires buf.Valid() && buf.chains != [] && chain == buf.chains[0]
    modifies chain`misalign
    ensures buf.Valid()
    ensures chain.misalign == if chain.off == 0 then chain.buffer.Length else old(chain.misalign)
  {
    hide Flatten, DataEndsAt, Segment, Objects;
    DerefSlot(buf, 0);
    if chain.off == 0 {
      chain.misalign := chain.buffer.Length;
      assert buf.pieces == old(buf.pieces)[0 := []];
      RootedUpdate(buf, 0, []);
    }
  }

  // The end of evbuffer_prepend: a new chain in front of a first chain that has data.
  method PrependChain(buf: EvBuffer, data: seq<byte>) returns (r: int)
    requires buf.Valid() && buf.chains != [] && buf.pieces[0] != []
    modifies buf
    ensures buf.Valid() && fresh(buf.store - old(buf.store))
    ensures r == 0 || r == -1
    ensures buf.ample && |data| <= LARGEST ==> r == 0
    ensures buf.Contents() == if r == 0 then data + old(buf.Contents()) else old(buf.Contents())
    ensures buf.nAddForCb == old(buf.nAddForCb) + if r == 0 then |data| else 0
    ensures unchanged(buf`freezeStart, buf`freezeEnd, buf`nDelForCb)
    ensures data != [] && old(Compact(buf.pieces, buf.lwd)) ==> Compact(buf.pieces, buf.lwd)
    ensures data != [] && old(Tidy(buf.pieces, buf.lwd)) ==> Tidy(buf.pieces, buf.lwd)
  {
    hide Rooted, Flatten, DataEndsAt, Objects, Compact, Tidy;
    var tmp := ChainHolding(|data|, true, data, buf.ample);
    if tmp == null {
      return -1;
    }
    PutInFront(buf, tmp, data);
    buf.nAddForCb := buf.nAddForCb + |data|;
    return 0;
  }

  // A chain that holds data becomes the first one.
  method PutInFront(buf: EvBuffer, tmp: Chain, data: seq<byte>)
    requires buf.Valid() && buf.chains != [] && buf.pieces[0] != [] && tmp.next == null && tmp.Holds(data)
    requires Objects([tmp]) !! buf.store && buf !in Objects([tmp])
    modifies buf`first, buf`lastWithDatap, buf`totalLen, buf`chains, buf`pieces, buf`lwd, buf`store, tmp`next
    ensures buf.Valid() && buf.store <= old(buf.store) + Objects([tmp])
    ensures buf.Contents() == data + old(buf.Contents())
    ensures data != [] && old(Compact(buf.pieces, buf.lwd)) ==> Compact(buf.pieces, buf.lwd)
    ensures data != [] && old(Tidy(buf.pieces, buf.lwd)) ==> Tidy(buf.pieces, buf.lwd)
  {
    hide Rooted, Flatten, DataEndsAt, Objects, Compact;
    PrependShape(buf.pieces, buf.lwd, data);
    SingleList(tmp, data);
    LinkFront(buf, tmp, tmp, [tmp], [data]);
    if buf.lastWithDatap == Head {
      buf.lastWithDatap := NextOf(tmp);
    }
    buf.lwd := buf.lwd + 1;
    buf.totalLen := buf.totalLen + |data|;
  }

  // The chain evbuffer_prepend starts from: the first one, or a new one; null when memory runs out.
  method ChainToPrepend(buf: EvBuffer, datlen: nat) returns (chain: Chain?)
    requires buf.Valid()
    modifies buf`first, buf`last, buf`lastWithDatap, buf`totalLen, buf`chains, buf`pieces, buf`lwd, buf`store, buf.store
    ensures buf.Valid() && fresh(buf.store - old(buf.store))
    ensures buf.Contents() == old(buf.Contents())
    ensures chain != null ==> buf.chains != [] && chain == buf.chains[0]
    ensures chain != null ==> chain.off == |buf.pieces[0]| && (chain.off == 0 ==> 0 < chain.misalign)
    ensures chain != null ==> chain in buf.store && chain.buffer in buf.store && buf.pieces != []
    ensures unchanged(buf`freezeStart, buf`freezeEnd, buf`nAddForCb, buf`nDelForCb)
    ensures buf.ample && datlen <= LARGEST ==> chain != null
    ensures old(Compact(buf.pieces, buf.lwd)) ==> Compact(buf.pieces, buf.lwd)
    ensures old(Tidy(buf.pieces, buf.lwd)) ==> Tidy(buf.pieces, buf.lwd)
    ensures old(buf.chains) != [] ==> chain != null && OnlyMisaligned(buf)
  {
    hide Rooted, Flatten, DataEndsAt, Objects;
    DerefSlot(buf, 0);
    chain := buf.first;
    if chain == null {
      chain := ChainNew(datlen, buf.ample);
      if chain == null {
        return;
      }
      ChainInsert(buf, chain, []);
    }
    MisalignEmpty(buf, chain);
    DerefSlot(buf, 0);
    ObjectsAt(buf.chains, 0);
  }

  // Only the empty first chain has changed: all of its memory is in front of its bytes, of which there are none.
  twostate predicate OnlyMisaligned(new buf: EvBuffer)
    requires old(allocated(buf)) && old(buf.chains) != []
    reads buf, buf.chains
  {
    && unchanged(buf`chains, buf`pieces, buf`lwd, buf`last, buf`lastWithDatap)
    && (buf.chains[0].off == 0 ==> buf.chains[0].misalign == buf.chains[0].buffer.Length)
    && forall c :: c in buf.chains && c != buf.chains[0] ==> unchanged(c)
  }

  // evbuffer_prepend. When the allocation of the second chain fails, the end of data that fitted
  // the first chain stays in the buffer although the call reports failure.
  method Prepend(buf: EvBuffer, data: seq<byte>) returns (r: int)
    requires buf.Valid()
    modifies buf, buf.store
    ensures buf.Valid() && fresh(buf.store - old(buf.store))
    ensures r == 0 || r == -1
    ensures var grown := |buf.Contents()| - old(|buf.Contents()|);
      && 0 <= grown <= |data| && (r == 0 ==> grown == |data|)
      && buf.Contents() == data[|data| - grown..] + old(buf.Contents())
      && buf.nAddForCb == old(buf.nAddForCb) + grown
      && (buf.freezeStart || |data| + old(|buf.Contents()|) > SIZE_MAX ==> r == -1 && grown == 0)
      && (buf.ample && |data| <= LARGEST ==> (r == 0 <==> !buf.freezeStart && |data| + old(|buf.Contents()|) <= SIZE_MAX))
    ensures unchanged(buf`freezeStart, buf`freezeEnd, buf`nDelForCb)
    ensures old(Compact(buf.pieces, buf.lwd)) ==> Compact(buf.pieces, buf.lwd)
    ensures old(Tidy(buf.pieces, buf.lwd)) ==> Tidy(buf.pieces, buf.lwd)
    ensures data == [] && r == 0 && old(buf.chains) != [] ==> OnlyMisaligned(buf)
  {
    hide EvBuffer.Valid, Flatten, Compact, Tidy;
    if buf.freezeStart {
      return -1;
    }
    LengthOf(buf);
    if |data| > SIZE_MAX - buf.totalLen {
      return -1;
    }
    var chain := ChainToPrepend(buf, |data|);
    if chain == null {
      return -1;
    }
    if chain.misalign >= |data| {
      FillFirst(buf, chain, data);
      return 0;
    }
    r := PrependMore(buf, chain, data);
  }

  // The part of evbuffer_prepend for more data than there is room for in front of the bytes of the first chain.
  method PrependMore(buf: EvBuffer, chain: Chain, data: seq<byte>) returns (r: int)
    requires buf.Valid() && buf.chains != [] && buf.pieces != [] && chain == buf.chains[0] && |data| > chain.misalign
    requires chain.off == |buf.pieces[0]| && (chain.off == 0 ==> 0 < chain.misalign)
    modifies buf, chain`off, chain`misalign, chain.buffer
    ensures buf.Valid() && fresh(buf.store - old(buf.store))
    ensures r == 0 || r == -1
    ensures buf.ample && |data| <= LARGEST ==> r == 0
    ensures var grown := |buf.Contents()| - old(|buf.Contents()|);
      && 0 <= grown <= |data| && (r == 0 ==> grown == |data|)
      && buf.Contents() == data[|data| - grown..] + old(buf.Contents())
      && buf.nAddForCb == old(buf.nAddForCb) + grown
    ensures unchanged(buf`freezeStart, buf`freezeEnd, buf`nDelForCb)
    ensures old(Compact(buf.pieces, buf.lwd)) ==> Compact(buf.pieces, buf.lwd)
    ensures old(Tidy(buf.pieces, buf.lwd)) ==> Tidy(buf.pieces, buf.lwd)
  {
    hide EvBuffer.Valid, Flatten, Compact, Tidy;
    var left := |data| - chain.misalign;
    ghost var piece := buf.pieces[0];
    FillFirst(buf, chain, data[left..]);
    assert buf.pieces[0] == data[left..] + piece && buf.pieces[0] != [];
    GluedBack(data, left, old(buf.Contents()));
    r := PrependChain(buf, data[..left]);
  }

  lemma GluedBack(data: seq<byte>, left: nat, s: seq<byte>)
    requires left <= |data|
    ensures data[..left] + (data[left..] + s) == data + s && data[0..] == data
  {
  }
}
