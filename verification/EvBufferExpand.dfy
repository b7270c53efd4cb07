/** Making room at the end of an evbuffer: evbuffer_expand_singlechain, evbuffer_expand, evbuffer_expand_fast_. */
module EvBufferExpand {
  import opened Bytes
  import opened EvBufferCore
  import opened EvBufferAdd
  import opened EvBufferDrain

  const MAX_TO_COPY_IN_EXPAND: nat := 4096

  // Chain k of buf is one whose free space continues the contents, and it has at least n bytes of it.
  ghost predicate Roomy(buf: EvBuffer, chain: Chain, k: nat, n: nat)
    requires Rooted(buf)
    reads buf`first, buf`chains, buf`pieces, buf`store, buf`lwd, buf.store
  {
    && k < |buf.chains| && chain == buf.chains[k] && buf.lwd <= k <= buf.lwd + 1
    && chain.misalign + chain.off + n <= chain.buffer.Length
  }

  // A new chain at the end, in place of the empty ones.
  method InsertNew(buf: EvBuffer, datlen: nat) returns (chain: Chain?, ghost k: nat)
    requires buf.Valid()
    modifies buf`first, buf`last, buf`lastWithDatap, buf`totalLen, buf`chains, buf`pieces, buf`lwd, buf`store, buf.store
    ensures buf.Valid() && fresh(buf.store - old(buf.store)) && buf.Contents() == old(buf.Contents())
    ensures chain != null ==> Roomy(buf, chain, k, datlen)
    ensures chain != null ==> k == |buf.chains| - 1 && chain.off == 0 && chain.misalign == 0
    ensures chain != null ==> k == buf.lwd || buf.pieces[buf.lwd] != []
    ensures chain == null ==> unchanged(buf`chains, buf`pieces, buf`lwd)
    ensures datlen > LARGEST ==> chain == null
    ensures buf.ample && datlen <= LARGEST ==> chain != null
    ensures old(Compact(buf.pieces, buf.lwd)) ==> Compact(buf.pieces, buf.lwd)
  {
    hide Rooted, Flatten, DataEndsAt, Kept, Compact;
    k := 0;
    chain := ChainNew(datlen, buf.ample);
    if chain != null {
      TrimPieces(buf.pieces, buf.lwd);
      ghost var pieces, lwd := buf.pieces, buf.lwd;
      ChainInsert(buf, chain, []);
      CompactNext(pieces, lwd, [], buf.lwd);
      k := |buf.chains| - 1;
      InsertedShape(buf.pieces, buf.lwd);
    }
  }

  // A piece that was inserted last directly follows the last one with data.
  lemma InsertedShape(pieces: seq<seq<byte>>, lwd: nat)
    requires DataEndsAt(pieces, lwd) && pieces != [] && (|pieces| >= 2 ==> pieces[|pieces| - 2] != [])
    ensures |pieces| - 2 <= lwd && (lwd == |pieces| - 1 || pieces[lwd] != [])
  {
  }

  // tmp and the chains behind chain k as a list.
  lemma ReplacementList(buf: EvBuffer, tmp: Chain, k: nat)
    requires Rooted(buf) && k < |buf.chains| && Objects([tmp]) !! buf.store && buf !in Objects([tmp])
    requires tmp.next == ChainAt(buf.chains, k + 1) && tmp.Holds(buf.pieces[k])
    ensures var cs, ps := [tmp] + buf.chains[k + 1..], [buf.pieces[k]] + buf.pieces[k + 1..];
      && Separate(cs) && Linked(tmp, cs) && Stored(cs, ps)
      && Objects(buf.chains[..k]) !! Objects(cs) && Objects(cs) <= buf.store + Objects([tmp])
  {
    hide Separate, Stored, Segment, Objects;
    var tail, tailPieces := buf.chains[k + 1..], buf.pieces[k + 1..];
    SegmentSplit(buf.chains, k + 1, null);
    SeparateParts(buf.chains, k + 1);
    SeparateParts(buf.chains, k);
    StoredParts(buf.chains, buf.pieces, k + 1);
    SingleList(tmp, buf.pieces[k]);
    assert buf.chains == buf.chains[..k + 1] + tail && buf.chains[..k + 1] == buf.chains[..k] + [buf.chains[k]];
    ObjectsJoin(buf.chains[..k + 1], tail);
    ObjectsJoin(buf.chains[..k], [buf.chains[k]]);
    ObjectsJoin([tmp], tail);
    SeparateJoin([tmp], tail);
    SegmentJoin([tmp], tail, null);
    StoredJoin([tmp], [buf.pieces[k]], tail, tailPieces);
  }

  lemma ReplacedAt(cs: seq<Chain>, pieces: seq<seq<byte>>, k: nat, tmp: Chain)
    requires k < |cs| == |pieces|
    ensures cs[..k] + ([tmp] + cs[k + 1..]) == cs[k := tmp]
    ensures pieces[..k] + ([pieces[k]] + pieces[k + 1..]) == pieces
    ensures SlotAt(cs[k := tmp], k) == SlotAt(cs, k)
  {
  }

  // The links when tmp, a copy of chain k, takes its place.
  method SwapLinks(buf: EvBuffer, slot: Slot, chain: Chain, tmp: Chain, ghost k: nat)
    requires Rooted(buf) && k < |buf.chains| && chain == buf.chains[k] && slot == SlotAt(buf.chains, k)
    requires Objects([tmp]) !! buf.store && buf !in Objects([tmp])
    requires tmp.Holds(buf.pieces[k])
    modifies buf`first, buf`chains, buf`pieces, buf`store, buf.chains`next, tmp`next
    ensures Rooted(buf) && buf.store <= old(buf.store) + Objects([tmp])
    ensures buf.chains == old(buf.chains)[k := tmp] && buf.pieces == old(buf.pieces)
  {
    hide Rooted, Flatten, Objects, Chain.Holds;
    DerefSlot(buf, k);
    DerefSlot(buf, k + 1);
    tmp.next := chain.next;
    ReplacementList(buf, tmp, k);
    ReplacedAt(buf.chains, buf.pieces, k, tmp);
    Relink(buf, slot, k, tmp, [tmp] + buf.chains[k + 1..], [buf.pieces[k]] + buf.pieces[k + 1..]);
  }

  // tmp, a copy of the last chain with data, takes its place.
  method SwapChain(buf: EvBuffer, slot: Slot, chain: Chain, tmp: Chain)
    requires buf.Valid() && buf.chains != [] && chain == buf.chains[buf.lwd] && slot == buf.lastWithDatap
    requires Objects([tmp]) !! buf.store && buf !in Objects([tmp])
    requires tmp.Holds(buf.pieces[buf.lwd])
    modifies buf`first, buf`last, buf`chains, buf`pieces, buf`store, buf.chains`next, tmp`next
    ensures buf.Valid() && buf.store <= old(buf.store) + Objects([tmp])
    ensures buf.chains == old(buf.chains)[buf.lwd := tmp] && buf.pieces == old(buf.pieces)
  {
    hide Rooted, Flatten, DataEndsAt, Objects, Chain.Holds;
    LastOf(buf, buf.lwd);
    ReplacedAt(buf.chains, buf.pieces, buf.lwd, tmp);
    if buf.last == chain {
      buf.last := tmp;
    }
    SwapLinks(buf, slot, chain, tmp, buf.lwd);
  }

  // The branch of evbuffer_expand_singlechain that replaces the last chain with data by a larger copy of it.
  method Resize(buf: EvBuffer, slot: Slot, chain: Chain, datlen: nat) returns (tmp: Chain?)
    requires buf.Valid() && buf.chains != [] && chain == buf.chains[buf.lwd] && slot == buf.lastWithDatap
    modifies buf`first, buf`last, buf`chains, buf`pieces, buf`store, buf.store
    ensures buf.Valid() && fresh(buf.store - old(buf.store)) && buf.Contents() == old(buf.Contents())
    ensures tmp != null ==> Roomy(buf, tmp, buf.lwd, datlen) && |buf.chains| == |old(buf.chains)|
    ensures buf.ample && old(chain.off) + datlen <= LARGEST ==> tmp != null
    ensures old(Compact(buf.pieces, buf.lwd)) ==> Compact(buf.pieces, buf.lwd)
  {
    hide Rooted, Flatten, DataEndsAt, Objects, Compact;
    DerefSlot(buf, buf.lwd);
    tmp := ChainHolding(chain.off + datlen, false, chain.buffer[chain.misalign..chain.misalign + chain.off],
                        buf.ample);
    if tmp == null {
      return;
    }
    SwapChain(buf, slot, chain, tmp);
    DerefSlot(buf, buf.lwd);
  }

  lemma LastOf(buf: EvBuffer, k: nat)
    requires buf.Valid() && k < |buf.chains|
    ensures (buf.last == buf.chains[k]) == (k == |buf.chains| - 1)
  {
  }

  // The last chain with data is full, and the next one has room for n bytes.
  ghost predicate NextHasRoom(buf: EvBuffer, n: nat)
    reads buf`chains, buf`lwd, buf.chains
  {
    && buf.lwd + 1 < |buf.chains|
    && buf.chains[buf.lwd].misalign + buf.chains[buf.lwd].off == buf.chains[buf.lwd].buffer.Length
    && var c := buf.chains[buf.lwd + 1]; c.misalign + c.off + n <= c.buffer.Length
  }

  // evbuffer_expand_singlechain: a chain with room for datlen more bytes; null when memory runs out.
  method ExpandSinglechain(buf: EvBuffer, datlen: nat) returns (result: Chain?, ghost k: nat)
    requires buf.Valid()
    modifies buf`first, buf`last, buf`lastWithDatap, buf`totalLen, buf`chains, buf`pieces, buf`lwd, buf`store, buf.store
    ensures buf.Valid() && fresh(buf.store - old(buf.store)) && buf.Contents() == old(buf.Contents())
    ensures result != null ==> Roomy(buf, result, k, datlen)
    ensures old(buf.chains) == [] && datlen > LARGEST ==> result == null
    ensures buf.ample && datlen + MAX_TO_COPY_IN_EXPAND <= LARGEST ==> result != null
    ensures old(Compact(buf.pieces, buf.lwd)) ==> Compact(buf.pieces, buf.lwd)
    ensures result != null && old(|buf.chains| <= buf.lwd + 1) ==>
      k == |buf.chains| - 1 && (k == buf.lwd || buf.pieces[buf.lwd] != [])
    ensures old(NextHasRoom(buf, datlen)) ==> unchanged(buf) && result != null && k == buf.lwd + 1 && forall c :: c in buf.chains ==> unchanged(c)
  {
    hide Rooted, Flatten, DataEndsAt, Objects, Compact;
    k := buf.lwd;
    var chainp := buf.lastWithDatap;
    DerefSlot(buf, k);
    var chain := Deref(buf, chainp);
    if chain != null && chain.SpaceLen() == 0 {
      chainp := NextOf(chain);
      k := k + 1;
      DerefSlot(buf, k);
      chain := Deref(buf, chainp);
    }
    if chain == null {
      result, k := InsertNew(buf, datlen);
      return;
    }
    if chain.SpaceLen() >= datlen {
      return chain, k;
    }
    if chain.off == 0 {
      result, k := InsertNew(buf, datlen);
      return;
    }
    OnlyLastHasData(buf.pieces, buf.lwd, k);
    result, k := RoomByMoving(buf, chainp, chain, datlen);
  }

  // The end of evbuffer_expand_singlechain: bytes are moved, or a chain is inserted, because the chain has data and too
  // little room behind them.
  method RoomByMoving(buf: EvBuffer, slot: Slot, chain: Chain, datlen: nat) returns (result: Chain?, ghost k: nat)
    requires buf.Valid() && buf.chains != [] && chain == buf.chains[buf.lwd] && slot == buf.lastWithDatap && chain.off > 0
    modifies buf`first, buf`last, buf`lastWithDatap, buf`totalLen, buf`chains, buf`pieces, buf`lwd, buf`store, buf.store
    ensures buf.Valid() && fresh(buf.store - old(buf.store)) && buf.Contents() == old(buf.Contents())
    ensures result != null ==> Roomy(buf, result, k, datlen)
    ensures buf.ample && datlen + MAX_TO_COPY_IN_EXPAND <= LARGEST ==> result != null
    ensures old(Compact(buf.pieces, buf.lwd)) ==> Compact(buf.pieces, buf.lwd)
    ensures result != null && old(|buf.chains| <= buf.lwd + 1) ==>
      k == |buf.chains| - 1 && (k == buf.lwd || buf.pieces[buf.lwd] != [])
  {
    hide Rooted, Flatten, DataEndsAt, Objects, Compact;
    k := buf.lwd;
    DerefSlot(buf, k);
    if ShouldRealign(chain, datlen) {
      ChainAlign(buf, chain, k);
      return chain, k;
    }
    if chain.SpaceLen() < chain.buffer.Length / 8 || chain.off > MAX_TO_COPY_IN_EXPAND || datlen >= CHAIN_MAX - chain.off {
      DerefSlot(buf, k + 1);
      if chain.next != null && chain.next.SpaceLen() >= datlen {
        return chain.next, k + 1;
      }
      result, k := InsertNew(buf, datlen);
      return;
    }
    result := Resize(buf, slot, chain, datlen);
  }

  lemma OnlyLastHasData(pieces: seq<seq<byte>>, lwd: nat, k: nat)
    requires DataEndsAt(pieces, lwd) && k < |pieces| && lwd <= k && pieces[k] != []
    ensures k == lwd
  {
  }

  // evbuffer_expand
  method Expand(buf: EvBuffer, datlen: nat) returns (r: int)
    requires buf.Valid()
    modifies buf`first, buf`last, buf`lastWithDatap, buf`totalLen, buf`chains, buf`pieces, buf`lwd, buf`store, buf.store
    ensures buf.Valid() && fresh(buf.store - old(buf.store)) && buf.Contents() == old(buf.Contents())
    ensures r == 0 || r == -1
    ensures r == 0 ==> exists k: nat :: k < |buf.chains| && Roomy(buf, buf.chains[k], k, datlen)
    ensures buf.ample && datlen + MAX_TO_COPY_IN_EXPAND <= LARGEST ==> r == 0
    ensures old(Compact(buf.pieces, buf.lwd)) ==> Compact(buf.pieces, buf.lwd)
  {
    hide Rooted, Flatten, DataEndsAt, Compact;
    var chain, k := ExpandSinglechain(buf, datlen);
    r := if chain != null then 0 else -1;
  }
}
