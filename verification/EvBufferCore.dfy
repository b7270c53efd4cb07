/** The data structures of evbuffer-internal.h and the list surgery every operation of buffer.c uses.
    The list of chains is a real linked structure; `chains`, `pieces` and `lwd` are the ghost view of it. */
module EvBufferCore {
  import opened Bytes

  const SIZE_MAX: nat := 0xffff_ffff_ffff_ffff
  const CHAIN_MAX: nat := 0x7fff_ffff_ffff_ffff
  const CHAIN_SIZE: nat := 48
  const MIN_BUFFER_SIZE: nat := 1024
  // The largest chain that evbuffer_chain_new makes.
  const LARGEST: nat := CHAIN_MAX - CHAIN_SIZE

  // struct evbuffer_chain, an ordinary mutable chain. buffer_len is buffer.Length.
  class Chain {
    const buffer: array<byte>
    var misalign: nat
    var off: nat
    var next: Chain?

    constructor (size: nat)
      requires size > 0
      ensures fresh(buffer) && buffer.Length == size
      ensures misalign == 0 && off == 0 && next == null
    {
      buffer := new byte[size](_ => 0);
      misalign, off, next := 0, 0, null;
    }

    // The chain stores exactly these bytes.
    ghost predicate Holds(piece: seq<byte>)
      reads `misalign, `off, buffer
    {
      && 0 < buffer.Length <= LARGEST && misalign + off <= buffer.Length
      && buffer[misalign..misalign + off] == piece
    }

    // CHAIN_SPACE_LEN
    function SpaceLen(): nat
      requires misalign + off <= buffer.Length
      reads `misalign, `off
    {
      buffer.Length - (misalign + off)
    }
  }

  // A pointer to a pointer to a chain: &buf->first, or &chain->next.
  datatype Slot = Head | NextOf(chain: Chain)

  // An address in a chain's memory.
  datatype Pointer = Null | At(memory: array<byte>, offset: nat)

  class EvBuffer {
    // whether there is memory for every chain that may be asked for; otherwise any allocation may fail
    const ample: bool
    var first: Chain?
    var last: Chain?
    var lastWithDatap: Slot
    var totalLen: nat
    var nAddForCb: nat
    var nDelForCb: nat
    var freezeStart: bool
    var freezeEnd: bool
    ghost var chains: seq<Chain>
    ghost var pieces: seq<seq<byte>>
    ghost var lwd: nat
    ghost var store: set<object>

    // evbuffer_new
    constructor (ample: bool)
      ensures this.ample == ample && Valid() && chains == [] && pieces == [] && Contents() == [] && store == {}
      ensures !freezeStart && !freezeEnd
    {
      this.ample := ample;
      first, last, lastWithDatap, totalLen := null, null, Head, 0;
      nAddForCb, nDelForCb, freezeStart, freezeEnd := 0, 0, false, false;
      chains, pieces, lwd, store := [], [], 0, {};
    }

    ghost function Contents(): (s: seq<byte>)
      reads `pieces
    {
      Flatten(pieces)
    }

    // The representation invariant documented in evbuffer-internal.h.
    ghost predicate Valid()
      reads this, store
    {
      && Rooted(this)
      && last == (if chains == [] then null else chains[|chains| - 1])
      && DataEndsAt(pieces, lwd)
      && lastWithDatap == SlotAt(chains, lwd)
      && totalLen == |Contents()|
    }
  }

  ghost function Buffers(cs: seq<Chain>): (r: set<array<byte>>)
  {
    set c | c in cs :: c.buffer
  }

  // The chains and their memory.
  ghost function Objects(cs: seq<Chain>): (r: set<object>)
    ensures forall c :: c in cs ==> c in r && c.buffer in r
  {
    (set c | c in cs :: c as object) + (set c | c in cs :: c.buffer as object)
  }

  ghost function HeadOr(cs: seq<Chain>, tail: Chain?): Chain?
  {
    if cs == [] then tail else cs[0]
  }

  ghost function ChainAt(cs: seq<Chain>, i: nat): Chain?
  {
    if i < |cs| then cs[i] else null
  }

  ghost function SlotAt(cs: seq<Chain>, i: nat): Slot
    requires i <= |cs|
  {
    if i == 0 then Head else NextOf(cs[i - 1])
  }

  // No two chains are the same object or share memory.
  ghost predicate Separate(cs: seq<Chain>)
  {
    forall i, j :: 0 <= i < j < |cs| ==> cs[i] != cs[j] && cs[i].buffer != cs[j].buffer
  }

  // The next pointers lead through cs and then to tail.
  ghost predicate Segment(cs: seq<Chain>, tail: Chain?)
    reads cs`next
  {
    forall i {:trigger cs[i].next} :: 0 <= i < |cs| ==> cs[i].next == if i + 1 < |cs| then cs[i + 1] else tail
  }

  // first leads through exactly the chains of cs to null.
  ghost predicate Linked(first: Chain?, cs: seq<Chain>)
    reads cs`next
  {
    first == HeadOr(cs, null) && Segment(cs, null)
  }

  ghost predicate Stored(cs: seq<Chain>, pieces: seq<seq<byte>>)
    requires |cs| == |pieces|
    reads cs`misalign, cs`off, Buffers(cs)
  {
    forall i :: 0 <= i < |cs| ==> cs[i].Holds(pieces[i])
  }

  // Piece k is the last one with data, or the first one when there is no data at all.
  ghost predicate DataEndsAt(pieces: seq<seq<byte>>, k: nat)
    ensures DataEndsAt(pieces, k) ==> if pieces == [] then k == 0 else k < |pieces|
  {
    && (if pieces == [] then k == 0 else k < |pieces|)
    && (0 < k < |pieces| ==> pieces[k] != [])
    && (forall i :: k < i < |pieces| ==> pieces[i] == [])
  }

  // No empty piece comes before one with data.
  ghost predicate Compact(pieces: seq<seq<byte>>, lwd: nat)
  {
    forall i :: 0 <= i < lwd && i < |pieces| ==> pieces[i] != []
  }

  // No empty piece comes behind the last one with data.
  ghost predicate Tidy(pieces: seq<seq<byte>>, lwd: nat)
  {
    |pieces| <= lwd + 1
  }

  // The part of the invariant that ties the linked structure to its ghost view.
  ghost predicate Rooted(buf: EvBuffer)
    reads buf`first, buf`chains, buf`pieces, buf`store, buf.store
    ensures Rooted(buf) ==> |buf.chains| == |buf.pieces| && buf.store == Objects(buf.chains) && buf !in buf.store
  {
    && |buf.chains| == |buf.pieces|
    && buf.store == Objects(buf.chains) && buf !in buf.store
    && Separate(buf.chains)
    && Linked(buf.first, buf.chains)
    && Stored(buf.chains, buf.pieces)
  }

  // -- Facts about the ghost view, each proved once so that the operations need not unfold it. --

  lemma SegmentNil(tail: Chain?)
    ensures Segment([], tail)
  {
  }

  lemma SegmentSplit(cs: seq<Chain>, k: nat, tail: Chain?)
    requires k <= |cs| && Segment(cs, tail)
    ensures Segment(cs[..k], HeadOr(cs[k..], tail)) && Segment(cs[k..], tail)
  {
    var a, b := cs[..k], cs[k..];
    forall i {:trigger a[i].next} | 0 <= i < |a| ensures a[i].next == if i + 1 < |a| then a[i + 1] else HeadOr(b, tail) {
      assert a[i] == cs[i];
    }
    forall i {:trigger b[i].next} | 0 <= i < |b| ensures b[i].next == if i + 1 < |b| then b[i + 1] else tail {
      assert b[i] == cs[k + i];
    }
  }

  lemma SegmentJoin(a: seq<Chain>, b: seq<Chain>, tail: Chain?)
    requires Segment(a, HeadOr(b, tail)) && Segment(b, tail)
    ensures Segment(a + b, tail)
  {
    var cs := a + b;
    forall i {:trigger cs[i].next} | 0 <= i < |cs| ensures cs[i].next == if i + 1 < |cs| then cs[i + 1] else tail {
      if i < |a| {
        assert cs[i] == a[i];
      } else {
        assert cs[i] == b[i - |a|];
      }
    }
  }

  // Redirecting the last next pointer of a segment redirects the segment.
  twostate lemma SegmentRedirect(new cs: seq<Chain>, new was: Chain?)
    requires old(allocated(cs)) && old(allocated(was))
    requires cs != [] && Separate(cs) && old(Segment(cs, was))
    requires forall i :: 0 <= i < |cs| - 1 ==> cs[i].next == old(cs[i].next)
    ensures Segment(cs, cs[|cs| - 1].next)
  {
    forall i {:trigger cs[i].next} | 0 <= i < |cs|
      ensures cs[i].next == if i + 1 < |cs| then cs[i + 1] else cs[|cs| - 1].next
    {
      assert old(cs[i].next) == if i + 1 < |cs| then cs[i + 1] else was;
    }
  }

  twostate lemma SegmentSame(new cs: seq<Chain>, new tail: Chain?)
    requires old(allocated(cs)) && old(allocated(tail)) && old(Segment(cs, tail))
    requires forall c :: c in cs ==> c.next == old(c.next)
    ensures Segment(cs, tail)
  {
    forall i {:trigger cs[i].next} | 0 <= i < |cs| ensures cs[i].next == if i + 1 < |cs| then cs[i + 1] else tail {
      assert old(cs[i].next) == cs[i].next;
    }
  }

  lemma NilList()
    ensures Separate([]) && Segment([], null) && Stored([], []) && Objects([]) == {}
  {
  }

  lemma SingleList(c: Chain, piece: seq<byte>)
    requires c.Holds(piece)
    ensures Separate([c]) && Segment([c], c.next) && Stored([c], [piece])
  {
  }

  // What a walk along the next pointers finds at chain k.
  lemma DerefSlot(buf: EvBuffer, k: nat)
    requires Rooted(buf) && k <= |buf.chains|
    ensures Deref(buf, SlotAt(buf.chains, k)) == ChainAt(buf.chains, k)
    ensures k < |buf.chains| ==> buf.chains[k].Holds(buf.pieces[k]) && buf.chains[k].off == |buf.pieces[k]|
  {
  }

  lemma NextChain(buf: EvBuffer, k: nat)
    requires Rooted(buf) && k < |buf.chains|
    ensures buf.chains[k].next == ChainAt(buf.chains, k + 1)
    ensures buf.chains[k].misalign + buf.chains[k].off <= buf.chains[k].buffer.Length
    ensures buf.chains[k].off == |buf.pieces[k]|
  {
  }

  lemma Distinct(buf: EvBuffer, i: nat, j: nat)
    requires Rooted(buf) && i < |buf.chains| && j < |buf.chains| && i != j
    ensures buf.chains[i] != buf.chains[j] && buf.chains[i].buffer != buf.chains[j].buffer
  {
  }

  lemma SeparateParts(cs: seq<Chain>, k: nat)
    requires k <= |cs| && Separate(cs)
    ensures Separate(cs[..k]) && Separate(cs[k..])
    ensures Objects(cs[..k]) !! Objects(cs[k..])
  {
  }

  lemma ObjectsAt(cs: seq<Chain>, i: nat)
    requires i < |cs|
    ensures cs[i] in Objects(cs) && cs[i].buffer in Objects(cs)
  {
    assert cs[i] in cs;
  }

  lemma ObjectsJoin(a: seq<Chain>, b: seq<Chain>)
    ensures Objects(a + b) == Objects(a) + Objects(b)
  {
  }

  lemma SeparateJoin(a: seq<Chain>, b: seq<Chain>)
    requires Separate(a) && Separate(b) && Objects(a) !! Objects(b)
    ensures Separate(a + b)
  {
    hide Objects;
    var cs := a + b;
    forall i, j | 0 <= i < j < |cs| ensures cs[i] != cs[j] && cs[i].buffer != cs[j].buffer {
      assert cs[i] == (if i < |a| then a[i] else b[i - |a|]);
      assert cs[j] == (if j < |a| then a[j] else b[j - |a|]);
      if i < |a| <= j {
        ObjectsAt(a, i);
        ObjectsAt(b, j - |a|);
      }
    }
  }

  lemma StoredParts(cs: seq<Chain>, pieces: seq<seq<byte>>, k: nat)
    requires k <= |cs| == |pieces| && Stored(cs, pieces)
    ensures Stored(cs[..k], pieces[..k]) && Stored(cs[k..], pieces[k..])
  {
    forall i | 0 <= i < k ensures cs[..k][i].Holds(pieces[..k][i]) {
      assert cs[i].Holds(pieces[i]);
    }
    forall i | 0 <= i < |cs| - k ensures cs[k..][i].Holds(pieces[k..][i]) {
      assert cs[k + i].Holds(pieces[k + i]);
    }
  }

  lemma StoredJoin(a: seq<Chain>, pa: seq<seq<byte>>, b: seq<Chain>, pb: seq<seq<byte>>)
    requires |a| == |pa| && |b| == |pb| && Stored(a, pa) && Stored(b, pb)
    ensures Stored(a + b, pa + pb)
  {
    forall i | 0 <= i < |a + b| ensures (a + b)[i].Holds((pa + pb)[i]) {
      if i < |a| {
        assert a[i].Holds(pa[i]);
      } else {
        assert b[i - |a|].Holds(pb[i - |a|]);
      }
    }
  }

  // What a chain holds does not depend on the next pointers.
  twostate lemma StoredSame(new cs: seq<Chain>, new pieces: seq<seq<byte>>)
    requires old(allocated(cs)) && |cs| == |pieces| && old(Stored(cs, pieces))
    requires forall i :: 0 <= i < |cs| ==> Same(cs[i])
    ensures Stored(cs, pieces)
  {
    forall i | 0 <= i < |cs| ensures cs[i].Holds(pieces[i]) {
      assert Same(cs[i]) && old(cs[i].Holds(pieces[i]));
      var c := cs[i];
      assert c.buffer[c.misalign..c.misalign + c.off] == old(c.buffer[..][c.misalign..c.misalign + c.off]);
    }
  }

  twostate predicate Same(new c: Chain)
    requires old(allocated(c))
    reads c, c.buffer
  {
    c.misalign == old(c.misalign) && c.off == old(c.off) && c.buffer[..] == old(c.buffer[..])
  }

  // Only chain k and its memory changed.
  twostate lemma StoredUpdate(new cs: seq<Chain>, new pieces: seq<seq<byte>>, new k: nat, new piece: seq<byte>)
    requires old(allocated(cs)) && k < |cs| == |pieces| && old(Stored(cs, pieces))
    requires forall i :: 0 <= i < |cs| && i != k ==> Same(cs[i])
    requires cs[k].Holds(piece)
    ensures Stored(cs, pieces[k := piece])
  {
    var after := pieces[k := piece];
    forall i | 0 <= i < |cs| ensures cs[i].Holds(after[i]) {
      if i != k {
        assert Same(cs[i]) && old(cs[i].Holds(pieces[i]));
        var c := cs[i];
        assert c.buffer[c.misalign..c.misalign + c.off] == old(c.buffer[..][c.misalign..c.misalign + c.off]);
      }
    }
  }

  function Deref(buf: EvBuffer, slot: Slot): Chain?
    reads buf, if slot.NextOf? then {slot.chain} else {}
  {
    match slot
    case Head => buf.first
    case NextOf(c) => c.next
  }

  method Assign(buf: EvBuffer, slot: Slot, target: Chain?)
    modifies (if slot.Head? then {buf} else {})`first, (if slot.NextOf? then {slot.chain} else {})`next
    ensures Deref(buf, slot) == target
  {
    match slot
    case Head => buf.first := target;
    case NextOf(c) => c.next := target;
  }

  // evbuffer_chain_new: null when the size is too large or memory runs out.
  method ChainNew(size: nat, ample: bool) returns (chain: Chain?)
    ensures size > LARGEST ==> chain == null
    ensures size <= LARGEST && ample ==> chain != null
    ensures chain != null ==>
      && fresh(chain) && fresh(chain.buffer) && fresh(Objects([chain]))
      && chain.misalign == 0 && chain.off == 0 && chain.next == null
      && size <= chain.buffer.Length && 0 < chain.buffer.Length <= LARGEST
      && chain.buffer.Length <= 2 * size + MIN_BUFFER_SIZE
  {
    if size > CHAIN_MAX - CHAIN_SIZE {
      return null;
    }
    var need := size + CHAIN_SIZE;
    var toAlloc := need;
    if need < CHAIN_MAX / 2 {
      toAlloc := MIN_BUFFER_SIZE;
      while toAlloc < need
        invariant MIN_BUFFER_SIZE <= toAlloc && (toAlloc == MIN_BUFFER_SIZE || toAlloc < 2 * need)
        decreases need - toAlloc
      {
        toAlloc := toAlloc * 2;
      }
    }
    var granted: bool := *;
    if !ample && !granted {
      return null;
    }
    chain := new Chain(toAlloc - CHAIN_SIZE);
  }

  // How many chains survive when the empty ones at the end are freed.
  ghost function Kept(pieces: seq<seq<byte>>, lwd: nat): (m: nat)
    requires DataEndsAt(pieces, lwd)
    ensures m <= |pieces|
  {
    if pieces == [] || pieces[lwd] == [] then 0 else lwd + 1
  }

  // A buffer from which the trailing empty chains have just been cut off; `last` is stale.
  ghost predicate Trimmed(buf: EvBuffer)
    reads buf, buf.store
  {
    && Rooted(buf)
    && buf.lwd == (if buf.chains == [] then 0 else |buf.chains| - 1)
    && (buf.chains != [] ==> buf.pieces[buf.lwd] != [])
    && buf.lastWithDatap == SlotAt(buf.chains, buf.lwd)
    && buf.totalLen == |buf.Contents()|
  }

  // Cutting off pieces without data keeps the bytes, and leaves data at the end.
  lemma TrimPieces(pieces: seq<seq<byte>>, lwd: nat)
    requires DataEndsAt(pieces, lwd)
    ensures var m := Kept(pieces, lwd);
      && Flatten(pieces[..m]) == Flatten(pieces)
      && lwd == (if m == 0 then 0 else m - 1)
      && (m > 0 ==> pieces[m - 1] != [])
      && (forall i :: m <= i < |pieces| ==> pieces[i] == [])
  {
    var m := Kept(pieces, lwd);
    FlattenSplit(pieces, m);
    FlattenEmpty(pieces[m..]);
  }

  // The list cut in two.
  lemma RootedSplit(buf: EvBuffer, m: nat)
    requires Rooted(buf) && m <= |buf.chains|
    ensures var front, back := buf.chains[..m], buf.chains[m..];
      && Segment(front, HeadOr(back, null)) && Separate(front) && Stored(front, buf.pieces[..m])
      && buf.first == HeadOr(front, HeadOr(back, null)) && Objects(front) <= buf.store
  {
    SegmentSplit(buf.chains, m, null);
    SeparateParts(buf.chains, m);
    StoredParts(buf.chains, buf.pieces, m);
    assert buf.chains == buf.chains[..m] + buf.chains[m..];
    ObjectsJoin(buf.chains[..m], buf.chains[m..]);
  }

  // A list of which at most the last next pointer has changed.
  twostate lemma FrontKept(new cs: seq<Chain>, new pieces: seq<seq<byte>>, new was: Chain?, new target: Chain?)
    requires old(allocated(cs)) && old(allocated(was)) && |cs| == |pieces| && Separate(cs)
    requires old(Segment(cs, was)) && old(Stored(cs, pieces))
    requires forall i :: 0 <= i < |cs| - 1 ==> cs[i].next == old(cs[i].next)
    requires forall i :: 0 <= i < |cs| ==> Same(cs[i])
    requires cs != [] ==> cs[|cs| - 1].next == target
    ensures Segment(cs, target) && Stored(cs, pieces)
  {
    hide Segment, Stored, Separate;
    if cs == [] {
      SegmentNil(target);
    } else {
      SegmentRedirect(cs, was);
    }
    StoredSame(cs, pieces);
  }

  // A list of which nothing has changed.
  twostate lemma TailKept(new cs: seq<Chain>, new pieces: seq<seq<byte>>)
    requires old(allocated(cs)) && |cs| == |pieces| && old(Segment(cs, null)) && old(Stored(cs, pieces))
    requires forall i :: 0 <= i < |cs| ==> cs[i].next == old(cs[i].next) && Same(cs[i])
    ensures Segment(cs, null) && Stored(cs, pieces)
  {
    SegmentSame(cs, null);
    StoredSame(cs, pieces);
  }

  // Two lists joined.
  lemma RootedJoin(buf: EvBuffer, front: seq<Chain>, frontPieces: seq<seq<byte>>, tail: seq<Chain>,
                   tailPieces: seq<seq<byte>>)
    requires |front| == |frontPieces| && |tail| == |tailPieces|
    requires buf.chains == front + tail && buf.pieces == frontPieces + tailPieces
    requires buf.store == Objects(front) + Objects(tail) && buf !in buf.store && Objects(front) !! Objects(tail)
    requires Separate(front) && Separate(tail) && Stored(front, frontPieces) && Stored(tail, tailPieces)
    requires Segment(front, HeadOr(tail, null)) && Segment(tail, null) && buf.first == HeadOr(front, HeadOr(tail, null))
    ensures Rooted(buf)
  {
    hide Separate, Stored, Segment, Objects;
    SeparateJoin(front, tail);
    ObjectsJoin(front, tail);
    SegmentJoin(front, tail, null);
    StoredJoin(front, frontPieces, tail, tailPieces);
  }

  // Assigns through the slot behind the list front; the list tail is another.
  method AssignBehind(buf: EvBuffer, slot: Slot, head: Chain?, ghost front: seq<Chain>, ghost frontPieces: seq<seq<byte>>,
                      ghost was: Chain?, ghost tail: seq<Chain>, ghost tailPieces: seq<seq<byte>>)
    requires slot == SlotAt(front, |front|) && |front| == |frontPieces| && |tail| == |tailPieces|
    requires Separate(front) && Segment(front, was) && Stored(front, frontPieces)
    requires Segment(tail, null) && Stored(tail, tailPieces) && (front != [] ==> front[|front| - 1] !in tail)
    modifies buf`first, front`next
    ensures Segment(front, head) && Stored(front, frontPieces) && Segment(tail, null) && Stored(tail, tailPieces)
    ensures buf.first == if front == [] then head else old(buf.first)
  {
    hide Segment, Stored;
    Assign(buf, slot, head);
    FrontKept(front, frontPieces, was, head);
    TailKept(tail, tailPieces);
  }

  // Assigns through the slot behind the first m chains: they are now followed by the list tail.
  method Relink(buf: EvBuffer, slot: Slot, ghost m: nat, head: Chain?, ghost tail: seq<Chain>, ghost tailPieces: seq<seq<byte>>)
    requires Rooted(buf) && m <= |buf.chains| && slot == SlotAt(buf.chains, m)
    requires Separate(tail) && Linked(head, tail) && |tail| == |tailPieces| && Stored(tail, tailPieces)
    requires Objects(buf.chains[..m]) !! Objects(tail) && buf !in Objects(tail)
    modifies buf`first, buf`chains, buf`pieces, buf`store, buf.chains`next
    ensures buf.chains == old(buf.chains[..m]) + tail && buf.pieces == old(buf.pieces[..m]) + tailPieces
    ensures Rooted(buf) && buf.store <= old(buf.store) + Objects(tail)
  {
    hide Rooted, Separate, Stored, Segment, Objects;
    ghost var front, frontPieces := buf.chains[..m], buf.pieces[..m];
    ghost var was := HeadOr(buf.chains[m..], null);
    RootedSplit(buf, m);
    SlotInFront(buf.chains, m, tail);
    AssignBehind(buf, slot, head, front, frontPieces, was, tail, tailPieces);
    label Assigned:
    buf.chains, buf.pieces := front + tail, frontPieces + tailPieces;
    buf.store := Objects(front) + Objects(tail);
    StoredSame@Assigned(front, frontPieces);
    StoredSame@Assigned(tail, tailPieces);
    RootedJoin(buf, front, frontPieces, tail, tailPieces);
  }

  // The same behind the last chain.
  method LinkBehind(buf: EvBuffer, slot: Slot, head: Chain?, ghost tail: seq<Chain>, ghost tailPieces: seq<seq<byte>>)
    requires Rooted(buf) && slot == SlotAt(buf.chains, |buf.chains|)
    requires Separate(tail) && Linked(head, tail) && |tail| == |tailPieces| && Stored(tail, tailPieces)
    requires buf.store !! Objects(tail) && buf !in Objects(tail)
    modifies buf`first, buf`chains, buf`pieces, buf`store, buf.chains`next
    ensures buf.chains == old(buf.chains) + tail && buf.pieces == old(buf.pieces) + tailPieces
    ensures Rooted(buf) && buf.store <= old(buf.store) + Objects(tail)
  {
    hide Rooted, Separate, Linked, Stored, Objects;
    assert buf.chains[..|buf.chains|] == buf.chains && buf.pieces[..|buf.pieces|] == buf.pieces;
    Relink(buf, slot, |buf.chains|, head, tail, tailPieces);
  }

  // Writing through a slot of the front does not touch the chains behind it.
  lemma SlotInFront(cs: seq<Chain>, m: nat, tail: seq<Chain>)
    requires m <= |cs| && Objects(cs[..m]) !! Objects(tail)
    ensures m > 0 ==> cs[m - 1] !in tail
    ensures Objects(cs[..m]) <= Objects(cs)
  {
    if m > 0 {
      ObjectsAt(cs[..m], m - 1);
    }
    assert cs == cs[..m] + cs[m..];
    ObjectsJoin(cs[..m], cs[m..]);
  }

  // The loop of evbuffer_free_trailing_empty_chains: the first empty chain from the last one with data on.
  method FirstVictim(buf: EvBuffer) returns (ch: Slot)
    requires buf.Valid()
    ensures ch == SlotAt(buf.chains, Kept(buf.pieces, buf.lwd))
  {
    hide Rooted, Flatten;
    ghost var k: nat := buf.lwd;
    ch := buf.lastWithDatap;
    DerefSlot(buf, k);
    var victim := Deref(buf, ch);
    while victim != null && victim.off != 0
      invariant k <= Kept(buf.pieces, buf.lwd)
      invariant ch == SlotAt(buf.chains, k) && victim == ChainAt(buf.chains, k)
      decreases |buf.chains| - k
    {
      DerefSlot(buf, k);
      ch := NextOf(victim);
      victim := Deref(buf, ch);
      k := k + 1;
      DerefSlot(buf, k);
    }
    DerefSlot(buf, k);
  }

  // evbuffer_free_trailing_empty_chains
  method FreeTrailingEmptyChains(buf: EvBuffer) returns (ch: Slot)
    requires buf.Valid()
    modifies buf`first, buf`chains, buf`pieces, buf`store, buf.chains`next
    ensures Trimmed(buf) && buf.store <= old(buf.store)
    ensures buf.chains == old(buf.chains[..Kept(buf.pieces, buf.lwd)])
    ensures buf.pieces == old(buf.pieces[..Kept(buf.pieces, buf.lwd)])
    ensures ch == SlotAt(buf.chains, |buf.chains|)
    ensures buf.Contents() == old(buf.Contents())
  {
    hide Rooted, Flatten, Kept;
    ghost var m := Kept(buf.pieces, buf.lwd);
    TrimPieces(buf.pieces, buf.lwd);
    ch := FirstVictim(buf);
    var victim := Deref(buf, ch);
    // every chain that is freed is empty
    assert forall i :: m <= i < |buf.chains| ==> buf.pieces[i] == [];
    if victim != null {
      NilList();
      Relink(buf, ch, m, null, [], []);
    } else {
      DerefSlot(buf, m);
    }
    assert buf.chains == old(buf.chains[..m]) && buf.pieces == old(buf.pieces[..m]);
  }

  // One more chain behind chains that end with data.
  lemma AppendShape(cs: seq<Chain>, pieces: seq<seq<byte>>, chain: Chain, piece: seq<byte>)
    requires |cs| == |pieces| && (pieces != [] ==> pieces[|pieces| - 1] != [])
    ensures DataEndsAt(pieces + [piece], if piece == [] && pieces != [] then |pieces| - 1 else |pieces|)
    ensures Flatten(pieces + [piece]) == Flatten(pieces) + piece
    ensures SlotAt(cs + [chain], |cs|) == SlotAt(cs, |cs|)
    ensures cs != [] ==> SlotAt(cs + [chain], |cs| - 1) == SlotAt(cs, |cs| - 1)
  {
    FlattenAppend(pieces, [piece]);
    FlattenSingle(piece);
  }

  // The links when a chain is put behind a list that ends with data, and where the data ends then.
  method LinkNew(buf: EvBuffer, chp: Slot, chain: Chain, ghost piece: seq<byte>)
    requires Trimmed(buf) && chp == SlotAt(buf.chains, |buf.chains|) && chain.next == null && chain.Holds(piece)
    requires Objects([chain]) !! buf.store && buf !in Objects([chain])
    modifies buf`first, buf`chains, buf`pieces, buf`store, buf.chains`next
    ensures Rooted(buf) && buf.store <= old(buf.store) + Objects([chain])
    ensures buf.chains == old(buf.chains) + [chain] && buf.pieces == old(buf.pieces) + [piece]
    ensures buf.Contents() == old(buf.Contents()) + piece
    ensures var lwd := if piece == [] && old(buf.pieces) != [] then buf.lwd else |old(buf.chains)|;
      && DataEndsAt(buf.pieces, lwd)
      && SlotAt(buf.chains, lwd) == if piece == [] && old(buf.pieces) != [] then buf.lastWithDatap else chp
  {
    hide Rooted, Flatten, Objects, DataEndsAt;
    AppendShape(buf.chains, buf.pieces, chain, piece);
    SingleList(chain, piece);
    LinkBehind(buf, chp, chain, [chain], [piece]);
  }

  // evbuffer_chain_insert
  method ChainInsert(buf: EvBuffer, chain: Chain, ghost piece: seq<byte>)
    requires buf.Valid()
    requires chain.next == null && chain.Holds(piece)
    requires Objects([chain]) !! buf.store && buf !in Objects([chain])
    modifies buf`first, buf`last, buf`lastWithDatap, buf`totalLen, buf`chains, buf`pieces, buf`lwd, buf`store, buf.chains`next
    ensures buf.Valid()
    ensures buf.chains == old(buf.chains[..Kept(buf.pieces, buf.lwd)]) + [chain]
    ensures buf.pieces == old(buf.pieces[..Kept(buf.pieces, buf.lwd)]) + [piece]
    ensures buf.store <= old(buf.store) + Objects([chain])
    ensures buf.Contents() == old(buf.Contents()) + piece
  {
    hide Rooted, Flatten, Objects, DataEndsAt;
    assert chain.off == |piece|;
    var target := Deref(buf, buf.lastWithDatap);
    DerefSlot(buf, buf.lwd);
    if target == null {
      assert buf.lastWithDatap == Head && buf.first == null && buf.chains == [];
      LinkNew(buf, Head, chain, piece);
    } else {
      var chp := FreeTrailingEmptyChains(buf);
      LinkNew(buf, chp, chain, piece);
      if chain.off != 0 {
        buf.lastWithDatap := chp;
        buf.lwd := |buf.chains| - 1;
      }
    }
    buf.last := chain;
    buf.totalLen := buf.totalLen + chain.off;
  }

  lemma LengthOf(buf: EvBuffer)
    requires buf.Valid()
    ensures buf.totalLen == |buf.Contents()| && buf !in buf.store
  {
    hide Rooted, Flatten, DataEndsAt;
  }

  // evbuffer_freeze, evbuffer_unfreeze
  method SetFrozen(buf: EvBuffer, atFront: bool, frozen: bool)
    requires buf.Valid()
    modifies buf`freezeStart, buf`freezeEnd
    ensures buf.Valid()
    ensures if atFront then buf.freezeStart == frozen && unchanged(buf`freezeEnd)
            else buf.freezeEnd == frozen && unchanged(buf`freezeStart)
  {
    hide Rooted, Flatten, DataEndsAt;
    if atFront {
      buf.freezeStart := frozen;
    } else {
      buf.freezeEnd := frozen;
    }
  }

  // memcpy into a chain's memory
  method CopyIn(a: array<byte>, at: nat, data: seq<byte>)
    requires at + |data| <= a.Length
    modifies a
    ensures a[..] == old(a[..at]) + data + old(a[at + |data|..])
  {
    forall i | 0 <= i < |data| {
      a[at + i] := data[i];
    }
    assert a[..at] == old(a[..at]) && a[at..at + |data|] == data && a[at + |data|..] == old(a[at + |data|..]);
  }

  // memmove of n bytes to the start of the memory
  method MoveToStart(a: array<byte>, at: nat, n: nat)
    requires at + n <= a.Length
    modifies a
    ensures a[..n] == old(a[at..at + n])
  {
    forall i | 0 <= i < n {
      a[i] := a[at + i];
    }
  }

  // The bytes of chain k become piece; every other chain is as before.
  twostate lemma RootedUpdate(new buf: EvBuffer, new k: nat, new piece: seq<byte>)
    requires old(allocated(buf)) && old(Rooted(buf)) && k < |buf.chains|
    requires unchanged(buf`first, buf`chains, buf`store)
    requires buf.pieces == old(buf.pieces)[k := piece]
    requires forall i :: 0 <= i < |buf.chains| ==> buf.chains[i].next == old(buf.chains[i].next)
    requires forall i :: 0 <= i < |buf.chains| && i != k ==> Same(buf.chains[i])
    requires buf.chains[k].Holds(piece)
    ensures Rooted(buf)
  {
    hide Separate, Segment, Stored, Same, Objects;
    SegmentSame(buf.chains, null);
    StoredUpdate(buf.chains, old(buf.pieces), k, piece);
  }

  // Stores data behind the bytes of chain k.
  method WriteBehind(buf: EvBuffer, chain: Chain, ghost k: nat, data: seq<byte>)
    requires Rooted(buf) && k < |buf.chains| && chain == buf.chains[k]
    requires chain.misalign + chain.off + |data| <= chain.buffer.Length
    modifies buf`pieces, chain`off, chain.buffer
    ensures Rooted(buf) && buf.pieces == old(buf.pieces)[k := old(buf.pieces[k]) + data]
  {
    hide Segment, Objects;
    DerefSlot(buf, k);
    ghost var piece := buf.pieces[k] + data;
    CopyIn(chain.buffer, chain.misalign + chain.off, data);
    chain.off := chain.off + |data|;
    buf.pieces := buf.pieces[k := piece];
    assert chain.buffer[chain.misalign..chain.misalign + chain.off] == piece;
    RootedUpdate(buf, k, piece);
  }

  // Stores data in front of the bytes of chain k.
  method WriteBefore(buf: EvBuffer, chain: Chain, ghost k: nat, data: seq<byte>)
    requires Rooted(buf) && k < |buf.chains| && chain == buf.chains[k]
    requires |data| <= chain.misalign
    modifies buf`pieces, chain`off, chain`misalign, chain.buffer
    ensures Rooted(buf) && buf.pieces == old(buf.pieces)[k := data + old(buf.pieces[k])]
    ensures chain.misalign == old(chain.misalign) - |data| && chain.off == old(chain.off) + |data|
  {
    hide Segment, Objects;
    DerefSlot(buf, k);
    ghost var piece := data + buf.pieces[k];
    CopyIn(chain.buffer, chain.misalign - |data|, data);
    chain.off := chain.off + |data|;
    chain.misalign := chain.misalign - |data|;
    buf.pieces := buf.pieces[k := piece];
    assert chain.buffer[chain.misalign..chain.misalign + chain.off] == piece;
    RootedUpdate(buf, k, piece);
  }

  // A new chain with room for size bytes that stores data from offset misalign on; null when there is no memory.
  method ChainHolding(size: nat, misaligned: bool, data: seq<byte>, ample: bool) returns (chain: Chain?)
    requires |data| <= size
    ensures size <= LARGEST && ample ==> chain != null
    ensures chain != null ==>
      && fresh(chain) && fresh(chain.buffer) && fresh(Objects([chain]))
      && chain.next == null && chain.Holds(data) && size <= chain.buffer.Length
      && chain.misalign == if misaligned then chain.buffer.Length - |data| else 0
  {
    chain := ChainNew(size, ample);
    if chain != null {
      chain.off := |data|;
      chain.misalign := if misaligned then chain.buffer.Length - |data| else 0;
      CopyIn(chain.buffer, chain.misalign, data);
    }
  }

  // Links the list front, which begins with head and ends with tip, before the chains of buf.
  method LinkFront(buf: EvBuffer, head: Chain, tip: Chain, ghost front: seq<Chain>, ghost frontPieces: seq<seq<byte>>)
    requires Rooted(buf)
    requires front != [] && head == front[0] && tip == front[|front| - 1]
    requires Separate(front) && Segment(front, null) && |front| == |frontPieces| && Stored(front, frontPieces)
    requires buf.store !! Objects(front) && buf !in Objects(front)
    modifies buf`first, buf`chains, buf`pieces, buf`store, tip`next
    ensures buf.chains == front + old(buf.chains) && buf.pieces == frontPieces + old(buf.pieces)
    ensures Rooted(buf) && buf.store == old(buf.store) + Objects(front)
  {
    hide Separate, Stored, Segment, Objects;
    ghost var cs, ps := buf.chains, buf.pieces;
    assert tip in Objects(front) && tip !in cs;
    tip.next := buf.first;
    buf.first := head;
    buf.chains, buf.pieces, buf.store := front + cs, frontPieces + ps, buf.store + Objects(front);
    SegmentSame(cs, null);
    SegmentRedirectTip(front);
    StoredSame(cs, ps);
    StoredSame(front, frontPieces);
    SeparateJoin(front, cs);
    ObjectsJoin(front, cs);
    SegmentJoin(front, cs, null);
    StoredJoin(front, frontPieces, cs, ps);
  }

  twostate lemma SegmentRedirectTip(new cs: seq<Chain>)
    requires old(allocated(cs)) && cs != [] && Separate(cs) && old(Segment(cs, null))
    requires forall c :: c in cs && c != cs[|cs| - 1] ==> c.next == old(c.next)
    ensures Segment(cs, cs[|cs| - 1].next)
  {
    SegmentRedirect(cs, null);
  }

  // A position in a buffer (struct evbuffer_ptr); pos is -1 for "not found".
  datatype Ptr = Ptr(pos: int, chain: Chain?, posInChain: nat)

  // A walk over buf has come to byte i of chain k, which is byte `at` of the contents.
  ghost predicate Cursor(buf: EvBuffer, chain: Chain?, k: nat, i: nat, at: int)
    requires |buf.chains| == |buf.pieces|
    reads buf`chains, buf`pieces
    ensures Cursor(buf, chain, k, i, at) ==> 0 <= at <= |buf.Contents()|
  {
    && k <= |buf.chains| && chain == ChainAt(buf.chains, k)
    && i <= (if k < |buf.chains| then |buf.pieces[k]| else 0)
    && at == |Flatten(buf.pieces[..k])| + i <= |Flatten(buf.pieces)|
  }

  // What a walk finds where it stands, and where it comes to next.
  lemma CursorHere(buf: EvBuffer, chain: Chain?, k: nat, i: nat, at: int)
    requires Rooted(buf) && Cursor(buf, chain, k, i, at)
    ensures 0 <= at <= |buf.Contents()|
    ensures chain == null ==> at == |buf.Contents()| && k == |buf.chains| && i == 0
    ensures chain != null ==>
      && k < |buf.chains| && chain == buf.chains[k]
      && chain.Holds(buf.pieces[k]) && chain.off == |buf.pieces[k]| && i <= chain.off
      && buf.Contents()[at..] == buf.pieces[k][i..] + Flatten(buf.pieces[k + 1..])
      && chain.buffer in buf.store
      && Cursor(buf, chain.next, k + 1, 0, at + (chain.off - i))
  {
    hide Stored, Separate, Objects;
    DerefSlot(buf, k);
    if k < |buf.pieces| {
      FlattenAt(buf.pieces, k);
      FlattenTake(buf.pieces, k);
      DerefSlot(buf, k + 1);
    } else {
      assert buf.pieces[..k] == buf.pieces;
    }
  }

  lemma CursorFront(buf: EvBuffer)
    requires Rooted(buf)
    ensures Cursor(buf, buf.first, 0, 0, 0)
  {
  }
}
