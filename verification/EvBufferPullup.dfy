/** Making the first bytes of an evbuffer contiguous: evbuffer_pullup. */
module EvBufferPullup {
  import opened Bytes
  import opened EvBufferCore
  import opened EvBufferDrain

  // Memory a pullup may write to from offset at on: not part of buf, or free space behind the first chain's bytes.
  ghost predicate FreeFrom(buf: EvBuffer, dest: array<byte>, at: nat)
    requires Rooted(buf)
    reads buf`first, buf`chains, buf`pieces, buf`store, buf.store
  {
    dest in buf.store ==>
      && buf.chains != [] && dest == buf.chains[0].buffer
      && buf.chains[0].misalign + buf.chains[0].off <= at
  }

  // Bytes from offset `from` of all have been moved to offset at of dest.
  ghost predicate Moved(dest: array<byte>, at: nat, n: nat, all: seq<byte>, from: nat)
    reads dest
  {
    at + n <= dest.Length && from + n <= |all| && dest[at..at + n] == all[from..from + n]
  }

  lemma NothingMoved(dest: array<byte>, at: nat, all: seq<byte>, from: nat)
    requires from <= |all| && at <= dest.Length
    ensures Moved(dest, at, 0, all, from)
  {
  }

  // Writing to free memory does not change what the chains hold.
  twostate lemma RootedBesides(new buf: EvBuffer, new dest: array<byte>, new at: nat)
    requires old(allocated(buf)) && old(allocated(dest)) && old(Rooted(buf)) && old(FreeFrom(buf, dest, at))
    requires unchanged(buf) && (forall i :: 0 <= i < |buf.chains| ==> unchanged(buf.chains[i]))
    requires forall i :: 0 <= i < |buf.chains| && buf.chains[i].buffer != dest ==> unchanged(buf.chains[i].buffer)
    requires at <= dest.Length && dest[..at] == old(dest[..at])
    ensures Rooted(buf) && FreeFrom(buf, dest, at)
  {
    hide Segment, Objects;
    if buf.chains != [] {
      DerefSlotOld(buf);
      var c, piece := buf.chains[0], buf.pieces[0];
      assert c.buffer != dest ==> Same(c);
      if c.buffer == dest && dest in buf.store {
        assert dest[c.misalign..c.misalign + c.off] == dest[..at][c.misalign..c.misalign + c.off];
      }
      assert buf.pieces == old(buf.pieces)[0 := piece];
      RootedUpdate(buf, 0, piece);
    }
  }

  twostate lemma DerefSlotOld(new buf: EvBuffer)
    requires old(allocated(buf)) && old(Rooted(buf)) && old(buf.chains) != []
    ensures old(buf.chains[0].Holds(buf.pieces[0])) && old(buf.chains[0].buffer in buf.store)
  {
  }

  // memcpy of the first n bytes of chain k into free memory
  method MovePiece(buf: EvBuffer, chain: Chain, ghost k: nat, n: nat, dest: array<byte>, at: nat, ghost at0: nat,
                   ghost from: nat)
    requires Rooted(buf) && at0 <= at && FreeFrom(buf, dest, at0)
    requires Cursor(buf, chain, k, 0, from + (at - at0)) && n <= |buf.pieces[k]| && at + n <= dest.Length
    requires dest != chain.buffer
    requires Moved(dest, at0, at - at0, buf.Contents(), from)
    modifies dest
    ensures Rooted(buf) && FreeFrom(buf, dest, at0)
    ensures Moved(dest, at0, at - at0 + n, buf.Contents(), from) && dest[..at0] == old(dest[..at0])
  {
    hide Rooted, Flatten, Cursor;
    CursorHere(buf, chain, k, 0, from + (at - at0));
    ghost var all := buf.Contents();
    ghost var piece := buf.pieces[k];
    assert chain.buffer[chain.misalign..chain.misalign + chain.off][..n] == chain.buffer[chain.misalign..chain.misalign + n];
    Memcpy(dest, at, chain.buffer, chain.misalign, n);
    assert dest[at..at + n] == piece[0..0 + n];
    assert dest[at0..at] == dest[..at][at0..] && dest[..at0] == dest[..at][..at0];
    assert dest[at0..at + n] == dest[at0..at] + dest[at..at + n];
    CopyStep(all, from, from + (at - at0), piece, 0, Flatten(buf.pieces[k + 1..]), n);
    RootedBesides(buf, dest, at0);
  }

  // One step of a pull-up: n more bytes, from chain k.
  method PullOne(buf: EvBuffer, chain: Chain, ghost k: nat, n: nat, dest: array<byte>, at0: nat, size: nat, left: nat,
                 ghost from: nat)
    requires Rooted(buf) && FreeFrom(buf, dest, at0) && at0 + size <= dest.Length && (dest in buf.store ==> k > 0)
    requires Cursor(buf, chain, k, 0, from + (size - left)) && k < |buf.chains| && chain == buf.chains[k]
    requires n <= left <= size && n <= |buf.pieces[k]| && Moved(dest, at0, size - left, buf.Contents(), from)
    modifies dest
    ensures Rooted(buf) && FreeFrom(buf, dest, at0) && dest[..at0] == old(dest[..at0])
    ensures Moved(dest, at0, size - left + n, buf.Contents(), from)
  {
    hide Rooted, Flatten, Cursor, FreeFrom, Moved;
    NotDest(buf, dest, at0, k);
    MovePiece(buf, chain, k, n, dest, at0 + (size - left), at0, from);
  }

  // The body of the loop that follows: all of chain k.
  method PullWhole(buf: EvBuffer, chain: Chain, ghost k: nat, dest: array<byte>, at0: nat, size: nat, left: nat,
                   lastWithData: Chain?, ghost from: nat) returns (next: Chain?, isLast: bool, isLastp: bool)
    requires Rooted(buf) && FreeFrom(buf, dest, at0) && at0 + size <= dest.Length && (dest in buf.store ==> k > 0)
    requires 0 < buf.lwd < |buf.chains| && lastWithData == buf.chains[buf.lwd]
    requires buf.lastWithDatap == SlotAt(buf.chains, buf.lwd)
    requires Cursor(buf, chain, k, 0, from + (size - left)) && k < |buf.chains| && chain == buf.chains[k]
    requires |buf.pieces[k]| <= left <= size && Moved(dest, at0, size - left, buf.Contents(), from)
    modifies dest
    ensures Rooted(buf) && FreeFrom(buf, dest, at0) && dest[..at0] == old(dest[..at0])
    ensures chain.off == |buf.pieces[k]| && Moved(dest, at0, size - left + chain.off, buf.Contents(), from)
    ensures Cursor(buf, next, k + 1, 0, from + (size - left) + chain.off)
    ensures isLast == (k == buf.lwd) && isLastp == (k == buf.lwd - 1)
  {
    hide Rooted, Flatten, Cursor, FreeFrom, Moved;
    CursorHere(buf, chain, k, 0, from + (size - left));
    PullOne(buf, chain, k, chain.off, dest, at0, size, left, from);
    CursorHere(buf, chain, k, 0, from + (size - left));
    WhichChain(buf, k);
    return chain.next, chain == lastWithData, NextOf(chain) == buf.lastWithDatap;
  }

  // Copies and frees every chain that is pulled up entirely. Says whether the last chain with data, or the
  // chain whose next pointer last_with_datap is, was among them.
  method PullChains(buf: EvBuffer, chain0: Chain?, ghost k0: nat, dest: array<byte>, at0: nat, size: nat, ghost from: nat)
    returns (chain: Chain?, left: nat, removedLast: bool, removedLastp: bool, ghost k: nat)
    requires Rooted(buf) && DataEndsAt(buf.pieces, buf.lwd) && 0 < buf.lwd
    requires buf.lastWithDatap == SlotAt(buf.chains, buf.lwd)
    requires Cursor(buf, chain0, k0, 0, from) && from + size <= |buf.Contents()|
    requires FreeFrom(buf, dest, at0) && at0 + size <= dest.Length
    requires dest in buf.store ==> k0 > 0
    requires k0 <= buf.lwd
    modifies dest
    ensures Rooted(buf) && k0 <= k && Cursor(buf, chain, k, 0, from + (size - left)) && left <= size
    ensures chain != null ==> left < |buf.pieces[k]|
    ensures chain == null ==> left == 0
    ensures Moved(dest, at0, size, buf.Contents(), from) && dest[..at0] == old(dest[..at0])
    ensures removedLast == (buf.lwd < k) && removedLastp == (k0 <= buf.lwd - 1 < k)
    ensures FreeFrom(buf, dest, at0)
  {
    hide Rooted, Flatten, Cursor, FreeFrom, Moved, DataEndsAt;
    NothingMoved(dest, at0, buf.Contents(), from);
    var lastWithData := Deref(buf, buf.lastWithDatap);
    DerefSlot(buf, buf.lwd);
    chain, left, removedLast, removedLastp, k := chain0, size, false, false, k0;
    CursorHere(buf, chain, k, 0, from);
    while chain != null && left >= chain.off
      invariant Rooted(buf) && k0 <= k && Cursor(buf, chain, k, 0, from + (size - left)) && left <= size
      invariant FreeFrom(buf, dest, at0)
      invariant Moved(dest, at0, size - left, buf.Contents(), from) && dest[..at0] == old(dest[..at0])
      invariant removedLast == (buf.lwd < k) && removedLastp == (k0 <= buf.lwd - 1 < k)
      invariant chain != null ==> k < |buf.chains| && chain == buf.chains[k] && chain.off == |buf.pieces[k]|
      invariant chain == null ==> left == 0
      decreases |buf.chains| - k
    {
      var next, isLast, isLastp := PullWhole(buf, chain, k, dest, at0, size, left, lastWithData, from);
      left := left - chain.off;
      removedLast := removedLast || isLast;
      removedLastp := removedLastp || isLastp;
      chain := next;
      k := k + 1;
      CursorHere(buf, chain, k, 0, from + (size - left));
    }
    if chain != null {
      PullOne(buf, chain, k, left, dest, at0, size, left, from);
    }
  }

  lemma WhichChain(buf: EvBuffer, k: nat)
    requires Rooted(buf) && k < |buf.chains| && 0 < buf.lwd < |buf.chains|
    ensures (buf.chains[k] == buf.chains[buf.lwd]) == (k == buf.lwd)
    ensures (NextOf(buf.chains[k]) == SlotAt(buf.chains, buf.lwd)) == (k == buf.lwd - 1)
  {
  }

  // A chain behind the first one does not lie in the memory that is written to.
  lemma NotDest(buf: EvBuffer, dest: array<byte>, at: nat, k: nat)
    requires Rooted(buf) && FreeFrom(buf, dest, at) && k < |buf.chains|
    requires dest in buf.store ==> k > 0
    ensures dest != buf.chains[k].buffer
  {
  }

  // What is left of the pieces from k on when `left` bytes of piece k are given up.
  ghost function TailPieces(pieces: seq<seq<byte>>, k: nat, left: nat): seq<seq<byte>>
    requires k <= |pieces| && (k < |pieces| ==> left <= |pieces[k]|)
  {
    if k < |pieces| then pieces[k..][0 := pieces[k][left..]] else []
  }

  // The pulled-up bytes and what is left of the pieces from k on.
  lemma PulledPieces(pieces: seq<seq<byte>>, k: nat, left: nat, size: nat, lwd: nat)
    requires DataEndsAt(pieces, lwd) && 0 < k <= |pieces| && 0 < lwd && 0 < size
    requires size <= |Flatten(pieces)| && |Flatten(pieces[..k])| + left == size
    requires if k < |pieces| then left < |pieces[k]| else left == 0
    ensures k < |pieces| ==> k <= lwd
    ensures var head := Flatten(pieces)[..size];
      && Flatten([head] + TailPieces(pieces, k, left)) == Flatten(pieces)
      && DataEndsAt([head] + TailPieces(pieces, k, left), if lwd < k then 0 else lwd - k + 1)
  {
    hide Flatten;
    var head := Flatten(pieces)[..size];
    FlattenAppend([head], TailPieces(pieces, k, left));
    FlattenSingle(head);
    FlattenEmpty([]);
    if k < |pieces| {
      assert k <= lwd;
      DropPieces(pieces, k, left, lwd);
    } else {
      assert pieces[..k] == pieces;
    }
  }

  lemma PulledCompact(pieces: seq<seq<byte>>, k: nat, left: nat, head: seq<byte>, lwd: nat)
    requires 0 < k <= |pieces| && lwd < |pieces| && head != []
    requires if k < |pieces| then left < |pieces[k]| else left == 0
    ensures Compact(pieces, lwd) ==> Compact([head] + TailPieces(pieces, k, left), if lwd < k then 0 else lwd - k + 1)
  {
    var after, end := [head] + TailPieces(pieces, k, left), if lwd < k then 0 else lwd - k + 1;
    if Compact(pieces, lwd) {
      forall i | 0 <= i < end && i < |after| ensures after[i] != [] {
        assert i > 1 ==> after[i] == pieces[k + i - 1];
        assert i == 1 ==> after[i] == pieces[k][left..];
      }
    }
  }

  // tmp goes in front of what is left from chain k on.
  method ReplaceFront(buf: EvBuffer, tmp: Chain, chain: Chain?, ghost k: nat, size: nat, left: nat)
    requires Rooted(buf) && 0 < k <= |buf.chains| && 0 < size <= |buf.Contents()| && chain == ChainAt(buf.chains, k)
    requires if chain != null then left < |buf.pieces[k]| else left == 0
    requires buf.chains[0] == tmp || (tmp !in buf.store && tmp.buffer !in buf.store)
    requires buf !in Objects([tmp])
    requires tmp.misalign + size <= tmp.buffer.Length && 0 < tmp.buffer.Length <= LARGEST
    requires tmp.buffer[tmp.misalign..tmp.misalign + size] == buf.Contents()[..size]
    modifies buf`first, buf`chains, buf`pieces, buf`store, buf.store, tmp
    ensures Rooted(buf) && buf.store <= old(buf.store) + Objects([tmp])
    ensures buf.chains == [tmp] + old(buf.chains[k..])
    ensures buf.pieces == [old(buf.Contents())[..size]] + TailPieces(old(buf.pieces), k, left)
    ensures tmp.misalign == old(tmp.misalign)
  {
    hide Rooted, Flatten, Objects;
    ghost var head := buf.Contents()[..size];
    TmpOutside(buf, tmp, k);
    DropFront(buf, chain, k);
    if chain != null {
      DerefSlot(buf, 0);
      Consume(buf, chain, 0, left);
    }
    tmp.off, tmp.next := size, null;
    SingleList(tmp, head);
    LinkFront(buf, tmp, tmp, [tmp], [head]);
  }

  // The end of evbuffer_pullup: last and last_with_datap after the surgery.
  method PullupRelink(buf: EvBuffer, tmp: Chain, chain: Chain?, ghost k: nat, size: nat, left: nat,
                      removedLast: bool, removedLastp: bool, ghost k0: nat)
    requires buf.Valid() && 0 < buf.lwd && 0 < k && 0 < size <= |buf.Contents()| && left <= size
    requires Cursor(buf, chain, k, 0, size - left)
    requires if chain != null then left < |buf.pieces[k]| else left == 0
    requires buf.chains[0] == tmp || (tmp !in buf.store && tmp.buffer !in buf.store)
    requires buf !in Objects([tmp])
    requires tmp.misalign + size <= tmp.buffer.Length && 0 < tmp.buffer.Length <= LARGEST
    requires tmp.buffer[tmp.misalign..tmp.misalign + size] == buf.Contents()[..size]
    requires k0 == (if buf.chains[0] == tmp then 1 else 0)
    requires removedLast == (buf.lwd < k) && removedLastp == (k0 <= buf.lwd - 1 < k)
    modifies buf`first, buf`last, buf`lastWithDatap, buf`chains, buf`pieces, buf`lwd, buf`store, buf.store, tmp
    ensures buf.Valid() && buf.Contents() == old(buf.Contents())
    ensures buf.chains != [] && buf.chains[0] == tmp && |buf.pieces[0]| == size && tmp.misalign == old(tmp.misalign)
    ensures buf.store <= old(buf.store) + Objects([tmp])
    ensures old(Compact(buf.pieces, buf.lwd)) ==> Compact(buf.pieces, buf.lwd)
    ensures old(Tidy(buf.pieces, buf.lwd)) ==> Tidy(buf.pieces, buf.lwd)
  {
    hide Rooted, Flatten, DataEndsAt, Cursor, Objects, TailPieces, Compact;
    CursorSplit(buf, chain, k, size - left);
    PulledCompact(buf.pieces, k, left, buf.Contents()[..size], buf.lwd);
    PulledPieces(buf.pieces, k, left, size, buf.lwd);
    ghost var was := buf.chains;
    ReplaceFront(buf, tmp, chain, k, size, left);
    Reaim(buf, tmp, chain, k, removedLast, removedLastp, was);
  }

  // The pointers of the buffer when tmp has replaced the first k chains of cs.
  method Reaim(buf: EvBuffer, tmp: Chain, chain: Chain?, ghost k: nat, removedLast: bool, removedLastp: bool,
               ghost cs: seq<Chain>)
    requires Rooted(buf) && 0 < k <= |cs| && 0 < buf.lwd < |cs| && buf.chains == [tmp] + cs[k..]
    requires chain == ChainAt(cs, k)
    requires DataEndsAt(buf.pieces, if buf.lwd < k then 0 else buf.lwd - k + 1)
    requires buf.last == cs[|cs| - 1] && buf.lastWithDatap == SlotAt(cs, buf.lwd)
    requires removedLast == (buf.lwd < k)
    requires removedLastp == ((if cs[0] == tmp then 1 else 0) <= buf.lwd - 1 < k)
    modifies buf`last, buf`lastWithDatap, buf`lwd
    ensures buf.lwd == if old(buf.lwd) < k then 0 else old(buf.lwd) - k + 1
    ensures buf.last == buf.chains[|buf.chains| - 1]
    ensures DataEndsAt(buf.pieces, buf.lwd) && buf.lwd < |buf.chains|
    ensures buf.lastWithDatap == SlotAt(buf.chains, buf.lwd)
  {
    hide Rooted, DataEndsAt;
    TipSlot(cs, tmp, k, buf.lwd);
    if chain == null {
      buf.last := tmp;
    }
    buf.lwd := if buf.lwd < k then 0 else buf.lwd - k + 1;
    if removedLast {
      buf.lastWithDatap := Head;
    } else if removedLastp {
      DerefSlot(buf, 0);
      DerefSlot(buf, 1);
      DataAt(buf.pieces, buf.lwd);
      // the guard of the source, which would fall back to &buf->first, always holds
      assert buf.first.next != null && buf.first.next.off != 0;
      buf.lastWithDatap := NextOf(buf.first);
    }
  }

  lemma DataAt(pieces: seq<seq<byte>>, k: nat)
    requires DataEndsAt(pieces, k) && 0 < k
    ensures k < |pieces| && pieces[k] != []
  {
  }

  lemma CursorSplit(buf: EvBuffer, chain: Chain?, k: nat, at: int)
    requires |buf.chains| == |buf.pieces| && Cursor(buf, chain, k, 0, at)
    ensures k <= |buf.chains| && |Flatten(buf.pieces[..k])| == at && chain == ChainAt(buf.chains, k)
  {
  }

  // The slot of chain i when the chains in front of chain k are replaced by one.
  lemma TipSlot(cs: seq<Chain>, tmp: Chain, k: nat, i: nat)
    requires 0 < k <= |cs| && i < |cs|
    ensures k < i ==> SlotAt([tmp] + cs[k..], i - k + 1) == SlotAt(cs, i)
    ensures k == i ==> SlotAt([tmp] + cs[k..], 1) == NextOf(tmp)
    ensures k == i == 1 && cs[0] == tmp ==> SlotAt([tmp] + cs[k..], 1) == SlotAt(cs, 1)
    ensures ([tmp] + cs[k..])[|cs| - k] == if k == |cs| then tmp else cs[|cs| - 1]
  {
  }

  lemma TmpOutside(buf: EvBuffer, tmp: Chain, k: nat)
    requires Rooted(buf) && 0 < k <= |buf.chains|
    requires buf.chains[0] == tmp || (tmp !in buf.store && tmp.buffer !in buf.store)
    ensures Objects(buf.chains[k..]) !! Objects([tmp])
  {
    assert forall c :: c in buf.chains[k..] ==> c in buf.chains;
    if buf.chains[0] == tmp {
      assert forall i :: k <= i < |buf.chains| ==> buf.chains[i] != tmp && buf.chains[i].buffer != tmp.buffer;
    }
  }

  // evbuffer_pullup of size bytes, or of everything when size is negative. On success the first chain holds at
  // least size bytes contiguously and the address of the first one is returned; the contents never change.
  method Pullup(buf: EvBuffer, wanted: int) returns (result: Pointer)
    requires buf.Valid()
    modifies buf, buf.store
    ensures buf.Valid() && fresh(buf.store - old(buf.store))
    ensures buf.Contents() == old(buf.Contents())
    ensures var size := if wanted < 0 then |buf.Contents()| else wanted;
      && (size == 0 || size > |buf.Contents()| ==> result == Null)
      && (result == Null ==> size == 0 || size > |buf.Contents()| || size > LARGEST || !buf.ample)
      && (result != Null ==>
            && result.offset + size <= result.memory.Length
            && result.memory[result.offset..result.offset + size] == buf.Contents()[..size]
            && buf.chains != [] && |buf.pieces[0]| >= size
            && result == At(buf.chains[0].buffer, buf.chains[0].misalign))
    ensures unchanged(buf`freezeStart, buf`freezeEnd, buf`nAddForCb, buf`nDelForCb)
    ensures old(Compact(buf.pieces, buf.lwd)) ==> Compact(buf.pieces, buf.lwd)
    ensures old(Tidy(buf.pieces, buf.lwd)) ==> Tidy(buf.pieces, buf.lwd)
  {
    hide Rooted, Flatten, DataEndsAt, Cursor, Objects, FreeFrom, Moved, TailPieces, Compact, Tidy;
    var size: nat := if wanted < 0 then buf.totalLen else wanted;
    if size == 0 || size > buf.totalLen {
      return Null;
    }
    CursorFront(buf);
    CursorHere(buf, buf.first, 0, 0, 0);
    var chain := buf.first;
    if chain.off >= size {
      FirstBytes(buf, size);
      return At(chain.buffer, chain.misalign);
    }
    DataBeyond(buf.pieces, buf.lwd, size);
    if chain.buffer.Length - chain.misalign >= size {
      PullupInPlace(buf, chain, size);
      return At(chain.buffer, chain.misalign);
    }
    var tmp := ChainNew(size, buf.ample);
    if tmp == null {
      return Null;
    }
    PullupNewChain(buf, chain, tmp, size);
    return At(tmp.buffer, tmp.misalign);
  }

  lemma FirstBytes(buf: EvBuffer, size: nat)
    requires Rooted(buf) && buf.chains != [] && size <= |buf.pieces[0]|
    ensures var c := buf.chains[0];
      && c.misalign + size <= c.buffer.Length && size <= |buf.Contents()|
      && c.buffer[c.misalign..c.misalign + size] == buf.Contents()[..size]
  {
    var c, piece := buf.chains[0], buf.pieces[0];
    DerefSlot(buf, 0);
    assert c.buffer[c.misalign..c.misalign + size] == piece[..size];
    assert buf.Contents() == piece + Flatten(buf.pieces[1..]);
  }

  // More bytes than the first piece has: there is data behind it.
  lemma DataBeyond(pieces: seq<seq<byte>>, lwd: nat, size: nat)
    requires DataEndsAt(pieces, lwd) && pieces != [] && |pieces[0]| < size <= |Flatten(pieces)|
    ensures 0 < lwd
  {
    if lwd == 0 {
      FlattenEmpty(pieces[1..]);
    }
  }

  // evbuffer_pullup when the first chain has room for size bytes.
  method PullupInPlace(buf: EvBuffer, first: Chain, size: nat)
    requires buf.Valid() && 0 < buf.lwd && first == buf.chains[0]
    requires first.misalign + first.off < first.misalign + size <= first.buffer.Length && size <= |buf.Contents()|
    modifies buf`first, buf`last, buf`lastWithDatap, buf`chains, buf`pieces, buf`lwd, buf`store, buf.store
    ensures buf.Valid() && buf.Contents() == old(buf.Contents()) && buf.store <= old(buf.store)
    ensures buf.chains != [] && buf.chains[0] == first && |buf.pieces[0]| == size
    ensures first.misalign + size <= first.buffer.Length
    ensures first.buffer[first.misalign..first.misalign + size] == buf.Contents()[..size]
    ensures old(Compact(buf.pieces, buf.lwd)) ==> Compact(buf.pieces, buf.lwd)
    ensures old(Tidy(buf.pieces, buf.lwd)) ==> Tidy(buf.pieces, buf.lwd)
  {
    hide Rooted, Flatten, DataEndsAt, Cursor, Objects, FreeFrom, Moved, Compact, Tidy;
    CursorFront(buf);
    DerefSlot(buf, 0);
    CursorHere(buf, first, 0, 0, 0);
    FreeBehind(buf);
    var chain, left, removedLast, removedLastp, k :=
      PullChains(buf, first.next, 1, first.buffer, first.misalign + first.off, size - first.off, first.off);
    FirstBytes(buf, first.off);
    Glue(first.buffer, first.misalign, first.off, size, buf.Contents());
    StoreOf(buf, 0);
    PullupRelink(buf, first, chain, k, size, left, removedLast, removedLastp, 1);
    FirstBytes(buf, size);
  }

  lemma Glue(memory: array<byte>, at: nat, n: nat, size: nat, all: seq<byte>)
    requires n <= size <= |all| && at + size <= memory.Length
    requires memory[at..at + n] == all[..n] && Moved(memory, at + n, size - n, all, n)
    ensures memory[at..at + size] == all[..size]
  {
    assert memory[at..at + size] == memory[at..at + n] + memory[at + n..at + n + (size - n)];
    assert all[..size] == all[..n] + all[n..n + (size - n)];
  }

  lemma FreeBehind(buf: EvBuffer)
    requires Rooted(buf) && buf.chains != []
    ensures FreeFrom(buf, buf.chains[0].buffer, buf.chains[0].misalign + buf.chains[0].off)
  {
  }

  lemma StoreOf(buf: EvBuffer, k: nat)
    requires Rooted(buf) && k < |buf.chains|
    ensures Objects([buf.chains[k]]) <= buf.store
  {
    assert buf.chains[k] in buf.chains;
  }

  // evbuffer_pullup into a new chain.
  method PullupNewChain(buf: EvBuffer, first: Chain, tmp: Chain, size: nat)
    requires buf.Valid() && 0 < buf.lwd && first == buf.chains[0] && |buf.pieces[0]| < size <= |buf.Contents()|
    requires Objects([tmp]) !! buf.store && buf !in Objects([tmp])
    requires tmp.misalign == 0 && size <= tmp.buffer.Length && 0 < tmp.buffer.Length <= LARGEST
    modifies buf`first, buf`last, buf`lastWithDatap, buf`chains, buf`pieces, buf`lwd, buf`store, buf.store, tmp, tmp.buffer
    ensures buf.Valid() && buf.Contents() == old(buf.Contents()) && buf.store <= old(buf.store) + Objects([tmp])
    ensures buf.chains != [] && buf.chains[0] == tmp && |buf.pieces[0]| == size
    ensures tmp.misalign == 0 && tmp.buffer[..size] == buf.Contents()[..size]
    ensures old(Compact(buf.pieces, buf.lwd)) ==> Compact(buf.pieces, buf.lwd)
    ensures old(Tidy(buf.pieces, buf.lwd)) ==> Tidy(buf.pieces, buf.lwd)
  {
    hide Rooted, Flatten, DataEndsAt, Cursor, Objects, FreeFrom, Compact, Tidy;
    CursorFront(buf);
    DerefSlot(buf, 0);
    FreeOutside(buf, tmp.buffer);
    assert tmp in [tmp] && buf.chains[0] in buf.chains;
    var chain, left, removedLast, removedLastp, k := PullChains(buf, first, 0, tmp.buffer, 0, size, 0);
    assert tmp.buffer[0..0 + size] == tmp.buffer[..size];
    CursorSplit(buf, chain, k, size - left);
    EmptyPrefix(buf.pieces);
    PullupRelink(buf, tmp, chain, k, size, left, removedLast, removedLastp, 0);
    FirstBytes(buf, size);
  }

  lemma FreeOutside(buf: EvBuffer, dest: array<byte>)
    requires Rooted(buf) && dest !in buf.store
    ensures FreeFrom(buf, dest, 0)
  {
  }
}
