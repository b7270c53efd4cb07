/** Taking bytes off the front of an evbuffer: evbuffer_drain, evbuffer_copyout, evbuffer_remove. */
module EvBufferDrain {
  import opened Bytes
  import opened EvBufferCore

  function Min(a: nat, b: nat): nat { if a <= b then a else b }

  // ZERO_CHAIN, after every chain has been freed
  method ZeroChain(buf: EvBuffer)
    modifies buf`first, buf`last, buf`lastWithDatap, buf`totalLen, buf`chains, buf`pieces, buf`lwd, buf`store
    ensures buf.Valid() && buf.Contents() == [] && buf.store == {} && buf.chains == []
    ensures Compact(buf.pieces, buf.lwd) && Tidy(buf.pieces, buf.lwd)
  {
    buf.first, buf.last, buf.lastWithDatap, buf.totalLen := null, null, Head, 0;
    buf.chains, buf.pieces, buf.lwd, buf.store := [], [], 0, {};
  }

  // The list now starts at chain k.
  method DropFront(buf: EvBuffer, chain: Chain?, ghost k: nat)
    requires Rooted(buf) && k <= |buf.chains| && chain == ChainAt(buf.chains, k)
    modifies buf`first, buf`chains, buf`pieces, buf`store
    ensures Rooted(buf) && buf.chains == old(buf.chains[k..]) && buf.pieces == old(buf.pieces[k..])
    ensures buf.store <= old(buf.store)
  {
    hide Separate, Stored, Segment, Objects;
    ghost var cs, ps := buf.chains[k..], buf.pieces[k..];
    SegmentSplit(buf.chains, k, null);
    SeparateParts(buf.chains, k);
    StoredParts(buf.chains, buf.pieces, k);
    ObjectsJoin(buf.chains[..k], cs);
    assert buf.chains == buf.chains[..k] + cs;
    buf.first := chain;
    buf.chains, buf.pieces, buf.store := cs, ps, Objects(cs);
    SegmentSame(cs, null);
    StoredSame(cs, ps);
  }

  // The first n bytes of chain k are given up.
  method Consume(buf: EvBuffer, chain: Chain, ghost k: nat, n: nat)
    requires Rooted(buf) && k < |buf.chains| && chain == buf.chains[k] && n <= |buf.pieces[k]|
    modifies buf`pieces, chain`misalign, chain`off
    ensures Rooted(buf) && buf.pieces == old(buf.pieces)[k := old(buf.pieces[k])[n..]]
  {
    hide Segment, Objects;
    DerefSlot(buf, k);
    ghost var piece := buf.pieces[k][n..];
    chain.misalign := chain.misalign + n;
    chain.off := chain.off - n;
    buf.pieces := buf.pieces[k := piece];
    assert chain.buffer[chain.misalign..chain.misalign + chain.off] == piece;
    RootedUpdate(buf, k, piece);
  }

  // Dropping k pieces and n bytes of the next one drops that many bytes of the whole.
  lemma DropPieces(pieces: seq<seq<byte>>, k: nat, n: nat, lwd: nat)
    requires k < |pieces| && n <= |pieces[k]| && DataEndsAt(pieces, lwd) && k <= lwd
    ensures var m := |Flatten(pieces[..k])| + n; var rest := pieces[k..][0 := pieces[k][n..]];
      && m <= |Flatten(pieces)| && Flatten(rest) == Flatten(pieces)[m..]
      && DataEndsAt(rest, lwd - k)
  {
    var rest := pieces[k..][0 := pieces[k][n..]];
    FlattenAt(pieces, k);
    assert rest[0] == pieces[k][n..] && rest[1..] == pieces[k + 1..];
    assert Flatten(rest) == pieces[k][n..] + Flatten(pieces[k + 1..]);
  }

  lemma DropCompact(pieces: seq<seq<byte>>, k: nat, n: nat, lwd: nat)
    requires k < |pieces| && n < |pieces[k]| && k <= lwd
    ensures Compact(pieces, lwd) ==> Compact(pieces[k..][0 := pieces[k][n..]], lwd - k)
  {
  }

  // As long as less than everything has been taken, the walk has not passed the last chain with data.
  lemma WalkBound(pieces: seq<seq<byte>>, j: nat, lwd: nat)
    requires j <= |pieces| && DataEndsAt(pieces, lwd)
    requires |Flatten(pieces[..j])| < |Flatten(pieces)|
    ensures j <= lwd && j < |pieces|
    ensures Flatten(pieces[..j + 1]) == Flatten(pieces[..j]) + pieces[j]
  {
    FlattenSplit(pieces, j);
    if lwd < j {
      FlattenEmpty(pieces[j..]);
    }
    assert pieces[..|pieces|] == pieces;
    FlattenTake(pieces, j);
  }

  // The loop of evbuffer_drain, and of evbuffer_remove_buffer: walks over the chains that are emptied,
  // re-homing last_with_datap; previous is the chain before the one the walk stops at.
  method DrainWalk(buf: EvBuffer, len: nat) returns (chain: Chain, previous: Chain, remaining: nat, ghost k: nat)
    requires Rooted(buf) && DataEndsAt(buf.pieces, buf.lwd) && buf.lastWithDatap == SlotAt(buf.chains, buf.lwd)
    requires len < |buf.Contents()|
    modifies buf`lastWithDatap
    ensures Rooted(buf) && k < |buf.chains| && k <= buf.lwd && chain == buf.chains[k]
    ensures previous == buf.chains[if k == 0 then 0 else k - 1]
    ensures remaining < |buf.pieces[k]| && |Flatten(buf.pieces[..k])| + remaining == len
    ensures buf.lastWithDatap == if k == buf.lwd then Head else SlotAt(buf.chains, buf.lwd)
  {
    hide Rooted, Flatten, DataEndsAt;
    var next := buf.first;
    remaining, k := len, 0;
    DerefSlot(buf, 0);
    EmptyPrefix(buf.pieces);
    WalkBound(buf.pieces, 0, buf.lwd);
    previous := next;
    while remaining >= next.off
      invariant Rooted(buf) && k <= buf.lwd && k < |buf.chains| && next == buf.chains[k]
      invariant next.off == |buf.pieces[k]| && previous == buf.chains[if k == 0 then 0 else k - 1]
      invariant |Flatten(buf.pieces[..k])| + remaining == len
      invariant buf.lastWithDatap == if k == buf.lwd then Head else SlotAt(buf.chains, buf.lwd)
      decreases |buf.chains| - k
    {
      previous := next;
      remaining := remaining - next.off;
      next := DrainStep(buf, next, len, remaining, k);
      k := k + 1;
    }
    chain := next;
  }

  // The body of the loop: chain k is emptied.
  method DrainStep(buf: EvBuffer, here: Chain, ghost len: nat, ghost remaining: nat, ghost k: nat) returns (next: Chain)
    requires Rooted(buf) && DataEndsAt(buf.pieces, buf.lwd) && len < |buf.Contents()|
    requires k <= buf.lwd && k < |buf.chains| && here == buf.chains[k]
    requires |Flatten(buf.pieces[..k])| + |buf.pieces[k]| + remaining == len
    requires buf.lastWithDatap == if k == buf.lwd then Head else SlotAt(buf.chains, buf.lwd)
    modifies buf`lastWithDatap
    ensures Rooted(buf) && k < buf.lwd < |buf.chains| && next == buf.chains[k + 1] && next.off == |buf.pieces[k + 1]|
    ensures |Flatten(buf.pieces[..k + 1])| + remaining == len
    ensures buf.lastWithDatap == if k + 1 == buf.lwd then Head else SlotAt(buf.chains, buf.lwd)
  {
    hide Rooted, Flatten, DataEndsAt;
    WalkBound(buf.pieces, k, buf.lwd);
    WalkBound(buf.pieces, k + 1, buf.lwd);
    DerefSlot(buf, k + 1);
    NextChain(buf, k);
    next := here.next;
    DerefSlot(buf, buf.lwd);
    Distinct(buf, k, buf.lwd);
    if k != buf.lwd - 1 {
      Distinct(buf, k, buf.lwd - 1);
    }
    // the last chain with data itself is only freed by the other branch of evbuffer_drain
    assert Deref(buf, buf.lastWithDatap) != here;
    if buf.lastWithDatap == NextOf(here) {
      buf.lastWithDatap := Head;
    }
  }

  lemma EmptyPrefix(pieces: seq<seq<byte>>)
    ensures Flatten(pieces[..0]) == []
  {
  }

  // evbuffer_drain
  method Drain(buf: EvBuffer, len: nat) returns (r: int)
    requires buf.Valid()
    modifies buf, buf.store
    ensures buf.Valid() && buf.store <= old(buf.store)
    ensures r == if buf.freezeStart && old(buf.Contents()) != [] then -1 else 0
    ensures var taken := if r == 0 then Min(len, old(|buf.Contents()|)) else 0;
      && buf.Contents() == old(buf.Contents())[taken..]
      && buf.nDelForCb == old(buf.nDelForCb) + taken
    ensures unchanged(buf`freezeStart, buf`freezeEnd, buf`nAddForCb)
    ensures old(Compact(buf.pieces, buf.lwd)) ==> Compact(buf.pieces, buf.lwd)
    ensures old(Tidy(buf.pieces, buf.lwd)) ==> Tidy(buf.pieces, buf.lwd)
  {
    hide Rooted, Flatten, DataEndsAt;
    var oldLen := buf.totalLen;
    if oldLen == 0 {
      return 0;
    }
    if buf.freezeStart {
      return -1;
    }
    if len >= oldLen {
      ZeroChain(buf);
      buf.nDelForCb := buf.nDelForCb + oldLen;
    } else {
      DrainPart(buf, len);
      buf.nDelForCb := buf.nDelForCb + len;
    }
    return 0;
  }

  // The branch of evbuffer_drain that leaves some data.
  method DrainPart(buf: EvBuffer, len: nat)
    requires buf.Valid() && len < |buf.Contents()|
    modifies buf`first, buf`lastWithDatap, buf`totalLen, buf`chains, buf`pieces, buf`lwd, buf`store, buf.store
    ensures buf.Valid() && buf.store <= old(buf.store)
    ensures buf.Contents() == old(buf.Contents())[len..]
    ensures old(Compact(buf.pieces, buf.lwd)) ==> Compact(buf.pieces, buf.lwd)
    ensures old(Tidy(buf.pieces, buf.lwd)) ==> Tidy(buf.pieces, buf.lwd)
  {
    hide Rooted, Flatten, DataEndsAt, Compact;
    buf.totalLen := buf.totalLen - len;
    var chain, _, remaining, k := DrainWalk(buf, len);
    DropPieces(buf.pieces, k, remaining, buf.lwd);
    DropCompact(buf.pieces, k, remaining, buf.lwd);
    DropFront(buf, chain, k);
    DerefSlot(buf, 0);
    Consume(buf, chain, 0, remaining);
    buf.lwd := buf.lwd - k;
  }

  // Copying n more bytes of what is left extends the copied part.
  lemma CopyStep(all: seq<byte>, from: nat, to: nat, piece: seq<byte>, i: nat, rest: seq<byte>, n: nat)
    requires from <= to <= |all| && i + n <= |piece| && all[to..] == piece[i..] + rest
    ensures to + n <= |all| && all[from..to] + piece[i..i + n] == all[from..to + n]
  {
    assert |all[to..]| == |all| - to;
    assert all[to..to + n] == all[to..][..n] == piece[i..i + n];
    assert all[from..to + n] == all[from..to] + all[to..to + n];
  }

  // The first n bytes of out are those of all from offset from on.
  ghost predicate Copied(out: array<byte>, n: nat, all: seq<byte>, from: nat)
    reads out
  {
    n <= out.Length && from + n <= |all| && out[..n] == all[from..from + n]
  }

  lemma NothingCopied(out: array<byte>, all: seq<byte>, from: nat)
    requires from <= |all|
    ensures Copied(out, 0, all, from)
  {
  }

  // memcpy from the bytes of one chain to the caller's memory
  method CopyOutPiece(chain: Chain, i: nat, n: nat, out: array<byte>, at: nat, ghost piece: seq<byte>,
                      ghost all: seq<byte>, ghost from: nat, ghost rest: seq<byte>)
    requires chain.Holds(piece) && i + n <= |piece| && at + n <= out.Length && out != chain.buffer
    requires Copied(out, at, all, from) && all[from + at..] == piece[i..] + rest
    modifies out
    ensures Copied(out, at + n, all, from)
  {
    CopyStep(all, from, from + at, piece, i, rest, n);
    var start := chain.misalign + i;
    PartOfPart(chain.buffer, chain.misalign, chain.misalign + chain.off, i, i + n);
    Memcpy(out, at, chain.buffer, start, n);
    assert out[..at + n] == out[..at] + out[at..at + n];
  }

  // Where to copy from: the front of the buffer (a null pointer) or a position in it
  datatype Start = Front | From(ptr: Ptr)
  {
    function Pos(): int { if Front? then 0 else ptr.pos }
  }

  // evbuffer_copyout_from, copying to the front of out. A position and a length whose sum is no ssize_t are refused.
  method CopyOutFrom(buf: EvBuffer, pos: Start, ghost k0: nat, out: array<byte>, datlen: nat) returns (r: int)
    requires buf.Valid() && (pos.From? ==> Cursor(buf, pos.ptr.chain, k0, pos.ptr.posInChain, pos.ptr.pos))
    requires out !in buf.store && datlen <= out.Length
    modifies out
    ensures buf.Valid() && buf.Contents() == old(buf.Contents())
    ensures var n := Min(datlen, |buf.Contents()| - pos.Pos());
      && r == (if pos.From? && datlen > CHAIN_MAX - pos.ptr.pos then -1 else if n > 0 && buf.freezeStart then -1 else n)
      && (r >= 0 ==> Copied(out, r, buf.Contents(), pos.Pos()))
  {
    hide Rooted, Flatten, DataEndsAt, Cursor;
    CursorFront(buf);
    if pos.From? {
      CursorHere(buf, pos.ptr.chain, k0, pos.ptr.posInChain, pos.ptr.pos);
      if datlen > CHAIN_MAX - pos.ptr.pos {
        return -1;
      }
      r := CopyOutHere(buf, pos.ptr, k0, out, datlen);
    } else {
      r := CopyOutHere(buf, Ptr(0, buf.first, 0), 0, out, datlen);
    }
  }

  method CopyOutHere(buf: EvBuffer, start: Ptr, ghost k0: nat, out: array<byte>, datlen: nat) returns (r: int)
    requires buf.Valid() && Cursor(buf, start.chain, k0, start.posInChain, start.pos)
    requires out !in buf.store && datlen <= out.Length
    modifies out
    ensures buf.Valid() && buf.Contents() == old(buf.Contents())
    ensures var n := Min(datlen, |buf.Contents()| - start.pos);
      && r == (if n > 0 && buf.freezeStart then -1 else n)
      && (r >= 0 ==> Copied(out, r, buf.Contents(), start.pos))
  {
    hide Rooted, Flatten, DataEndsAt;
    CursorHere(buf, start.chain, k0, start.posInChain, start.pos);
    var left: nat := if datlen + start.pos > buf.totalLen then buf.totalLen - start.pos else datlen;
    if left == 0 {
      return 0;
    }
    if buf.freezeStart {
      return -1;
    }
    CopyLoop(buf, start, k0, out, left);
    return left;
  }

  // The loop of evbuffer_copyout_from.
  method CopyLoop(buf: EvBuffer, start: Ptr, ghost k0: nat, out: array<byte>, nread: nat)
    requires Rooted(buf) && Cursor(buf, start.chain, k0, start.posInChain, start.pos)
    requires out !in buf.store && nread <= out.Length && start.pos + nread <= |buf.Contents()|
    modifies out
    ensures Rooted(buf) && 0 <= start.pos && Copied(out, nread, buf.Contents(), start.pos)
  {
    hide Rooted, Flatten, Copied, Cursor, Chain.Holds;
    ghost var all, k: nat := buf.Contents(), k0;
    var chain, posInChain: nat, left: nat, done: nat := start.chain, start.posInChain, nread, 0;
    CursorHere(buf, chain, k, posInChain, start.pos);
    ghost var from: nat := start.pos;
    NothingCopied(out, all, from);
    while left > 0 && left >= chain.off - posInChain
      invariant Rooted(buf) && Cursor(buf, chain, k, posInChain, from + done)
      invariant done + left == nread && buf.Contents() == all && Copied(out, done, all, from)
      invariant left > 0 ==> chain != null
      invariant chain != null ==> posInChain <= chain.off
      decreases left, |buf.chains| - k
    {
      CursorHere(buf, chain, k, posInChain, from + done);
      var copylen := chain.off - posInChain;
      CopyOutPiece(chain, posInChain, copylen, out, done, buf.pieces[k], all, from, Flatten(buf.pieces[k + 1..]));
      done, left := done + copylen, left - copylen;
      chain, posInChain := chain.next, 0;
      k := k + 1;
      CursorHere(buf, chain, k, 0, from + done);
    }
    if left > 0 {
      CursorHere(buf, chain, k, posInChain, from + done);
      CopyOutPiece(chain, posInChain, left, out, done, buf.pieces[k], all, from, Flatten(buf.pieces[k + 1..]));
    }
  }

  // evbuffer_remove
  method Remove(buf: EvBuffer, out: array<byte>, datlen: nat) returns (n: int)
    requires buf.Valid() && out !in buf.store && datlen <= out.Length
    modifies buf, buf.store, out
    ensures buf.Valid() && buf.store <= old(buf.store)
    ensures var m := Min(datlen, old(|buf.Contents()|));
      && n == (if m > 0 && buf.freezeStart then -1 else m)
      && (n >= 0 ==> Copied(out, n, old(buf.Contents()), 0) && buf.Contents() == old(buf.Contents())[n..])
      && (n < 0 ==> buf.Contents() == old(buf.Contents()))
    ensures unchanged(buf`freezeStart, buf`freezeEnd, buf`nAddForCb)
    ensures old(Compact(buf.pieces, buf.lwd)) ==> Compact(buf.pieces, buf.lwd)
    ensures old(Tidy(buf.pieces, buf.lwd)) ==> Tidy(buf.pieces, buf.lwd)
  {
    hide Rooted, Flatten, DataEndsAt, Copied, Cursor, Compact, Tidy;
    n := CopyOutFrom(buf, Front, 0, out, datlen);
    if n > 0 {
      var drained := Drain(buf, n);
      if drained < 0 {
        n := -1;
      }
    }
  }
}
