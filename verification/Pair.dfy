/** Bufferevent pairs (bufferevent_pair.c): two ends, each of whose output becomes the other's input. */
module Pair {
  import opened Bytes
  import opened EvBufferCore
  import opened EvBufferAdd
  import opened EvBufferDrain
  import opened EvBufferMove
  import opened EvBufferTransfer

  // A size_t.
  type Size = n: nat | n <= SIZE_MAX

  // struct bufferevent_pair, as far as its buffers are concerned
  class End {
    const input: EvBuffer
    const output: EvBuffer
    var readEnabled: bool
    var writeEnabled: bool
    // the bits of read_suspended: BEV_SUSPEND_WM, and all others
    var wmSuspended: bool
    var suspended: bool
    var high: Size
    // everything that was ever written to this end and read from it; lossy once a transfer from this end has run
    // out of memory half way
    ghost var written: seq<byte>
    ghost var taken: seq<byte>
    ghost var lossy: bool

    // bufferevent_pair_elt_new: the other end adds to the input and takes from the output, so these are frozen.
    constructor (ample: bool)
      ensures input.ample == ample && output.ample == ample
      ensures Ready() && fresh(input) && fresh(output) && !lossy
      ensures written == [] && taken == [] && input.Contents() == [] && output.Contents() == []
      ensures input.store == {} && output.store == {} && input != output
      ensures !readEnabled && writeEnabled && !wmSuspended && !suspended && high == 0
    {
      hide EvBuffer.Valid, Flatten;
      var i := new EvBuffer(ample);
      SetFrozen(i, false, true);
      var o := new EvBuffer(ample);
      SetFrozen(o, true, true);
      input, output := i, o;
      readEnabled, writeEnabled, wmSuspended, suspended, high := false, true, false, false, 0;
      written, taken, lossy := [], [], false;
    }

    ghost predicate Ready()
      reads input, input.store, output, output.store
    {
      && input.Valid() && output.Valid() && Apart(input, output) && this !in input.store && this !in output.store
      && input.freezeEnd && !input.freezeStart && output.freezeStart && !output.freezeEnd
      && Compact(output.pieces, output.lwd)
    }

    // Reading is suspended for the watermark exactly as long as the input has reached it.
    ghost predicate Marked()
      reads `wmSuspended, `high, input`pieces
    {
      wmSuspended <==> high != 0 && |input.Contents()| >= high
    }
  }

  ghost function Stores(a: End): set<object>
    reads a.input, a.output
  {
    {a.input, a.output} + a.input.store + a.output.store
  }

  // The two ends of a pair share nothing.
  ghost predicate Linked(a: End, b: End)
    reads a.input, a.input.store, a.output, a.output.store, b.input, b.input.store, b.output, b.output.store
  {
    && a != b && a.Ready() && b.Ready() && Stores(a) !! Stores(b)
    && a !in Stores(b) && b !in Stores(a)
  }

  // In every state, what the reader has taken, what waits in its input and what waits in the writer's output is all
  // that was written, in order.
  ghost predicate Channel(writer: End, reader: End)
    reads writer`lossy, writer`written, writer.output`pieces, reader`taken, reader.input`pieces
  {
    writer.lossy || reader.taken + reader.input.Contents() + writer.output.Contents() == writer.written
  }

  // Nothing waits that may go.
  ghost predicate Idle(writer: End, reader: End)
    reads writer, writer.output, reader
  {
    writer.lossy || !WantsToTalk(writer, reader)
  }

  ghost predicate Coupled(a: End, b: End)
    reads a, a.input, a.input.store, a.output, a.output.store, b, b.input, b.input.store, b.output, b.output.store
  {
    Linked(a, b) && Channel(a, b) && Channel(b, a) && a.Marked() && b.Marked()
  }

  ghost predicate Paired(a: End, b: End)
    reads a, a.input, a.input.store, a.output, a.output.store, b, b.input, b.input.store, b.output, b.output.store
  {
    Coupled(a, b) && Idle(a, b) && Idle(b, a)
  }

  // n bytes went from the front of one buffer (out before, then out1) to the end of another (in0, then in1).
  ghost predicate Handed(out0: seq<byte>, out1: seq<byte>, in0: seq<byte>, in1: seq<byte>, n: nat, lossy: bool)
  {
    && n <= |out0| && out1 == out0[n..] && |in1| <= |in0| + n && (!lossy ==> in1 == in0 + out0[..n])
  }

  // How many bytes be_pair_transfer moves.
  function Amount(high: nat, inLen: nat, outLen: nat, ignoreWm: bool): (n: nat)
    ensures n <= outLen && (n < outLen ==> high != 0 && inLen + n >= high)
    ensures high != 0 && inLen < high ==> inLen + n <= high
    ensures high != 0 && inLen >= high ==> n == if ignoreWm then outLen else 0
  {
    if high == 0 then outLen
    else if inLen < high then Min(high - inLen, outLen)
    else if ignoreWm then outLen else 0
  }

  // The bytes of be_pair_transfer: the first n of the source go behind those of the destination. It returns false when
  // memory ran out half way; what evbuffer_remove_buffer could not copy is then lost.
  method MoveBytes(src: EvBuffer, dst: EvBuffer, n: nat, all: bool) returns (lossless: bool)
    requires src.Valid() && dst.Valid() && Apart(dst, src) && !src.freezeStart && !dst.freezeEnd
    requires Compact(src.pieces, src.lwd) && (all ==> n == |src.Contents()|)
    modifies src, src.store, dst, dst.store
    ensures src.Valid() && dst.Valid() && Apart(dst, src) && Compact(src.pieces, src.lwd)
    ensures fresh((src.store + dst.store) - (old(src.store) + old(dst.store)))
    ensures unchanged(src`freezeStart, src`freezeEnd, dst`freezeStart, dst`freezeEnd)
    ensures src.Contents() == old(src.Contents())[Min(n, old(|src.Contents()|))..]
    ensures |dst.Contents()| <= old(|dst.Contents()|) + Min(n, old(|src.Contents()|))
    ensures lossless ==> dst.Contents() == old(dst.Contents()) + old(src.Contents())[..Min(n, old(|src.Contents()|))]
    ensures all || (dst.ample && old(|dst.Contents()|) + n <= SIZE_MAX) ==> lossless
  {
    hide Rooted, Flatten, DataEndsAt, Compact, TransferAllowed;
    if all {
      var r := AddBuffer(dst, src);
      EmptyCompact(src.pieces, src.lwd);
      assert old(src.Contents())[..|old(src.Contents())|] == old(src.Contents());
      return true;
    }
    CompactAllowed(src, dst, n);
    var r, added := RemoveBuffer(src, dst, n);
    assert n == 0 ==> dst.Contents() + [] == dst.Contents();
    lossless := n == 0 || added == 0;
  }

  // be_pair_transfer, as far as the buffers are concerned
  method TransferBuffers(from: EvBuffer, to: EvBuffer, high: nat, ignoreWm: bool) returns (lossless: bool)
    requires from.Valid() && to.Valid() && Apart(to, from) && Compact(from.pieces, from.lwd)
    requires from.freezeStart && to.freezeEnd
    modifies from, from.store, to, to.store
    ensures from.Valid() && to.Valid() && Apart(to, from) && Compact(from.pieces, from.lwd)
    ensures fresh((from.store + to.store) - (old(from.store) + old(to.store)))
    ensures unchanged(from`freezeStart, from`freezeEnd, to`freezeStart, to`freezeEnd)
    ensures var n := Amount(high, old(|to.Contents()|), old(|from.Contents()|), ignoreWm);
      && from.Contents() == old(from.Contents())[n..]
      && |to.Contents()| <= old(|to.Contents()|) + n
      && (lossless ==> to.Contents() == old(to.Contents()) + old(from.Contents())[..n])
    ensures to.ample && high <= SIZE_MAX ==> lossless
  {
    hide EvBuffer.Valid, Compact, Flatten;
    SetFrozen(from, true, false);
    SetFrozen(to, false, false);
    LengthOf(from);
    LengthOf(to);
    lossless := true;
    if high != 0 {
      var size := to.totalLen;
      if size < high {
        lossless := MoveBytes(from, to, high - size, false);
      } else if ignoreWm {
        lossless := MoveBytes(from, to, from.totalLen, true);
      } else {
        NothingMoved(from.Contents(), to.Contents());
      }
    } else {
      lossless := MoveBytes(from, to, from.totalLen, true);
    }
    SetFrozen(from, true, true);
    SetFrozen(to, false, true);
  }

  lemma NothingMoved(a: seq<byte>, b: seq<byte>)
    ensures a[0..] == a && b + a[..0] == b
  {
  }

  lemma NoneHanded(out: seq<byte>, waiting: seq<byte>, lossy: bool)
    ensures Handed(out, out, waiting, waiting, 0, lossy)
  {
    NothingMoved(out, waiting);
  }

  // be_pair_transfer: bytes move from the output of src to the input of dst, up to its high watermark. The callback
  // bufferevent_inbuf_wm_cb of the input then suspends reading, or resumes it; nothing is left to be moved in this case.
  method Transfer(src: End, dst: End, ignoreWm: bool)
    requires Coupled(src, dst)
    modifies src.output, src.output.store, dst.input, dst.input.store, src`lossy, dst`wmSuspended
    ensures Coupled(src, dst) && Idle(src, dst)
    ensures fresh((src.output.store + dst.input.store) - (old(src.output.store) + old(dst.input.store)))
    ensures old(src.lossy) ==> src.lossy
    ensures Handed(old(src.output.Contents()), src.output.Contents(), old(dst.input.Contents()), dst.input.Contents(),
                   Amount(dst.high, old(|dst.input.Contents()|), old(|src.output.Contents()|), ignoreWm), src.lossy)
    ensures dst.input.ample ==> src.lossy == old(src.lossy)
  {
    hide EvBuffer.Valid, Compact, Flatten;
    ghost var n := Amount(dst.high, |dst.input.Contents()|, |src.output.Contents()|, ignoreWm);
    Conserved(dst.taken, dst.input.Contents(), src.output.Contents(), n);
    LengthOf(dst.input);
    var before := dst.input.totalLen;
    var lossless := TransferBuffers(src.output, dst.input, dst.high, ignoreWm);
    LengthOf(src.output);
    LengthOf(dst.input);
    if dst.high != 0 && dst.input.totalLen != before {
      dst.wmSuspended := dst.input.totalLen >= dst.high;
    }
    if !lossless {
      src.lossy := true;
    }
  }

  lemma Conserved(taken: seq<byte>, waiting: seq<byte>, out: seq<byte>, n: nat)
    requires n <= |out|
    ensures taken + (waiting + out[..n]) + out[n..] == taken + waiting + out
  {
  }

  // be_pair_wants_to_talk
  predicate WantsToTalk(src: End, dst: End)
    reads src, dst, src.output
  {
    src.writeEnabled && dst.readEnabled && !dst.wmSuspended && !dst.suspended && src.output.totalLen > 0
  }

  // bufferevent_pair_new
  method NewPair(ample: bool) returns (a: End, b: End)
    ensures a.input.ample == a.output.ample == b.input.ample == b.output.ample == ample
    ensures Paired(a, b) && fresh(a) && fresh(b) && fresh(Stores(a)) && fresh(Stores(b))
    ensures forall e :: e in {a, b} ==>
      && e.written == [] && e.taken == [] && e.input.Contents() == [] && e.output.Contents() == [] && !e.lossy
      && !e.readEnabled && e.writeEnabled && !e.wmSuspended && !e.suspended && e.high == 0
  {
    hide EvBuffer.Valid, Compact, Flatten;
    a := new End(ample);
    b := new End(ample);
  }

  // How many bytes go to the other end when this one may talk: writing is enabled there, reading here.
  function Moves(talks: bool, high: nat, inLen: nat, outLen: nat): (n: nat)
    ensures n <= outLen && (!talks ==> n == 0) && (talks && n < outLen ==> high != 0 && inLen + n >= high)
    ensures high != 0 ==> inLen + n <= high || n == 0
  {
    if talks then Amount(high, inLen, outLen, false) else 0
  }

  // Writing at one end and reading at the other are enabled, and nothing but the watermark may suspend reading.
  predicate Open(src: End, dst: End)
    reads src`writeEnabled, dst`readEnabled, dst`suspended
  {
    src.writeEnabled && dst.readEnabled && !dst.suspended
  }

  // Bytes move if the other end may take them.
  method Talk(src: End, dst: End)
    requires Coupled(src, dst)
    modifies src.output, src.output.store, dst.input, dst.input.store, src`lossy, dst`wmSuspended
    ensures Coupled(src, dst) && Idle(src, dst)
    ensures fresh((src.output.store + dst.input.store) - (old(src.output.store) + old(dst.input.store)))
    ensures old(src.lossy) ==> src.lossy
    ensures Handed(old(src.output.Contents()), src.output.Contents(), old(dst.input.Contents()), dst.input.Contents(),
                   Moves(Open(src, dst), dst.high, old(|dst.input.Contents()|), old(|src.output.Contents()|)), src.lossy)
    ensures dst.input.ample ==> src.lossy == old(src.lossy)
    ensures dst.high != 0 ==> |dst.input.Contents()| <= dst.high || |dst.input.Contents()| <= old(|dst.input.Contents()|)
    ensures !(src.writeEnabled && dst.readEnabled && !dst.suspended && !old(dst.wmSuspended)) ==>
      src.output.Contents() == old(src.output.Contents()) && dst.input.Contents() == old(dst.input.Contents())
    ensures src.writeEnabled && dst.readEnabled && !dst.suspended && !old(dst.wmSuspended) && !src.lossy ==>
      src.output.Contents() == [] || (dst.high != 0 && |dst.input.Contents()| >= dst.high)
  {
    hide EvBuffer.Valid, Compact, Flatten, Channel;
    LengthOf(src.output);
    NothingMoved(src.output.Contents(), dst.input.Contents());
    if WantsToTalk(src, dst) {
      Transfer(src, dst, false);
    }
  }

  // bufferevent_write, and be_pair_outbuf_cb for the data that was added: it is handed over at once if the other end
  // reads.
  method Write(src: End, dst: End, data: seq<byte>) returns (r: int)
    requires Paired(src, dst)
    modifies src.output, src.output.store, dst.input, dst.input.store, src`lossy, src`written, dst`wmSuspended
    ensures Paired(src, dst) && (old(src.lossy) ==> src.lossy)
    ensures fresh((src.output.store + dst.input.store) - (old(src.output.store) + old(dst.input.store)))
    ensures r == 0 || r == -1
    ensures src.output.ample && |data| <= LARGEST && |data| + old(|src.output.Contents()|) <= SIZE_MAX ==> r == 0
    ensures dst.input.ample ==> src.lossy == old(src.lossy)
    ensures src.written == old(src.written) + if r == 0 then data else []
    ensures var out := old(src.output.Contents()) + if r == 0 then data else [];
      Handed(out, src.output.Contents(), old(dst.input.Contents()), dst.input.Contents(),
             Moves(r == 0 && |data| > 0 && Open(src, dst), dst.high, old(|dst.input.Contents()|), |out|), src.lossy)
    ensures dst.high != 0 ==> |dst.input.Contents()| <= dst.high || |dst.input.Contents()| <= old(|dst.input.Contents()|)
  {
    hide EvBuffer.Valid, Compact, Flatten, Channel;
    r := Queue(src, dst, data);
    NothingMoved(src.output.Contents(), dst.input.Contents());
    LengthOf(src.output);
    if r == 0 && |data| > 0 {
      Talk(src, dst);
    }
  }

  // evbuffer_add on the output
  method Queue(src: End, dst: End, data: seq<byte>) returns (r: int)
    requires Paired(src, dst)
    modifies src.output, src.output.store, src`written
    ensures Coupled(src, dst) && dst.input.Contents() == old(dst.input.Contents()) && Idle(dst, src)
    ensures (r == 0 && |data| > 0) || Idle(src, dst)
    ensures src.output.Contents() == old(src.output.Contents()) + if r == 0 then data else []
    ensures src.output.ample && |data| <= LARGEST && |data| + old(|src.output.Contents()|) <= SIZE_MAX ==> r == 0
    ensures fresh(src.output.store - old(src.output.store))
    ensures r == 0 || r == -1
    ensures src.written == old(src.written) + if r == 0 then data else []
  {
    hide EvBuffer.Valid, Compact, Flatten;
    LengthOf(src.output);
    r := Add(src.output, data);
    LengthOf(src.output);
    if r == 0 {
      assert dst.taken + dst.input.Contents() + (old(src.output.Contents()) + data)
          == dst.taken + dst.input.Contents() + old(src.output.Contents()) + data;
      src.written := src.written + data;
    } else {
      assert src.written + [] == src.written;
    }
  }

  // bufferevent_read: bytes are taken from the front of the input; when it falls below the watermark the other end may
  // hand over more (bufferevent_inbuf_wm_cb).
  method Read(dst: End, src: End, out: array<byte>, size: nat) returns (n: nat)
    requires Paired(src, dst) && size <= out.Length
    requires out !in Stores(src) && out !in Stores(dst)
    modifies src.output, src.output.store, dst.input, dst.input.store, src`lossy, dst`wmSuspended, out, dst`taken
    ensures Paired(src, dst) && n == Min(size, old(|dst.input.Contents()|))
    ensures fresh((src.output.store + dst.input.store) - (old(src.output.store) + old(dst.input.store)))
    ensures out[..n] == old(dst.input.Contents())[..n] && dst.taken == old(dst.taken) + out[..n]
    ensures old(src.lossy) ==> src.lossy
    ensures dst.input.ample ==> src.lossy == old(src.lossy)
    ensures var rest := old(dst.input.Contents())[n..];
      Handed(old(src.output.Contents()), src.output.Contents(), rest, dst.input.Contents(),
             Moves(n > 0 && dst.high > |rest| && Open(src, dst), dst.high, |rest|, old(|src.output.Contents()|)), src.lossy)
  {
    hide EvBuffer.Valid, Compact, Flatten, Channel;
    n := TakeFrom(dst, src, out, size);
    LengthOf(dst.input);
    NothingMoved(src.output.Contents(), dst.input.Contents());
    if n > 0 {
      Remark(dst, src);
    }
  }

  // bufferevent_inbuf_wm_cb after the input has become shorter, while there is a watermark
  method Remark(dst: End, src: End)
    requires Linked(src, dst) && Channel(src, dst) && Channel(dst, src) && src.Marked() && Idle(dst, src)
    requires dst.high != 0 || (dst.Marked() && Idle(src, dst))
    requires dst.wmSuspended || Idle(src, dst)
    modifies src.output, src.output.store, dst.input, dst.input.store, src`lossy, dst`wmSuspended
    ensures Paired(src, dst)
    ensures fresh((src.output.store + dst.input.store) - (old(src.output.store) + old(dst.input.store)))
    ensures old(src.lossy) ==> src.lossy
    ensures dst.input.ample ==> src.lossy == old(src.lossy)
    ensures Handed(old(src.output.Contents()), src.output.Contents(), old(dst.input.Contents()), dst.input.Contents(),
                   Moves(dst.high > old(|dst.input.Contents()|) && Open(src, dst), dst.high, old(|dst.input.Contents()|),
                         old(|src.output.Contents()|)), src.lossy)
  {
    hide EvBuffer.Valid, Compact, Flatten, Channel;
    NothingMoved(src.output.Contents(), dst.input.Contents());
    if dst.high != 0 {
      LengthOf(dst.input);
      if dst.input.totalLen >= dst.high {
        dst.wmSuspended := true;
      } else {
        dst.wmSuspended := false;
        if !dst.suspended && dst.readEnabled {
          Talk(src, dst);
        }
      }
    }
  }

  // The bytes leave the input.
  method TakeFrom(dst: End, src: End, out: array<byte>, size: nat) returns (n: nat)
    requires Paired(src, dst) && size <= out.Length
    requires out !in Stores(src) && out !in Stores(dst)
    modifies dst.input, dst.input.store, out, dst`taken
    ensures n == Min(size, old(|dst.input.Contents()|)) && dst.taken == old(dst.taken) + out[..n]
    ensures out[..n] == old(dst.input.Contents())[..n] && dst.input.Contents() == old(dst.input.Contents())[n..]
    ensures dst.input.store <= old(dst.input.store) && (dst.high == 0 || n == 0 ==> dst.Marked())
    ensures Linked(src, dst) && Channel(src, dst) && Channel(dst, src) && src.Marked() && Idle(src, dst) && Idle(dst, src)
  {
    hide EvBuffer.Valid, Compact, Flatten;
    n := Take(dst.input, out, size);
    TakenNext(dst.taken, old(dst.input.Contents()), n, src.output.Contents());
    dst.taken := dst.taken + out[..n];
  }

  // evbuffer_remove on the input
  method Take(buf: EvBuffer, out: array<byte>, size: nat) returns (n: nat)
    requires buf.Valid() && !buf.freezeStart && out !in buf.store && size <= out.Length
    modifies buf, buf.store, out
    ensures buf.Valid() && buf.store <= old(buf.store) && unchanged(buf`freezeStart, buf`freezeEnd)
    ensures n == Min(size, old(|buf.Contents()|))
    ensures out[..n] == old(buf.Contents())[..n] && buf.Contents() == old(buf.Contents())[n..]
  {
    hide EvBuffer.Valid, Flatten;
    var r := Remove(buf, out, size);
    n := r;
  }

  lemma TakenNext(taken: seq<byte>, waiting: seq<byte>, n: nat, out: seq<byte>)
    requires n <= |waiting|
    ensures taken + waiting[..n] + waiting[n..] + out == taken + waiting + out
  {
    assert waiting == waiting[..n] + waiting[n..];
  }

  // be_pair_enable, for the directions that bufferevent_enable passes on
  method PairEnable(a: End, b: End, reading: bool, writing: bool)
    requires Coupled(a, b) && (reading || Idle(b, a)) && (writing || Idle(a, b))
    modifies a.output, a.output.store, b.input, b.input.store, a`lossy, a`wmSuspended
    modifies b.output, b.output.store, a.input, a.input.store, b`lossy, b`wmSuspended
    ensures Paired(a, b)
    ensures fresh((Stores(a) + Stores(b)) - (old(Stores(a)) + old(Stores(b))))
    ensures (old(a.lossy) ==> a.lossy) && (old(b.lossy) ==> b.lossy)
    ensures a.input.ample && b.input.ample ==> a.lossy == old(a.lossy) && b.lossy == old(b.lossy)
    ensures Handed(old(b.output.Contents()), b.output.Contents(), old(a.input.Contents()), a.input.Contents(),
                   Moves(reading && Open(b, a), a.high, old(|a.input.Contents()|), old(|b.output.Contents()|)), b.lossy)
    ensures Handed(old(a.output.Contents()), a.output.Contents(), old(b.input.Contents()), b.input.Contents(),
                   Moves(writing && Open(a, b), b.high, old(|b.input.Contents()|), old(|a.output.Contents()|)), a.lossy)
    ensures a.high != 0 ==> |a.input.Contents()| <= a.high || |a.input.Contents()| <= old(|a.input.Contents()|)
    ensures b.high != 0 ==> |b.input.Contents()| <= b.high || |b.input.Contents()| <= old(|b.input.Contents()|)
  {
    hide EvBuffer.Valid, Compact, Flatten, Channel;
    NothingMoved(a.output.Contents(), b.input.Contents());
    NothingMoved(b.output.Contents(), a.input.Contents());
    // starting to read: does the other side have anything to write?
    if reading {
      Swap(a, b);
      Talk(b, a);
      Swap(b, a);
    }
    // starting to write: does the other side want to read?
    if writing {
      Talk(a, b);
    }
  }

  lemma Swap(a: End, b: End)
    requires Coupled(a, b)
    ensures Coupled(b, a)
  {
  }

  // bufferevent_enable. The writing direction of an end of a pair is not suspended here.
  method Enable(a: End, b: End, reading: bool, writing: bool)
    requires Paired(a, b)
    modifies a.output, a.output.store, b.input, b.input.store, a`lossy, a`wmSuspended, a`readEnabled, a`writeEnabled
    modifies b.output, b.output.store, a.input, a.input.store, b`lossy, b`wmSuspended
    ensures Paired(a, b) && a.readEnabled == (old(a.readEnabled) || reading) && a.writeEnabled == (old(a.writeEnabled) || writing)
    ensures fresh((Stores(a) + Stores(b)) - (old(Stores(a)) + old(Stores(b))))
    ensures (old(a.lossy) ==> a.lossy) && (old(b.lossy) ==> b.lossy)
    ensures a.input.ample && b.input.ample ==> a.lossy == old(a.lossy) && b.lossy == old(b.lossy)
    ensures Handed(old(b.output.Contents()), b.output.Contents(), old(a.input.Contents()), a.input.Contents(),
                   Moves(reading && Open(b, a) && !old(a.wmSuspended), a.high, old(|a.input.Contents()|),
                         old(|b.output.Contents()|)), b.lossy)
    ensures Handed(old(a.output.Contents()), a.output.Contents(), old(b.input.Contents()), b.input.Contents(),
                   Moves(writing && Open(a, b), b.high, old(|b.input.Contents()|), old(|a.output.Contents()|)), a.lossy)
    ensures a.high != 0 ==> |a.input.Contents()| <= a.high || |a.input.Contents()| <= old(|a.input.Contents()|)
    ensures b.high != 0 ==> |b.input.Contents()| <= b.high || |b.input.Contents()| <= old(|b.input.Contents()|)
  {
    hide EvBuffer.Valid, Compact, Flatten, Channel, End.Marked, Amount, Handed, Idle;
    NoneHanded(a.output.Contents(), b.input.Contents(), a.lossy);
    NoneHanded(b.output.Contents(), a.input.Contents(), b.lossy);
    var implReading := SetEnabled(a, b, reading, writing);
    if implReading || writing {
      PairEnable(a, b, implReading, writing);
    }
  }

  // The flags of bufferevent_enable, and whether reading is passed on.
  method SetEnabled(a: End, b: End, reading: bool, writing: bool) returns (implReading: bool)
    requires Paired(a, b)
    modifies a`readEnabled, a`writeEnabled
    ensures Coupled(a, b) && (implReading || Idle(b, a)) && (writing || Idle(a, b))
    ensures a.readEnabled == (old(a.readEnabled) || reading) && a.writeEnabled == (old(a.writeEnabled) || writing)
    ensures implReading == (reading && !a.wmSuspended && !a.suspended)
  {
    hide EvBuffer.Valid, Compact, Flatten, Channel, End.Marked;
    implReading := reading && !a.wmSuspended && !a.suspended;
    a.readEnabled := a.readEnabled || reading;
    a.writeEnabled := a.writeEnabled || writing;
  }

  // bufferevent_disable, and the suspension of reading for a reason other than the watermark, only change what later
  // calls do.
  method Disable(a: End, b: End, reading: bool, writing: bool, suspend: bool)
    requires Paired(a, b)
    modifies a`readEnabled, a`writeEnabled, a`suspended
    ensures Paired(a, b)
    ensures a.readEnabled == (old(a.readEnabled) && !reading) && a.writeEnabled == (old(a.writeEnabled) && !writing)
    ensures a.suspended == (old(a.suspended) || suspend)
  {
    hide EvBuffer.Valid, Compact, Flatten;
    a.readEnabled, a.writeEnabled := a.readEnabled && !reading, a.writeEnabled && !writing;
    a.suspended := a.suspended || suspend;
  }

  // bufferevent_unsuspend_read_, for a reason other than the watermark
  method Resume(a: End, b: End)
    requires Paired(a, b)
    modifies b.output, b.output.store, a.input, a.input.store, b`lossy, a`wmSuspended, a`suspended
    ensures Paired(a, b) && !a.suspended
    ensures fresh((b.output.store + a.input.store) - (old(b.output.store) + old(a.input.store)))
    ensures old(b.lossy) ==> b.lossy
    ensures a.input.ample ==> b.lossy == old(b.lossy)
    ensures Handed(old(b.output.Contents()), b.output.Contents(), old(a.input.Contents()), a.input.Contents(),
                   Moves(Open(b, a), a.high, old(|a.input.Contents()|), old(|b.output.Contents()|)), b.lossy)
  {
    hide EvBuffer.Valid, Compact, Flatten, Channel;
    NothingMoved(b.output.Contents(), a.input.Contents());
    a.suspended := false;
    Swap(a, b);
    if !a.wmSuspended && a.readEnabled {
      Talk(b, a);
    }
    Swap(b, a);
  }

  // bufferevent_setwatermark, for reading
  method SetWatermark(a: End, b: End, high: Size)
    requires Paired(a, b)
    modifies b.output, b.output.store, a.input, a.input.store, b`lossy, a`wmSuspended, a`high
    ensures Paired(a, b) && a.high == high
    ensures fresh((b.output.store + a.input.store) - (old(b.output.store) + old(a.input.store)))
    ensures old(b.lossy) ==> b.lossy
    ensures a.input.ample ==> b.lossy == old(b.lossy)
    ensures Handed(old(b.output.Contents()), b.output.Contents(), old(a.input.Contents()), a.input.Contents(),
                   Moves(Open(b, a), high, old(|a.input.Contents()|), old(|b.output.Contents()|)), b.lossy)
  {
    hide EvBuffer.Valid, Compact, Flatten, Channel;
    NothingMoved(b.output.Contents(), a.input.Contents());
    a.high := high;
    LengthOf(a.input);
    if high != 0 && a.input.totalLen >= high {
      a.wmSuspended := true;
    } else {
      a.wmSuspended := false;
      Swap(a, b);
      if !a.suspended && a.readEnabled {
        Talk(b, a);
      }
      Swap(b, a);
    }
  }

  // be_pair_flush, in a mode other than BEV_NORMAL: the watermark is ignored once the input has reached it. Below it no
  // more bytes move than it allows.
  method Flush(a: End, b: End, reading: bool, writing: bool)
    requires Paired(a, b)
    modifies a.output, a.output.store, b.input, b.input.store, a`lossy, a`wmSuspended
    modifies b.output, b.output.store, a.input, a.input.store, b`lossy, b`wmSuspended
    ensures Paired(a, b)
    ensures fresh((Stores(a) + Stores(b)) - (old(Stores(a)) + old(Stores(b))))
    ensures (old(a.lossy) ==> a.lossy) && (old(b.lossy) ==> b.lossy)
    ensures a.input.ample && b.input.ample ==> a.lossy == old(a.lossy) && b.lossy == old(b.lossy)
    ensures Handed(old(b.output.Contents()), b.output.Contents(), old(a.input.Contents()), a.input.Contents(),
                   if reading then Amount(a.high, old(|a.input.Contents()|), old(|b.output.Contents()|), true) else 0, b.lossy)
    ensures Handed(old(a.output.Contents()), a.output.Contents(), old(b.input.Contents()), b.input.Contents(),
                   if writing then Amount(b.high, old(|b.input.Contents()|), old(|a.output.Contents()|), true) else 0, a.lossy)
  {
    hide EvBuffer.Valid, Compact, Flatten, Channel;
    NothingMoved(a.output.Contents(), b.input.Contents());
    NothingMoved(b.output.Contents(), a.input.Contents());
    if reading {
      Swap(a, b);
      Transfer(b, a, true);
      Swap(b, a);
    }
    if writing {
      Transfer(a, b, true);
    }
  }

  // What may be done at one end of a pair.
  datatype Act =
    | ActWrite(data: seq<byte>)
    | ActRead(size: nat)
    | ActEnable(reading: bool, writing: bool)
    | ActDisable(noReading: bool, noWriting: bool, suspend: bool)
    | ActResume
    | ActWatermark(high: Size)
    | ActFlush(inward: bool, outward: bool)

  datatype Step = Step(atB: bool, act: Act)

  // What an end is given to write, one call after another.
  function Written(steps: seq<Step>, atB: bool): seq<byte>
  {
    if steps == [] then []
    else Written(steps[..|steps| - 1], atB) + var last := steps[|steps| - 1];
      if last.act.ActWrite? && last.atB == atB then last.act.data else []
  }

  // One act at end a of the pair.
  method Do(a: End, b: End, act: Act)
    requires Paired(a, b)
    modifies a, b, Stores(a), Stores(b)
    ensures Paired(a, b) && fresh((Stores(a) + Stores(b)) - (old(Stores(a)) + old(Stores(b))))
    ensures a.input.ample && b.input.ample ==> a.lossy == old(a.lossy) && b.lossy == old(b.lossy)
    ensures b.written == old(b.written)
    ensures !act.ActWrite? ==> a.written == old(a.written)
    ensures act.ActRead? ==> a.taken == old(a.taken) + old(a.input.Contents())[..Min(act.size, old(|a.input.Contents()|))]
    ensures !act.ActRead? ==> a.taken == old(a.taken)
    ensures b.taken == old(b.taken)
    ensures a.readEnabled == if act.ActEnable? then old(a.readEnabled) || act.reading else old(a.readEnabled) && !(act.ActDisable? && act.noReading)
    ensures a.writeEnabled == if act.ActEnable? then old(a.writeEnabled) || act.writing else old(a.writeEnabled) && !(act.ActDisable? && act.noWriting)
    ensures a.suspended == ((old(a.suspended) && !act.ActResume?) || (act.ActDisable? && act.suspend))
    ensures a.high == if act.ActWatermark? then act.high else old(a.high)
    ensures act.ActWrite? && a.output.ample && |act.data| <= LARGEST && |act.data| + old(|a.output.Contents()|) <= SIZE_MAX ==>
      a.written == old(a.written) + act.data
  {
    hide EvBuffer.Valid, Compact, Flatten, Channel, End.Marked, Idle, Handed;
    Turned(a, b);
    match act {
      case ActWrite(data) =>
        var r := Write(a, b, data);
      case ActRead(size) =>
        var out := new byte[size];
        Turned(a, b);
        var n := Read(a, b, out, size);
      case ActEnable(reading, writing) => Enable(a, b, reading, writing);
      case ActDisable(noReading, noWriting, suspend) => Disable(a, b, noReading, noWriting, suspend);
      case ActResume => Resume(a, b);
      case ActWatermark(high) => SetWatermark(a, b, high);
      case ActFlush(inward, outward) => Flush(a, b, inward, outward);
    }
    Turned(a, b);
    Turned(b, a);
  }

  lemma Turned(a: End, b: End)
    ensures Paired(a, b) ==> Paired(b, a)
  {
  }

  // There is memory for everything, nothing has been lost, and what is written stays below the largest chain.
  ghost predicate Sure(a: End, b: End, steps: seq<Step>)
    reads a, b
  {
    && a.input.ample && b.input.ample && a.output.ample && b.output.ample && !a.lossy && !b.lossy
    && |a.written| + |Written(steps, false)| <= LARGEST && |b.written| + |Written(steps, true)| <= LARGEST
  }

  // What waits at the writing end was written.
  lemma WaitsWritten(writer: End, reader: End)
    requires Channel(writer, reader) && !writer.lossy
    ensures |writer.output.Contents()| <= |writer.written|
  {
  }

  lemma {:induction false} WrittenMore(steps: seq<Step>, i: nat, atB: bool)
    requires i <= |steps|
    ensures Written(steps[..i], atB) <= Written(steps, atB)
    decreases |steps| - i
  {
    if i == |steps| {
      assert steps[..i] == steps;
    } else {
      WrittenMore(steps, i + 1, atB);
      assert steps[..i + 1][..i] == steps[..i];
    }
  }

  lemma WrittenNext(steps: seq<Step>, i: nat, atB: bool)
    requires i < |steps|
    ensures Written(steps[..i + 1], atB) ==
      Written(steps[..i], atB) + if steps[i].act.ActWrite? && steps[i].atB == atB then steps[i].act.data else []
  {
    assert steps[..i + 1][..i] == steps[..i];
  }

  // Any run of acts at the two ends. In the end, as in between, both channels are first in, first out (Channel) and
  // nothing waits that may go (Idle); with memory nothing is ever lost and all that was given to be written is written.
  method Run(a: End, b: End, steps: seq<Step>)
    requires Paired(a, b)
    modifies a, b, Stores(a), Stores(b)
    ensures Paired(a, b) && fresh((Stores(a) + Stores(b)) - (old(Stores(a)) + old(Stores(b))))
    ensures a.input.ample && b.input.ample ==> a.lossy == old(a.lossy) && b.lossy == old(b.lossy)
    ensures old(Sure(a, b, steps)) ==>
      && a.written == old(a.written) + Written(steps, false) && b.written == old(b.written) + Written(steps, true)
  {
    hide EvBuffer.Valid, Compact, Flatten, Paired, Written;
    ghost var sure := Sure(a, b, steps);
    var i := 0;
    NothingWritten(a.written, b.written);
    while i < |steps|
      invariant 0 <= i <= |steps| && Paired(a, b)
      invariant fresh((Stores(a) + Stores(b)) - (old(Stores(a)) + old(Stores(b))))
      invariant a.input.ample && b.input.ample ==> a.lossy == old(a.lossy) && b.lossy == old(b.lossy)
      invariant sure ==> a.written == old(a.written) + Written(steps[..i], false)
      invariant sure ==> b.written == old(b.written) + Written(steps[..i], true)
    {
      DoStep(a, b, steps, i, sure, old(a.written), old(b.written));
      i := i + 1;
    }
    assert steps[..i] == steps;
  }

  lemma NothingWritten(s: seq<byte>, t: seq<byte>)
    ensures s + Written([], false) == s && t + Written([], true) == t
  {
  }

  method DoStep(a: End, b: End, steps: seq<Step>, i: nat, ghost sure: bool, ghost aWritten: seq<byte>, ghost bWritten: seq<byte>)
    requires Paired(a, b) && i < |steps|
    requires sure ==>
      && a.input.ample && b.input.ample && a.output.ample && b.output.ample && !a.lossy && !b.lossy
      && |aWritten| + |Written(steps, false)| <= LARGEST && |bWritten| + |Written(steps, true)| <= LARGEST
      && a.written == aWritten + Written(steps[..i], false) && b.written == bWritten + Written(steps[..i], true)
    modifies a, b, Stores(a), Stores(b)
    ensures Paired(a, b) && fresh((Stores(a) + Stores(b)) - (old(Stores(a)) + old(Stores(b))))
    ensures a.input.ample && b.input.ample ==> a.lossy == old(a.lossy) && b.lossy == old(b.lossy)
    ensures sure ==> a.written == aWritten + Written(steps[..i + 1], false) && b.written == bWritten + Written(steps[..i + 1], true)
  {
    hide EvBuffer.Valid, Compact, Flatten, Linked, End.Marked, Idle, Written;
    Turned(a, b);
    if sure {
      WaitsWritten(a, b);
      WaitsWritten(b, a);
      WrittenNext(steps, i, false);
      WrittenNext(steps, i, true);
      WrittenMore(steps, i + 1, false);
      WrittenMore(steps, i + 1, true);
    }
    if steps[i].atB {
      Do(b, a, steps[i].act);
    } else {
      Do(a, b, steps[i].act);
    }
    Turned(b, a);
  }

  // Every history of a pair for which there is memory: in both directions what was read, what waits in the input and
  // what waits in the other end's output is, in this order, all that was written; and no byte waits in an output while
  // the other end would take it.
  method History(steps: seq<Step>) returns (a: End, b: End)
    requires |Written(steps, false)| <= LARGEST && |Written(steps, true)| <= LARGEST
    ensures fresh(a) && fresh(b) && Paired(a, b)
    ensures b.taken + b.input.Contents() + a.output.Contents() == Written(steps, false)
    ensures a.taken + a.input.Contents() + b.output.Contents() == Written(steps, true)
    ensures a.writeEnabled && b.readEnabled && !b.suspended && (b.high == 0 || |b.input.Contents()| < b.high) ==> a.output.Contents() == []
    ensures b.writeEnabled && a.readEnabled && !a.suspended && (a.high == 0 || |a.input.Contents()| < a.high) ==> b.output.Contents() == []
  {
    hide EvBuffer.Valid, Compact, Flatten, Written;
    a, b := NewPair(true);
    Run(a, b, steps);
    LengthOf(a.output);
    LengthOf(b.output);
    assert Channel(a, b) && Channel(b, a) && Idle(a, b) && Idle(b, a);
  }
}
