/** The wrapper's message framing (src/connector.cc): every message travels behind its length, four bytes in network
    order, and is delivered whole however the stream is cut up. */
module Framing {
  import opened Bytes
  import opened EvBufferCore
  import opened EvBufferAdd
  import opened EvBufferDrain
  import opened EvBufferPullup
  import opened EvBufferMove
  import opened EvBufferRead

  const HEAD_LEN: nat := 4
  const MAX_MSG_DATA_LEN: nat := 1024 * 1024
  const MAX_MAX_SEND_BUF_SIZE: nat := 1024 * 1024
  const MAX_SINGLE_READ: nat := 16384

  // -- The stream --

  // The number a header stands for.
  function Value(h: seq<byte>): (n: nat)
    requires |h| == HEAD_LEN
    ensures n < 0x1_0000_0000
  {
    ((h[0] as nat * 256 + h[1] as nat) * 256 + h[2] as nat) * 256 + h[3] as nat
  }

  // htonl
  function Header(n: nat): (h: seq<byte>)
    requires n < 0x1_0000_0000
    ensures |h| == HEAD_LEN && Value(h) == n
  {
    var h := [(n / 0x100_0000) as byte, (n / 0x1_0000 % 256) as byte, (n / 256 % 256) as byte, (n % 256) as byte];
    assert n / 0x1_0000 == n / 0x100_0000 * 256 + n / 0x1_0000 % 256;
    assert n / 256 == n / 0x1_0000 * 256 + n / 256 % 256;
    h
  }

  // On the wire the highest byte comes first, whichever way a header is read.
  lemma NetworkOrder(h: seq<byte>, n: nat)
    requires |h| == 4 && n < 0x1_0000_0000
    ensures Value(h) == h[0] as nat * 0x100_0000 + h[1] as nat * 0x1_0000 + h[2] as nat * 0x100 + h[3] as nat
    ensures |Header(n)| == 4 && forall i :: 0 <= i < 4 ==> Header(n)[i] as nat == n / Weight(3 - i) % 256
  {
    assert Weight(0) == 1 && Weight(1) == 0x100 && Weight(2) == 0x1_0000 && Weight(3) == 0x100_0000;
  }

  function Weight(i: nat): (w: nat)
    ensures w > 0
  {
    if i == 0 then 1 else 256 * Weight(i - 1)
  }

  // The bytes of a header in the other order, which is how the host stores the number.
  function Swapped(h: seq<byte>): (r: seq<byte>)
    requires |h| == HEAD_LEN
    ensures |r| == HEAD_LEN
  {
    [h[3], h[2], h[1], h[0]]
  }

  predicate Message(m: seq<byte>)
  {
    1 <= |m| <= MAX_MSG_DATA_LEN
  }

  function Frame(m: seq<byte>): (f: seq<byte>)
    requires Message(m)
    ensures |f| == HEAD_LEN + |m|
  {
    Header(|m|) + m
  }

  function Frames(msgs: seq<seq<byte>>): seq<byte>
    requires forall m :: m in msgs ==> Message(m)
  {
    if msgs == [] then [] else Frame(msgs[0]) + Frames(msgs[1..])
  }

  // A stream read as frames: the complete messages, what is left, and whether what is left starts with a length that
  // is not allowed.
  datatype Parsed = Parsed(msgs: seq<seq<byte>>, rest: seq<byte>, bad: bool)

  function Deframe(s: seq<byte>): (p: Parsed)
    ensures |p.rest| <= |s|
    decreases |s|
  {
    if |s| < HEAD_LEN then Parsed([], s, false)
    else
      var n := Value(s[..HEAD_LEN]);
      if n == 0 || n > MAX_MSG_DATA_LEN then Parsed([], s, true)
      else if |s| < HEAD_LEN + n then Parsed([], s, false)
      else
        var p := Deframe(s[HEAD_LEN + n..]);
        p.(msgs := [s[HEAD_LEN..HEAD_LEN + n]] + p.msgs)
  }

  // The stream starts with a complete frame of n bytes.
  predicate Complete(s: seq<byte>, n: nat)
  {
    |s| >= HEAD_LEN + n && n == Value(s[..HEAD_LEN]) && 0 < n <= MAX_MSG_DATA_LEN
  }

  lemma DeframeStep(s: seq<byte>, n: nat, m: seq<byte>, tail: seq<byte>)
    requires Complete(s, n) && m == s[HEAD_LEN..HEAD_LEN + n] && tail == s[HEAD_LEN + n..]
    ensures Deframe(s) == Parsed([m] + Deframe(tail).msgs, Deframe(tail).rest, Deframe(tail).bad)
  {
    hide Value;
  }

  lemma DeframeStop(s: seq<byte>)
    requires !Deframe(s).bad
    ensures Deframe(s) == Parsed([], s, false) || (|s| >= HEAD_LEN && Complete(s, Value(s[..HEAD_LEN])))
  {
    hide Value;
  }

  // What a stream starts with: an incomplete header, a length of 0 or above a megabyte, behind which nothing is read, an
  // incomplete message, or a message, behind which the rest is read in the same way.
  lemma FirstMessage(s: seq<byte>)
    ensures var p := Deframe(s);
      if |s| < 4 then p == Parsed([], s, false)
      else
        var n := s[0] as nat * 0x100_0000 + s[1] as nat * 0x1_0000 + s[2] as nat * 0x100 + s[3] as nat;
        if n == 0 || n > 0x10_0000 then p == Parsed([], s, true)
        else if |s| < 4 + n then p == Parsed([], s, false)
        else p == Parsed([s[4..4 + n]] + Deframe(s[4 + n..]).msgs, Deframe(s[4 + n..]).rest, Deframe(s[4 + n..]).bad)
  {
    hide Value;
    if |s| >= 4 {
      NetworkOrder(s[..4], 0);
    }
  }

  // What has arrived can be taken apart before the rest arrives.
  lemma {:induction false} DeframeAppend(a: seq<byte>, b: seq<byte>)
    requires !Deframe(a).bad
    ensures var p, q := Deframe(a), Deframe(Deframe(a).rest + b);
      Deframe(a + b) == Parsed(p.msgs + q.msgs, q.rest, q.bad)
    decreases |a|
  {
    hide Deframe, Value;
    DeframeStop(a);
    if Deframe(a) == Parsed([], a, false) {
      var q := Deframe(a + b);
      assert [] + q.msgs == q.msgs;
    } else {
      var n := Value(a[..HEAD_LEN]);
      var m, tail := a[HEAD_LEN..HEAD_LEN + n], a[HEAD_LEN + n..];
      DeframeStep(a, n, m, tail);
      DeframeAppend(tail, b);
      assert (a + b)[..HEAD_LEN] == a[..HEAD_LEN] && (a + b)[HEAD_LEN + n..] == tail + b;
      assert (a + b)[HEAD_LEN..HEAD_LEN + n] == m;
      DeframeStep(a + b, n, m, tail + b);
      var p, q := Deframe(tail), Deframe(Deframe(tail).rest + b);
      assert [m] + (p.msgs + q.msgs) == [m] + p.msgs + q.msgs;
    }
  }

  lemma DeframeShort(s: seq<byte>, n: nat)
    requires |s| < HEAD_LEN || (n == Value(s[..HEAD_LEN]) && 0 < n <= MAX_MSG_DATA_LEN && |s| < HEAD_LEN + n)
    ensures Deframe(s) == Parsed([], s, false)
  {
    hide Value;
  }

  // Any beginning of a stream of messages yields the messages that have arrived whole, in order; the whole stream
  // yields all of them and nothing is left.
  lemma {:induction false} DeframeFrames(msgs: seq<seq<byte>>, k: nat)
    requires (forall m :: m in msgs ==> Message(m)) && k <= |Frames(msgs)|
    ensures var p := Deframe(Frames(msgs)[..k]);
      && !p.bad && p.msgs <= msgs && Frames(msgs)[..k] == Frames(p.msgs) + p.rest
      && (k == |Frames(msgs)| ==> p.msgs == msgs && p.rest == [])
    decreases |msgs|
  {
    hide Deframe, Value, Header;
    var s := Frames(msgs)[..k];
    if msgs == [] {
      assert s == [] && Frames([]) + [] == [];
      DeframeShort(s, 0);
    } else {
      var m, f, tail := msgs[0], Frame(msgs[0]), Frames(msgs[1..]);
      if |s| >= HEAD_LEN {
        assert s[..HEAD_LEN] == f[..HEAD_LEN] == Header(|m|);
      }
      if k < |f| {
        DeframeShort(s, |m|);
        assert Frames([]) + s == s;
      } else {
        var rest := tail[..k - |f|];
        assert s == f + rest && s[HEAD_LEN + |m|..] == rest && s[HEAD_LEN..HEAD_LEN + |m|] == m;
        DeframeFrames(msgs[1..], k - |f|);
        DeframeStep(s, |m|, m, rest);
        var p := Deframe(rest);
        assert ([m] + p.msgs)[1..] == p.msgs;
        assert f + (Frames(p.msgs) + p.rest) == f + Frames(p.msgs) + p.rest;
      }
    }
  }

  // -- The connection --

  // The stream that the buffer stands for: the header of a message that is being awaited has been swapped in place.
  ghost function Raw(contents: seq<byte>, revPackLen: nat): seq<byte>
  {
    if revPackLen == 0 || |contents| < HEAD_LEN then contents else Swapped(contents[..HEAD_LEN]) + contents[HEAD_LEN..]
  }

  // A length that has been read is that of the header.
  ghost predicate HeaderRead(contents: seq<byte>, revPackLen: nat)
  {
    revPackLen != 0 ==>
      |contents| >= HEAD_LEN && revPackLen == Value(Swapped(contents[..HEAD_LEN])) && revPackLen <= MAX_MSG_DATA_LEN
  }

  // Of all that came over the wire, these messages have been delivered and raw is left.
  ghost predicate Pending(wire: seq<byte>, received: seq<seq<byte>>, raw: seq<byte>)
  {
    Deframe(wire) == Parsed(received + Deframe(raw).msgs, Deframe(raw).rest, Deframe(raw).bad)
  }

  lemma PendingNext(wire: seq<byte>, received: seq<seq<byte>>, raw: seq<byte>, n: nat)
    requires Pending(wire, received, raw) && Complete(raw, n)
    ensures Pending(wire, received + [raw[HEAD_LEN..HEAD_LEN + n]], raw[HEAD_LEN + n..])
  {
    hide Deframe, Value;
    var m, tail := raw[HEAD_LEN..HEAD_LEN + n], raw[HEAD_LEN + n..];
    DeframeStep(raw, n, m, tail);
    assert received + ([m] + Deframe(tail).msgs) == received + [m] + Deframe(tail).msgs;
  }

  lemma PendingShort(wire: seq<byte>, received: seq<seq<byte>>, raw: seq<byte>, n: nat)
    requires Pending(wire, received, raw)
    requires |raw| < HEAD_LEN || (n == Value(raw[..HEAD_LEN]) && 0 < n <= MAX_MSG_DATA_LEN && |raw| < HEAD_LEN + n)
    ensures Deframe(wire) == Parsed(received, raw, false)
  {
    hide Deframe, Value;
    DeframeShort(raw, n);
    assert received + [] == received;
  }

  lemma PendingMore(wire: seq<byte>, received: seq<seq<byte>>, raw: seq<byte>, more: seq<byte>)
    requires Deframe(wire) == Parsed(received, raw, false)
    ensures Pending(wire + more, received, raw + more)
  {
    DeframeAppend(wire, more);
  }

  // The header in the buffer is swapped.
  lemma HeaderSwapped(c: seq<byte>, c': seq<byte>, n: nat)
    requires |c| >= HEAD_LEN && c' == Swapped(c[..HEAD_LEN]) + c[HEAD_LEN..] && n == Value(c[..HEAD_LEN])
    ensures n != 0 ==> Raw(c', n) == c && n == Value(Swapped(c'[..HEAD_LEN]))
  {
    hide Value;
    assert c'[..HEAD_LEN] == Swapped(c[..HEAD_LEN]);
    assert Swapped(Swapped(c[..HEAD_LEN])) == c[..HEAD_LEN];
    assert c'[HEAD_LEN..] == c[HEAD_LEN..];
  }

  // Writing over the first bytes of a chain
  method OverwriteChain(ghost chain: Chain, p: Pointer, data: seq<byte>, ghost piece: seq<byte>)
    requires chain.Holds(piece) && |data| <= |piece| && p == At(chain.buffer, chain.misalign)
    modifies p.memory
    ensures chain.Holds(data + piece[|data|..])
  {
    ghost var was := chain.buffer[..];
    assert was[p.offset..p.offset + chain.off] == piece;
    CopyIn(p.memory, p.offset, data);
    Overwritten(was, chain.buffer[..], p.offset, data, chain.off);
    assert chain.buffer[..][p.offset..p.offset + chain.off] == chain.buffer[p.offset..p.offset + chain.off];
  }

  // Writing over the first bytes of a buffer, which are those of the first chain.
  method Overwrite(buf: EvBuffer, p: Pointer, data: seq<byte>)
    requires Rooted(buf) && buf.chains != [] && |data| <= |buf.pieces[0]|
    requires p == At(buf.chains[0].buffer, buf.chains[0].misalign)
    modifies buf`pieces, p.memory
    ensures Rooted(buf) && buf.pieces == old(buf.pieces)[0 := data + old(buf.pieces[0])[|data|..]]
  {
    hide Segment, Objects, Chain.Holds;
    DerefSlot(buf, 0);
    ghost var piece := buf.pieces[0];
    OverwriteChain(buf.chains[0], p, data, piece);
    buf.pieces := buf.pieces[0 := data + piece[|data|..]];
    RootedUpdate(buf, 0, data + piece[|data|..]);
  }

  lemma Overwritten(was: seq<byte>, now: seq<byte>, at: nat, data: seq<byte>, n: nat)
    requires |data| <= n && at + n <= |was| && now == was[..at] + data + was[at + |data|..]
    ensures |now| == |was| && now[at..at + n] == data + was[at..at + n][|data|..]
  {
  }

  // *mem = ntohl(*mem) on a little-endian host, for the first four bytes of the buffer, which are contiguous
  method SwapHeader(buf: EvBuffer, p: Pointer) returns (n: nat)
    requires buf.Valid() && buf.chains != [] && |buf.pieces[0]| >= HEAD_LEN
    requires p == At(buf.chains[0].buffer, buf.chains[0].misalign) && p.offset + HEAD_LEN <= p.memory.Length
    requires p.memory[p.offset..p.offset + HEAD_LEN] == buf.Contents()[..HEAD_LEN]
    modifies buf`pieces, p.memory
    ensures buf.Valid() && n == Value(old(buf.Contents())[..HEAD_LEN])
    ensures buf.Contents() == Swapped(old(buf.Contents())[..HEAD_LEN]) + old(buf.Contents())[HEAD_LEN..]
    ensures var c := old(buf.Contents()); |c| >= 4 && buf.Contents() == [c[3], c[2], c[1], c[0]] + c[4..]
  {
    hide Rooted, Flatten, DataEndsAt, Value;
    SwapPiece(buf.pieces, buf.lwd);
    n := Value(p.memory[p.offset..p.offset + HEAD_LEN]);
    Overwrite(buf, p, Swapped(p.memory[p.offset..p.offset + HEAD_LEN]));
  }

  lemma SwapPiece(pieces: seq<seq<byte>>, lwd: nat)
    requires DataEndsAt(pieces, lwd) && pieces != [] && |pieces[0]| >= HEAD_LEN
    ensures var all := Flatten(pieces);
      && |all| >= HEAD_LEN
      && var after := pieces[0 := Swapped(all[..HEAD_LEN]) + pieces[0][HEAD_LEN..]];
        Flatten(after) == Swapped(all[..HEAD_LEN]) + all[HEAD_LEN..] && DataEndsAt(after, lwd)
  {
    hide Swapped;
    var all, p := Flatten(pieces), pieces[0];
    assert all == p + Flatten(pieces[1..]) && all[..HEAD_LEN] == p[..HEAD_LEN];
    var after := pieces[0 := Swapped(all[..HEAD_LEN]) + p[HEAD_LEN..]];
    assert after[1..] == pieces[1..];
    assert all[HEAD_LEN..] == p[HEAD_LEN..] + Flatten(pieces[1..]);
  }

  // The header of a message that nothing has been read of, made contiguous and swapped.
  method SwapFirst(buf: EvBuffer) returns (ok: bool, n: nat)
    requires buf.Valid() && |buf.Contents()| >= HEAD_LEN
    modifies buf, buf.store
    ensures buf.Valid() && fresh(buf.store - old(buf.store)) && unchanged(buf`freezeStart)
    ensures |buf.Contents()| == |old(buf.Contents())| && (buf.ample ==> ok)
    ensures ok ==> n == Value(old(buf.Contents())[..HEAD_LEN])
    ensures ok ==> var c := old(buf.Contents());
      n == c[0] as nat * 0x100_0000 + c[1] as nat * 0x1_0000 + c[2] as nat * 0x100 + c[3] as nat
    ensures ok && 0 < n <= MAX_MSG_DATA_LEN ==> Raw(buf.Contents(), n) == old(buf.Contents()) && HeaderRead(buf.Contents(), n)
    ensures !ok ==> n == 0
  {
    hide Rooted, Flatten, DataEndsAt, Value, Swapped, Raw;
    ghost var c := buf.Contents();
    var p := Pullup(buf, HEAD_LEN);
    if p == Null {
      return false, 0;
    }
    n := SwapHeader(buf, p);
    NetworkOrder(c[..HEAD_LEN], 0);
    HeaderSwapped(c, buf.Contents(), n);
    return true, n;
  }

  // The end of the input buffer is only unfrozen while it is read into.
  method ReadUnfrozen(buf: EvBuffer, readable: int, fails: bool, incoming: seq<byte>) returns (n: int)
    requires buf.Valid()
    modifies buf, buf.store
    ensures buf.Valid() && fresh(buf.store - old(buf.store)) && unchanged(buf`freezeStart)
    ensures -1 <= n <= |incoming| && buf.Contents() == old(buf.Contents()) + if n == -1 then [] else incoming[..n]
    ensures n <= 4096 && (0 < readable <= 4096 ==> n <= readable)
    ensures buf.ample && !fails ==> n == |incoming| || n == 4096 || (0 < readable <= 4096 && n == readable)
    ensures buf.freezeEnd
  {
    hide EvBuffer.Valid, Flatten, Compact;
    SetFrozen(buf, false, false);
    n := Read(buf, MAX_SINGLE_READ, readable, fails, incoming);
    SetFrozen(buf, false, true);
  }

  // The two writes of SendPack.
  method QueueFrame(output: EvBuffer, data: seq<byte>) returns (ok: bool)
    requires output.Valid() && Message(data)
    modifies output, output.store
    ensures output.Valid() && fresh(output.store - old(output.store)) && unchanged(output`freezeStart, output`freezeEnd)
    ensures ok ==> output.Contents() == old(output.Contents()) + Frame(data)
    ensures !ok ==>
      output.Contents() == old(output.Contents()) || output.Contents() == old(output.Contents()) + Header(|data|)
    ensures output.ample && !output.freezeEnd && old(|output.Contents()|) + HEAD_LEN + |data| <= SIZE_MAX ==> ok
  {
    hide EvBuffer.Valid, Flatten, Header, Value, Compact;
    var netLen := Header(|data|);
    var r := Add(output, netLen);
    if r != 0 {
      return false;
    }
    r := Add(output, data);
    if r != 0 {
      return false;
    }
    assert old(output.Contents()) + netLen + data == old(output.Contents()) + Frame(data);
    return true;
  }

  // ConCom, with a bufferevent whose input and output buffers are its own
  class ConCom {
    var fd: nat
    var isConnect: bool
    var revPackLen: nat
    var msbs: nat
    var input: EvBuffer?
    var output: EvBuffer?
    // how often OnDisconnected has been called, and with which messages OnRecv
    var disconnects: nat
    var received: seq<seq<byte>>
    // all bytes that have been read from the peer on this connection, and whether OnRecv has closed it
    ghost var wire: seq<byte>
    ghost var hungUp: bool

    constructor ()
      ensures Valid() && fd == 0 && disconnects == 0 && received == [] && msbs == MAX_MAX_SEND_BUF_SIZE
      ensures !isConnect && input == null && output == null
    {
      fd, isConnect, revPackLen, msbs, input, output := 0, false, 0, MAX_MAX_SEND_BUF_SIZE, null, null;
      disconnects, received, wire, hungUp := 0, [], [], false;
    }

    // The buffers of an open connection.
    ghost predicate Open()
      reads this, input, output, if input == null then {} else input.store, if output == null then {} else output.store
    {
      && fd != 0 && input != null && output != null && input.Valid() && output.Valid() && Apart(input, output)
      && !input.freezeStart && this !in input.store && this !in output.store && !hungUp
    }

    // What has been delivered is exactly what is complete of all that came over the wire, and the buffer holds the rest,
    // however it was cut up on the way.
    ghost predicate InStep()
      requires input != null
      reads this, input
    {
      && HeaderRead(input.Contents(), revPackLen)
      && Deframe(wire) == Parsed(received, Raw(input.Contents(), revPackLen), false)
    }

    ghost predicate Valid()
      reads this, input, output, if input == null then {} else input.store, if output == null then {} else output.store
    {
      if fd == 0 then input == null && output == null && revPackLen == 0 && !isConnect && received <= Deframe(wire).msgs
      else Open() && InStep()
    }

    // ConCom::Free, for an open connection: the bufferevent and its buffers are gone.
    method Free()
      modifies this`input, this`output, this`fd, this`isConnect, this`revPackLen
      ensures fd == 0 && input == null && output == null && !isConnect && revPackLen == 0
    {
      input, output := null, null;
      fd := 0;
      isConnect := false;
      revPackLen := 0;
    }

    // ConCom::DisConnect
    method DisConnect()
      modifies this`input, this`output, this`fd, this`isConnect, this`revPackLen, this`disconnects
      ensures fd == 0
      ensures old(fd) == 0 ==> unchanged(this)
      ensures old(fd) != 0 ==> input == null && output == null && !isConnect && revPackLen == 0 && disconnects == old(disconnects) + 1
    {
      if fd == 0 {
        return;
      }
      Free();
      disconnects := disconnects + 1;
    }

    // ConCom::SetSocketInfo: a new connection, nothing has arrived yet.
    method SetSocketInfo(inbuf: EvBuffer, outbuf: EvBuffer, sock: nat) returns (ok: bool)
      requires Valid() && sock != 0
      requires inbuf.Valid() && outbuf.Valid() && Apart(inbuf, outbuf) && !inbuf.freezeStart && inbuf.Contents() == []
      requires this !in inbuf.store && this !in outbuf.store
      modifies this`input, this`output, this`fd, this`received, this`wire, this`hungUp
      ensures Valid() && ok == (old(input) == null)
      ensures ok ==> input == inbuf && output == outbuf && fd == sock && received == [] && wire == []
      ensures !ok ==> unchanged(this)
    {
      hide Rooted, Flatten, DataEndsAt, Deframe, Value;
      if input != null {
        return false;
      }
      DeframeShort([], 0);
      input, output, fd := inbuf, outbuf, sock;
      received, wire, hungUp := [], [], false;
      return true;
    }

    // ConCom::conn_event_callback: the connection is established, or it has failed or ended.
    method OnEvent(connected: bool)
      requires Valid() && fd != 0
      modifies this`input, this`output, this`fd, this`isConnect, this`revPackLen, this`disconnects
      ensures Valid()
      ensures connected ==> isConnect && unchanged(this`input, this`output, this`fd, this`revPackLen, this`disconnects)
      ensures !connected ==> fd == 0 && disconnects == old(disconnects) + 1
    {
      hide Rooted, Flatten, DataEndsAt, Deframe, Value, Raw;
      if connected {
        isConnect := true;
      } else {
        InStepPrefix(wire, received, Raw(input.Contents(), revPackLen));
        DisConnect();
      }
    }

    // The messages that have been delivered, and those still in the buffer, are the ones that came over the wire.
    ghost predicate Reading()
      requires input != null
      reads this, input
    {
      && HeaderRead(input.Contents(), revPackLen)
      && Pending(wire, received, Raw(input.Contents(), revPackLen))
    }

    // The header of the next message, unless it has been read before. The code does not check whether there is memory
    // to make its bytes contiguous: ok is false where it would follow a null pointer.
    method ReadHeader() returns (ok: bool)
      requires Open() && Reading() && |input.Contents()| >= HEAD_LEN
      modifies this`revPackLen, input, input.store
      ensures Open() && fresh(input.store - old(input.store)) && |input.Contents()| == |old(input.Contents())|
      ensures ok && 0 < revPackLen <= MAX_MSG_DATA_LEN ==>
        && Reading() && |Raw(input.Contents(), revPackLen)| == |input.Contents()|
        && revPackLen == Value(Raw(input.Contents(), revPackLen)[..HEAD_LEN])
        && Raw(input.Contents(), revPackLen)[HEAD_LEN..] == input.Contents()[HEAD_LEN..]
      ensures ok && !(0 < revPackLen <= MAX_MSG_DATA_LEN) ==> Deframe(wire).bad && received == Deframe(wire).msgs
      ensures ok && old(revPackLen) == 0 ==> var c := old(input.Contents());
        revPackLen == c[0] as nat * 0x100_0000 + c[1] as nat * 0x1_0000 + c[2] as nat * 0x100 + c[3] as nat
      ensures input.ample ==> ok
    {
      hide Rooted, Flatten, DataEndsAt, Deframe, Value, Raw;
      ghost var c := input.Contents();
      RawHeader(c, revPackLen);
      if revPackLen == 0 {
        RawFresh(c);
        ok, revPackLen := SwapFirst(input);
        if !ok {
          return;
        }
        RawHeader(input.Contents(), revPackLen);
        if revPackLen == 0 || revPackLen > MAX_MSG_DATA_LEN {
          PendingBad(wire, received, c);
        }
      }
      return true;
    }

    // OnRecv: the user's code gets the message, may send others on the same connection, and may close it.
    method OnRecv(m: seq<byte>)
      requires Open()
      modifies this`received, this`input, this`output, this`fd, this`isConnect, this`revPackLen, this`disconnects, this`hungUp
      modifies output, output.store
      ensures received == old(received) + [m]
      ensures fd != 0 ==> Open() && SameButOutput()
      ensures fd == 0 ==> hungUp && input == null && output == null && !isConnect && revPackLen == 0
    {
      hide EvBuffer.Valid, Flatten;
      received := received + [m];
      var replies: nat := *;
      var i := 0;
      while i < replies && fd != 0
        invariant received == old(received) + [m] && (fd != 0 ==> Open() && SameButOutput())
        invariant fd == 0 ==> input == null && output == null && !isConnect && revPackLen == 0
      {
        Reply();
        i := i + 1;
      }
      var closes: bool := *;
      if closes {
        DisConnect();
      }
      hungUp := fd == 0;
    }

    // A message that the user's code sends
    method Reply()
      requires Open()
      modifies this`input, this`output, this`fd, this`isConnect, this`revPackLen, this`disconnects
      modifies output, output.store
      ensures fd != 0 ==> Open() && SameButOutput()
      ensures fd == 0 ==> input == null && output == null && !isConnect && revPackLen == 0
    {
      hide EvBuffer.Valid, Flatten, Sendable;
      var data: seq<byte> := *;
      var ok := SendPack(data);
    }

    // The connection is the same, and only its output may have grown.
    twostate predicate SameButOutput()
      requires old(output) != null
      reads this, output
    {
      && unchanged(this`fd, this`input, this`output, this`isConnect, this`revPackLen)
      && fresh(output.store - old(output.store)) && output.freezeStart == old(output.freezeStart)
      && output.freezeEnd == old(output.freezeEnd)
    }

    // One complete message of the read callback, with its header read.
    method Deliver()
      requires Open() && Reading() && 0 < revPackLen && revPackLen + HEAD_LEN <= |input.Contents()|
      requires revPackLen == Value(Raw(input.Contents(), revPackLen)[..HEAD_LEN]) && revPackLen <= MAX_MSG_DATA_LEN
      requires |Raw(input.Contents(), revPackLen)| == |input.Contents()|
      requires Raw(input.Contents(), revPackLen)[HEAD_LEN..] == input.Contents()[HEAD_LEN..]
      modifies this`received, this`input, this`output, this`fd, this`isConnect, this`revPackLen, this`disconnects, this`hungUp
      modifies input, input.store, output, output.store
      ensures fd == 0 ==> Valid() && (old(input).ample ==> hungUp)
      ensures fd != 0 ==>
        && fd == old(fd) && input == old(input) && output == old(output)
        && Open() && Reading() && fresh(input.store - old(input.store)) && fresh(output.store - old(output.store))
        && |input.Contents()| < |old(input.Contents())|
    {
      hide EvBuffer.Valid, Flatten, Deframe, Value, Raw;
      var buf := input;
      ghost var c, n, raw := buf.Contents(), revPackLen, Raw(buf.Contents(), revPackLen);
      var finishPackLen := revPackLen + HEAD_LEN;
      PendingPrefix(wire, received, raw);
      var p := Pullup(buf, finishPackLen);
      if p == Null {
        DisConnect();
        return;
      }
      MessageAt(c, raw, n, p.memory[p.offset..p.offset + finishPackLen]);
      PendingNext(wire, received, raw, n);
      OnRecv(p.memory[p.offset..p.offset + finishPackLen][HEAD_LEN..]);
      PendingPrefix(wire, received, raw[HEAD_LEN + n..]);
      if fd == 0 {
        return;
      }
      var drained := Drain(buf, finishPackLen);
      revPackLen := 0;
      RawFresh(buf.Contents());
    }

    // ConCom::conn_read_callback_no_cp. It returns true where it would follow a null pointer for want of memory.
    method ReadCallback() returns (crashed: bool)
      requires Open() && Reading()
      modifies this`received, this`input, this`output, this`fd, this`isConnect, this`revPackLen, this`disconnects, this`hungUp
      modifies input, input.store, output, output.store
      ensures !crashed ==> Valid() && (Deframe(wire).bad ==> fd == 0)
      ensures old(input).ample ==> !crashed && (fd == 0 ==> hungUp || (Deframe(wire).bad && received == Deframe(wire).msgs))
      ensures fd != 0 ==>
        && fd == old(fd) && input == old(input) && output == old(output) && Open()
        && fresh(input.store - old(input.store)) && fresh(output.store - old(output.store))
    {
      hide EvBuffer.Valid, Flatten, Deframe, Value, Raw;
      while true
        invariant fd == old(fd) && input == old(input) && output == old(output)
        invariant Open() && Reading() && fresh(input.store - old(input.store)) && fresh(output.store - old(output.store))
        decreases |input.Contents()|
      {
        LengthOf(input);
        var inputLen := input.totalLen;
        if inputLen < HEAD_LEN {
          ShortInput(input.Contents(), revPackLen);
          PendingShort(wire, received, Raw(input.Contents(), revPackLen), 0);
          return false;
        }
        var ok := ReadHeader();
        if !ok {
          return true;
        }
        if revPackLen > MAX_MSG_DATA_LEN || revPackLen == 0 {
          DisConnect();
          return false;
        }
        if inputLen < revPackLen + HEAD_LEN {
          PendingShort(wire, received, Raw(input.Contents(), revPackLen), revPackLen);
          return false;
        }
        Deliver();
        if fd == 0 {
          return false;
        }
      }
    }

    // bufferevent_readcb, without limits: bytes come in from the socket, as many as there is room for, and the read
    // callback runs. When nothing comes the connection is closed, unless the error is one to try again after.
    method OnReadable(readable: int, fails: bool, retriable: bool, incoming: seq<byte>) returns (crashed: bool, n: int)
      requires Valid() && fd != 0
      modifies this, input, input.store, output, output.store
      ensures n <= |incoming| && n <= 4096 && (0 < readable <= 4096 ==> n <= readable)
      ensures old(input).ample && !fails ==> n == |incoming| || n == 4096 || (0 < readable <= 4096 && n == readable)
      ensures old(input).ample && n > 0 ==>
        !crashed && (fd == 0 ==> hungUp || (Deframe(wire).bad && received == Deframe(wire).msgs))
      ensures wire == old(wire) + if n > 0 then incoming[..n] else []
      ensures !crashed ==> Valid()
      ensures n <= 0 ==> !crashed && (fd == 0 <==> n == 0 || !retriable)
      ensures fd != 0 && !crashed ==>
        && fd == old(fd) && input == old(input) && output == old(output)
        && fresh(input.store - old(input.store)) && fresh(output.store - old(output.store))
      ensures msbs == old(msbs)
    {
      hide EvBuffer.Valid, Flatten, Deframe, Value, Raw;
      ghost var c := input.Contents();
      n := ReadUnfrozen(input, readable, fails, incoming);
      crashed := false;
      if n <= 0 {
        assert c + [] == c;
        if n == 0 || !retriable {
          InStepPrefix(wire, received, Raw(c, revPackLen));
          DisConnect();
        }
        return;
      }
      Arrived(c, input.Contents(), incoming[..n], revPackLen, wire, received);
      wire := wire + incoming[..n];
      crashed := ReadCallback();
    }

    // Nothing speaks against sending this.
    ghost predicate Sendable(data: seq<byte>)
      requires output != null
      reads this, output
    {
      && Message(data) && isConnect && output.ample && !output.freezeEnd
      && (msbs == 0 || |output.Contents()| <= msbs) && |output.Contents()| + HEAD_LEN + |data| <= SIZE_MAX
    }

    // ConCom::SendPack. If the second write fails the header stays in the output buffer.
    method SendPack(data: seq<byte>) returns (ok: bool)
      requires fd != 0 ==> Open()
      modifies this`input, this`output, this`fd, this`isConnect, this`revPackLen, this`disconnects
      modifies output, if output == null then {} else output.store
      ensures ok ==>
        && Message(data) && unchanged(this) && Open()
        && output.Contents() == old(output.Contents()) + Frame(data)
      ensures !ok && fd != 0 ==>
        && unchanged(this) && Open() && (output.Contents() == old(output.Contents())
        || (Message(data) && output.Contents() == old(output.Contents()) + Header(|data|)))
      ensures ok ==>
        var n, o := |data|, old(output.Contents());
        output.Contents() == o + [(n / 0x100_0000) as byte, (n / 0x1_0000 % 256) as byte, (n / 256 % 256) as byte, (n % 256) as byte] + data
      ensures fd == 0 && old(fd) != 0 <==>
        old(fd != 0 && isConnect && msbs != 0 && |output.Contents()| > msbs) && 1 <= |data| <= 0x10_0000
      ensures fd == 0 && old(fd) != 0 ==>
        disconnects == old(disconnects) + 1 && input == null && output == null && !isConnect && revPackLen == 0
      ensures old(fd) == 0 ==> !ok && unchanged(this)
      ensures old(fd != 0 && Sendable(data)) ==> ok
      ensures fd != 0 ==> fresh(output.store - old(output.store)) && unchanged(output`freezeStart, output`freezeEnd)
      ensures !ok && fd != 0 && old(output.ample && !output.freezeEnd && 0 < msbs <= LARGEST) ==>
        output.Contents() == old(output.Contents())
    {
      hide Rooted, Flatten, DataEndsAt, Header, Value, Compact;
      if |data| == 0 || !isConnect || |data| > MAX_MSG_DATA_LEN || fd == 0 {
        return false;
      }
      if msbs != 0 {
        if output.totalLen > msbs {
          DisConnect();
          return false;
        }
      }
      ok := QueueFrame(output, data);
      FrameBytes(data);
    }
  }

  lemma FrameBytes(m: seq<byte>)
    requires Message(m)
    ensures var n := |m|;
      Frame(m) == [(n / 0x100_0000) as byte, (n / 0x1_0000 % 256) as byte, (n / 256 % 256) as byte, (n % 256) as byte] + m
  {
  }

  lemma RawHeader(c: seq<byte>, n: nat)
    requires |c| >= HEAD_LEN
    ensures |Raw(c, n)| == |c| && Raw(c, n)[HEAD_LEN..] == c[HEAD_LEN..]
    ensures HeaderRead(c, n) && n != 0 ==> n == Value(Raw(c, n)[..HEAD_LEN])
  {
    hide Value, Swapped;
    if n != 0 {
      assert Raw(c, n)[..HEAD_LEN] == Swapped(c[..HEAD_LEN]);
    }
  }

  lemma PendingBad(wire: seq<byte>, received: seq<seq<byte>>, raw: seq<byte>)
    requires Pending(wire, received, raw) && |raw| >= HEAD_LEN
    requires Value(raw[..HEAD_LEN]) == 0 || Value(raw[..HEAD_LEN]) > MAX_MSG_DATA_LEN
    ensures Deframe(wire) == Parsed(received, raw, true)
  {
    hide Value;
    assert Deframe(raw) == Parsed([], raw, true);
    assert received + [] == received;
  }

  lemma PendingPrefix(wire: seq<byte>, received: seq<seq<byte>>, raw: seq<byte>)
    requires Pending(wire, received, raw)
    ensures received <= Deframe(wire).msgs
  {
  }

  // The message in the pulled-up bytes, and the buffer behind it.
  lemma MessageAt(c: seq<byte>, raw: seq<byte>, n: nat, front: seq<byte>)
    requires HEAD_LEN + n <= |c| == |raw| && raw[HEAD_LEN..] == c[HEAD_LEN..] && front == c[..HEAD_LEN + n]
    requires 0 < n <= MAX_MSG_DATA_LEN && n == Value(raw[..HEAD_LEN])
    ensures Complete(raw, n) && front[HEAD_LEN..] == raw[HEAD_LEN..HEAD_LEN + n]
    ensures c[HEAD_LEN + n..] == raw[HEAD_LEN + n..]
  {
    hide Value;
    assert front[HEAD_LEN..] == c[HEAD_LEN..][..n] == raw[HEAD_LEN..][..n];
    assert c[HEAD_LEN + n..] == c[HEAD_LEN..][n..] == raw[HEAD_LEN..][n..];
  }

  lemma RawFresh(c: seq<byte>)
    ensures Raw(c, 0) == c && HeaderRead(c, 0)
  {
  }

  lemma ShortInput(c: seq<byte>, n: nat)
    requires |c| < HEAD_LEN
    ensures Raw(c, n) == c
  {
  }

  lemma InStepPrefix(wire: seq<byte>, received: seq<seq<byte>>, raw: seq<byte>)
    requires Deframe(wire) == Parsed(received, raw, false)
    ensures received <= Deframe(wire).msgs
  {
  }

  // Bytes that arrive go behind what the buffer stands for.
  lemma Arrived(c: seq<byte>, c': seq<byte>, more: seq<byte>, n: nat, wire: seq<byte>, received: seq<seq<byte>>)
    requires c' == c + more && HeaderRead(c, n) && Deframe(wire) == Parsed(received, Raw(c, n), false)
    ensures HeaderRead(c', n) && Pending(wire + more, received, Raw(c', n))
  {
    hide Deframe, Value;
    if n == 0 {
      assert Raw(c', n) == Raw(c, n) + more;
    } else {
      assert c'[..HEAD_LEN] == c[..HEAD_LEN] && c'[HEAD_LEN..] == c[HEAD_LEN..] + more;
      assert Raw(c', n) == Raw(c, n) + more;
    }
    PendingMore(wire, received, Raw(c, n), more);
  }

  // What a peer that sends only messages with SendPack makes of all this: at any time the connection has delivered the
  // messages that have arrived whole, in order, and once all bytes have arrived it has delivered all messages.
  lemma Delivered(con: ConCom, msgs: seq<seq<byte>>)
    requires con.Valid() && (forall m :: m in msgs ==> Message(m)) && con.wire <= Frames(msgs)
    ensures con.received <= msgs
    ensures con.fd != 0 ==> con.wire == Frames(con.received) + Raw(con.input.Contents(), con.revPackLen)
    ensures con.fd != 0 && con.wire == Frames(msgs) ==> con.received == msgs && con.input.Contents() == []
  {
    DeframeFrames(msgs, |con.wire|);
    assert con.wire == Frames(msgs)[..|con.wire|];
  }
}
