/** Whole runs of the wrapper's framing: messages queued with SendPack on one connection, bytes that the sockets carry in
    pieces of any size, and the read callback of the other connection. */
module FramingRuns {
  import opened Bytes
  import opened EvBufferCore
  import opened EvBufferDrain
  import opened EvBufferMove
  import opened EvBufferRead
  import opened Framing

  // A message is to be sent, the socket takes some bytes of the output, or some bytes arrive at the other end.
  datatype Step =
    | Send(msg: seq<byte>)
    | Carry(len: nat)
    | Arrive(len: nat, readable: int)

  ghost function Parts(c: ConCom): set<object>
    reads c, c.input, c.output
  {
    {c} + (if c.input == null then {} else {c.input} + c.input.store)
        + (if c.output == null then {} else {c.output} + c.output.store)
  }

  // Two connections that share nothing, with memory for their buffers; either may have been closed.
  ghost predicate Wired(s: ConCom, r: ConCom)
    reads s, s.input, s.output, r, r.input, r.output
    reads if s.input == null then {} else s.input.store, if s.output == null then {} else s.output.store
    reads if r.input == null then {} else r.input.store, if r.output == null then {} else r.output.store
  {
    && Parts(s) !! Parts(r) && r.Valid() && (r.fd != 0 ==> r.input.ample)
    && (if s.fd == 0 then s.input == null && s.output == null else s.Open() && s.output.ample && !s.output.freezeEnd)
    && 0 < s.msbs <= LARGEST
  }

  // Every byte of the messages sent has arrived, is on its way, waits in the output, or went down with the connection.
  ghost predicate OnItsWay(s: ConCom, r: ConCom, pipe: seq<byte>, sent: seq<seq<byte>>, lost: seq<byte>)
    requires s.fd != 0 ==> s.output != null
    reads s, s.output, r
  {
    && (forall m :: m in sent ==> Message(m))
    && r.wire + pipe + (if s.fd != 0 then s.output.Contents() else lost) == Frames(sent)
  }

  // SendPack
  method DoSend(s: ConCom, r: ConCom, msg: seq<byte>, ghost pipe: seq<byte>, ghost sent: seq<seq<byte>>, ghost lost: seq<byte>)
    returns (ok: bool, ghost lost': seq<byte>)
    requires Wired(s, r) && OnItsWay(s, r, pipe, sent, lost)
    modifies Parts(s)
    ensures Wired(s, r) && fresh(Parts(s) - old(Parts(s))) && OnItsWay(s, r, pipe, if ok then sent + [msg] else sent, lost')
    ensures s.msbs == old(s.msbs) && (s.fd != 0 ==> s.isConnect == old(s.isConnect))
    ensures old(s.fd != 0 && s.isConnect && |s.output.Contents()| <= s.msbs) && Message(msg) ==> ok && s.fd != 0
  {
    hide EvBuffer.Valid, Flatten, Frames, ConCom.Valid;
    lost' := if s.fd != 0 then s.output.Contents() else lost;
    ok := s.SendPack(msg);
    if ok {
      FramesMore(sent, msg);
      assert r.wire + pipe + (lost' + Frame(msg)) == r.wire + pipe + lost' + Frame(msg);
    }
  }

  // bufferevent_writecb: the socket takes the first bytes of the output, as many as it likes.
  method DoCarry(s: ConCom, r: ConCom, len: nat, ghost pipe: seq<byte>, ghost sent: seq<seq<byte>>, ghost lost: seq<byte>)
    returns (bytes: seq<byte>)
    requires Wired(s, r) && OnItsWay(s, r, pipe, sent, lost)
    modifies Parts(s)
    ensures Wired(s, r) && fresh(Parts(s) - old(Parts(s))) && OnItsWay(s, r, pipe + bytes, sent, lost)
    ensures s.msbs == old(s.msbs) && s.fd == old(s.fd) && s.isConnect == old(s.isConnect)
    ensures s.fd != 0 ==>
      && |bytes| == Min(len, |old(s.output.Contents())|) && bytes == old(s.output.Contents())[..|bytes|]
      && s.output.Contents() == old(s.output.Contents())[|bytes|..]
    ensures s.fd == 0 ==> bytes == []
  {
    hide EvBuffer.Valid, Flatten, Message, Frames, ConCom.Valid;
    bytes := [];
    assert pipe + [] == pipe;
    if s.fd != 0 {
      ghost var was := s.output.Contents();
      bytes := TakeOut(s.output, len);
      assert was == bytes + was[|bytes|..];
      assert r.wire + pipe + was == r.wire + (pipe + bytes) + was[|bytes|..];
    }
  }

  method TakeOut(buf: EvBuffer, len: nat) returns (bytes: seq<byte>)
    requires buf.Valid()
    modifies buf, buf.store
    ensures buf.Valid() && buf.store <= old(buf.store) && buf.freezeEnd == old(buf.freezeEnd)
    ensures |bytes| == Min(len, old(|buf.Contents()|)) && bytes == old(buf.Contents())[..|bytes|] && buf.freezeStart
    ensures buf.Contents() == old(buf.Contents())[|bytes|..]
  {
    hide EvBuffer.Valid, Flatten;
    SetFrozen(buf, true, false);
    var out := new byte[len];
    var n := Remove(buf, out, len);
    bytes := out[..n];
    SetFrozen(buf, true, true);
  }

  // The other connection reads what has arrived; its user may close it.
  method DoArrive(s: ConCom, r: ConCom, len: nat, readable: int, pipe: seq<byte>, ghost sent: seq<seq<byte>>, ghost lost: seq<byte>)
    returns (left: seq<byte>)
    requires Wired(s, r) && OnItsWay(s, r, pipe, sent, lost) && (r.fd == 0 ==> r.hungUp)
    modifies Parts(r)
    ensures Wired(s, r) && fresh(Parts(r) - old(Parts(r))) && OnItsWay(s, r, left, sent, lost) && (r.fd == 0 ==> r.hungUp)
    ensures |left| <= |pipe| && (old(r.fd) != 0 && len > 0 && pipe != [] ==> |left| < |pipe|)
    ensures Took(old(r.fd) != 0, len, readable, pipe, left)
  {
    hide EvBuffer.Valid, Flatten, Message, Frames, Deframe, ConCom.InStep, Took;
    left := pipe;
    TookNone(r.fd != 0, len, readable, pipe);
    if r.fd != 0 && len > 0 && pipe != [] {
      var incoming := pipe[..Min(len, |pipe|)];
      var crashed, n := r.OnReadable(readable, false, false, incoming);
      left := pipe[n..];
      TookSome(len, readable, pipe, n);
      assert incoming[..n] == pipe[..n];
      ghost var rest := if s.fd != 0 then s.output.Contents() else lost;
      MovedOn(old(r.wire), r.wire, pipe, n, rest);
      NotBad(r.wire, left + rest, sent);
    }
  }

  // What arrives is all of the first len bytes, as far as the kernel and the limit of one read allow.
  ghost predicate Took(open: bool, len: nat, readable: int, pipe: seq<byte>, left: seq<byte>)
  {
    if !open || len == 0 || pipe == [] then left == pipe
    else
      var n := |pipe| - |left|;
      && 0 <= n <= len && left == pipe[n..] && n <= 4096 && (0 < readable <= 4096 ==> n <= readable)
      && (n == len || n == |pipe| || n == 4096 || (0 < readable <= 4096 && n == readable))
  }

  lemma MovedOn(wire: seq<byte>, wire': seq<byte>, pipe: seq<byte>, n: nat, rest: seq<byte>)
    requires n <= |pipe| && wire' == wire + pipe[..n]
    ensures wire + pipe + rest == wire' + (pipe[n..] + rest) == wire' + pipe[n..] + rest
  {
    assert pipe == pipe[..n] + pipe[n..];
  }

  lemma TookNone(open: bool, len: nat, readable: int, pipe: seq<byte>)
    ensures !(open && len > 0 && pipe != []) ==> Took(open, len, readable, pipe, pipe)
  {
  }

  lemma TookSome(len: nat, readable: int, pipe: seq<byte>, n: nat)
    requires len > 0 && pipe != [] && n <= Min(len, |pipe|) && n <= 4096 && (0 < readable <= 4096 ==> n <= readable)
    requires n == Min(len, |pipe|) || n == 4096 || (0 < readable <= 4096 && n == readable)
    ensures Took(true, len, readable, pipe, pipe[n..])
  {
  }

  // A part of a stream of messages has no length that is not allowed.
  lemma NotBad(wire: seq<byte>, rest: seq<byte>, sent: seq<seq<byte>>)
    requires (forall m :: m in sent ==> Message(m)) && (wire + rest == Frames(sent))
    ensures !Deframe(wire).bad
  {
    DeframeFrames(sent, |wire|);
    assert Frames(sent)[..|wire|] == wire;
  }

  lemma {:induction false} FramesMore(msgs: seq<seq<byte>>, m: seq<byte>)
    requires (forall o :: o in msgs ==> Message(o)) && Message(m)
    ensures Frames(msgs + [m]) == Frames(msgs) + Frame(m)
  {
    hide Message, Frame;
    if msgs == [] {
      assert msgs + [m] == [m] && [m][1..] == [];
      assert Frames([m]) == Frame(m) + Frames([]);
    } else {
      FramesMore(msgs[1..], m);
      assert (msgs + [m])[1..] == msgs[1..] + [m];
      assert Frame(msgs[0]) + (Frames(msgs[1..]) + Frame(m)) == Frame(msgs[0]) + Frames(msgs[1..]) + Frame(m);
    }
  }

  // The messages that SendPack is called with.
  function Sends(steps: seq<Step>): seq<seq<byte>>
  {
    if steps == [] then []
    else var k := |steps| - 1; Sends(steps[..k]) + if steps[k].Send? then [steps[k].msg] else []
  }

  // All of them are messages, and together they fit the limit of the output buffer.
  ghost predicate Modest(steps: seq<Step>, most: nat)
  {
    (forall m :: m in Sends(steps) ==> Message(m)) && |Frames(Sends(steps))| <= most
  }

  lemma {:induction false} ModestPart(steps: seq<Step>, i: nat, most: nat)
    requires i <= |steps| && Modest(steps, most)
    ensures Modest(steps[..i], most) && forall m :: m in Sends(steps[..i]) ==> m in Sends(steps)
    decreases |steps| - i
  {
    if i == |steps| {
      assert steps[..i] == steps;
    } else {
      ModestPart(steps, i + 1, most);
      SendsNext(steps, i);
      assert Sends(steps[..i]) + [] == Sends(steps[..i]);
      if steps[i].Send? {
        FramesMore(Sends(steps[..i]), steps[i].msg);
      }
    }
  }

  lemma SendsNext(steps: seq<Step>, i: nat)
    requires i < |steps|
    ensures Sends(steps[..i + 1]) == Sends(steps[..i]) + if steps[i].Send? then [steps[i].msg] else []
    ensures steps[i].Send? ==> steps[i].msg in Sends(steps[..i + 1])
  {
    assert steps[..i + 1][..i] == steps[..i];
  }

  // Any run of sends and of bytes that travel on, in pieces of any size.
  method Run(s: ConCom, r: ConCom, steps: seq<Step>) returns (sent: seq<seq<byte>>, pipe: seq<byte>, ghost lost: seq<byte>)
    requires Wired(s, r) && s.fd != 0 && s.output.Contents() == [] && r.fd != 0 && r.wire == []
    modifies Parts(s), Parts(r)
    ensures Wired(s, r) && OnItsWay(s, r, pipe, sent, lost) && (r.fd == 0 ==> r.hungUp) && r.received <= sent
    ensures fresh((Parts(s) + Parts(r)) - (old(Parts(s)) + old(Parts(r))))
    ensures old(s.isConnect && Modest(steps, s.msbs)) ==> sent == Sends(steps) && s.fd != 0
  {
    hide Wired, OnItsWay, Sends, Modest;
    ghost var sure := s.isConnect && Modest(steps, s.msbs);
    sent, pipe, lost := [], [], [];
    Empty(s, r);
    var i := 0;
    while i < |steps|
      invariant 0 <= i <= |steps| && Wired(s, r) && s.msbs == old(s.msbs) && (r.fd == 0 ==> r.hungUp)
      invariant (s.fd != 0 ==> s.output != null) && OnItsWay(s, r, pipe, sent, lost)
      invariant fresh((Parts(s) + Parts(r)) - (old(Parts(s)) + old(Parts(r))))
      invariant sure ==> s.fd != 0 && s.isConnect && sent == Sends(steps[..i])
    {
      sent, pipe, lost := DoStep(s, r, steps, i, sent, pipe, lost, sure);
      i := i + 1;
    }
    assert steps[..i] == steps;
    ReceivedPart(s, r, pipe, sent, lost);
  }

  // At any time what has been received is the first of what has been sent.
  lemma ReceivedPart(s: ConCom, r: ConCom, pipe: seq<byte>, sent: seq<seq<byte>>, lost: seq<byte>)
    requires Wired(s, r) && OnItsWay(s, r, pipe, sent, lost)
    ensures r.received <= sent
  {
    hide EvBuffer.Valid, Flatten, Frames, ConCom.InStep, Message;
    var rest := if s.fd != 0 then s.output.Contents() else lost;
    assert r.wire + pipe + rest == r.wire + (pipe + rest);
    Delivered(r, sent);
  }

  lemma Empty(s: ConCom, r: ConCom)
    requires Wired(s, r) && s.fd != 0 && s.output.Contents() == [] && r.wire == []
    ensures OnItsWay(s, r, [], [], []) && Sends([]) == [] && s.output != null
  {
  }

  ghost function Outgoing(c: ConCom): seq<byte>
    reads c`output, c.output
  {
    if c.output == null then [] else c.output.Contents()
  }

  // What a step does to what waits in the output, to what is on its way and to what has been sent
  ghost predicate Stepped(step: Step, open: bool, was: seq<byte>, now: seq<byte>, pipe: seq<byte>, pipe': seq<byte>,
                          sent: seq<seq<byte>>, sent': seq<seq<byte>>)
  {
    match step
    case Send(msg) => pipe' == pipe && (sent' == sent || sent' == sent + [msg])
    case Carry(len) => var n := Min(len, |was|); sent' == sent && now == was[n..] && pipe' == pipe + was[..n]
    case Arrive(len, readable) => sent' == sent && Took(open, len, readable, pipe, pipe')
  }

  method DoStep(s: ConCom, r: ConCom, steps: seq<Step>, i: nat, sent: seq<seq<byte>>, pipe: seq<byte>, ghost lost: seq<byte>,
                ghost sure: bool)
    returns (sent': seq<seq<byte>>, pipe': seq<byte>, ghost lost': seq<byte>)
    requires Wired(s, r) && OnItsWay(s, r, pipe, sent, lost) && (r.fd == 0 ==> r.hungUp) && i < |steps|
    requires sure ==> s.fd != 0 && s.isConnect && sent == Sends(steps[..i]) && Modest(steps, s.msbs)
    modifies Parts(s), Parts(r)
    ensures Wired(s, r) && s.msbs == old(s.msbs) && (r.fd == 0 ==> r.hungUp)
    ensures (s.fd != 0 ==> s.output != null) && OnItsWay(s, r, pipe', sent', lost')
    ensures fresh((Parts(s) + Parts(r)) - (old(Parts(s)) + old(Parts(r))))
    ensures sure ==> s.fd != 0 && s.isConnect && sent' == Sends(steps[..i + 1])
    ensures Stepped(steps[i], old(r.fd != 0), old(Outgoing(s)), Outgoing(s), pipe, pipe', sent, sent')
  {
    hide EvBuffer.Valid, Flatten, Frames, ConCom.Valid, Sends, Message, Frames, Took;
    sent', pipe', lost' := sent, pipe, lost;
    SendsNext(steps, i);
    if sure {
      ModestPart(steps, i, s.msbs);
      ModestPart(steps, i + 1, s.msbs);
    }
    match steps[i] {
      case Send(msg) =>
        var ok;
        ok, lost' := DoSend(s, r, msg, pipe, sent, lost);
        sent' := if ok then sent + [msg] else sent;
      case Carry(len) =>
        var bytes := DoCarry(s, r, len, pipe, sent, lost);
        pipe' := pipe + bytes;
      case Arrive(len, readable) =>
        pipe' := DoArrive(s, r, len, readable, pipe, sent, lost);
    }
  }

  // A conversation, in the end of which all bytes have arrived. With a connected sender and no more than its output
  // buffer may hold, every message has been delivered, whole, once and in order, unless the user of the other
  // connection has closed it, who has received the first of them then.
  method Converse(s: ConCom, r: ConCom, steps: seq<Step>)
    requires Wired(s, r) && s.fd != 0 && s.isConnect && s.output.Contents() == [] && r.fd != 0 && r.wire == []
    requires Modest(steps, s.msbs)
    modifies Parts(s), Parts(r)
    ensures Wired(s, r) && r.received <= Sends(steps)
    ensures if r.fd == 0 then r.hungUp else r.received == Sends(steps) && r.input.Contents() == []
  {
    hide EvBuffer.Valid, Flatten, Frames, ConCom.Valid, Sends, Message, Frames, Wired, OnItsWay, Modest;
    var sent, pipe, lost := Run(s, r, steps);
    Finish(s, r, sent, pipe, lost);
  }

  method NewBuffer(atFront: bool) returns (buf: EvBuffer)
    ensures fresh(buf) && buf.Valid() && buf.ample && buf.Contents() == [] && buf.store == {}
    ensures buf.freezeStart == atFront && buf.freezeEnd == !atFront
  {
    hide EvBuffer.Valid;
    buf := new EvBuffer(true);
    SetFrozen(buf, atFront, true);
  }

  // A new connection of a socket: both buffers are empty, and their ends frozen where the other side works on them.
  method Connected(sock: nat) returns (c: ConCom)
    requires sock != 0
    ensures fresh(Parts(c)) && c.Valid() && c.Open() && c.fd == sock && c.isConnect && c.msbs == MAX_MAX_SEND_BUF_SIZE
    ensures c.input.ample && c.output.ample && !c.output.freezeEnd && c.output.Contents() == [] && c.wire == []
  {
    hide EvBuffer.Valid, Flatten, Deframe, Value;
    c := new ConCom();
    var input := NewBuffer(false);
    var output := NewBuffer(true);
    var ok := c.SetSocketInfo(input, output, sock);
    c.OnEvent(true);
  }

  // Any conversation between two new connections
  method Meet(steps: seq<Step>) returns (s: ConCom, r: ConCom)
    requires Modest(steps, MAX_MAX_SEND_BUF_SIZE)
    ensures Wired(s, r) && r.received <= Sends(steps)
    ensures if r.fd == 0 then r.hungUp else r.received == Sends(steps) && r.input.Contents() == []
  {
    hide EvBuffer.Valid, Flatten, Frames, ConCom.Valid, Sends, Message, Modest;
    s := Connected(1);
    r := Connected(2);
    Converse(s, r, steps);
  }

  // The bytes that are still on their way arrive.
  method Finish(s: ConCom, r: ConCom, ghost sent: seq<seq<byte>>, way: seq<byte>, ghost lost: seq<byte>)
    requires Wired(s, r) && s.fd != 0 && OnItsWay(s, r, way, sent, lost) && (r.fd == 0 ==> r.hungUp)
    modifies Parts(s), Parts(r)
    ensures Wired(s, r) && r.received <= sent
    ensures if r.fd == 0 then r.hungUp else r.received == sent && r.input.Contents() == []
  {
    hide EvBuffer.Valid, Flatten, Frames, ConCom.InStep, Message, Frames;
    LengthOf(s.output);
    var bytes := DoCarry(s, r, s.output.totalLen, way, sent, lost);
    ArriveAll(s, r, sent, way + bytes, lost);
  }

  method ArriveAll(s: ConCom, r: ConCom, ghost sent: seq<seq<byte>>, way: seq<byte>, ghost lost: seq<byte>)
    requires Wired(s, r) && s.fd != 0 && OnItsWay(s, r, way, sent, lost) && (r.fd == 0 ==> r.hungUp)
    requires s.output.Contents() == []
    modifies Parts(r)
    ensures Wired(s, r) && r.received <= sent
    ensures if r.fd == 0 then r.hungUp else r.received == sent && r.input.Contents() == []
  {
    hide EvBuffer.Valid, Flatten, Frames, ConCom.InStep, Message, Frames;
    var pipe := way;
    while r.fd != 0 && pipe != []
      invariant Wired(s, r) && OnItsWay(s, r, pipe, sent, lost) && (r.fd == 0 ==> r.hungUp)
      invariant fresh(Parts(r) - old(Parts(r)))
      decreases |pipe|
    {
      pipe := DoArrive(s, r, 1, 0, pipe, sent, lost);
    }
    assert r.wire + [] + [] == r.wire;
    assert r.wire + pipe + s.output.Contents() == r.wire + (pipe + s.output.Contents());
    Delivered(r, sent);
  }
}
