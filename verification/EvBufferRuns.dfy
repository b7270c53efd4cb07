/** Whole runs of calls on two evbuffers (buffer.c), seen as byte queues. */
module EvBufferRuns {
  import opened Bytes
  import opened EvBufferCore
  import opened EvBufferAdd
  import opened EvBufferDrain
  import opened EvBufferPullup
  import opened EvBufferExpand
  import opened EvBufferExpandFast
  import opened EvBufferRead
  import opened EvBufferMove
  import opened EvBufferTransfer
  import opened EvBufferLines

  datatype Call =
    | CallAdd(data: seq<byte>)
    | CallPrepend(data: seq<byte>)
    | CallDrain(len: nat)
    | CallRemove(len: nat)
    | CallReadln(style: Style, memoryLeft: bool)
    | CallPullup(wanted: int)
    | CallExpand(len: nat)
    | CallExpandFast(len: nat, more: nat)
    | CallFill(size: nat, more: nat, data: seq<byte>)
    | CallFillOne(size: nat, data: seq<byte>)
    | CallRead(howmuch: int, readable: int, fails: bool, incoming: seq<byte>)
    | CallFreeze(atFront: bool, frozen: bool)

  // A call on one of two buffers, or one that moves bytes from one to the other.
  datatype Step =
    | On(second: bool, call: Call)
    | MoveAll(toSecond: bool)
    | MoveSome(toSecond: bool, len: nat)
    | MoveInFront(toSecond: bool)

  datatype Both<T> = Both(first: T, second: T)
  {
    function Get(second: bool): T
    {
      if second then this.second else first
    }

    function Set(second: bool, x: T): Both<T>
    {
      if second then this.(second := x) else this.(first := x)
    }
  }

  // What a call did to the queue: bytes taken from its front, put in front and put behind.
  datatype Effect = Effect(taken: seq<byte>, front: seq<byte>, back: seq<byte>)

  const NOTHING := Effect([], [], [])

  ghost predicate Fits(s: seq<byte>, data: seq<byte>)
  {
    |data| <= LARGEST && |s| + |data| <= SIZE_MAX
  }

  // What a call may do to a queue of bytes s. A call that fails does nothing, except that a prepend may keep the end
  // of its data; when there is memory and nothing is frozen (`sure`) a call only fails if its data is too long.
  ghost predicate May(sure: bool, call: Call, s: seq<byte>, e: Effect)
  {
    match call
    case CallAdd(data) => (e == NOTHING && !(sure && Fits(s, data))) || e == Effect([], [], data)
    case CallPrepend(data) =>
      && |e.front| <= |data| && e == Effect([], data[|data| - |e.front|..], [])
      && (sure && Fits(s, data) ==> e.front == data)
    case CallDrain(len) => (e == NOTHING && !sure) || e == Effect(s[..Min(len, |s|)], [], [])
    case CallRemove(len) => (e == NOTHING && !sure) || e == Effect(s[..Min(len, |s|)], [], [])
    case CallReadln(style, memoryLeft) =>
      || (e == NOTHING && (!memoryLeft || !sure || |s| > CHAIN_MAX || FirstEol(style, s, 0, -1, 0)))
      || (e == Effect(e.taken, [], []) && IsLine(style, s, e.taken))
    case CallFill(size, more, data) =>
      || (e == NOTHING && !(sure && size + MAX_TO_COPY_IN_EXPAND <= LARGEST))
      || (e == Effect([], [], e.back) && e.back <= data && Min(|data|, size) <= |e.back|)
    case CallFillOne(size, data) =>
      e == NOTHING || (e == Effect([], [], e.back) && e.back <= data && Min(|data|, size) <= |e.back|)
    case CallRead(howmuch, readable, fails, incoming) =>
      || (e == NOTHING && (fails || !sure))
      || (!fails && e == Effect([], [], e.back) && e.back <= incoming && ReadsOf(|e.back|, |incoming|, howmuch, readable))
    case _ => e == NOTHING
  }

  // As many of the bytes that there are as the caller, the kernel and the limit of one call allow
  predicate ReadsOf(n: nat, there: nat, howmuch: int, readable: int)
  {
    && n <= there && n <= 4096 && (howmuch >= 0 ==> n <= howmuch) && (0 < readable <= 4096 ==> n <= readable)
    && (n == there || n == 4096 || (howmuch >= 0 && n == howmuch) || (0 < readable <= 4096 && n == readable))
  }

  // taken is the first line of s with its terminator.
  ghost predicate IsLine(style: Style, s: seq<byte>, taken: seq<byte>)
  {
    taken <= s && exists p: nat, n: nat :: p + n == |taken| && FirstEol(style, s, 0, p, n)
  }

  // Calls that may leave empty chains behind the data: they make space for more than comes into it.
  predicate Reserves(call: Call)
  {
    call.CallExpand? || call.CallExpandFast? || call.CallFill? || call.CallFillOne? || call.CallRead?
  }

  // In which of the buffers there may be empty chains behind the data after a step
  function Looser(loose: Both<bool>, step: Step): Both<bool>
  {
    match step
    case On(second, call) => loose.Set(second, loose.Get(second) || Reserves(call))
    case MoveAll(toSecond) => loose.Set(toSecond, loose.first || loose.second)
    case MoveSome(toSecond, _) => loose.Set(toSecond, loose.first || loose.second)
    case MoveInFront(toSecond) => loose.Set(toSecond, loose.first || loose.second)
  }

  // What a step may do to two queues. To move bytes takes them from the front of one and puts them behind the other, or
  // in front of it; evbuffer_remove_buffer may lose the end of them if memory runs out or the other one becomes too long.
  // A move in front does nothing only if there is nothing to move or if empty chains behind it would make a gap.
  ghost predicate StepMay(sure: bool, loose: Both<bool>, step: Step, s: Both<seq<byte>>, e: Both<Effect>)
  {
    match step
    case On(second, call) => May(sure, call, s.Get(second), e.Get(second)) && e.Get(!second) == NOTHING
    case MoveAll(toSecond) =>
      || (e == Both(NOTHING, NOTHING) && !sure)
      || Moved(e.Get(!toSecond), e.Get(toSecond), s.Get(!toSecond), s.Get(!toSecond))
    case MoveSome(toSecond, len) =>
      var src, dst := s.Get(!toSecond), s.Get(toSecond);
      var some := src[..Min(len, |src|)];
      || (e == Both(NOTHING, NOTHING) && !sure)
      || (&& Moved(e.Get(!toSecond), e.Get(toSecond), some, e.Get(toSecond).back) && e.Get(toSecond).back <= some
          && (sure && |dst| + |some| <= SIZE_MAX ==> e.Get(toSecond).back == some))
    case MoveInFront(toSecond) =>
      var src, dst := s.Get(!toSecond), s.Get(toSecond);
      || (e == Both(NOTHING, NOTHING) && (!sure || src == [] || (dst != [] && loose.Get(!toSecond))))
      || (e.Get(!toSecond) == Effect(src, [], []) && e.Get(toSecond) == Effect([], src, []))
  }

  ghost predicate Moved(src: Effect, dst: Effect, taken: seq<byte>, put: seq<byte>)
  {
    src == Effect(taken, [], []) && dst == Effect([], [], put)
  }

  ghost function After(s: seq<byte>, e: Effect): seq<byte>
    requires e.taken <= s
  {
    e.front + s[|e.taken|..] + e.back
  }

  ghost function AfterBoth(s: Both<seq<byte>>, e: Both<Effect>): Both<seq<byte>>
    requires e.first.taken <= s.first && e.second.taken <= s.second
  {
    Both(After(s.first, e.first), After(s.second, e.second))
  }

  // The steps one after another had these effects, and have turned s into t.
  ghost predicate Replays(sure: bool, loose: Both<bool>, steps: seq<Step>, es: seq<Both<Effect>>, s: Both<seq<byte>>,
                          t: Both<seq<byte>>)
    decreases |steps|
  {
    && |steps| == |es|
    && (if steps == [] then s == t
        else
          && es[0].first.taken <= s.first && es[0].second.taken <= s.second
          && StepMay(sure, loose, steps[0], s, es[0])
          && Replays(sure, Looser(loose, steps[0]), steps[1..], es[1..], AfterBoth(s, es[0]), t))
  }

  // In which there may be some after several steps
  function LooseAfter(loose: Both<bool>, steps: seq<Step>): Both<bool>
    decreases |steps|
  {
    if steps == [] then loose else LooseAfter(Looser(loose, steps[0]), steps[1..])
  }

  lemma {:induction false} LooseMore(loose: Both<bool>, steps: seq<Step>, step: Step)
    ensures LooseAfter(loose, steps + [step]) == Looser(LooseAfter(loose, steps), step)
    decreases |steps|
  {
    if steps == [] {
      assert [step][1..] == [] && [] + [step] == [step];
    } else {
      LooseMore(Looser(loose, steps[0]), steps[1..], step);
      assert (steps + [step])[1..] == steps[1..] + [step];
    }
  }

  lemma {:induction false} ReplaysMore(sure: bool, loose: Both<bool>, steps: seq<Step>, es: seq<Both<Effect>>,
                                       s: Both<seq<byte>>, t: Both<seq<byte>>, step: Step, e: Both<Effect>)
    requires Replays(sure, loose, steps, es, s, t) && e.first.taken <= t.first && e.second.taken <= t.second
    requires StepMay(sure, LooseAfter(loose, steps), step, t, e)
    ensures Replays(sure, loose, steps + [step], es + [e], s, AfterBoth(t, e))
    decreases |steps|
  {
    hide StepMay;
    var cs, fs := steps + [step], es + [e];
    if steps == [] {
      assert cs[1..] == [] && fs[1..] == [];
    } else {
      ReplaysMore(sure, Looser(loose, steps[0]), steps[1..], es[1..], AfterBoth(s, es[0]), t, step, e);
      assert cs[1..] == steps[1..] + [step] && fs[1..] == es[1..] + [e];
    }
  }

  ghost function Taken(es: seq<Both<Effect>>, second: bool): seq<byte>
  {
    if es == [] then [] else es[0].Get(second).taken + Taken(es[1..], second)
  }

  ghost function PutBehind(es: seq<Both<Effect>>, second: bool): seq<byte>
  {
    if es == [] then [] else es[0].Get(second).back + PutBehind(es[1..], second)
  }

  ghost function PutInFront(es: seq<Both<Effect>>, second: bool): seq<byte>
  {
    if es == [] then [] else es[0].Get(second).front + PutInFront(es[1..], second)
  }

  predicate InFront(step: Step, second: bool)
  {
    step == MoveInFront(second) || (step.On? && step.second == second && step.call.CallPrepend?)
  }

  // First in, first out, for either buffer: without prepends on it, what was there and what was put behind it is what
  // was taken and what is left, in this order.
  lemma {:induction false} FirstInFirstOut(sure: bool, loose: Both<bool>, steps: seq<Step>, es: seq<Both<Effect>>,
                                           s: Both<seq<byte>>, t: Both<seq<byte>>, second: bool)
    requires Replays(sure, loose, steps, es, s, t)
    requires forall i :: 0 <= i < |steps| ==> !InFront(steps[i], second)
    ensures s.Get(second) + PutBehind(es, second) == Taken(es, second) + t.Get(second)
    decreases |steps|
  {
    hide StepMay;
    if steps != [] {
      var e, now, more, out := es[0].Get(second), s.Get(second), PutBehind(es[1..], second), Taken(es[1..], second);
      NoFront(sure, loose, steps[0], s, es[0], second);
      FirstInFirstOut(sure, Looser(loose, steps[0]), steps[1..], es[1..], AfterBoth(s, es[0]), t, second);
      assert now + e.back == e.taken + After(now, e);
      Regroup(now, e.back, e.taken, After(now, e), more, out, t.Get(second));
    }
  }

  lemma Regroup(now: seq<byte>, back: seq<byte>, taken: seq<byte>, next: seq<byte>, more: seq<byte>, out: seq<byte>, t: seq<byte>)
    requires now + back == taken + next && next + more == out + t
    ensures now + (back + more) == taken + out + t
  {
    assert now + (back + more) == now + back + more == taken + (next + more);
    assert taken + out + t == taken + (out + t);
  }

  lemma NoFront(sure: bool, loose: Both<bool>, step: Step, s: Both<seq<byte>>, e: Both<Effect>, second: bool)
    requires StepMay(sure, loose, step, s, e) && !InFront(step, second)
    ensures e.Get(second).front == []
  {
  }

  // No byte of either buffer is lost or made up in any run.
  lemma {:induction false} Conserved(sure: bool, loose: Both<bool>, steps: seq<Step>, es: seq<Both<Effect>>,
                                     s: Both<seq<byte>>, t: Both<seq<byte>>, second: bool)
    requires Replays(sure, loose, steps, es, s, t)
    ensures multiset(s.Get(second)) + multiset(PutInFront(es, second)) + multiset(PutBehind(es, second))
      == multiset(Taken(es, second)) + multiset(t.Get(second))
    decreases |steps|
  {
    hide StepMay;
    if steps != [] {
      var e, rest, now := es[0].Get(second), es[1..], s.Get(second);
      var kept := now[|e.taken|..];
      Conserved(sure, Looser(loose, steps[0]), steps[1..], rest, AfterBoth(s, es[0]), t, second);
      assert now == e.taken + kept;
      Balanced(multiset(e.taken), multiset(kept), multiset(e.front), multiset(e.back), multiset(PutInFront(rest, second)),
               multiset(PutBehind(rest, second)), multiset(Taken(rest, second)), multiset(t.Get(second)));
    }
  }

  lemma Balanced(taken: multiset<byte>, kept: multiset<byte>, front: multiset<byte>, back: multiset<byte>,
                 fronts: multiset<byte>, backs: multiset<byte>, out: multiset<byte>, t: multiset<byte>)
    requires front + kept + back + fronts + backs == out + t
    ensures taken + kept + (front + fronts) + (back + backs) == taken + out + t
  {
    assert taken + kept + (front + fronts) + (back + backs) == taken + (front + kept + back + fronts + backs);
    assert taken + out + t == taken + (out + t);
  }

  // The bytes that a step may bring in from outside.
  function Volume(steps: seq<Step>): nat
  {
    if steps == [] then 0 else (if steps[0].On? then CallVolume(steps[0].call) else 0) + Volume(steps[1..])
  }

  function CallVolume(call: Call): nat
  {
    match call
    case CallAdd(data) => |data|
    case CallFill(_, _, data) => |data|
    case CallFillOne(_, data) => |data|
    case CallRead(_, _, _, incoming) => |incoming|
    case _ => 0
  }

  // A pipeline: bytes come into the first buffer, are moved to the second one, in whole or in part, and are taken from
  // there. The first buffer may not be drained otherwise, and nothing else may come into the second one.
  ghost predicate Pipeline(step: Step)
  {
    match step
    case On(second, call) =>
      && !call.CallPrepend? && (second ==> !call.CallAdd? && !call.CallFill? && !call.CallFillOne? && !call.CallRead?)
      && (!second ==> !call.CallDrain? && !call.CallRemove? && !call.CallReadln?)
    case MoveAll(toSecond) => toSecond
    case MoveSome(toSecond, _) => toSecond
    case MoveInFront(_) => false
  }

  // Through the pipeline too, first in is first out, if there is memory for it: no byte is lost on the way, and none
  // overtakes another, whatever the moves were.
  lemma {:induction false} PipelineInOrder(sure: bool, loose: Both<bool>, steps: seq<Step>, es: seq<Both<Effect>>,
                                           s: Both<seq<byte>>, t: Both<seq<byte>>)
    requires Replays(sure, loose, steps, es, s, t) && (forall i :: 0 <= i < |steps| ==> Pipeline(steps[i]))
    requires sure && |s.first| + |s.second| + Volume(steps) <= SIZE_MAX
    ensures s.second + s.first + PutBehind(es, false) == Taken(es, true) + t.second + t.first
    decreases |steps|
  {
    hide StepMay, Pipeline, CallVolume;
    if steps != [] {
      var e, next, more, out := es[0], AfterBoth(s, es[0]), PutBehind(es[1..], false), Taken(es[1..], true);
      PipelineStep(loose, steps[0], s, e);
      PipelineInOrder(sure, Looser(loose, steps[0]), steps[1..], es[1..], next, t);
      RegroupBoth(s.second + s.first, e.first.back, e.second.taken, next.second + next.first, more, out, t.second, t.first);
    }
  }

  lemma RegroupBoth(now: seq<byte>, back: seq<byte>, taken: seq<byte>, next: seq<byte>, more: seq<byte>, out: seq<byte>,
                    t: seq<byte>, u: seq<byte>)
    requires now + back == taken + next && next + more == out + t + u
    ensures now + (back + more) == taken + out + t + u
  {
    assert out + t + u == out + (t + u);
    Regroup(now, back, taken, next, more, out, t + u);
    assert taken + out + t + u == taken + out + (t + u);
  }

  // One step of it: what comes into the first buffer goes behind everything.
  lemma PipelineStep(loose: Both<bool>, step: Step, s: Both<seq<byte>>, e: Both<Effect>)
    requires StepMay(true, loose, step, s, e) && Pipeline(step) && e.first.taken <= s.first && e.second.taken <= s.second
    requires |s.first| + |s.second| + (if step.On? then CallVolume(step.call) else 0) <= SIZE_MAX
    ensures var next := AfterBoth(s, e);
      && s.second + s.first + e.first.back == e.second.taken + (next.second + next.first)
      && |next.first| + |next.second| <= |s.first| + |s.second| + (if step.On? then CallVolume(step.call) else 0)
      && (!step.On? || step.second ==> e.first.back == [])
  {
    hide StepMay, Pipeline;
    PipelineEffect(loose, step, s, e);
    Flow(s.first, s.second, e.second.taken, e.first.taken, e.first.back);
  }

  // What leaves the first buffer comes into the second one.
  lemma PipelineEffect(loose: Both<bool>, step: Step, s: Both<seq<byte>>, e: Both<Effect>)
    requires StepMay(true, loose, step, s, e) && Pipeline(step) && |s.first| + |s.second| <= SIZE_MAX
    ensures e.first.front == [] && e.second.front == [] && e.second.back == e.first.taken
    ensures |e.first.back| <= if step.On? then CallVolume(step.call) else 0
    ensures !step.On? || step.second ==> e.first.back == []
  {
    hide May;
    if step.On? && step.second {
      OnlyOut(step.call, s.second, e.second);
    } else if step.On? {
      OnlyIn(step.call, s.first, e.first);
    }
  }

  lemma Flow(first: seq<byte>, second: seq<byte>, taken: seq<byte>, moved: seq<byte>, back: seq<byte>)
    requires taken <= second && moved <= first
    ensures var kept, rest := second[|taken|..], first[|moved|..];
      second + first + back == taken + (([] + kept + moved) + ([] + rest + back))
  {
    var kept, rest := second[|taken|..], first[|moved|..];
    assert second == taken + kept && first == moved + rest;
    assert taken + kept + (moved + rest) + back == taken + ((kept + moved) + (rest + back));
    assert [] + kept == kept && [] + rest == rest;
  }

  lemma OnlyOut(call: Call, s: seq<byte>, e: Effect)
    requires May(true, call, s, e) && Pipeline(On(true, call))
    ensures e.front == [] && e.back == []
  {
    hide FirstEol;
  }

  lemma OnlyIn(call: Call, s: seq<byte>, e: Effect)
    requires May(true, call, s, e) && Pipeline(On(false, call))
    ensures e.front == [] && e.taken == [] && |e.back| <= CallVolume(call)
  {
    hide FirstEol;
  }

  ghost predicate Sure(buf: EvBuffer)
    reads buf`freezeStart, buf`freezeEnd
  {
    buf.ample && !buf.freezeStart && !buf.freezeEnd
  }

  // One call. Its memory may run out; what it returns is told by its effect.
  method Do(buf: EvBuffer, call: Call) returns (ghost e: Effect)
    requires buf.Valid()
    modifies buf, buf.store
    ensures buf.Valid() && fresh(buf.store - old(buf.store))
    ensures e.taken <= old(buf.Contents()) && May(old(Sure(buf)), call, old(buf.Contents()), e)
    ensures !call.CallFreeze? ==> unchanged(buf`freezeStart, buf`freezeEnd)
    ensures call.CallFreeze? ==>
      && buf.freezeStart == (if call.atFront then call.frozen else old(buf.freezeStart))
      && buf.freezeEnd == (if call.atFront then old(buf.freezeEnd) else call.frozen)
    ensures call.CallFillOne? && old(Sure(buf) && Tidy(buf.pieces, buf.lwd)) && call.size + MAX_TO_COPY_IN_EXPAND <= LARGEST ==>
      |e.back| >= Min(|call.data|, call.size)
    ensures buf.Contents() == After(old(buf.Contents()), e)
    ensures old(Compact(buf.pieces, buf.lwd)) ==> Compact(buf.pieces, buf.lwd)
    ensures !Reserves(call) && old(Tidy(buf.pieces, buf.lwd)) ==> Tidy(buf.pieces, buf.lwd)
  {
    hide EvBuffer.Valid, Flatten, Compact, Tidy, May, After;
    LengthOf(buf);
    ghost var s, sure := buf.Contents(), Sure(buf);
    e := NOTHING;
    NothingPut(sure, call, s);
    match call {
      case CallAdd(data) =>
        var r := Add(buf, data);
        e := if r == 0 then Effect([], [], data) else NOTHING;
        AddedAll(sure, data, s, r);
      case CallPrepend(data) =>
        e := DoPrepend(buf, data);
      case CallDrain(len) =>
        var r := Drain(buf, len);
        e := if r == 0 then Effect(s[..Min(len, |s|)], [], []) else NOTHING;
        RemovedPart(sure, len, s, if r == 0 then Min(len, |s|) else -1);
      case CallRemove(len) =>
        e := DoRemove(buf, len);
      case CallReadln(style, memoryLeft) =>
        e := DoReadln(buf, style, memoryLeft);
      case CallFill(size, more, data) =>
        e := DoFill(buf, size, more, data);
      case CallFillOne(size, data) =>
        e := DoFillOne(buf, size, data);
      case CallPullup(size) =>
        var p := Pullup(buf, size);
      case CallExpand(len) =>
        var r := Expand(buf, len);
      case CallExpandFast(len, more) =>
        var r := ExpandFast(buf, len, 2 + more);
      case CallRead(howmuch, readable, fails, incoming) =>
        e := DoRead(buf, howmuch, readable, fails, incoming);
      case CallFreeze(atFront, frozen) =>
        SetFrozen(buf, atFront, frozen);
    }
  }

  method DoPrepend(buf: EvBuffer, data: seq<byte>) returns (ghost e: Effect)
    requires buf.Valid()
    modifies buf, buf.store
    ensures buf.Valid() && fresh(buf.store - old(buf.store))
    ensures e.taken == [] && May(old(Sure(buf)), CallPrepend(data), old(buf.Contents()), e)
    ensures unchanged(buf`freezeStart, buf`freezeEnd) && buf.Contents() == After(old(buf.Contents()), e)
    ensures old(Compact(buf.pieces, buf.lwd)) ==> Compact(buf.pieces, buf.lwd)
    ensures old(Tidy(buf.pieces, buf.lwd)) ==> Tidy(buf.pieces, buf.lwd)
  {
    hide EvBuffer.Valid, Flatten, Compact, Tidy, May, After;
    ghost var s := buf.Contents();
    var r := Prepend(buf, data);
    ghost var grown := |buf.Contents()| - |s|;
    e := Effect([], data[|data| - grown..], []);
    PrependedPart(old(Sure(buf)), data, s, grown);
  }

  lemma PrependedPart(sure: bool, data: seq<byte>, s: seq<byte>, n: nat)
    requires n <= |data| && (sure && Fits(s, data) ==> n == |data|)
    ensures var e := Effect([], data[|data| - n..], []);
      May(sure, CallPrepend(data), s, e) && After(s, e) == data[|data| - n..] + s
  {
  }

  method DoRemove(buf: EvBuffer, len: nat) returns (ghost e: Effect)
    requires buf.Valid()
    modifies buf, buf.store
    ensures buf.Valid() && fresh(buf.store - old(buf.store))
    ensures e.taken <= old(buf.Contents()) && May(old(Sure(buf)), CallRemove(len), old(buf.Contents()), e)
    ensures unchanged(buf`freezeStart, buf`freezeEnd) && buf.Contents() == After(old(buf.Contents()), e)
    ensures old(Compact(buf.pieces, buf.lwd)) ==> Compact(buf.pieces, buf.lwd)
    ensures old(Tidy(buf.pieces, buf.lwd)) ==> Tidy(buf.pieces, buf.lwd)
  {
    hide EvBuffer.Valid, Flatten, Compact, Tidy, Copied, May, After;
    ghost var s := buf.Contents();
    var out := new byte[len];
    var n := Remove(buf, out, len);
    e := if n >= 0 then Effect(s[..n], [], []) else NOTHING;
    RemovedPart(old(Sure(buf)), len, s, n);
  }

  lemma RemovedPart(sure: bool, len: nat, s: seq<byte>, n: int)
    requires n == Min(len, |s|) || (n == -1 && !sure)
    ensures var e := if n >= 0 then Effect(s[..n], [], []) else NOTHING;
      && e.taken <= s && May(sure, CallRemove(len), s, e) && May(sure, CallDrain(len), s, e)
      && After(s, e) == if n >= 0 then s[n..] else s
  {
  }

  lemma AddedAll(sure: bool, data: seq<byte>, s: seq<byte>, r: int)
    requires r == 0 || !(sure && Fits(s, data))
    ensures var e := if r == 0 then Effect([], [], data) else NOTHING;
      May(sure, CallAdd(data), s, e) && After(s, e) == if r == 0 then s + data else s
  {
  }

  // These calls put nothing in and take nothing out.
  lemma NothingPut(sure: bool, call: Call, s: seq<byte>)
    ensures After(s, NOTHING) == s
    ensures call.CallPullup? || call.CallExpand? || call.CallExpandFast? || call.CallFreeze? ==> May(sure, call, s, NOTHING)
  {
  }

  method DoRead(buf: EvBuffer, howmuch: int, readable: int, fails: bool, incoming: seq<byte>) returns (ghost e: Effect)
    requires buf.Valid()
    modifies buf, buf.store
    ensures buf.Valid() && fresh(buf.store - old(buf.store))
    ensures e.taken == [] && May(old(Sure(buf)), CallRead(howmuch, readable, fails, incoming), old(buf.Contents()), e)
    ensures unchanged(buf`freezeStart, buf`freezeEnd) && buf.Contents() == After(old(buf.Contents()), e)
    ensures old(Compact(buf.pieces, buf.lwd)) ==> Compact(buf.pieces, buf.lwd)
  {
    hide EvBuffer.Valid, Flatten, Compact, FirstEol;
    ghost var s := buf.Contents();
    assert After(s, NOTHING) == s;
    var r := Read(buf, howmuch, readable, fails, incoming);
    e := if r >= 0 then Effect([], [], incoming[..r]) else NOTHING;
  }

  method DoFill(buf: EvBuffer, size: nat, more: nat, data: seq<byte>) returns (ghost e: Effect)
    requires buf.Valid()
    modifies buf, buf.store
    ensures buf.Valid() && fresh(buf.store - old(buf.store))
    ensures e.taken == [] && May(old(Sure(buf)), CallFill(size, more, data), old(buf.Contents()), e)
    ensures unchanged(buf`freezeStart, buf`freezeEnd) && buf.Contents() == After(old(buf.Contents()), e)
    ensures old(Compact(buf.pieces, buf.lwd)) ==> Compact(buf.pieces, buf.lwd)
  {
    hide EvBuffer.Valid, Flatten, Compact, FirstEol;
    ghost var s := buf.Contents();
    e := NOTHING;
    assert After(s, NOTHING) == s;
    if size <= CHAIN_MAX {
      var n := Fill(buf, size, more, data);
      e := if n >= 0 then Effect([], [], data[..n]) else NOTHING;
    }
  }

  method DoFillOne(buf: EvBuffer, size: nat, data: seq<byte>) returns (ghost e: Effect)
    requires buf.Valid()
    modifies buf, buf.store
    ensures buf.Valid() && fresh(buf.store - old(buf.store))
    ensures e.taken == [] && May(old(Sure(buf)), CallFillOne(size, data), old(buf.Contents()), e)
    ensures old(Sure(buf) && Tidy(buf.pieces, buf.lwd)) && size + MAX_TO_COPY_IN_EXPAND <= LARGEST ==> |e.back| >= Min(|data|, size)
    ensures unchanged(buf`freezeStart, buf`freezeEnd) && buf.Contents() == After(old(buf.Contents()), e)
    ensures old(Compact(buf.pieces, buf.lwd)) ==> Compact(buf.pieces, buf.lwd)
  {
    hide EvBuffer.Valid, Flatten, Compact, FirstEol;
    ghost var s := buf.Contents();
    e := NOTHING;
    assert After(s, NOTHING) == s;
    ManyPieces(buf);
    if size <= CHAIN_MAX {
      var n := FillOne(buf, size, data);
      e := if n >= 0 then Effect([], [], data[..n]) else NOTHING;
    }
  }

  lemma ManyPieces(buf: EvBuffer)
    requires buf.Valid()
    ensures |buf.chains| == |buf.pieces|
  {
  }

  method DoReadln(buf: EvBuffer, style: Style, memoryLeft: bool) returns (ghost e: Effect)
    requires buf.Valid()
    modifies buf, buf.store
    ensures buf.Valid() && fresh(buf.store - old(buf.store))
    ensures e.taken <= old(buf.Contents()) && May(old(Sure(buf)), CallReadln(style, memoryLeft), old(buf.Contents()), e)
    ensures unchanged(buf`freezeStart, buf`freezeEnd) && buf.Contents() == After(old(buf.Contents()), e)
    ensures old(Compact(buf.pieces, buf.lwd)) ==> Compact(buf.pieces, buf.lwd)
    ensures old(Tidy(buf.pieces, buf.lwd)) ==> Tidy(buf.pieces, buf.lwd)
  {
    hide EvBuffer.Valid, Flatten, Compact, Tidy, FirstEol;
    LengthOf(buf);
    ghost var s := buf.Contents();
    e := NOTHING;
    assert After(s, NOTHING) == s;
    if buf.totalLen > CHAIN_MAX {
      return;
    }
    var line, nRead, eol := Readln(buf, style, memoryLeft);
    if line != null {
      e := Effect(line[..nRead] + eol, [], []);
      assert |e.taken| == nRead + |eol|;
    }
  }

  // What moves from one buffer to the other.
  method DoMove(src: EvBuffer, dst: EvBuffer, all: bool, len: nat) returns (ghost es: Effect, ghost ed: Effect)
    requires src.Valid() && dst.Valid() && Apart(dst, src)
    requires Compact(src.pieces, src.lwd) && Compact(dst.pieces, dst.lwd)
    modifies src, src.store, dst, dst.store
    ensures src.Valid() && dst.Valid() && Apart(dst, src)
    ensures Compact(src.pieces, src.lwd) && Compact(dst.pieces, dst.lwd)
    ensures fresh((src.store + dst.store) - (old(src.store) + old(dst.store)))
    ensures unchanged(src`freezeStart, src`freezeEnd, dst`freezeStart, dst`freezeEnd)
    ensures es.taken <= old(src.Contents()) && ed.taken == []
    ensures src.Contents() == After(old(src.Contents()), es) && dst.Contents() == After(old(dst.Contents()), ed)
    ensures var s, d, sure := old(src.Contents()), old(dst.Contents()), old(Sure(src) && Sure(dst));
      var some := s[..Min(len, |s|)];
      || (es == ed == NOTHING && !sure)
      || (if all then Moved(es, ed, s, s)
          else Moved(es, ed, some, ed.back) && ed.back <= some && (sure && |d| + |some| <= SIZE_MAX ==> ed.back == some))
    ensures old(Tidy(src.pieces, src.lwd)) ==> Tidy(src.pieces, src.lwd)
    ensures old(Tidy(dst.pieces, dst.lwd) && Tidy(src.pieces, src.lwd)) ==> Tidy(dst.pieces, dst.lwd)
  {
    hide EvBuffer.Valid, Flatten, Compact, Tidy, TransferAllowed;
    LengthOf(src);
    LengthOf(dst);
    ghost var s, d := src.Contents(), dst.Contents();
    ghost var some := s[..Min(len, |s|)];
    var r, added := 0, 0;
    if all {
      r := AddBuffer(dst, src);
      es, ed := if r == 0 then Effect(s, [], []) else NOTHING, if r == 0 then Effect([], [], s) else NOTHING;
    } else {
      CompactAllowed(src, dst, len);
      r, added := RemoveBuffer(src, dst, len);
      ghost var m := |dst.Contents()| - |d|;
      es := if r >= 0 then Effect(some, [], []) else NOTHING;
      ed := if r >= 0 then Effect([], [], s[..m]) else NOTHING;
      assert r >= 0 ==> s[..m] == some[..m];
    }
  }

  // What goes in front of the other buffer: all of src, unless empty chains follow its data and would make a gap.
  method DoPutInFront(src: EvBuffer, dst: EvBuffer) returns (ghost es: Effect, ghost ed: Effect)
    requires src.Valid() && dst.Valid() && Apart(dst, src)
    requires Compact(src.pieces, src.lwd) && Compact(dst.pieces, dst.lwd)
    modifies src, src.store, dst, dst.store
    ensures src.Valid() && dst.Valid() && Apart(dst, src)
    ensures Compact(src.pieces, src.lwd) && Compact(dst.pieces, dst.lwd)
    ensures fresh((src.store + dst.store) - (old(src.store) + old(dst.store)))
    ensures unchanged(src`freezeStart, src`freezeEnd, dst`freezeStart, dst`freezeEnd)
    ensures es.taken <= old(src.Contents()) && ed.taken == []
    ensures src.Contents() == After(old(src.Contents()), es) && dst.Contents() == After(old(dst.Contents()), ed)
    ensures var s, sure := old(src.Contents()), old(Sure(src) && Sure(dst) && (dst.Contents() == [] || Tidy(src.pieces, src.lwd)));
      || (es == ed == NOTHING && (!sure || s == []))
      || (es == Effect(s, [], []) && ed == Effect([], s, []))
    ensures old(Tidy(src.pieces, src.lwd)) ==> Tidy(src.pieces, src.lwd)
    ensures old(Tidy(dst.pieces, dst.lwd) && Tidy(src.pieces, src.lwd)) ==> Tidy(dst.pieces, dst.lwd)
  {
    hide EvBuffer.Valid, Flatten, Compact, Tidy;
    LengthOf(src);
    LengthOf(dst);
    ghost var s, d := src.Contents(), dst.Contents();
    es, ed := NOTHING, NOTHING;
    assert After(s, NOTHING) == s && After(d, NOTHING) == d;
    if src.totalLen == 0 {
      return;
    }
    ChainsAfterData(src);
    if dst.totalLen != 0 && Deref(src, src.lastWithDatap).next != null {
      return;
    }
    var r := PrependBuffer(dst, src);
    if r == 0 {
      es, ed := Effect(s, [], []), Effect([], s, []);
    }
  }

  lemma ChainsAfterData(buf: EvBuffer)
    requires buf.Valid() && buf.Contents() != []
    ensures Deref(buf, buf.lastWithDatap) != null
    ensures Deref(buf, buf.lastWithDatap).next == null <==> buf.lwd + 1 == |buf.pieces|
    ensures buf.lwd + 1 == |buf.pieces| <==> Tidy(buf.pieces, buf.lwd)
  {
    hide Flatten;
    LastHasData(buf.pieces, buf.lwd);
    DerefSlot(buf, buf.lwd);
    NextChain(buf, buf.lwd);
  }

  // One step.
  method DoStep(first: EvBuffer, second: EvBuffer, step: Step, ghost loose: Both<bool>) returns (ghost e: Both<Effect>)
    requires first.Valid() && second.Valid() && Apart(first, second)
    requires Compact(first.pieces, first.lwd) && Compact(second.pieces, second.lwd) && Loosely(first, second, loose)
    modifies first, first.store, second, second.store
    ensures first.Valid() && second.Valid() && Apart(first, second)
    ensures Compact(first.pieces, first.lwd) && Compact(second.pieces, second.lwd)
    ensures fresh((first.store + second.store) - (old(first.store) + old(second.store)))
    ensures var s := old(Queues(first, second));
      && e.first.taken <= s.first && e.second.taken <= s.second
      && StepMay(old(Sure(first) && Sure(second)), loose, step, s, e) && Queues(first, second) == AfterBoth(s, e)
    ensures Loosely(first, second, Looser(loose, step))
    ensures !(step.On? && step.call.CallFreeze?) ==>
      unchanged(first`freezeStart, first`freezeEnd, second`freezeStart, second`freezeEnd)
  {
    hide EvBuffer.Valid, Flatten, Compact, Tidy, May;
    LengthOf(first);
    LengthOf(second);
    ghost var f, g := NOTHING, NOTHING;
    assert After(first.Contents(), NOTHING) == first.Contents() && After(second.Contents(), NOTHING) == second.Contents();
    match step {
      case On(true, call) =>
        g := Do(second, call);
        MayUnsure(old(Sure(second)), old(Sure(first) && Sure(second)), call, old(second.Contents()), g);
      case On(false, call) =>
        f := Do(first, call);
        MayUnsure(old(Sure(first)), old(Sure(first) && Sure(second)), call, old(first.Contents()), f);
      case MoveAll(true) => f, g := DoMove(first, second, true, 0);
      case MoveAll(false) => g, f := DoMove(second, first, true, 0);
      case MoveSome(true, len) => f, g := DoMove(first, second, false, len);
      case MoveSome(false, len) => g, f := DoMove(second, first, false, len);
      case MoveInFront(true) => f, g := DoPutInFront(first, second);
      case MoveInFront(false) => g, f := DoPutInFront(second, first);
    }
    e := Both(f, g);
  }

  ghost function Queues(first: EvBuffer, second: EvBuffer): Both<seq<byte>>
    reads first`pieces, second`pieces
  {
    Both(first.Contents(), second.Contents())
  }

  // Only where there may be some are there empty chains behind the data.
  ghost predicate Loosely(first: EvBuffer, second: EvBuffer, loose: Both<bool>)
    reads first`pieces, first`lwd, second`pieces, second`lwd
  {
    (loose.first || Tidy(first.pieces, first.lwd)) && (loose.second || Tidy(second.pieces, second.lwd))
  }

  // Every run of steps on two buffers is one of two byte queues, and neither representation is ever broken. No step asks
  // more of its caller than that the buffers have no gaps in the beginning, as new ones have not.
  method Run(first: EvBuffer, second: EvBuffer, steps: seq<Step>, ghost loose: Both<bool>) returns (ghost es: seq<Both<Effect>>)
    requires first.Valid() && second.Valid() && Apart(first, second)
    requires Compact(first.pieces, first.lwd) && Compact(second.pieces, second.lwd) && Loosely(first, second, loose)
    modifies first, first.store, second, second.store
    ensures first.Valid() && second.Valid() && Apart(first, second)
    ensures Compact(first.pieces, first.lwd) && Compact(second.pieces, second.lwd)
    ensures fresh((first.store + second.store) - (old(first.store) + old(second.store)))
    ensures Replays(old(Sure(first) && Sure(second)) && !Freezes(steps), loose, steps, es, old(Queues(first, second)),
                    Queues(first, second))
  {
    hide EvBuffer.Valid, Flatten, Compact, Loosely, Replays, StepMay, Looser;
    ghost var sure := Sure(first) && Sure(second) && !Freezes(steps);
    es := [];
    var i := 0;
    ReplaysNone(sure, loose, Queues(first, second));
    while i < |steps|
      invariant 0 <= i <= |steps| && first.Valid() && second.Valid() && Apart(first, second)
      invariant Compact(first.pieces, first.lwd) && Compact(second.pieces, second.lwd)
      invariant Loosely(first, second, LooseAfter(loose, steps[..i]))
      invariant fresh((first.store + second.store) - (old(first.store) + old(second.store)))
      invariant (sure ==> Sure(first) && Sure(second))
      invariant Replays(sure, loose, steps[..i], es, old(Queues(first, second)), Queues(first, second))
    {
      ghost var t, now := Queues(first, second), Sure(first) && Sure(second);
      ghost var e := DoStep(first, second, steps[i], LooseAfter(loose, steps[..i]));
      StepUnsure(now, sure, LooseAfter(loose, steps[..i]), steps[i], t, e);
      ReplaysMore(sure, loose, steps[..i], es, old(Queues(first, second)), t, steps[i], e);
      LooseMore(loose, steps[..i], steps[i]);
      assert steps[..i + 1] == steps[..i] + [steps[i]];
      es := es + [e];
      i := i + 1;
    }
    assert steps[..i] == steps;
  }

  const TIGHT := Both(false, false)

  // The same from nothing: every history of two buffers.
  method History(ample: bool, steps: seq<Step>) returns (first: EvBuffer, second: EvBuffer, ghost es: seq<Both<Effect>>)
    ensures fresh(first) && fresh(second) && first.Valid() && second.Valid() && Apart(first, second)
    ensures Compact(first.pieces, first.lwd) && Compact(second.pieces, second.lwd)
    ensures Replays(ample && !Freezes(steps), TIGHT, steps, es, Both([], []), Queues(first, second))
  {
    hide EvBuffer.Valid, Flatten, Replays;
    first := new EvBuffer(ample);
    second := new EvBuffer(ample);
    es := Run(first, second, steps, TIGHT);
  }

  ghost predicate Freezes(steps: seq<Step>)
  {
    exists i :: 0 <= i < |steps| && steps[i].On? && steps[i].call.CallFreeze?
  }

  lemma ReplaysNone(sure: bool, loose: Both<bool>, s: Both<seq<byte>>)
    ensures Replays(sure, loose, [], [], s, s)
  {
  }

  lemma MayUnsure(now: bool, sure: bool, call: Call, s: seq<byte>, e: Effect)
    requires May(now, call, s, e) && (sure ==> now)
    ensures May(sure, call, s, e)
  {
    hide FirstEol;
  }

  lemma StepUnsure(now: bool, sure: bool, loose: Both<bool>, step: Step, s: Both<seq<byte>>, e: Both<Effect>)
    requires StepMay(now, loose, step, s, e) && (sure ==> now)
    ensures StepMay(sure, loose, step, s, e)
  {
    hide May;
    if step.On? {
      MayUnsure(now, sure, step.call, s.Get(step.second), e.Get(step.second));
    }
  }
}
