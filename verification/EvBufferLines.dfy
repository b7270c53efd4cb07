/** Reading lines: evbuffer_strchr, evbuffer_find_eol_char, evbuffer_strspn, evbuffer_search_eol, evbuffer_readln. */
module EvBufferLines {
  import opened Bytes
  import opened EvBufferCore
  import opened EvBufferDrain
  import opened EvBufferSearch

  const CR: byte := 13
  const LF: byte := 10
  const NUL: byte := 0
  const CHUNK_SZ: nat := 128

  datatype Style = Any | Crlf | CrlfStrict | Lf | Nul

  // The line terminators of a style.
  predicate IsEol(style: Style, t: seq<byte>)
  {
    match style
    case Any => t != [] && forall i :: 0 <= i < |t| ==> t[i] == CR || t[i] == LF
    case Crlf => t == [LF] || t == [CR, LF]
    case CrlfStrict => t == [CR, LF]
    case Lf => t == [LF]
    case Nul => t == [NUL]
  }

  ghost predicate EolAt(style: Style, s: seq<byte>, p: nat, n: nat)
  {
    p + n <= |s| && IsEol(style, s[p..p + n])
  }

  // (p, n) is the first terminator at or behind from, and the longest one there; p is -1 if there is none.
  ghost predicate FirstEol(style: Style, s: seq<byte>, from: nat, p: int, n: nat)
  {
    if p >= 0 then
      && from <= p && EolAt(style, s, p, n)
      && (forall q: nat, m: nat :: from <= q && EolAt(style, s, q, m) ==> p < q || (p == q && m <= n))
    else
      p == -1 && forall q: nat, m: nat :: from <= q ==> !EolAt(style, s, q, m)
  }

  lemma IndexOfIs(s: seq<byte>, from: nat, stops: set<byte>, r: nat)
    requires from <= r < |s| && s[r] in stops && forall j :: from <= j < r ==> s[j] !in stops
    ensures IndexOf(s, from, stops) == r
  {
  }

  lemma IndexOfNone(s: seq<byte>, from: nat, stops: set<byte>)
    requires from <= |s| && forall j :: from <= j < |s| ==> s[j] !in stops
    ensures IndexOf(s, from, stops) == -1
  {
  }

  // The two scans of a chunk together.
  lemma ChunkEol(c: seq<byte>, cr: int, lf: int)
    requires cr == IndexOf(c, 0, {CR}) && lf == IndexOf(c, 0, {LF})
    ensures IndexOf(c, 0, {CR, LF}) == if cr != -1 && !(lf != -1 && lf < cr) then cr else lf
  {
    hide IndexOf;
    var m := if cr != -1 && !(lf != -1 && lf < cr) then cr else lf;
    if m != -1 {
      IndexOfIs(c, 0, {CR, LF}, m);
    } else {
      IndexOfNone(c, 0, {CR, LF});
    }
  }

  // The part c of t, behind s bytes without a stop: its first stop is that of t.
  lemma FirstInPart(t: seq<byte>, s: nat, c: seq<byte>, stops: set<byte>)
    requires s + |c| <= |t| && c == t[s..s + |c|] && IndexOf(t, 0, stops) == IndexOf(t, s, stops)
    ensures IndexOf(c, 0, stops) != -1 ==> IndexOf(t, 0, stops) == s + IndexOf(c, 0, stops)
    ensures IndexOf(c, 0, stops) == -1 ==> IndexOf(t, 0, stops) == IndexOf(t, s + |c|, stops)
  {
    hide IndexOf;
    var m := IndexOf(c, 0, stops);
    var free := if m == -1 then |c| else m;
    forall j | s <= j < s + free ensures t[j] !in stops {
      assert t[j] == c[j - s];
    }
    if m != -1 {
      IndexOfIs(t, s, stops, s + m);
    } else if IndexOf(t, s + |c|, stops) == -1 {
      IndexOfNone(t, s, stops);
    } else {
      IndexOfIs(t, s, stops, IndexOf(t, s + |c|, stops));
    }
  }

  // find_eol_char: the scan by chunks of 128 bytes finds what a plain scan finds.
  method FindEolInPiece(a: array<byte>, lo: nat, len: nat) returns (r: int)
    requires lo + len <= a.Length
    ensures r == IndexOf(a[lo..lo + len], 0, {CR, LF})
  {
    hide IndexOf;
    ghost var t := a[lo..lo + len];
    var s: nat := 0;
    while s < len
      invariant IndexOf(t, 0, {CR, LF}) == if s < len then IndexOf(t, s, {CR, LF}) else IndexOf(t, len, {CR, LF})
    {
      var chunk := if s + CHUNK_SZ < len then CHUNK_SZ else len - s;
      ghost var c := a[lo + s..lo + s + chunk];
      var cr := Memchr(a, lo + s, chunk, CR);
      var lf := Memchr(a, lo + s, chunk, LF);
      ChunkEol(c, cr, lf);
      FirstInPart(t, s, c, {CR, LF});
      if cr != -1 {
        if lf != -1 && lf < cr {
          return s + lf;
        }
        return s + cr;
      } else if lf != -1 {
        return s + lf;
      }
      s := s + CHUNK_SZ;
    }
    return -1;
  }

  // A walk from `from` on that has come to `at` without seeing a stop.
  ghost predicate Scanning(buf: EvBuffer, from: nat, stops: set<byte>, chain: Chain?, k: nat, i: nat, at: int)
    requires |buf.chains| == |buf.pieces|
    reads buf`chains, buf`pieces
  {
    && Cursor(buf, chain, k, i, at) && from <= at
    && forall j :: from <= j < at ==> buf.Contents()[j] !in stops
  }

  lemma ScanBegin(buf: EvBuffer, stops: set<byte>, chain: Chain?, k: nat, i: nat, at: int)
    requires |buf.chains| == |buf.pieces| && Cursor(buf, chain, k, i, at)
    ensures Scanning(buf, at, stops, chain, k, i, at)
  {
  }

  lemma ScanHere(buf: EvBuffer, from: nat, stops: set<byte>, chain: Chain?, k: nat, i: nat, at: int)
    requires Rooted(buf) && Scanning(buf, from, stops, chain, k, i, at)
    ensures 0 <= at && k <= |buf.chains|
    ensures chain != null ==>
      && k < |buf.chains| && i <= chain.off == |buf.pieces[k]| && chain.misalign + chain.off <= chain.buffer.Length
    ensures chain == null ==> IndexOf(buf.Contents(), from, stops) == -1
  {
    hide Rooted, IndexOf;
    CursorHere(buf, chain, k, i, at);
    if chain == null {
      IndexOfNone(buf.Contents(), from, stops);
    }
  }

  lemma SliceAt(s: seq<byte>, at: nat, part: seq<byte>, j: nat)
    requires at + |part| <= |s| && s[at..at + |part|] == part && j < |part|
    ensures s[at + j] == part[j]
  {
  }

  lemma NoStopIn(s: seq<byte>, at: nat, part: seq<byte>, stops: set<byte>, m: int)
    requires at + |part| <= |s| && s[at..at + |part|] == part && m == IndexOf(part, 0, stops)
    ensures forall j :: at <= j < at + (if m == -1 then |part| else m) ==> s[j] !in stops
    ensures m == -1 || (m < |part| && part[m] in stops)
  {
    forall j | at <= j < at + (if m == -1 then |part| else m) ensures s[j] !in stops {
      SliceAt(s, at, part, j - at);
    }
  }

  // What the scan of one chain says about the whole.
  lemma ScanChain(buf: EvBuffer, from: nat, stops: set<byte>, chain: Chain, k: nat, i: nat, at: int, m: int)
    requires Rooted(buf) && Scanning(buf, from, stops, chain, k, i, at)
    requires i <= chain.off && chain.misalign + chain.off <= chain.buffer.Length
    requires m == IndexOf(chain.buffer[chain.misalign + i..chain.misalign + chain.off], 0, stops)
    ensures m != -1 ==> IndexOf(buf.Contents(), from, stops) == at + m && Canonical(buf, Ptr(at + m, chain, i + m), k)
    ensures m == -1 ==> Scanning(buf, from, stops, chain.next, k + 1, 0, at + (chain.off - i))
  {
    hide Rooted, Cursor, IndexOf;
    CursorHere(buf, chain, k, i, at);
    var s, n := buf.Contents(), chain.off - i;
    var part := chain.buffer[chain.misalign + i..chain.misalign + chain.off];
    CursorRead(buf, chain, k, i, at, n);
    NoStopIn(s, at, part, stops, m);
    if m != -1 {
      CursorRead(buf, chain, k, i, at, m);
      SliceAt(s, at, part, m);
      IndexOfIs(s, from, stops, at + m);
    }
  }

  // evbuffer_strchr
  method Strchr(buf: EvBuffer, p: Ptr, ghost k0: nat, chr: byte) returns (r: int, it: Ptr, ghost k: nat)
    requires buf.Valid() && In(buf, p, k0)
    ensures r == IndexOf(buf.Contents(), p.pos, {chr})
    ensures r != -1 ==> it.pos == r && Canonical(buf, it, k)
  {
    hide Rooted, Flatten, DataEndsAt, IndexOf, Scanning;
    it, k := p, k0;
    var chain, i: nat := it.chain, it.posInChain;
    ScanBegin(buf, {chr}, chain, k, i, it.pos);
    ScanHere(buf, p.pos, {chr}, chain, k, i, it.pos);
    while chain != null
      invariant Scanning(buf, p.pos, {chr}, chain, k, i, it.pos)
      decreases |buf.chains| - k
    {
      ScanHere(buf, p.pos, {chr}, chain, k, i, it.pos);
      var m := Memchr(chain.buffer, chain.misalign + i, chain.off - i, chr);
      ScanChain(buf, p.pos, {chr}, chain, k, i, it.pos, m);
      if m != -1 {
        it := Ptr(it.pos + m, chain, i + m);
        return it.pos, it, k;
      }
      it := it.(pos := it.pos + (chain.off - i));
      i, chain, k := 0, chain.next, k + 1;
    }
    ScanHere(buf, p.pos, {chr}, chain, k, i, it.pos);
    return -1, it, k;
  }

  // evbuffer_find_eol_char
  method FindEolChar(buf: EvBuffer, p: Ptr, ghost k0: nat) returns (r: int, it: Ptr, ghost k: nat)
    requires buf.Valid() && In(buf, p, k0)
    ensures r == IndexOf(buf.Contents(), p.pos, {CR, LF})
    ensures r != -1 ==> it.pos == r && Canonical(buf, it, k)
  {
    hide Rooted, Flatten, DataEndsAt, IndexOf, Scanning;
    it, k := p, k0;
    var chain, i: nat := it.chain, it.posInChain;
    ScanBegin(buf, {CR, LF}, chain, k, i, it.pos);
    ScanHere(buf, p.pos, {CR, LF}, chain, k, i, it.pos);
    while chain != null
      invariant Scanning(buf, p.pos, {CR, LF}, chain, k, i, it.pos)
      decreases |buf.chains| - k
    {
      ScanHere(buf, p.pos, {CR, LF}, chain, k, i, it.pos);
      var m := FindEolInPiece(chain.buffer, chain.misalign + i, chain.off - i);
      ScanChain(buf, p.pos, {CR, LF}, chain, k, i, it.pos, m);
      if m != -1 {
        it := Ptr(it.pos + m, chain, i + m);
        return it.pos, it, k;
      }
      it := it.(pos := it.pos + (chain.off - i));
      i, chain, k := 0, chain.next, k + 1;
    }
    ScanHere(buf, p.pos, {CR, LF}, chain, k, i, it.pos);
    return -1, it, k;
  }

  // The bytes of s from p on that are in chrset are exactly the next n.
  ghost predicate Spans(s: seq<byte>, p: int, n: nat, chrset: seq<byte>)
  {
    && 0 <= p && p + n <= |s| && (forall j :: p <= j < p + n ==> s[j] in chrset)
    && (p + n < |s| ==> s[p + n] !in chrset)
  }

  // One more byte of the walk.
  lemma SpanByte(buf: EvBuffer, from: int, count: nat, chrset: seq<byte>, chain: Chain, k: nat, i: nat)
    requires Rooted(buf) && 0 <= from && Cursor(buf, chain, k, i, from + count) && i < chain.off
    requires forall j :: from <= j < from + count ==> buf.Contents()[j] in chrset
    ensures chain.misalign + i < chain.buffer.Length && from + count < |buf.Contents()|
    ensures chain.buffer[chain.misalign + i] == buf.Contents()[from + count]
    ensures Cursor(buf, chain, k, i + 1, from + count + 1)
  {
    hide Rooted, Cursor;
    var at, b := from + count, chain.misalign + i;
    CursorRead(buf, chain, k, i, at, 1);
    assert chain.buffer[b..b + 1][0] == buf.Contents()[at..at + 1][0];
  }

  // evbuffer_strspn; what it does to the position is not used by its caller
  method Strspn(buf: EvBuffer, p: Ptr, ghost k0: nat, chrset: seq<byte>) returns (count: nat)
    requires buf.Valid() && In(buf, p, k0)
    ensures Spans(buf.Contents(), p.pos, count, chrset)
  {
    hide Rooted, Flatten, DataEndsAt, Cursor;
    count := 0;
    var chain, i: nat := p.chain, p.posInChain;
    ghost var k: nat, s := k0, buf.Contents();
    CursorHere(buf, chain, k, i, p.pos);
    if chain == null {
      return 0;
    }
    while true
      invariant chain != null && Cursor(buf, chain, k, i, p.pos + count)
      invariant forall j :: p.pos <= j < p.pos + count ==> s[j] in chrset
      decreases |buf.chains| - k
    {
      while i < chain.off
        invariant Cursor(buf, chain, k, i, p.pos + count)
        invariant forall j :: p.pos <= j < p.pos + count ==> s[j] in chrset
      {
        SpanByte(buf, p.pos, count, chrset, chain, k, i);
        if chain.buffer[chain.misalign + i] !in chrset {
          return count;
        }
        count := count + 1;
        i := i + 1;
      }
      CursorHere(buf, chain, k, i, p.pos + count);
      i := 0;
      if chain.next == null {
        CursorHere(buf, null, k + 1, 0, p.pos + count);
        return count;
      }
      chain, k := chain.next, k + 1;
    }
  }

  // -- What the searches of each style have to do with its terminators. --

  lemma EolByte(style: Style, s: seq<byte>, q: nat, m: nat)
    requires EolAt(style, s, q, m)
    ensures m > 0 && s[q] in {CR, LF, NUL}
    ensures style == Any ==> s[q] in {CR, LF} && forall j :: q <= j < q + m ==> s[j] in {CR, LF}
    ensures style == Lf ==> s[q] == LF && m == 1
    ensures style == Nul ==> s[q] == NUL && m == 1
    ensures style == CrlfStrict ==> m == 2 && MatchAt(s, [CR, LF], q)
    ensures style == Crlf ==> (m == 1 && s[q] == LF) || (m == 2 && s[q] == CR && s[q + 1] == LF)
  {
    var t := s[q..q + m];
    assert t[0] == s[q];
    assert forall j :: q <= j < q + m ==> s[j] == t[j - q];
  }

  lemma EolSingle(style: Style, s: seq<byte>, from: nat, p: int, c: byte)
    requires (style == Lf && c == LF) || (style == Nul && c == NUL)
    requires from <= |s| && p == IndexOf(s, from, {c})
    ensures FirstEol(style, s, from, p, 1)
  {
    hide IndexOf;
    forall q: nat, m: nat | EolAt(style, s, q, m) ensures s[q] == c && m == 1 {
      EolByte(style, s, q, m);
    }
    if p != -1 {
      assert s[p..p + 1] == [c];
    }
  }

  lemma EolAny(s: seq<byte>, from: nat, p: int, n: nat)
    requires from <= |s| && p == IndexOf(s, from, {CR, LF}) && (p != -1 ==> Spans(s, p, n, [CR, LF]))
    ensures FirstEol(Any, s, from, p, n)
  {
    hide IndexOf;
    forall q: nat, m: nat | EolAt(Any, s, q, m)
      ensures s[q] in {CR, LF} && (p != -1 && q == p ==> m <= n)
    {
      EolByte(Any, s, q, m);
    }
    if p != -1 {
      var t := s[p..p + n];
      assert forall i :: 0 <= i < n ==> t[i] == s[p + i];
    }
  }

  lemma EolStrict(s: seq<byte>, from: nat, p: int)
    requires from <= |s| && Found(s, [CR, LF], from, |s|, p)
    ensures FirstEol(CrlfStrict, s, from, p, 2)
  {
    forall q: nat, m: nat | EolAt(CrlfStrict, s, q, m) ensures m == 2 && MatchAt(s, [CR, LF], q) {
      EolByte(CrlfStrict, s, q, m);
    }
  }

  // The first LF, with the CR in front of it unless the search starts at the LF.
  lemma EolCrlf(s: seq<byte>, from: nat, p: int)
    requires from <= |s| && p == IndexOf(s, from, {LF})
    ensures p == -1 ==> FirstEol(Crlf, s, from, -1, 0)
    ensures p != -1 ==> if p > from && s[p - 1] == CR then FirstEol(Crlf, s, from, p - 1, 2) else FirstEol(Crlf, s, from, p, 1)
  {
    hide IndexOf;
    forall q: nat, m: nat | from <= q && EolAt(Crlf, s, q, m)
      ensures p != -1 && ((m == 1 && p <= q) || (m == 2 && s[q] == CR && p <= q + 1))
    {
      EolByte(Crlf, s, q, m);
    }
    if p != -1 {
      if p > from && s[p - 1] == CR {
        assert s[p - 1..p + 1] == [CR, LF];
      } else {
        assert s[p..p + 1] == [LF];
      }
    }
  }

  // evbuffer_getchr
  method Getchr(buf: EvBuffer, p: Ptr, ghost k: nat) returns (c: int)
    requires buf.Valid() && Canonical(buf, p, k)
    ensures c == if p.pos == |buf.Contents()| then -1 else buf.Contents()[p.pos] as int
  {
    hide Rooted, Flatten, DataEndsAt;
    CursorHere(buf, p.chain, k, p.posInChain, p.pos);
    if p.chain == null {
      return -1;
    }
    CursorRead(buf, p.chain, k, p.posInChain, p.pos, 1);
    var b := p.chain.misalign + p.posInChain;
    assert p.chain.buffer[b..b + 1][0] == buf.Contents()[p.pos..p.pos + 1][0];
    return p.chain.buffer[b] as int;
  }

  // The styles of evbuffer_search_eol that need more than one search.
  method SearchCrlf(buf: EvBuffer, start: Ptr, ghost k0: nat) returns (it: Ptr, eolLen: nat)
    requires buf.Valid() && In(buf, start, k0) && |buf.Contents()| <= CHAIN_MAX
    ensures FirstEol(Crlf, buf.Contents(), start.pos, it.pos, eolLen)
  {
    hide Rooted, Flatten, DataEndsAt, FirstEol, IndexOf;
    var r, p;
    ghost var k;
    r, p, k := Strchr(buf, start, k0, LF);
    CursorHere(buf, start.chain, k0, start.posInChain, start.pos);
    EolCrlf(buf.Contents(), start.pos, r);
    if r < 0 {
      return NOT_FOUND, 0;
    }
    if p.pos == start.pos {
      return p, 1;
    }
    var ok, it2;
    ghost var k2;
    ok, it2, k2 := PtrSubtract(buf, p, k, 1);
    // there is a byte in front of p, so this does not fail
    assert ok == 0;
    var c := Getchr(buf, it2, k2);
    if c == CR as int {
      return it2, 2;
    }
    return p, 1;
  }

  // evbuffer_search_eol: the first terminator at or behind start (the front of the buffer if there is no start),
  // whichever chains its bytes are in.
  method SearchEol(buf: EvBuffer, start: Option<Ptr>, ghost k0: nat, style: Style) returns (it: Ptr, eolLen: nat)
    requires buf.Valid() && |buf.Contents()| <= CHAIN_MAX && (start.Some? ==> In(buf, start.value, k0))
    ensures FirstEol(style, buf.Contents(), if start.Some? then start.value.pos else 0, it.pos, eolLen)
  {
    hide Rooted, Flatten, DataEndsAt, FirstEol, IndexOf, Found;
    CursorFront(buf);
    var from := if start.Some? then start.value else Ptr(0, buf.first, 0);
    ghost var kf := if start.Some? then k0 else 0;
    CursorHere(buf, from.chain, kf, from.posInChain, from.pos);
    if start.Some? && start.value.chain == null {
      NoEolAtEnd(style, buf.Contents());
      return NOT_FOUND, 0;
    }
    var r;
    ghost var k;
    match style
    case Any =>
      r, it, k := FindEolChar(buf, from, kf);
      if r < 0 {
        EolAny(buf.Contents(), from.pos, r, 0);
        return NOT_FOUND, 0;
      }
      eolLen := Strspn(buf, it, k, [CR, LF]);
      EolAny(buf.Contents(), from.pos, r, eolLen);
    case CrlfStrict =>
      it, k := SearchRange(buf, [CR, LF], from, kf, None, 0);
      EolStrict(buf.Contents(), from.pos, it.pos);
      eolLen := 2;
      if it.pos < 0 {
        AnyLength(CrlfStrict, buf.Contents(), from.pos, it.pos, 2);
        return NOT_FOUND, 0;
      }
    case Crlf =>
      it, eolLen := SearchCrlf(buf, from, kf);
    case Lf =>
      r, it, k := Strchr(buf, from, kf, LF);
      EolSingle(Lf, buf.Contents(), from.pos, r, LF);
      eolLen := 1;
      if r < 0 {
        AnyLength(Lf, buf.Contents(), from.pos, r, 1);
        return NOT_FOUND, 0;
      }
    case Nul =>
      r, it, k := Strchr(buf, from, kf, NUL);
      EolSingle(Nul, buf.Contents(), from.pos, r, NUL);
      eolLen := 1;
      if r < 0 {
        AnyLength(Nul, buf.Contents(), from.pos, r, 1);
        return NOT_FOUND, 0;
      }
  }

  lemma AnyLength(style: Style, s: seq<byte>, from: nat, p: int, n: nat)
    requires FirstEol(style, s, from, p, n) && p < 0
    ensures FirstEol(style, s, from, -1, 0)
  {
  }

  lemma NoEolAtEnd(style: Style, s: seq<byte>)
    ensures FirstEol(style, s, |s|, -1, 0)
  {
    forall q: nat, m: nat | |s| <= q ensures !EolAt(style, s, q, m) {
      if q == |s| && m == 0 {
        assert s[q..q + m] == [];
      }
    }
  }

  // evbuffer_readln: the line is what comes before the first terminator; both are gone from the buffer.
  // memoryLeft says whether there is memory for the line.
  method Readln(buf: EvBuffer, style: Style, memoryLeft: bool)
    returns (line: array?<byte>, nRead: nat, ghost eol: seq<byte>)
    requires buf.Valid() && |buf.Contents()| <= CHAIN_MAX
    modifies buf, buf.store
    ensures buf.Valid() && buf.store <= old(buf.store)
    ensures line == null ==> nRead == 0 && buf.Contents() == old(buf.Contents())
    ensures line != null ==>
      && fresh(line) && line.Length == nRead + 1 && line[nRead] == NUL
      && old(buf.Contents()) == line[..nRead] + eol + buf.Contents()
      && FirstEol(style, old(buf.Contents()), 0, nRead, |eol|)
    ensures line == null <==> buf.freezeStart || !memoryLeft || FirstEol(style, old(buf.Contents()), 0, -1, 0)
    ensures unchanged(buf`freezeStart, buf`freezeEnd, buf`nAddForCb)
    ensures old(Compact(buf.pieces, buf.lwd)) ==> Compact(buf.pieces, buf.lwd)
    ensures old(Tidy(buf.pieces, buf.lwd)) ==> Tidy(buf.pieces, buf.lwd)
  {
    hide Rooted, Flatten, DataEndsAt, FirstEol, Cursor, Compact, Tidy;
    line, nRead, eol := null, 0, [];
    if buf.freezeStart {
      return;
    }
    ghost var all := buf.Contents();
    var it, extraDrain := SearchEol(buf, None, 0, style);
    FirstEolFits(style, all, it.pos, extraDrain);
    if it.pos < 0 {
      return;
    }
    if !memoryLeft {
      return;
    }
    line := new byte[it.pos + 1](_ => 0);
    var n := Remove(buf, line, it.pos);
    line[it.pos] := NUL;
    var drained := Drain(buf, extraDrain);
    nRead := it.pos;
    eol := all[nRead..nRead + extraDrain];
    SplitLine(all, nRead, extraDrain);
  }

  lemma FirstEolFits(style: Style, s: seq<byte>, p: int, n: nat)
    requires FirstEol(style, s, 0, p, n)
    ensures p >= 0 ==> p + n <= |s|
    ensures p < 0 <==> FirstEol(style, s, 0, -1, 0)
    ensures p >= 0 || p == -1
  {
    if p >= 0 {
      assert EolAt(style, s, p, n);
    }
  }

  lemma SplitLine(all: seq<byte>, p: nat, n: nat)
    requires p + n <= |all|
    ensures all == all[..p] + all[p..p + n] + all[p..][n..]
  {
  }
}
