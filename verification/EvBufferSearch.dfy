/** Positions in an evbuffer and searching across its chains: evbuffer_ptr_set, evbuffer_ptr_subtract,
    evbuffer_ptr_memcmp, evbuffer_search_range. */
module EvBufferSearch {
  import opened Bytes
  import opened EvBufferCore
  import opened EvBufferDrain

  const NOT_FOUND := Ptr(-1, null, 0)

  datatype How = Set | Add

  datatype Option<T> = None | Some(value: T)

  // p is a position in buf, in chain k.
  ghost predicate In(buf: EvBuffer, p: Ptr, k: nat)
    requires |buf.chains| == |buf.pieces|
    reads buf`chains, buf`pieces
  {
    Cursor(buf, p.chain, k, p.posInChain, p.pos)
  }

  // ... written the one way evbuffer_ptr_set writes it: never just behind the bytes of a chain.
  ghost predicate Canonical(buf: EvBuffer, p: Ptr, k: nat)
    requires |buf.chains| == |buf.pieces|
    reads buf`chains, buf`pieces
  {
    In(buf, p, k) && (k < |buf.chains| ==> p.posInChain < |buf.pieces[k]|)
  }

  lemma {:induction false} FlattenMono(pieces: seq<seq<byte>>, a: nat, b: nat)
    requires a <= b <= |pieces|
    ensures |Flatten(pieces[..a])| <= |Flatten(pieces[..b])|
    decreases b - a
  {
    if a < b {
      FlattenTake(pieces, a);
      FlattenMono(pieces, a + 1, b);
    }
  }

  // There is exactly one canonical position for every offset, so setting a position and then adding to it gives the
  // same position as setting the sum.
  lemma CanonicalUnique(buf: EvBuffer, p: Ptr, k: nat, q: Ptr, m: nat)
    requires |buf.chains| == |buf.pieces| && Canonical(buf, p, k) && Canonical(buf, q, m) && p.pos == q.pos
    ensures p == q && k == m
  {
    if k < m {
      FlattenTake(buf.pieces, k);
      FlattenMono(buf.pieces, k + 1, m);
    } else if m < k {
      FlattenTake(buf.pieces, m);
      FlattenMono(buf.pieces, m + 1, k);
    }
  }

  // n bytes from where a walk stands are those of the contents.
  lemma CursorRead(buf: EvBuffer, chain: Chain, k: nat, i: nat, at: nat, n: nat)
    requires Rooted(buf) && Cursor(buf, chain, k, i, at) && i + n <= chain.off
    ensures chain.misalign + i + n <= chain.buffer.Length && at + n <= |buf.Contents()|
    ensures chain.buffer[chain.misalign + i..chain.misalign + i + n] == buf.Contents()[at..at + n]
    ensures Cursor(buf, chain, k, i + n, at + n)
  {
    hide Rooted, Flatten;
    CursorHere(buf, chain, k, i, at);
    var all, piece, a := buf.Contents(), buf.pieces[k], chain.misalign;
    assert all[at..at + n] == all[at..][..n] == piece[i..][..n];
    assert piece == chain.buffer[a..a + chain.off];
    assert piece[i..][..n] == chain.buffer[a + i..a + i + n];
  }

  // evbuffer_ptr_set
  method PtrSet(buf: EvBuffer, p: Ptr, ghost k0: nat, position: nat, how: How) returns (r: int, q: Ptr, ghost k: nat)
    requires buf.Valid() && position <= SIZE_MAX
    requires how == Add && p.pos >= 0 ==> In(buf, p, k0)
    ensures r == 0 || r == -1
    ensures var overflow := how == Add && (p.pos < 0 || SIZE_MAX - position < p.pos);
      var target := if how == Set then position else p.pos + position;
      && (r == 0 <==> !overflow && target <= |buf.Contents()|)
      && (r == 0 ==> q.pos == target && Canonical(buf, q, k))
      && (r == -1 ==> q == if overflow then p else NOT_FOUND)
  {
    hide Rooted, Flatten, DataEndsAt;
    k := 0;
    var left: nat, inChain: nat, pos, chain := position, 0, position, buf.first;
    CursorFront(buf);
    if how == Add {
      if p.pos < 0 || SIZE_MAX - position < p.pos {
        return -1, p, k;
      }
      chain, pos, inChain, k := p.chain, p.pos + position, p.posInChain, k0;
    }
    while chain != null && inChain + left >= chain.off
      invariant Cursor(buf, chain, k, inChain, pos - left)
      decreases |buf.chains| - k
    {
      CursorHere(buf, chain, k, inChain, pos - left);
      assert chain.off - inChain <= left;
      left := left - (chain.off - inChain);
      chain, inChain, k := chain.next, 0, k + 1;
    }
    CursorHere(buf, chain, k, inChain, pos - left);
    if chain != null {
      CursorRead(buf, chain, k, inChain, pos - left, left);
      return 0, Ptr(pos, chain, inChain + left), k;
    } else if left == 0 {
      return 0, Ptr(pos, null, 0), k;
    } else {
      return -1, NOT_FOUND, k;
    }
  }

  // evbuffer_ptr_subtract
  method PtrSubtract(buf: EvBuffer, p: Ptr, ghost k0: nat, howfar: nat) returns (r: int, q: Ptr, ghost k: nat)
    requires buf.Valid() && p.pos <= SIZE_MAX && (p.pos >= 0 ==> In(buf, p, k0))
    ensures r == if 0 <= p.pos && howfar <= p.pos then 0 else -1
    ensures r == 0 ==> q.pos == p.pos - howfar && In(buf, q, k)
    ensures r == 0 && Canonical(buf, p, k0) ==> Canonical(buf, q, k)
    ensures r == -1 ==> q == p
  {
    hide Rooted, Flatten, DataEndsAt;
    if p.pos < 0 {
      return -1, p, k0;
    }
    if howfar > p.pos {
      return -1, p, k0;
    }
    if p.chain != null && howfar <= p.posInChain {
      return 0, Ptr(p.pos - howfar, p.chain, p.posInChain - howfar), k0;
    } else {
      CursorHere(buf, p.chain, k0, p.posInChain, p.pos);
      r, q, k := PtrSet(buf, p, k0, p.pos - howfar, Set);
    }
  }

  // memcmp, as far as its callers look at it
  method Memcmp(a: array<byte>, lo: nat, mem: seq<byte>, from: nat, n: nat) returns (r: int)
    requires lo + n <= a.Length && from + n <= |mem|
    ensures r == 0 <==> a[lo..lo + n] == mem[from..from + n]
  {
    var i := 0;
    while i < n
      invariant 0 <= i <= n && a[lo..lo + i] == mem[from..from + i]
    {
      if a[lo + i] != mem[from + i] {
        assert a[lo..lo + n][i] != mem[from..from + n][i];
        return if a[lo + i] < mem[from + i] then -1 else 1;
      }
      i := i + 1;
    }
    return 0;
  }

  ghost predicate MatchAt(s: seq<byte>, what: seq<byte>, p: int)
  {
    0 <= p && p + |what| <= |s| && s[p..p + |what|] == what
  }

  // The first `done` bytes of what are those of s from p on.
  ghost predicate Matched(s: seq<byte>, what: seq<byte>, p: int, done: nat)
  {
    0 <= p && p + |what| <= |s| && done <= |what| && s[p..p + done] == what[..done]
  }

  lemma MatchStart(s: seq<byte>, what: seq<byte>, p: nat)
    requires p + |what| <= |s|
    ensures Matched(s, what, p, 0)
  {
  }

  lemma MatchMore(s: seq<byte>, what: seq<byte>, p: nat, done: nat, n: nat)
    requires Matched(s, what, p, done) && done + n <= |what|
    ensures p + done + n <= |s|
    ensures s[p + done..p + done + n] == what[done..done + n] ==> Matched(s, what, p, done + n)
    ensures s[p + done..p + done + n] != what[done..done + n] ==> !MatchAt(s, what, p)
  {
    PartOf(s, p, |what|, done, done + n);
    assert s[p..p + done + n] == s[p..p + done] + s[p + done..p + done + n];
    assert what[..done + n] == what[..done] + what[done..done + n];
  }

  lemma PartOf(s: seq<byte>, p: nat, m: nat, i: nat, j: nat)
    requires p + m <= |s| && i <= j <= m
    ensures s[p..p + m][i..j] == s[p + i..p + j]
  {
    var whole, part := s[p..p + m], s[p + i..p + j];
    forall k | 0 <= k < j - i ensures whole[i..j][k] == part[k] {
      assert whole[i..j][k] == whole[i + k] == s[p + i + k];
    }
  }

  lemma MatchEnd(s: seq<byte>, what: seq<byte>, p: nat)
    requires Matched(s, what, p, |what|)
    ensures MatchAt(s, what, p)
  {
    assert what[..|what|] == what;
  }

  // evbuffer_ptr_memcmp
  method PtrMemcmp(buf: EvBuffer, p: Ptr, ghost k0: nat, mem: seq<byte>) returns (r: int)
    requires buf.Valid() && |mem| <= SIZE_MAX && (p.pos >= 0 ==> In(buf, p, k0))
    ensures p.pos <= SIZE_MAX - |mem| ==> (r == 0 <==> MatchAt(buf.Contents(), mem, p.pos))
    ensures r == 0 ==> MatchAt(buf.Contents(), mem, p.pos)
  {
    hide Rooted, Flatten, DataEndsAt, MatchAt, Matched, Cursor;
    if p.pos < 0 || SIZE_MAX - |mem| < p.pos || p.pos + |mem| > buf.totalLen {
      NoRoomForMatch(buf.Contents(), mem, p.pos);
      return -1;
    }
    ghost var s, k: nat := buf.Contents(), k0;
    var chain, position: nat, done: nat := p.chain, p.posInChain, 0;
    MatchStart(s, mem, p.pos);
    while done < |mem| && chain != null
      invariant done <= |mem| && Matched(s, mem, p.pos, done)
      invariant done < |mem| ==> Cursor(buf, chain, k, position, p.pos + done)
      decreases |buf.chains| - k
    {
      CursorHere(buf, chain, k, position, p.pos + done);
      var n: nat := if |mem| - done + position > chain.off then chain.off - position else |mem| - done;
      CursorRead(buf, chain, k, position, p.pos + done, n);
      MatchMore(s, mem, p.pos, done, n);
      r := Memcmp(chain.buffer, chain.misalign + position, mem, done, n);
      if r != 0 {
        return r;
      }
      done := done + n;
      chain, position, k := chain.next, 0, k + 1;
    }
    if done < |mem| {
      CursorHere(buf, chain, k, position, p.pos + done);
    }
    MatchEnd(s, mem, p.pos);
    return 0;
  }

  lemma NoRoomForMatch(s: seq<byte>, what: seq<byte>, p: int)
    ensures p < 0 || p + |what| > |s| ==> !MatchAt(s, what, p)
  {
  }

  // memchr over n bytes; the offset found, or -1
  method Memchr(a: array<byte>, lo: nat, n: nat, c: byte) returns (r: int)
    requires lo + n <= a.Length
    ensures r == IndexOf(a[lo..lo + n], 0, {c})
  {
    var i := 0;
    ghost var s := a[lo..lo + n];
    while i < n
      invariant 0 <= i <= n && IndexOf(s, 0, {c}) == IndexOf(s, i, {c})
    {
      if a[lo + i] == c {
        return i;
      }
      i := i + 1;
    }
    return -1;
  }

  // The first offset at or behind from of a byte in stops, or -1.
  function IndexOf(s: seq<byte>, from: nat, stops: set<byte>): (r: int)
    requires from <= |s|
    ensures r == -1 || (from <= r < |s| && s[r] in stops)
    ensures forall j :: from <= j < (if r == -1 then |s| else r) ==> s[j] !in stops
    decreases |s| - from
  {
    if from == |s| then -1 else if s[from] in stops then from else IndexOf(s, from + 1, stops)
  }

  // r is the least match of what in s at or behind from, if it ends at or before limit; otherwise -1.
  ghost predicate Found(s: seq<byte>, what: seq<byte>, from: nat, limit: int, r: int)
  {
    if r >= 0 then
      && from <= r && MatchAt(s, what, r) && r + |what| <= limit
      && forall p :: from <= p < r ==> !MatchAt(s, what, p)
    else
      r == -1 && forall p :: from <= p && MatchAt(s, what, p) ==> p + |what| > limit
  }

  ghost predicate NoMatch(s: seq<byte>, what: seq<byte>, from: nat, to: int)
  {
    forall p :: from <= p < to ==> !MatchAt(s, what, p)
  }

  lemma FirstDiffers(s: seq<byte>, what: seq<byte>, p: nat)
    requires p < |s| && what != [] && s[p] != what[0]
    ensures !MatchAt(s, what, p)
  {
    if p + |what| <= |s| {
      assert s[p..p + |what|][0] == s[p];
    }
  }

  // What memchr says about one chain: matches cannot start before the byte it finds.
  lemma NoMatchUpTo(s: seq<byte>, what: seq<byte>, from: nat, at: nat, part: seq<byte>, m: nat)
    requires from <= at && at + |part| <= |s| && what != [] && NoMatch(s, what, from, at)
    requires part == s[at..at + |part|] && m <= |part| && forall j :: 0 <= j < m ==> part[j] != what[0]
    ensures NoMatch(s, what, from, at + m)
  {
    forall p | at <= p < at + m ensures !MatchAt(s, what, p) {
      assert s[p] == part[p - at];
      FirstDiffers(s, what, p);
    }
  }

  // Matches that have been ruled out, and those that would end too late.
  lemma NotFoundBefore(s: seq<byte>, what: seq<byte>, from: nat, to: int, limit: int)
    requires NoMatch(s, what, from, to) && limit < to + |what|
    ensures Found(s, what, from, limit, -1)
  {
  }

  lemma FoundHere(s: seq<byte>, what: seq<byte>, from: nat, p: int, limit: int)
    requires from <= p && NoMatch(s, what, from, p) && MatchAt(s, what, p)
    ensures Found(s, what, from, limit, if p + |what| > limit then -1 else p)
  {
  }

  lemma NoMatchNext(s: seq<byte>, what: seq<byte>, from: nat, p: int)
    requires NoMatch(s, what, from, p) && !MatchAt(s, what, p)
    ensures NoMatch(s, what, from, p + 1)
  {
  }

  // The end of the range lies in the chain the search stands in.
  lemma EndInChain(buf: EvBuffer, chain: Chain, k: nat, i: nat, at: int, end: Ptr, kEnd: nat)
    requires Rooted(buf) && Cursor(buf, chain, k, i, at) && In(buf, end, kEnd) && end.chain == chain
    ensures end.pos <= at - i + chain.off
  {
    CursorHere(buf, chain, k, i, at);
    CursorHere(buf, chain, kEnd, end.posInChain, end.pos);
    if k != kEnd {
      Distinct(buf, k, kEnd);
    }
  }

  // A search that starts at from: the position it has come to, and that it has not missed a match.
  ghost predicate Searching(buf: EvBuffer, what: seq<byte>, from: nat, chain: Chain?, k: nat, i: nat, at: int)
    requires |buf.chains| == |buf.pieces|
    reads buf`chains, buf`pieces
  {
    Cursor(buf, chain, k, i, at) && from <= at && NoMatch(buf.Contents(), what, from, at)
  }

  lemma SearchOver(buf: EvBuffer, what: seq<byte>, from: nat, k: nat, i: nat, at: int, limit: int)
    requires Rooted(buf) && Searching(buf, what, from, null, k, i, at) && what != []
    ensures Found(buf.Contents(), what, from, limit, -1)
  {
    CursorHere(buf, null, k, i, at);
    forall p | from <= p ensures !MatchAt(buf.Contents(), what, p) {
      if p >= at {
        NoRoomForMatch(buf.Contents(), what, p);
      }
    }
  }

  // One memchr: where it leads.
  lemma SearchChain(buf: EvBuffer, what: seq<byte>, from: nat, chain: Chain, k: nat, i: nat, at: int, m: int)
    requires Rooted(buf) && Searching(buf, what, from, chain, k, i, at) && what != []
    requires i <= chain.off && chain.misalign + chain.off <= chain.buffer.Length
    requires m == IndexOf(chain.buffer[chain.misalign + i..chain.misalign + chain.off], 0, {what[0]})
    ensures m != -1 ==> m < chain.off - i && Searching(buf, what, from, chain, k, i + m, at + m)
    ensures m == -1 ==> Searching(buf, what, from, chain.next, k + 1, 0, at + (chain.off - i))
  {
    hide Rooted, Cursor, NoMatch, IndexOf;
    CursorHere(buf, chain, k, i, at);
    var n := chain.off - i;
    CursorRead(buf, chain, k, i, at, n);
    assert chain.misalign + i + n == chain.misalign + chain.off;
    var part := buf.Contents()[at..at + n];
    forall j | 0 <= j < (if m == -1 then n else m) ensures part[j] != what[0] {
      assert part[j] !in {what[0]};
    }
    NoMatchUpTo(buf.Contents(), what, from, at, part, if m == -1 then n else m);
    if m != -1 {
      CursorRead(buf, chain, k, i, at, m);
    }
  }

  // No match here: the next byte, which may be in the next chain.
  lemma SearchOn(buf: EvBuffer, what: seq<byte>, from: nat, chain: Chain, k: nat, i: nat, at: int)
    requires Rooted(buf) && Searching(buf, what, from, chain, k, i, at) && !MatchAt(buf.Contents(), what, at)
    requires i < chain.off
    ensures Searching(buf, what, from, chain, k, i + 1, at + 1)
    ensures i + 1 == chain.off ==> Searching(buf, what, from, chain.next, k + 1, 0, at + 1)
  {
    hide Rooted, Cursor, NoMatch;
    CursorRead(buf, chain, k, i, at, 1);
    CursorHere(buf, chain, k, i + 1, at + 1);
    NoMatchNext(buf.Contents(), what, from, at);
  }

  // evbuffer_search_range for a pattern; end is null when the range is the rest of the buffer. An empty or
  // over-long pattern is "found" where the search starts.
  method SearchRange(buf: EvBuffer, what: seq<byte>, start: Ptr, ghost k0: nat, end: Option<Ptr>, ghost kEnd: nat)
    returns (q: Ptr, ghost k: nat)
    requires buf.Valid() && |buf.Contents()| <= CHAIN_MAX && In(buf, start, k0)
    requires end.Some? ==> In(buf, end.value, kEnd)
    ensures what == [] || |what| > CHAIN_MAX ==> q == start
    ensures 0 < |what| <= CHAIN_MAX ==>
      && Found(buf.Contents(), what, start.pos, if end.Some? then end.value.pos else |buf.Contents()|, q.pos)
      && (q.pos >= 0 ==> Canonical(buf, q, k))
  {
    hide Rooted, Flatten, DataEndsAt, Searching, Found, MatchAt, Cursor, IndexOf;
    k := k0;
    q := start;
    if |what| == 0 || |what| > CHAIN_MAX {
      return;
    }
    var chain, pos: nat, inChain: nat := start.chain, start.pos, start.posInChain;
    var lastChain := if end.Some? then end.value.chain else null;
    ghost var from, limit := start.pos, if end.Some? then end.value.pos else |buf.Contents()|;
    SearchBegin(buf, what, from, chain, k, inChain);
    while chain != null
      invariant Searching(buf, what, from, chain, k, inChain, pos)
      decreases |buf.Contents()| - pos, |buf.chains| - k
    {
      SearchAt(buf, what, from, chain, k, inChain, pos);
      var m := Memchr(chain.buffer, chain.misalign + inChain, chain.off - inChain, what[0]);
      SearchChain(buf, what, from, chain, k, inChain, pos, m);
      if m != -1 {
        pos, inChain := pos + m, inChain + m;
        SearchAt(buf, what, from, chain, k, inChain, pos);
        var r := PtrMemcmp(buf, Ptr(pos, chain, inChain), k, what);
        if r == 0 {
          FoundAt(buf, what, from, chain, k, inChain, pos, limit);
          if end.Some? && pos + |what| > end.value.pos {
            return NOT_FOUND, k;
          }
          return Ptr(pos, chain, inChain), k;
        }
        SearchOn(buf, what, from, chain, k, inChain, pos);
        pos, inChain := pos + 1, inChain + 1;
        if inChain == chain.off {
          chain, k, inChain := chain.next, k + 1, 0;
        }
      } else {
        if chain == lastChain {
          SearchEnds(buf, what, from, chain, k, inChain, pos, end.value, kEnd);
          return NOT_FOUND, k;
        }
        pos := pos + (chain.off - inChain);
        chain, k, inChain := chain.next, k + 1, 0;
      }
    }
    SearchOver(buf, what, from, k, inChain, pos, limit);
    return NOT_FOUND, k;
  }

  lemma SearchBegin(buf: EvBuffer, what: seq<byte>, from: nat, chain: Chain?, k: nat, i: nat)
    requires |buf.chains| == |buf.pieces| && Cursor(buf, chain, k, i, from)
    ensures Searching(buf, what, from, chain, k, i, from)
  {
  }

  lemma SearchAt(buf: EvBuffer, what: seq<byte>, from: nat, chain: Chain?, k: nat, i: nat, at: int)
    requires |buf.chains| == |buf.pieces| && Searching(buf, what, from, chain, k, i, at)
    requires Rooted(buf)
    ensures Cursor(buf, chain, k, i, at) && from <= at <= |buf.Contents()| && k <= |buf.chains|
    ensures chain != null ==>
      && k < |buf.chains| && i <= chain.off == |buf.pieces[k]| && chain.misalign + chain.off <= chain.buffer.Length
  {
    CursorHere(buf, chain, k, i, at);
  }

  lemma FoundAt(buf: EvBuffer, what: seq<byte>, from: nat, chain: Chain?, k: nat, i: nat, at: int, limit: int)
    requires |buf.chains| == |buf.pieces| && Searching(buf, what, from, chain, k, i, at)
    requires MatchAt(buf.Contents(), what, at)
    ensures Found(buf.Contents(), what, from, limit, if at + |what| > limit then -1 else at)
    ensures at + |what| <= |buf.Contents()|
  {
    FoundHere(buf.Contents(), what, from, at, limit);
  }

  lemma SearchEnds(buf: EvBuffer, what: seq<byte>, from: nat, chain: Chain, k: nat, i: nat, at: nat, end: Ptr, kEnd: nat)
    requires Rooted(buf) && Searching(buf, what, from, chain, k, i, at) && i <= chain.off
    requires Searching(buf, what, from, chain.next, k + 1, 0, at + (chain.off - i)) && what != []
    requires In(buf, end, kEnd) && end.chain == chain
    ensures Found(buf.Contents(), what, from, end.pos, -1)
  {
    EndInChain(buf, chain, k, i, at, end, kEnd);
    NotFoundBefore(buf.Contents(), what, from, at + (chain.off - i), end.pos);
  }
}
