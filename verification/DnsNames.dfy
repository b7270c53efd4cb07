/** Domain names in DNS messages (section 4.1.4 of RFC 1035): the parser and the compressing encoder of evdns.c. */
module DnsNames {
  import opened Bytes

  const DOT: byte := 46
  const MAX_LABELS: nat := 128
  const MAX_LABEL: nat := 63
  const MAX_NAME: nat := 255
  const POINTER_LIMIT: nat := 0x4000

  datatype Option<T> = None | Some(value: T)

  // -- The wire format --

  // The offset a compression pointer leads to.
  function Target(p: seq<byte>, j: nat): nat
    requires j + 1 < |p|
  {
    (p[j] as nat % 64) * 256 + p[j + 1] as nat
  }

  // From offset j on, with at most n jumps, message p spells these labels. A length byte with either of its two high
  // bits set is a pointer.
  ghost predicate Spells(p: seq<byte>, j: nat, n: nat, labels: seq<seq<byte>>)
    decreases n, |labels|
  {
    && j < |p|
    && if p[j] == 0 then labels == []
       else if p[j] >= 64 then
         j + 1 < |p| && n > 0 && Target(p, j) < |p| && Spells(p, Target(p, j), n - 1, labels)
       else
         && j + 1 + p[j] as nat <= |p| && labels != []
         && labels[0] == p[j + 1..j + 1 + p[j] as nat] && Spells(p, j + 1 + p[j] as nat, n, labels[1..])
  }

  lemma {:induction false} SpellsMore(p: seq<byte>, q: seq<byte>, j: nat, n: nat, m: nat, labels: seq<seq<byte>>)
    requires Spells(p, j, n, labels) && n <= m && p <= q
    ensures Spells(q, j, m, labels)
    decreases n, |labels|
  {
    if p[j] >= 64 {
      SpellsMore(p, q, Target(p, j), n - 1, m - 1, labels);
    } else if p[j] != 0 {
      SpellsMore(p, q, j + 1 + p[j] as nat, n, m, labels[1..]);
    }
  }

  // A pointer, read as section 4.1.4 of RFC 1035 says: two ones, and then the offset with its high byte first.
  lemma PointerRead(p: seq<byte>, j: nat, n: nat, t: nat, labels: seq<seq<byte>>)
    requires t < POINTER_LIMIT && j + 1 < |p| && p[j] as nat == 192 + t / 256 && p[j + 1] as nat == t % 256
    ensures Spells(p, j, n, labels) <==> n > 0 && t < |p| && Spells(p, t, n - 1, labels)
  {
    assert Target(p, j) == t;
  }

  // Where the labels that are written out from offset j on end.
  function Walk(p: seq<byte>, j: nat): (w: nat)
    ensures j <= w
    decreases |p| - j
  {
    if j >= |p| || p[j] == 0 || p[j] >= 64 || j + 1 + p[j] as nat > |p| then j else Walk(p, j + 1 + p[j] as nat)
  }

  // The first offset behind a name.
  function WireEnd(p: seq<byte>, j: nat): nat
  {
    var w := Walk(p, j);
    if w < |p| && p[w] == 0 then w + 1 else w + 2
  }

  // One more label of a name in presentation form.
  function Extend(out: seq<byte>, part: seq<byte>): seq<byte>
  {
    (if out == [] then out else out + [DOT]) + part
  }

  function JoinOnto(out: seq<byte>, labels: seq<seq<byte>>): (r: seq<byte>)
    ensures |out| <= |r|
    decreases |labels|
  {
    if labels == [] then out else JoinOnto(Extend(out, labels[0]), labels[1..])
  }

  // -- name_parse --

  // The loop of name_parse, as a function.
  function Parse(p: seq<byte>, j: nat, jumps: nat, out: seq<byte>, cap: nat): (r: Option<seq<byte>>)
    requires jumps <= |p|
    ensures r.Some? ==> |out| <= |r.value| < cap
    decreases |p| - jumps, |p| - j
  {
    if j >= |p| then None
    else if p[j] == 0 then if |out| >= cap then None else Some(out)
    else if p[j] >= 64 then
      if j + 1 >= |p| || Target(p, j) >= |p| || jumps + 1 > |p| then None else Parse(p, Target(p, j), jumps + 1, out, cap)
    else
      var o := if out == [] then out else out + [DOT];
      if (out != [] && |out| + 1 >= cap) || |o| + p[j] as nat >= cap || j + 1 + p[j] as nat > |p| then None
      else Parse(p, j + 1 + p[j] as nat, jumps, o + p[j + 1..j + 1 + p[j] as nat], cap)
  }

  lemma {:induction false} ParseComplete(p: seq<byte>, j: nat, jumps: nat, out: seq<byte>, cap: nat, n: nat, labels: seq<seq<byte>>)
    requires Spells(p, j, n, labels) && jumps + n <= |p| && |JoinOnto(out, labels)| < cap
    ensures Parse(p, j, jumps, out, cap) == Some(JoinOnto(out, labels))
    decreases n, |labels|
  {
    if p[j] >= 64 {
      ParseComplete(p, Target(p, j), jumps + 1, out, cap, n - 1, labels);
    } else if p[j] != 0 {
      ParseComplete(p, j + 1 + p[j] as nat, jumps, Extend(out, labels[0]), cap, n, labels[1..]);
    }
  }

  lemma {:induction false} ParseSound(p: seq<byte>, j: nat, jumps: nat, out: seq<byte>, cap: nat)
    returns (labels: seq<seq<byte>>)
    requires jumps <= |p| && Parse(p, j, jumps, out, cap).Some?
    ensures Spells(p, j, |p| - jumps, labels) && Parse(p, j, jumps, out, cap).value == JoinOnto(out, labels)
    decreases |p| - jumps, |p| - j
  {
    if p[j] == 0 {
      labels := [];
    } else if p[j] >= 64 {
      labels := ParseSound(p, Target(p, j), jumps + 1, out, cap);
    } else {
      var part := p[j + 1..j + 1 + p[j] as nat];
      var rest := ParseSound(p, j + 1 + p[j] as nat, jumps, Extend(out, part), cap);
      labels := [part] + rest;
    }
  }

  // Exactly the names that the message spells with no more jumps than it has bytes, and that fit the output, are parsed.
  lemma ParseExact(p: seq<byte>, j: nat, cap: nat, name: seq<byte>)
    ensures Parse(p, j, 0, [], cap) == Some(name) <==>
      |name| < cap && exists labels :: Spells(p, j, |p|, labels) && JoinOnto([], labels) == name
  {
    if Parse(p, j, 0, [], cap) == Some(name) {
      var labels := ParseSound(p, j, 0, [], cap);
    }
    if |name| < cap && exists labels :: Spells(p, j, |p|, labels) && JoinOnto([], labels) == name {
      var labels :| Spells(p, j, |p|, labels) && JoinOnto([], labels) == name;
      ParseComplete(p, j, 0, [], cap, |p|, labels);
    }
  }

  // memcpy of one label
  method CopyLabel(to: array<byte>, at: nat, from: array<byte>, j: nat, n: nat)
    requires at + n <= to.Length && j + n <= from.Length && to != from
    modifies to
    ensures to[..at + n] == old(to[..at]) + from[j..j + n] && to[at + n..] == old(to[at + n..])
  {
    Memcpy(to, at, from, j, n);
    assert to[..at + n] == to[..at] + to[at..at + n];
  }

  // The branch of name_parse that takes over a label of n bytes.
  method AppendLabel(nameOut: array<byte>, nameOutLen: nat, cp0: nat, packet: array<byte>, length: nat, j: nat, n: nat)
    returns (fits: bool, cp: nat)
    requires length <= packet.Length && cp0 <= nameOutLen <= nameOut.Length && packet != nameOut
    modifies nameOut
    ensures fits <==>
      !(cp0 != 0 && cp0 + 1 >= nameOutLen) && cp0 + (if cp0 == 0 then 0 else 1) + n < nameOutLen && j + n <= length
    ensures fits ==> cp <= nameOutLen && nameOut[..cp] == Extend(old(nameOut[..cp0]), packet[j..j + n])
    ensures nameOut[nameOutLen..] == old(nameOut[nameOutLen..])
  {
    cp := cp0;
    ghost var out := nameOut[..cp];
    if cp != 0 {
      if cp + 1 >= nameOutLen {
        return false, cp;
      }
      nameOut[cp] := DOT;
      cp := cp + 1;
      assert nameOut[..cp] == out + [DOT];
    }
    if cp + n >= nameOutLen {
      return false, cp;
    }
    if j + n > length {
      return false, cp;
    }
    CopyLabel(nameOut, cp, packet, j, n);
    cp := cp + n;
    return true, cp;
  }

  // name_parse. It terminates on every packet, reads only packet[..length] and writes only nameOut[..nameOutLen].
  method NameParse(packet: array<byte>, length: nat, idx: nat, nameOut: array<byte>, nameOutLen: nat)
    returns (r: int, idx': nat)
    requires length <= packet.Length && nameOutLen <= nameOut.Length && packet != nameOut
    modifies nameOut
    ensures r == 0 || r == -1
    ensures var name := Parse(packet[..length], idx, 0, [], nameOutLen);
      && (r == 0 <==> name.Some?)
      && (r == 0 ==>
            && nameOut[..|name.value|] == name.value && nameOut[|name.value|] == 0
            && idx < idx' <= length && idx' == WireEnd(packet[..length], idx))
    ensures r == -1 ==> idx' == idx
    ensures nameOut[nameOutLen..] == old(nameOut[nameOutLen..])
  {
    hide Parse, Walk;
    ghost var p := packet[..length];
    var nameEnd := -1;
    var j: nat, ptrCount: nat, cp: nat := idx, 0, 0;
    ghost var spec := Parse(p, idx, 0, [], nameOutLen);
    while true
      invariant ptrCount <= length && cp <= nameOutLen
      invariant Parse(p, j, ptrCount, nameOut[..cp], nameOutLen) == spec
      invariant if nameEnd < 0 then idx <= j && Walk(p, j) == Walk(p, idx)
                else idx < nameEnd <= length && nameEnd == WireEnd(p, idx)
      invariant nameOut[nameOutLen..] == old(nameOut[nameOutLen..])
      decreases length - ptrCount, length - j
    {
      ParseStep(p, j, ptrCount, nameOut[..cp], nameOutLen);
      WalkStep(p, j);
      if j >= length {
        return -1, idx;
      }
      var labelLen := packet[j] as nat;
      assert p[j] == packet[j];
      j := j + 1;
      if labelLen == 0 {
        break;
      }
      if labelLen >= 64 {
        if j >= length {
          return -1, idx;
        }
        var ptrLow := packet[j] as nat;
        assert p[j] == packet[j];
        j := j + 1;
        if nameEnd < 0 {
          nameEnd := j;
        }
        j := (labelLen % 64) * 256 + ptrLow;
        if j >= length {
          return -1, idx;
        }
        ptrCount := ptrCount + 1;
        if ptrCount > length {
          return -1, idx;
        }
        continue;
      }
      // labelLen > 63 cannot happen here
      assert labelLen <= MAX_LABEL;
      var fits;
      fits, cp := AppendLabel(nameOut, nameOutLen, cp, packet, length, j, labelLen);
      if !fits {
        return -1, idx;
      }
      assert packet[..length][j..j + labelLen] == packet[j..j + labelLen];
      j := j + labelLen;
    }
    if cp >= nameOutLen {
      return -1, idx;
    }
    nameOut[cp] := 0;
    idx' := if nameEnd < 0 then j else nameEnd;
    r := 0;
  }

  // One step of the loop, in terms of the function.
  lemma ParseStep(p: seq<byte>, j: nat, jumps: nat, out: seq<byte>, cap: nat)
    requires jumps <= |p|
    ensures j >= |p| ==> Parse(p, j, jumps, out, cap) == None
    ensures j < |p| && p[j] == 0 ==> Parse(p, j, jumps, out, cap) == if |out| >= cap then None else Some(out)
    ensures j < |p| && p[j] >= 64 ==>
      Parse(p, j, jumps, out, cap) == if j + 1 >= |p| || Target(p, j) >= |p| || jumps + 1 > |p| then None
      else Parse(p, Target(p, j), jumps + 1, out, cap)
    ensures j < |p| && 0 < p[j] < 64 ==>
      Parse(p, j, jumps, out, cap) == if (out != [] && |out| + 1 >= cap)
          || |out| + (if out == [] then 0 else 1) + p[j] as nat >= cap || j + 1 + p[j] as nat > |p| then None
      else Parse(p, j + 1 + p[j] as nat, jumps, Extend(out, p[j + 1..j + 1 + p[j] as nat]), cap)
  {
  }

  lemma WalkStep(p: seq<byte>, j: nat)
    ensures j < |p| && (p[j] == 0 || p[j] >= 64) ==> Walk(p, j) == j
    ensures j < |p| && 0 < p[j] < 64 && j + 1 + p[j] as nat <= |p| ==> Walk(p, j) == Walk(p, j + 1 + p[j] as nat)
  {
  }

  // -- Names in presentation form --

  function FirstDot(s: seq<byte>): (d: int)
    ensures d == -1 || (0 <= d < |s| && s[d] == DOT)
    ensures forall i :: 0 <= i < (if d == -1 then |s| else d) ==> s[i] != DOT
  {
    if s == [] then -1 else if s[0] == DOT then 0
    else var d := FirstDot(s[1..]); if d == -1 then -1 else d + 1
  }

  // The labels of a name; the root name "" has none.
  function Split(s: seq<byte>): (labels: seq<seq<byte>>)
  {
    var d := FirstDot(s);
    if s == [] then [] else if d == -1 then [s] else [s[..d]] + Split(s[d + 1..])
  }

  // Non-empty labels of at most 63 bytes, and no dot at the end.
  predicate Proper(s: seq<byte>)
  {
    var d := FirstDot(s);
    if d == -1 then 1 <= |s| <= MAX_LABEL else 1 <= d <= MAX_LABEL && Proper(s[d + 1..])
  }

  predicate WellFormed(name: seq<byte>)
  {
    |name| <= MAX_NAME && (name == [] || Proper(name))
  }

  // A name is well-formed exactly if it has at most 255 bytes, its labels have from 1 to 63 bytes each, and it does not end with
  // a dot.
  lemma WellFormedExact(name: seq<byte>)
    ensures WellFormed(name) <==>
      |name| <= 255 && (forall i :: 0 <= i < |Split(name)| ==> 1 <= |Split(name)[i]| <= 63) && (name == [] || name[|name| - 1] != DOT)
  {
    if name != [] {
      ProperExact(name);
    } else {
      assert Split(name) == [];
    }
  }

  lemma {:induction false} ProperExact(s: seq<byte>)
    requires s != []
    ensures Proper(s) <==> Labels(Split(s)) && s[|s| - 1] != DOT
    decreases |s|
  {
    hide Split, Proper, Labels;
    var d := FirstDot(s);
    SplitParts(s);
    NoLits();
    if d == -1 {
      OneLabel(s, []);
      assert s[|s| - 1] != DOT;
    } else {
      var rest := s[d + 1..];
      OneLabel(s[..d], Split(rest));
      if rest != [] {
        ProperExact(rest);
        assert rest[|rest| - 1] == s[|s| - 1];
      }
    }
    if Proper(s) {
      SplitStep(s);
      if d != -1 {
        NotEmpty(s[d + 1..]);
      }
    }
    if Labels(Split(s)) && s[|s| - 1] != DOT {
      ProperJoin(s);
    }
  }

  lemma NotEmpty(s: seq<byte>)
    requires Proper(s)
    ensures s != []
  {
  }

  lemma ProperJoin(s: seq<byte>)
    requires if FirstDot(s) == -1 then 1 <= |s| <= MAX_LABEL else 1 <= FirstDot(s) <= MAX_LABEL && Proper(s[FirstDot(s) + 1..])
    ensures Proper(s)
  {
  }

  lemma SplitParts(s: seq<byte>)
    requires s != []
    ensures FirstDot(s) == -1 ==> Split(s) == [s] + []
    ensures FirstDot(s) != -1 ==> Split(s) == [s[..FirstDot(s)]] + Split(s[FirstDot(s) + 1..])
  {
    hide FirstDot;
    assert [s] + [] == [s];
  }

  lemma OneLabel(part: seq<byte>, labels: seq<seq<byte>>)
    ensures Labels([part] + labels) <==> 1 <= |part| <= MAX_LABEL && Labels(labels)
  {
    var all := [part] + labels;
    assert all[0] == part && all[1..] == labels;
    if 1 <= |part| <= MAX_LABEL && Labels(labels) {
      LabelsCons(all);
    }
    if Labels(all) {
      assert forall i :: 0 <= i < |labels| ==> labels[i] == all[i + 1];
    }
  }

  lemma SplitStep(s: seq<byte>)
    requires Proper(s)
    ensures FirstDot(s) == -1 ==> Split(s) == [s] + [] && |s| <= MAX_LABEL
    ensures FirstDot(s) != -1 ==> var d := FirstDot(s);
      && 1 <= d <= MAX_LABEL && Split(s) == [s[..d]] + Split(s[d + 1..]) && Proper(s[d + 1..]) && s == s[..d] + [DOT] + s[d + 1..]
    ensures s != []
  {
    hide FirstDot;
    if FirstDot(s) != -1 {
      CutAt(s, FirstDot(s));
    }
  }

  lemma CutAt(s: seq<byte>, d: nat)
    requires d < |s| && s[d] == DOT
    ensures s == s[..d] + [DOT] + s[d + 1..]
  {
  }

  lemma JoinStep(out: seq<byte>, part: seq<byte>, rest: seq<seq<byte>>)
    ensures JoinOnto(out, [part] + rest) == JoinOnto(Extend(out, part), rest)
    ensures JoinOnto(out, []) == out
  {
    assert ([part] + rest)[1..] == rest;
  }

  lemma {:induction false} JoinSplit(out: seq<byte>, s: seq<byte>)
    requires Proper(s)
    ensures JoinOnto(out, Split(s)) == Extend(out, s)
    decreases |s|
  {
    hide FirstDot, Split, JoinOnto, Proper;
    var d := FirstDot(s);
    SplitStep(s);
    if d != -1 {
      JoinStep(out, s[..d], Split(s[d + 1..]));
      JoinSplit(Extend(out, s[..d]), s[d + 1..]);
      assert Extend(out, s[..d]) != [];
      assert Extend(out, s[..d]) + [DOT] + s[d + 1..] == Extend(out, s[..d] + [DOT] + s[d + 1..]);
    } else {
      JoinStep(out, s, []);
      JoinStep(Extend(out, s), s, []);
    }
  }

  // Reading back what the message spells for a well-formed name gives the name.
  lemma SpelledBack(p: seq<byte>, j: nat, n: nat, name: seq<byte>, cap: nat)
    requires Spells(p, j, n, Split(name)) && n <= |p| && |name| < cap && (name == [] || Proper(name))
    ensures Parse(p, j, 0, [], cap) == Some(name)
  {
    if name != [] {
      JoinSplit([], name);
      assert Extend([], name) == name;
    }
    ParseComplete(p, j, 0, [], cap, n, Split(name));
  }

  // -- The label table --

  datatype Entry = Entry(v: seq<byte>, pos: nat)

  // struct dnslabel_table
  class Table {
    // whether there is memory for every entry; otherwise adding one may fail
    const ample: bool
    var nLabels: nat
    const labels: array<Entry>

    // dnslabel_table_init
    constructor (ample: bool)
      ensures this.ample == ample && Valid() && Entries() == [] && fresh(labels)
    {
      this.ample, nLabels := ample, 0;
      labels := new Entry[MAX_LABELS](_ => Entry([], 0));
    }

    ghost predicate Valid()
      reads this
    {
      nLabels <= MAX_LABELS == labels.Length
    }

    ghost function Entries(): seq<Entry>
      requires Valid()
      reads this, labels
    {
      labels[..nLabels]
    }

    // dnslabel_table_get_pos
    method GetPos(v: seq<byte>) returns (pos: int)
      requires Valid()
      ensures pos == -1 ==> forall e :: e in Entries() ==> e.v != v
      ensures pos != -1 ==> pos >= 0 && Entry(v, pos) in Entries()
    {
      var i := 0;
      while i < nLabels
        invariant 0 <= i <= nLabels && forall m :: 0 <= m < i ==> labels[m].v != v
      {
        if labels[i].v == v {
          assert Entries()[i] == Entry(v, labels[i].pos);
          return labels[i].pos;
        }
        i := i + 1;
      }
      return -1;
    }

    // dnslabel_table_add: a full table, or no memory, leaves it as it is.
    method AddEntry(v: seq<byte>, pos: nat, memoryLeft: bool) returns (r: int)
      requires Valid()
      modifies this`nLabels, labels
      ensures Valid() && r == if old(nLabels) < MAX_LABELS && memoryLeft then 0 else -1
      ensures Entries() == if r == 0 then old(Entries()) + [Entry(v, pos)] else old(Entries())
    {
      if nLabels == MAX_LABELS {
        return -1;
      }
      if !memoryLeft {
        return -1;
      }
      labels[nLabels] := Entry(v, pos);
      nLabels := nLabels + 1;
      assert labels[..nLabels] == old(labels[..nLabels]) + [Entry(v, pos)];
      return 0;
    }
  }

  // -- dnsname_to_labels --

  // ref | 0xc000, as a 16-bit word
  function PointerWord(ref: nat): (w: nat)
    ensures 0xc000 <= w < 0x10000
  {
    0xc000 + ref % POINTER_LIMIT
  }

  function High(w: nat): byte { (w / 256 % 256) as byte }

  function Low(w: nat): byte { (w % 256) as byte }

  // A pointer leads where it should exactly if the offset has 14 bits.
  lemma PointerExact(p: seq<byte>, j: nat, ref: nat)
    requires j + 1 < |p| && p[j] == High(PointerWord(ref)) && p[j + 1] == Low(PointerWord(ref))
    ensures p[j] >= 64 && (Target(p, j) == ref <==> ref < POINTER_LIMIT)
  {
    var w := PointerWord(ref);
    assert w == 256 * (w / 256) + w % 256 && w / 256 == 192 + (ref % POINTER_LIMIT) / 256;
    assert Target(p, j) == ref % POINTER_LIMIT;
  }

  function Len(part: seq<byte>): byte { (|part| % 256) as byte }

  // Labels written out.
  function Lits(labels: seq<seq<byte>>): seq<byte>
  {
    if labels == [] then [] else [Len(labels[0])] + labels[0] + Lits(labels[1..])
  }

  lemma {:induction false} LitsSnoc(labels: seq<seq<byte>>, part: seq<byte>)
    ensures Lits(labels + [part]) == Lits(labels) + [Len(part)] + part
  {
    if labels == [] {
      assert labels + [part] == [part] && [part][1..] == [];
      assert Lits([part]) == [Len(part)] + part + [];
    } else {
      LitsSnoc(labels[1..], part);
      assert (labels + [part])[1..] == labels[1..] + [part];
    }
  }

  predicate Labels(labels: seq<seq<byte>>)
  {
    forall i :: 0 <= i < |labels| ==> 1 <= |labels[i]| <= MAX_LABEL
  }

  // Written-out labels, and then whatever the message spells behind them.
  lemma {:induction false} SpellsBehind(p: seq<byte>, j: nat, n: nat, front: seq<seq<byte>>, rest: seq<seq<byte>>)
    requires Labels(front) && j + |Lits(front)| <= |p| && p[j..j + |Lits(front)|] == Lits(front)
    requires Spells(p, j + |Lits(front)|, n, rest)
    ensures Spells(p, j, n, front + rest) && Walk(p, j) == Walk(p, j + |Lits(front)|)
    decreases |front|
  {
    hide Spells, Walk, Lits, Labels;
    if front == [] {
      assert front + rest == rest;
      NoLits();
    } else {
      var part, tail := front[0], front[1..];
      LitsHead(front);
      FirstLit(p, j, part, Lits(tail));
      SpellsBehind(p, j + 1 + |part|, n, tail, rest);
      SpellsLit(p, j, n, part, tail + rest);
      assert front + rest == [part] + (tail + rest);
    }
  }

  lemma NoLits()
    ensures Lits([]) == [] && Labels([])
  {
  }

  lemma LitsHead(labels: seq<seq<byte>>)
    requires Labels(labels) && labels != []
    ensures 1 <= |labels[0]| <= MAX_LABEL && Labels(labels[1..])
    ensures Lits(labels) == [Len(labels[0])] + labels[0] + Lits(labels[1..])
    ensures |Lits(labels)| == 1 + |labels[0]| + |Lits(labels[1..])|
  {
  }

  lemma SpellsLit(p: seq<byte>, j: nat, n: nat, part: seq<byte>, labels: seq<seq<byte>>)
    requires 1 <= |part| <= MAX_LABEL && j + 1 + |part| <= |p| && p[j] as nat == |part|
    requires p[j + 1..j + 1 + |part|] == part
    requires Spells(p, j + 1 + |part|, n, labels)
    ensures Spells(p, j, n, [part] + labels) && Walk(p, j) == Walk(p, j + 1 + |part|)
  {
    assert ([part] + labels)[1..] == labels;
  }

  lemma FirstLit(p: seq<byte>, j: nat, part: seq<byte>, tail: seq<byte>)
    requires 1 <= |part| <= MAX_LABEL && j + 1 + |part| + |tail| <= |p|
    requires p[j..j + 1 + |part| + |tail|] == [Len(part)] + part + tail
    ensures p[j] as nat == |part| && p[j + 1..j + 1 + |part|] == part
    ensures p[j + 1 + |part|..j + 1 + |part| + |tail|] == tail
  {
    var end := j + 1 + |part| + |tail|;
    var lits := p[j..end];
    assert lits[0] == p[j];
    assert p[j + 1..j + 1 + |part|] == lits[1..1 + |part|] == part;
    assert p[j + 1 + |part|..end] == lits[1 + |part|..] == tail;
  }

  // Where label k begins
  function Before(labels: seq<seq<byte>>, k: nat): nat
    requires k <= |labels|
  {
    if k == 0 then 0 else Before(labels, k - 1) + 1 + |labels[k - 1]|
  }

  // Each label is written behind a byte that holds its length, and nothing else is.
  lemma {:induction false} LitsAt(labels: seq<seq<byte>>, k: nat)
    requires Labels(labels) && k < |labels|
    ensures Before(labels, k) + 1 + |labels[k]| <= |Lits(labels)|
    ensures var at := Before(labels, k);
      Lits(labels)[at] as nat == |labels[k]| && Lits(labels)[at + 1..at + 1 + |labels[k]|] == labels[k]
    decreases |labels|
  {
    hide Lits, Before;
    LitsHead(labels);
    BeforeTail(labels, k);
    var s, tail := Lits(labels), Lits(labels[1..]);
    var n := 1 + |labels[0]|;
    if k == 0 {
      assert s[1..n] == labels[0];
    } else {
      LitsAt(labels[1..], k - 1);
      assert s[n..] == tail;
      var at := Before(labels[1..], k - 1);
      assert s[n..][at + 1..at + 1 + |labels[k]|] == s[n + at + 1..n + at + 1 + |labels[k]|];
    }
  }

  lemma {:induction false} BeforeTail(labels: seq<seq<byte>>, k: nat)
    requires k <= |labels|
    ensures k == 0 ==> Before(labels, k) == 0
    ensures k > 0 ==> Before(labels, k) == 1 + |labels[0]| + Before(labels[1..], k - 1)
  {
    if k > 1 {
      BeforeTail(labels, k - 1);
    }
  }

  lemma {:induction false} LitsSize(labels: seq<seq<byte>>)
    ensures |Lits(labels)| == Before(labels, |labels|)
  {
    if labels != [] {
      LitsSize(labels[1..]);
      BeforeTail(labels, |labels|);
    }
  }

  // What a message spells without a pointer is written out there, label by label.
  lemma {:induction false} SpelledOut(p: seq<byte>, j: nat, n: nat, labels: seq<seq<byte>>)
    requires Spells(p, j, n, labels) && Walk(p, j) < |p| && p[Walk(p, j)] == 0
    ensures p[j..Walk(p, j)] == Lits(labels) && Labels(labels)
    decreases |labels|
  {
    hide Walk, Lits, Labels;
    WalkStep(p, j);
    if p[j] == 0 {
      NoLits();
    } else if p[j] < 64 {
      var next := j + 1 + p[j] as nat;
      SpelledOut(p, next, n, labels[1..]);
      LabelsCons(labels);
      LitsHead(labels);
      LenIs(labels[0], p[j]);
      assert p[j..Walk(p, j)] == [p[j]] + p[j + 1..next] + p[next..Walk(p, j)];
    }
  }

  lemma LenIs(part: seq<byte>, b: byte)
    requires |part| == b as nat
    ensures Len(part) == b
  {
  }

  lemma LabelsCons(labels: seq<seq<byte>>)
    requires labels != [] && 1 <= |labels[0]| <= MAX_LABEL && Labels(labels[1..])
    ensures Labels(labels)
  {
    forall i | 1 <= i < |labels| ensures 1 <= |labels[i]| <= MAX_LABEL {
      assert labels[i] == labels[1..][i - 1];
    }
  }

  // What lies between pos and the end of p is the labels up to rest.
  ghost predicate Leads(p: seq<byte>, pos: nat, labels: seq<seq<byte>>, rest: seq<seq<byte>>)
  {
    && pos <= |p| && |rest| <= |labels| && Labels(labels)
    && var front := labels[..|labels| - |rest|];
      labels == front + rest && p[pos..] == Lits(front)
  }

  // Message p spells the rest of an entry from the entry's position on, with pointers that go strictly backwards.
  ghost predicate Known(p: seq<byte>, e: Entry)
  {
    e.pos < |p| && e.pos < POINTER_LIMIT && Spells(p, e.pos, e.pos, Split(e.v))
  }

  ghost predicate AllKnown(p: seq<byte>, es: seq<Entry>)
  {
    forall e :: e in es ==> Known(p, e)
  }

  // While a name that starts at s is encoded and suffix is left: an entry is an earlier one, or leads to the suffix.
  ghost predicate EntryOk(p: seq<byte>, s: nat, suffix: seq<byte>, e: Entry)
  {
    e.pos < |p| && if e.pos < s then Known(p, e) else Leads(p, e.pos, Split(e.v), Split(suffix))
  }

  ghost predicate Encoding(p: seq<byte>, s: nat, name: seq<byte>, suffix: seq<byte>, es: seq<Entry>)
  {
    s <= |p| && Leads(p, s, Split(name), Split(suffix)) && forall e :: e in es ==> EntryOk(p, s, suffix, e)
  }

  lemma LeadsStep(p: seq<byte>, pos: nat, labels: seq<seq<byte>>, part: seq<byte>, rest: seq<seq<byte>>)
    requires Leads(p, pos, labels, [part] + rest)
    ensures Leads(p + [Len(part)] + part, pos, labels, rest)
  {
    var front := labels[..|labels| - |rest| - 1];
    assert labels == front + ([part] + rest) == (front + [part]) + rest;
    assert labels[..|labels| - |rest|] == front + [part];
    LitsSnoc(front, part);
    var q := p + [Len(part)] + part;
    assert q[pos..] == p[pos..] + [Len(part)] + part;
  }

  lemma {:induction false} SplitLabels(s: seq<byte>)
    requires s == [] || Proper(s)
    ensures Labels(Split(s))
    ensures s != [] ==> Split(s) != []
    decreases |s|
  {
    hide Split, Proper;
    if s != [] {
      SplitStep(s);
      if FirstDot(s) != -1 {
        SplitLabels(s[FirstDot(s) + 1..]);
      }
    } else {
      NoSplit();
    }
  }

  lemma NoSplit()
    ensures Split([]) == []
  {
  }

  // The first label of the suffix is written out; it may have been put into the table before.
  lemma EncodeLabel(p: seq<byte>, s: nat, name: seq<byte>, suffix: seq<byte>, es: seq<Entry>, part: seq<byte>, rest: seq<byte>)
    requires Encoding(p, s, name, suffix, es) && (suffix == [] || Proper(suffix)) && part != [] && |part| <= MAX_LABEL
    requires Split(suffix) == [part] + Split(rest)
    ensures var q := p + [Len(part)] + part;
      Encoding(q, s, name, rest, es) && Encoding(q, s, name, rest, es + [Entry(suffix, |p|)])
  {
    hide Split, Leads, Proper, Known;
    var q := p + [Len(part)] + part;
    SplitLabels(suffix);
    LeadsStep(p, s, Split(name), part, Split(rest));
    LeadsSelf(p, Split(suffix));
    LeadsStep(p, |p|, Split(suffix), part, Split(rest));
    forall e | e in es ensures EntryOk(q, s, rest, e) {
      if e.pos < s {
        KnownMore(p, q, e);
      } else {
        LeadsStep(p, e.pos, Split(e.v), part, Split(rest));
      }
    }
  }

  lemma LeadsSelf(p: seq<byte>, labels: seq<seq<byte>>)
    requires Labels(labels)
    ensures Leads(p, |p|, labels, labels)
  {
    assert labels[..0] == [];
  }

  lemma KnownMore(p: seq<byte>, q: seq<byte>, e: Entry)
    requires Known(p, e) && p <= q
    ensures Known(q, e)
  {
    SpellsMore(p, q, e.pos, e.pos, e.pos, Split(e.v));
  }

  // Once the message spells the suffix, with jumps to before s only, it spells everything that leads to it.
  lemma LeadsDone(p: seq<byte>, q: seq<byte>, pos: nat, s: nat, labels: seq<seq<byte>>, rest: seq<seq<byte>>)
    requires Leads(p, pos, labels, rest) && p <= q && Spells(q, |p|, s, rest) && s <= pos
    ensures Spells(q, pos, pos, labels) && Walk(q, pos) == Walk(q, |p|)
  {
    var front := labels[..|labels| - |rest|];
    assert q[pos..pos + |Lits(front)|] == p[pos..];
    SpellsBehind(q, pos, s, front, rest);
    SpellsMore(q, q, pos, s, pos, labels);
  }

  // What a call of dnsname_to_labels has achieved: the name is spelled from s on, every entry is known, and a pointer,
  // if there is one, leads to before the name.
  ghost predicate Encoded(q: seq<byte>, s: nat, name: seq<byte>, es: seq<Entry>)
  {
    && Spells(q, s, s, Split(name)) && WireEnd(q, s) == |q|
    && (|q| <= POINTER_LIMIT ==> AllKnown(q, es))
    && (Walk(q, s) + 2 == |q| && q[Walk(q, s)] >= 64 ==> Target(q, Walk(q, s)) < s)
  }

  lemma EncodeDone(p: seq<byte>, q: seq<byte>, s: nat, name: seq<byte>, suffix: seq<byte>, es: seq<Entry>)
    requires Encoding(p, s, name, suffix, es) && p <= q && Spells(q, |p|, s, Split(suffix))
    requires Walk(q, |p|) == |p| && WireEnd(q, |p|) == |q|
    requires q[|p|] >= 64 ==> Target(q, |p|) < s
    ensures Encoded(q, s, name, es) && Walk(q, s) == |p|
  {
    hide Split, Leads, Spells, Walk;
    LeadsDone(p, q, s, s, Split(name), Split(suffix));
    if |q| <= POINTER_LIMIT {
      forall e | e in es ensures Known(q, e) {
        assert EntryOk(p, s, suffix, e);
        if e.pos < s {
          KnownMore(p, q, e);
        } else {
          LeadsDone(p, q, e.pos, s, Split(e.v), Split(suffix));
        }
      }
    }
  }

  ghost function Es(table: Table?): seq<Entry>
    requires table != null ==> table.Valid()
    reads table, if table != null then {table.labels} else {}
  {
    if table == null then [] else table.Entries()
  }

  // The table knows a name.
  ghost predicate Has(es: seq<Entry>, v: seq<byte>)
  {
    exists i :: 0 <= i < |es| && es[i].v == v
  }

  lemma HasMore(a: seq<Entry>, b: seq<Entry>, v: seq<byte>)
    requires Has(a, v) && a <= b
    ensures Has(b, v)
  {
    var i :| 0 <= i < |a| && a[i].v == v;
    assert b[i] == a[i];
  }

  lemma HasLast(a: seq<Entry>, e: Entry)
    ensures Has(a + [e], e.v)
  {
    assert (a + [e])[|a|] == e;
  }

  ghost predicate Remembers(table: Table?, es: seq<Entry>)
  {
    table != null && table.ample && |es| < MAX_LABELS
  }

  // One label of dnsname_to_labels: its length byte and its bytes, remembered in the table. The table may be full and
  // memory may run out; the result of adding to it is not looked at.
  method PutLabel(buf: array<byte>, bufLen: nat, j: nat, part: seq<byte>, suffix: seq<byte>, table: Table?)
    returns (r: int, j': nat)
    requires bufLen <= buf.Length && j <= bufLen && (table != null ==> table.Valid())
    modifies buf, if table != null then {table, table.labels} else {}
    ensures table != null ==> table.Valid()
    ensures r == if |part| > MAX_LABEL then -1 else if j + |part| + 1 > bufLen then -2 else 0
    ensures r == 0 ==> j' == j + 1 + |part| && buf[..j'] == old(buf[..j]) + [Len(part)] + part
    ensures r == 0 ==> Es(table) == old(Es(table)) || Es(table) == old(Es(table)) + [Entry(suffix, j)]
    ensures r == 0 && Remembers(table, old(Es(table))) ==> Has(Es(table), suffix)
    ensures buf[..j] == old(buf[..j]) && buf[bufLen..] == old(buf[bufLen..])
  {
    j' := j;
    if |part| > MAX_LABEL {
      return -1, j;
    }
    if j + |part| + 1 > bufLen {
      return -2, j;
    }
    if table != null {
      var memoryLeft: bool := *;
      var added := table.AddEntry(suffix, j, table.ample || memoryLeft);
      HasLast(old(Es(table)), Entry(suffix, j));
    }
    buf[j] := Len(part);
    forall i | 0 <= i < |part| {
      buf[j + 1 + i] := part[i];
    }
    j' := j + 1 + |part|;
    assert buf[..j] == old(buf[..j]) && buf[j + 1..j'] == part;
    assert buf[..j'] == buf[..j] + [buf[j]] + buf[j + 1..j'];
    r := 0;
  }

  // The pointer that ends a name: APPEND16(ref | 0xc000)
  method PutPointer(buf: array<byte>, bufLen: nat, j: nat, ref: nat) returns (r: int)
    requires bufLen <= buf.Length && j <= bufLen
    modifies buf
    ensures r == if j + 2 > bufLen then -2 else j + 2
    ensures r >= 0 ==> buf[..r] == old(buf[..j]) + [High(PointerWord(ref)), Low(PointerWord(ref))]
    ensures buf[..j] == old(buf[..j]) && buf[bufLen..] == old(buf[bufLen..])
  {
    if j + 2 > bufLen {
      return -2;
    }
    buf[j], buf[j + 1] := High(PointerWord(ref)), Low(PointerWord(ref));
    return j + 2;
  }

  // An entry of the table that has the suffix as its name was made by an earlier name.
  lemma EncodePointer(p: seq<byte>, s: nat, name: seq<byte>, suffix: seq<byte>, es: seq<Entry>, ref: nat)
    requires Encoding(p, s, name, suffix, es) && Entry(suffix, ref) in es
    ensures Encoded(p + [High(PointerWord(ref)), Low(PointerWord(ref))], s, name, es)
  {
    hide Split, PointerWord;
    var e := Entry(suffix, ref);
    assert EntryOk(p, s, suffix, e);
    assert Split(suffix)[..0] == [];
    assert ref < s;
    var q := p + [High(PointerWord(ref)), Low(PointerWord(ref))];
    PointerExact(q, |p|, ref);
    KnownMore(p, q, e);
    SpellsMore(q, q, ref, ref, s - 1, Split(suffix));
    EncodeDone(p, q, s, name, suffix, es);
  }

  // The zero byte behind the last label.
  lemma EncodeZero(p: seq<byte>, s: nat, name: seq<byte>, es: seq<Entry>)
    requires Encoding(p, s, name, [], es)
    ensures Encoded(p + [0], s, name, es) && Walk(p + [0], s) == |p|
  {
    NoLabels();
    hide Split;
    EncodeDone(p, p + [0], s, name, [], es);
  }

  lemma NoLabels()
    ensures Split([]) == []
  {
  }

  // The root name is a zero byte, which may be remembered too.
  lemma EncodeRoot(p: seq<byte>, es: seq<Entry>)
    requires AllKnown(p, es)
    ensures Encoded(p + [0], |p|, [], es) && Encoded(p + [0], |p|, [], es + [Entry([], |p|)]) && Walk(p + [0], |p|) == |p|
  {
    EncodeStart(p, [], es);
    EncodeZero(p, |p|, [], es);
    var q := p + [0];
    if |q| <= POINTER_LIMIT {
      assert Known(q, Entry([], |p|));
    }
  }

  lemma EncodeStart(p: seq<byte>, name: seq<byte>, es: seq<Entry>)
    requires AllKnown(p, es) && (name == [] || Proper(name))
    ensures Encoding(p, |p|, name, name, es)
  {
    SplitLabels(name);
    LeadsSelf(p, Split(name));
  }

  // The state of the loop of dnsname_to_labels: suffix is left of the name that starts at s. `sound` says that the
  // name is well-formed and that the table was right to begin with.
  ghost predicate Progress(p: seq<byte>, s: nat, name: seq<byte>, suffix: seq<byte>, es: seq<Entry>, sound: bool)
  {
    && |suffix| <= |name| && |p| == s + |name| - |suffix| && 0 !in suffix
    && (WellFormed(name) ==> (name == [] && suffix == []) || Proper(suffix))
    && (sound ==> WellFormed(name) && Encoding(p, s, name, suffix, es) && (name == [] ==> AllKnown(p, es)))
  }

  // What the result r of encoding a name from offset s on promises.
  ghost predicate Outcome(r: int, q: seq<byte>, s: nat, bufLen: nat, name: seq<byte>, es: seq<Entry>, sound: bool)
  {
    && (r == -1 || r == -2 || s < r <= bufLen + 1) && r <= s + |name| + 2
    && (WellFormed(name) ==> r != -1 && (s + |name| + 2 <= bufLen ==> r >= 0))
    && (r >= 0 && sound ==> Encoded(q, s, name, es))
  }

  lemma ProgressStart(p: seq<byte>, name: seq<byte>, es: seq<Entry>)
    requires 0 !in name
    ensures Progress(p, |p|, name, name, es, WellFormed(name) && AllKnown(p, es))
  {
    hide Encoding, AllKnown, Proper;
    if WellFormed(name) && AllKnown(p, es) {
      EncodeStart(p, name, es);
    }
  }

  // The suffix is in the table.
  method PointTo(buf: array<byte>, bufLen: nat, j: nat, ref: nat, ghost s: nat, ghost name: seq<byte>, ghost suffix: seq<byte>,
                 ghost es: seq<Entry>, ghost sound: bool) returns (r: int)
    requires bufLen <= buf.Length && s <= j <= bufLen && Progress(buf[..j], s, name, suffix, es, sound)
    requires Entry(suffix, ref) in es
    modifies buf
    ensures r <= bufLen && Outcome(r, if r >= 0 then buf[..r] else [], s, bufLen, name, es, sound)
    ensures r == if j + 2 <= bufLen then j + 2 else -2
    ensures buf[..j] == old(buf[..j]) && buf[bufLen..] == old(buf[bufLen..])
  {
    hide Encoding, Encoded, Proper, AllKnown;
    if sound {
      EncodePointer(buf[..j], s, name, suffix, es, ref);
    }
    r := PutPointer(buf, bufLen, j, ref);
  }

  // A label that a dot follows.
  method NextLabel(buf: array<byte>, bufLen: nat, j: nat, d: nat, suffix: seq<byte>, table: Table?,
                   ghost s: nat, ghost name: seq<byte>, ghost sound: bool) returns (r: int, j': nat)
    requires bufLen <= buf.Length && s <= j <= bufLen && (table != null ==> table.Valid())
    requires Progress(buf[..j], s, name, suffix, Es(table), sound) && d < |suffix| && d == FirstDot(suffix)
    modifies buf, if table != null then {table, table.labels} else {}
    ensures table != null ==> table.Valid()
    ensures buf[..j] == old(buf[..j]) && buf[bufLen..] == old(buf[bufLen..])
    ensures r == 0 || (r < 0 && Outcome(r, [], s, bufLen, name, Es(table), sound))
    ensures r == 0 ==> j < j' <= bufLen && Progress(buf[..j'], s, name, suffix[d + 1..], Es(table), sound)
    ensures r == 0 ==> old(Es(table)) <= Es(table) && (Remembers(table, old(Es(table))) ==> Has(Es(table), suffix))
  {
    hide Encoding, Encoded, FirstDot, Split, Proper, AllKnown;
    LabelFits(suffix, name);
    ghost var p, es := buf[..j], Es(table);
    r, j' := PutLabel(buf, bufLen, j, suffix[..d], suffix, table);
    if r == 0 && sound {
      assert name != [];
      EncodeNext(p, s, name, suffix, es, Es(table));
    }
  }

  method PutZero(buf: array<byte>, bufLen: nat, end: nat)
    requires end <= bufLen < buf.Length
    modifies buf
    ensures buf[..end + 1] == old(buf[..end]) + [0] && buf[bufLen + 1..] == old(buf[bufLen + 1..])
  {
    buf[end] := 0;
  }

  // The last label, and the zero byte behind it.
  method LastLabel(buf: array<byte>, bufLen: nat, j: nat, suffix: seq<byte>, table: Table?,
                   ghost s: nat, ghost name: seq<byte>, ghost sound: bool) returns (r: int)
    requires bufLen < buf.Length && s <= j <= bufLen && (table != null ==> table.Valid())
    requires Progress(buf[..j], s, name, suffix, Es(table), sound) && FirstDot(suffix) == -1
    modifies buf, if table != null then {table, table.labels} else {}
    ensures table != null ==> table.Valid()
    ensures buf[..j] == old(buf[..j]) && buf[bufLen + 1..] == old(buf[bufLen + 1..])
    ensures r <= bufLen + 1 && Outcome(r, if r >= 0 then buf[..r] else [], s, bufLen, name, Es(table), sound)
    ensures r >= 0 ==> old(Es(table)) <= Es(table) && (Remembers(table, old(Es(table))) ==> Has(Es(table), suffix))
    ensures r >= 0 ==> s < r
    ensures r >= 0 && sound ==> buf[s..r] == Lits(Split(name)) + [0]
  {
    hide Encoding, Encoded, FirstDot, Split, Proper, AllKnown, Walk, Lits;
    LabelFits(suffix, name);
    ghost var p, es := buf[..j], Es(table);
    var end;
    r, end := PutLabel(buf, bufLen, j, suffix, suffix, table);
    if r < 0 {
      return;
    }
    if sound {
      EncodeLast(p, s, name, suffix, es, Es(table));
    }
    ghost var q := buf[..end];
    assert buf[end - 1] == q[end - 1] && (suffix != [] ==> q[end - 1] == suffix[|suffix| - 1]);
    // behind a root name, or a dot at the end, the zero is already there
    if end == 0 || buf[end - 1] != 0 {
      if sound {
        EncodeZero(q, s, name, Es(table));
      }
      PutZero(buf, bufLen, end);
      end := end + 1;
    }
    r := end;
    if sound {
      WrittenOut(buf[..r], s, bufLen, name, Es(table));
      assert buf[..r][s..] == buf[s..r];
    }
  }

  // dnsname_to_labels. The final zero byte is written without looking at bufLen, so buf must have one more byte.
  method DnsnameToLabels(buf: array<byte>, bufLen: nat, j0: nat, name: seq<byte>, table: Table?) returns (r: int)
    requires bufLen < buf.Length && j0 <= bufLen && 0 !in name && (table != null ==> table.Valid())
    modifies buf, if table != null then {table, table.labels} else {}
    ensures table != null ==> table.Valid()
    ensures |name| > MAX_NAME ==> r == -2
    ensures r <= bufLen + 1
    ensures Outcome(r, if r >= 0 then buf[..r] else [], j0, bufLen, name, Es(table),
              WellFormed(name) && AllKnown(old(buf[..j0]), old(Es(table))))
    ensures buf[..j0] == old(buf[..j0]) && buf[bufLen + 1..] == old(buf[bufLen + 1..])
    ensures |name| <= MAX_NAME && Has(old(Es(table)), name) ==> r == if j0 + 2 <= bufLen then j0 + 2 else -2
    ensures r >= 0 && Remembers(table, old(Es(table))) ==> Has(Es(table), name)
    ensures r >= 0 && table == null && WellFormed(name) ==> j0 < r && buf[j0..r] == Lits(Split(name)) + [0]
  {
    hide Lits, Split, Progress, FirstDot, WellFormed, AllKnown, Outcome, Has;
    ghost var es := Es(table);
    if |name| > MAX_NAME {
      TooLong(j0, bufLen, name, Es(table), WellFormed(name) && AllKnown(buf[..j0], Es(table)));
      return -2;
    }
    var j: nat, suffix := j0, name;
    ghost var sound := WellFormed(name) && AllKnown(buf[..j0], Es(table));
    ProgressStart(buf[..j0], name, Es(table));
    ReadsNone(buf[..j0], []);
    while true
      invariant j0 <= j <= bufLen && (table != null ==> table.Valid()) && 0 !in suffix
      invariant Progress(buf[..j], j0, name, suffix, Es(table), sound)
      invariant buf[..j0] == old(buf[..j0]) && buf[bufLen + 1..] == old(buf[bufLen + 1..])
      invariant if suffix == name then j == j0 && Es(table) == es
                else !Has(es, name) && (Remembers(table, es) ==> Has(Es(table), name))
      decreases |suffix|
    {
      NotHere(es, name);
      if table != null {
        var ref := table.GetPos(suffix);
        if ref >= 0 {
          Found(Es(table), Entry(suffix, ref));
          r := PointTo(buf, bufLen, j, ref, j0, name, suffix, Es(table), sound);
          return;
        }
      }
      var d := FirstDot(suffix);
      if d == -1 {
        ghost var before := Es(table);
        r := LastLabel(buf, bufLen, j, suffix, table, j0, name, sound);
        if r >= 0 && Has(before, name) {
          HasMore(before, Es(table), name);
        }
        return;
      }
      var err;
      ghost var before := Es(table);
      err, j := NextLabel(buf, bufLen, j, d, suffix, table, j0, name, sound);
      if err < 0 {
        return err;
      }
      if Has(before, name) {
        HasMore(before, Es(table), name);
      }
      // hop over the dot
      suffix := suffix[d + 1..];
    }
  }

  // Without a table a name is written out, and a zero byte behind it.
  lemma WrittenOut(q: seq<byte>, s: nat, bufLen: nat, name: seq<byte>, es: seq<Entry>)
    requires 0 < |q| <= bufLen + 1 && Outcome(|q|, q, s, bufLen, name, es, true)
    requires Walk(q, s) == |q| - 1 && q[|q| - 1] == 0
    ensures s < |q| && q[s..] == Lits(Split(name)) + [0]
  {
    hide Walk, Lits, Split, Proper;
    SpelledOut(q, s, s, Split(name));
    assert q[s..] == q[s..|q| - 1] + [q[|q| - 1]];
  }

  lemma NotHere(es: seq<Entry>, name: seq<byte>)
    ensures (forall e :: e in es ==> e.v != name) ==> !Has(es, name)
  {
  }

  lemma Found(es: seq<Entry>, e: Entry)
    requires e in es
    ensures Has(es, e.v)
  {
  }

  lemma TooLong(s: nat, bufLen: nat, name: seq<byte>, es: seq<Entry>, sound: bool)
    requires |name| > MAX_NAME
    ensures Outcome(-2, [], s, bufLen, name, es, sound)
  {
  }

  lemma LabelFits(suffix: seq<byte>, name: seq<byte>)
    requires WellFormed(name) ==> (name == [] && suffix == []) || Proper(suffix)
    ensures WellFormed(name) ==> var d := FirstDot(suffix);
      && (if d == -1 then |suffix| <= MAX_LABEL else d <= MAX_LABEL && Proper(suffix[d + 1..]))
  {
  }

  // A label that is not the last one has been written.
  lemma EncodeNext(p: seq<byte>, s: nat, name: seq<byte>, suffix: seq<byte>, es: seq<Entry>, es': seq<Entry>)
    requires Encoding(p, s, name, suffix, es) && FirstDot(suffix) != -1 && Proper(suffix)
    requires es' == es || es' == es + [Entry(suffix, |p|)]
    ensures var d := FirstDot(suffix);
      Encoding(p + [Len(suffix[..d])] + suffix[..d], s, name, suffix[d + 1..], es')
  {
    var d := FirstDot(suffix);
    SplitStep(suffix);
    EncodeLabel(p, s, name, suffix, es, suffix[..d], suffix[d + 1..]);
  }

  // The last label has been written: only the zero byte is missing, unless the name is the root.
  lemma EncodeLast(p: seq<byte>, s: nat, name: seq<byte>, suffix: seq<byte>, es: seq<Entry>, es': seq<Entry>)
    requires Encoding(p, s, name, suffix, es) && FirstDot(suffix) == -1
    requires if name == [] then suffix == [] && s == |p| && AllKnown(p, es) else Proper(suffix)
    requires es' == es || es' == es + [Entry(suffix, |p|)]
    ensures var q := p + [Len(suffix)] + suffix;
      if name == [] then Encoded(q, s, name, es') && q == p + [0] && Walk(q, s) == |p| else suffix != [] && Encoding(q, s, name, [], es')
  {
    if name == [] {
      assert p + [Len(suffix)] + suffix == p + [0];
      EncodeRoot(p, es);
    } else {
      SplitStep(suffix);
      EncodeLabel(p, s, name, suffix, es, suffix, []);
    }
  }

  // -- Several names in one message --

  const NAME_OUT: nat := 256

  // From offset s on the message spells the name, and ends it at offset end.
  ghost predicate Reads(p: seq<byte>, s: nat, name: seq<byte>, end: nat)
  {
    Spells(p, s, s, Split(name)) && s < |p| && WireEnd(p, s) == end <= |p|
  }

  lemma {:induction false} WalkMore(p: seq<byte>, q: seq<byte>, j: nat)
    requires p <= q && Walk(p, j) < |p| && (p[Walk(p, j)] == 0 || p[Walk(p, j)] >= 64)
    ensures Walk(q, j) == Walk(p, j)
    decreases |p| - j
  {
    if !(j >= |p| || p[j] == 0 || p[j] >= 64 || j + 1 + p[j] as nat > |p|) {
      WalkMore(p, q, j + 1 + p[j] as nat);
    }
  }

  // A message that spells something ends its labels with a zero byte or a pointer.
  lemma {:induction false} SpellsEnd(p: seq<byte>, j: nat, n: nat, labels: seq<seq<byte>>)
    requires Spells(p, j, n, labels)
    ensures Walk(p, j) < |p| && (p[Walk(p, j)] == 0 || p[Walk(p, j)] >= 64)
    decreases |labels|
  {
    if 0 < p[j] < 64 {
      SpellsEnd(p, j + 1 + p[j] as nat, n, labels[1..]);
    }
  }

  lemma ReadsMore(p: seq<byte>, q: seq<byte>, s: nat, name: seq<byte>, end: nat)
    requires Reads(p, s, name, end) && p <= q
    ensures Reads(q, s, name, end)
  {
    SpellsMore(p, q, s, s, s, Split(name));
    SpellsEnd(p, s, s, Split(name));
    WalkMore(p, q, s);
  }

  // The names read so far, one after another.
  ghost predicate ReadsAll(p: seq<byte>, starts: seq<nat>, names: seq<seq<byte>>, i: nat)
  {
    && i <= |names| && |starts| == i + 1 && starts[i] == |p|
    && forall k :: 0 <= k < i ==> Reads(p, starts[k], names[k], starts[k + 1])
  }

  lemma ReadsNext(p: seq<byte>, q: seq<byte>, starts: seq<nat>, names: seq<seq<byte>>, i: nat, es: seq<Entry>)
    requires ReadsAll(p, starts, names, i) && i < |names| && p <= q && |p| < |q| && Encoded(q, |p|, names[i], es)
    ensures ReadsAll(q, starts + [|q|], names, i + 1)
  {
    hide Spells, Walk, Split;
    forall k | 0 <= k < i ensures Reads(q, starts[k], names[k], starts[k + 1]) {
      ReadsMore(p, q, starts[k], names[k], starts[k + 1]);
    }
  }

  // The room that names take when none is compressed.
  ghost function Uncompressed(names: seq<seq<byte>>): nat
  {
    if names == [] then 0 else |names[0]| + 2 + Uncompressed(names[1..])
  }

  // One more name
  method EncodeOneMore(buf: array<byte>, bufLen: nat, at: nat, names: seq<seq<byte>>, i: nat, table: Table, ghost starts: seq<nat>,
                    ghost sound: bool)
    returns (r: int)
    requires bufLen < buf.Length && at <= bufLen && i < |names| && 0 !in names[i] && table.Valid() && |starts| == i + 1
    requires sound ==> WellFormed(names[i])
    requires sound && at <= POINTER_LIMIT ==> ReadsAll(buf[..at], starts, names, i) && AllKnown(buf[..at], Es(table))
    modifies buf, table, table.labels
    ensures table.Valid() && r <= bufLen + 1 && (r < 0 || at < r) && r <= at + |names[i]| + 2
    ensures WellFormed(names[i]) && at + |names[i]| + 2 <= bufLen ==> r >= 0
    ensures sound && 0 <= r <= POINTER_LIMIT ==>
      ReadsAll(buf[..r], starts + [r], names, i + 1) && AllKnown(buf[..r], Es(table))
  {
    hide Outcome, Encoded, AllKnown, ReadsAll, WellFormed;
    ghost var p, es := buf[..at], Es(table);
    r := DnsnameToLabels(buf, bufLen, at, names[i], table);
    EncodedOutcome(r, buf[..], at, bufLen, names[i], Es(table), WellFormed(names[i]) && AllKnown(p, es));
    if sound && 0 <= r <= POINTER_LIMIT {
      ghost var q := buf[..r];
      assert p == q[..at];
      ReadsNext(p, q, starts, names, i, Es(table));
    }
  }

  // Names that are encoded one after another into one message, with a shared table: name_parse reads each of them
  // back, and stops where the next one starts.
  method EncodeNames(buf: array<byte>, bufLen: nat, j0: nat, names: seq<seq<byte>>, ample: bool)
    returns (r: int, ghost starts: seq<nat>)
    requires bufLen < buf.Length && j0 <= bufLen && forall name :: name in names ==> 0 as byte !in name
    modifies buf
    ensures r < 0 || j0 <= r <= bufLen + 1
    ensures (forall name :: name in names ==> WellFormed(name)) && j0 + Uncompressed(names) <= bufLen ==>
      0 <= r <= j0 + Uncompressed(names)
    ensures 0 <= r <= POINTER_LIMIT && (forall name :: name in names ==> WellFormed(name)) ==>
      && ReadsAll(buf[..r], starts, names, |names|) && starts[0] == j0
      && (forall k :: 0 <= k < |names| ==> Parse(buf[..r], starts[k], 0, [], NAME_OUT) == Some(names[k]))
  {
    hide Outcome, Encoded, AllKnown, ReadsAll, WellFormed, Parse;
    var table := new Table(ample);
    r, starts := j0, [j0];
    ghost var sound := forall name :: name in names ==> WellFormed(name);
    ReadsNone(buf[..j0], names);
    var i := 0;
    while i < |names|
      invariant 0 <= i <= |names| && j0 <= r <= bufLen + 1 && table.Valid() && fresh(table) && fresh(table.labels)
      invariant |starts| == i + 1 && starts[0] == j0
      invariant sound ==> r + Uncompressed(names[i..]) <= j0 + Uncompressed(names)
      invariant sound && r <= POINTER_LIMIT ==> ReadsAll(buf[..r], starts, names, i) && AllKnown(buf[..r], Es(table))
    {
      if r > bufLen {
        // no room is left, not even for a root name
        return -2, starts;
      }
      assert names[i] in names;
      var r' := EncodeOneMore(buf, bufLen, r, names, i, table, starts, sound);
      if r' < 0 {
        return r', starts;
      }
      r, starts, i := r', starts + [r'], i + 1;
    }
    if sound && r <= POINTER_LIMIT {
      forall k | 0 <= k < |names| ensures Parse(buf[..r], starts[k], 0, [], NAME_OUT) == Some(names[k]) {
        ParsedBack(buf[..r], starts, names, k);
      }
    }
  }

  lemma ReadsNone(p: seq<byte>, names: seq<seq<byte>>)
    ensures ReadsAll(p, [|p|], names, 0) && AllKnown(p, [])
  {
  }

  lemma EncodedOutcome(r: int, q: seq<byte>, s: nat, bufLen: nat, name: seq<byte>, es: seq<Entry>, sound: bool)
    requires bufLen < |q| && r <= bufLen + 1 && Outcome(r, if r >= 0 then q[..r] else [], s, bufLen, name, es, sound)
    ensures (r < 0 || s < r) && r <= s + |name| + 2
    ensures WellFormed(name) && s + |name| + 2 <= bufLen ==> r >= 0
    ensures r >= 0 && sound ==> Encoded(q[..r], s, name, es) && (r <= POINTER_LIMIT ==> AllKnown(q[..r], es))
  {
  }

  lemma ParsedBack(p: seq<byte>, starts: seq<nat>, names: seq<seq<byte>>, k: nat)
    requires ReadsAll(p, starts, names, |names|) && k < |names| && WellFormed(names[k])
    ensures k < |starts| && Parse(p, starts[k], 0, [], NAME_OUT) == Some(names[k])
  {
    hide Parse, Spells, Walk, Split;
    assert Reads(p, starts[k], names[k], starts[k + 1]);
    SpelledBack(p, starts[k], starts[k], names[k], NAME_OUT);
  }
}
