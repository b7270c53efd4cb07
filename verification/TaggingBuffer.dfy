/** Tagged records in evbuffers: the operations of event_tagging.c. */
module TaggingBuffer {
  import opened Bytes
  import opened EvBufferCore
  import opened EvBufferAdd
  import opened EvBufferDrain
  import opened EvBufferPullup
  import opened EvBufferMove
  import opened Tagging

  // evtag_encode_tag
  method EncodeTag(buf: EvBuffer, tag: nat) returns (ok: bool)
    requires buf.Valid() && tag < TWO_32
    modifies buf, buf.store
    ensures buf.Valid() && fresh(buf.store - old(buf.store)) && unchanged(buf`freezeStart, buf`freezeEnd)
    ensures buf.Contents() == old(buf.Contents()) + if ok then TagBytes(tag) else []
    ensures |TagBytes(tag)| <= 5
    ensures buf.ample && !buf.freezeEnd && |old(buf.Contents())| + 5 <= SIZE_MAX ==> ok
  {
    hide EvBuffer.Valid, Flatten, TagBytes;
    var data := new byte[5](_ => 0);
    var bytes := EncodeTagInternal(data, tag);
    var r := Add(buf, data[..bytes]);
    ok := r == 0;
  }

  // evtag_encode_int, evtag_encode_int64: `size` is 4 or 8
  method EncodeInt(buf: EvBuffer, number: nat, size: nat) returns (ok: bool)
    requires buf.Valid() && (size == 4 || size == 8) && number < (if size == 4 then TWO_32 else TWO_64)
    modifies buf, buf.store
    ensures buf.Valid() && fresh(buf.store - old(buf.store)) && unchanged(buf`freezeStart, buf`freezeEnd)
    ensures |Digits(number)| <= 2 * size
    ensures buf.Contents() == old(buf.Contents()) + if ok then IntBytes(number) else []
    ensures |IntBytes(number)| <= size + 1
    ensures buf.ample && !buf.freezeEnd && |old(buf.Contents())| + size + 1 <= SIZE_MAX ==> ok
  {
    hide EvBuffer.Valid, Flatten, Digits, IntBytes;
    var data := new byte[size + 1](_ => 0);
    var len := EncodeInternal(data, number, size);
    var r := Add(buf, data[..len]);
    ok := r == 0;
  }

  // evtag_marshal. What the three additions return is not looked at; ok says that they all succeeded.
  method Marshal(buf: EvBuffer, tag: nat, data: seq<byte>) returns (ok: bool)
    requires buf.Valid() && tag < TWO_32 && |data| < TWO_32
    modifies buf, buf.store
    ensures buf.Valid() && fresh(buf.store - old(buf.store)) && unchanged(buf`freezeStart, buf`freezeEnd)
    ensures |Digits(|data|)| <= 8
    ensures ok ==> buf.Contents() == old(buf.Contents()) + RecordBytes(tag, data)
    ensures ok ==> buf.Contents() == old(buf.Contents()) + TagBytes(tag) + IntBytes(|data|) + data
    ensures old(buf.Contents()) <= buf.Contents()
    ensures buf.ample && !buf.freezeEnd && |old(buf.Contents())| + 10 + |data| <= SIZE_MAX ==> ok
  {
    hide EvBuffer.Valid, Flatten, Digits, IntBytes, TagBytes, RecordBytes;
    ghost var was := buf.Contents();
    var tagged := EncodeTag(buf, tag);
    var sized := EncodeInt(buf, |data|, 4);
    var added := Add(buf, data);
    ok := tagged && sized && added == 0;
    if ok {
      Appended(was, tag, data);
    }
  }

  lemma Appended(was: seq<byte>, tag: nat, data: seq<byte>)
    requires |Digits(|data|)| <= 8
    ensures was + TagBytes(tag) + IntBytes(|data|) + data == was + RecordBytes(tag, data)
  {
    hide Digits, IntBytes, TagBytes;
  }

  // decode_tag_internal. Like everything below it fails when there is no memory to make the bytes it needs contiguous.
  method DecodeTag(buf: EvBuffer, dodrain: bool) returns (r: int, tag: nat)
    requires buf.Valid() && !buf.freezeStart
    modifies buf, buf.store
    ensures buf.Valid() && fresh(buf.store - old(buf.store)) && unchanged(buf`freezeStart, buf`freezeEnd)
    ensures r == -1 || TagFrom(old(buf.Contents()), 0) == Some((tag, r))
    ensures r == -1 || 0 < r <= |old(buf.Contents())|
    ensures buf.Contents() == if r == -1 || !dodrain then old(buf.Contents()) else old(buf.Contents())[r..]
    ensures buf.ample ==> (r == -1 <==> TagFrom(old(buf.Contents()), 0).None?)
  {
    hide EvBuffer.Valid, Flatten;
    LengthOf(buf);
    var len := buf.totalLen;
    tag := 0;
    var p := Pullup(buf, if len < 5 then len else 5);
    if p == Null {
      return -1, 0;
    }
    r, tag := DecodeTagLoop(p, len, buf.Contents());
    if r == -1 {
      return;
    }
    if dodrain {
      var drained := Drain(buf, r);
    }
  }

  // The loop of DECODE_INT_INTERNAL over the pulled-up bytes, from the highest nibble down.
  method DecodeDigits(a: array<byte>, at: nat, nibbles: nat, ghost s: seq<byte>) returns (number: nat)
    requires at + nibbles / 2 + 1 <= a.Length && |s| == nibbles / 2 + 1 && a[at..at + |s|] == s
    ensures number == FromDigits(DigitsOf(s, nibbles))
  {
    hide FromDigits;
    number := 0;
    var n := nibbles;
    ghost var d := DigitsOf(s, nibbles);
    NoDigits(d);
    while n > 0
      invariant 0 <= n <= nibbles && number == FromDigits(d[n..])
    {
      var b := a[at + n / 2] as nat;
      assert a[at..at + |s|][n / 2] == s[n / 2];
      OneDigit(d, n - 1);
      number := 16 * number + if n % 2 == 1 then b % 16 else b / 16;
      n := n - 1;
    }
    assert d[0..] == d;
  }

  lemma NoDigits(d: seq<nat>)
    ensures FromDigits(d[|d|..]) == 0
  {
  }

  lemma OneDigit(d: seq<nat>, i: nat)
    requires i < |d|
    ensures FromDigits(d[i..]) == d[i] + 16 * FromDigits(d[i + 1..])
  {
    assert d[i..][1..] == d[i + 1..];
  }

  // decode_int_internal, decode_int64_internal: nothing is drained.
  method DecodeIntAt(buf: EvBuffer, offset: nat, maxNibbles: nat) returns (r: int, number: nat)
    requires buf.Valid()
    modifies buf, buf.store
    ensures buf.Valid() && fresh(buf.store - old(buf.store)) && unchanged(buf`freezeStart, buf`freezeEnd)
    ensures buf.Contents() == old(buf.Contents())
    ensures r == -1 ||
      (offset <= |buf.Contents()| && DecodeInt(buf.Contents()[offset..], maxNibbles) == Some((number, r)))
    ensures r == -1 || 0 < r <= |buf.Contents()| - offset
    ensures buf.ample && offset + 9 <= LARGEST ==>
      (r == -1 <==> offset > |buf.Contents()| || DecodeInt(buf.Contents()[offset..], maxNibbles).None?)
  {
    hide EvBuffer.Valid, Flatten, FromDigits, DigitsOf, DecodeInt;
    number := 0;
    LengthOf(buf);
    var len := buf.totalLen - offset;
    DecodeIntFails(if len < 0 then [] else buf.Contents()[offset..], maxNibbles);
    if len <= 0 {
      return -1, 0;
    }
    var p := Pullup(buf, offset + 1);
    if p == Null {
      return -1, 0;
    }
    ghost var s := buf.Contents()[offset..];
    assert p.memory[p.offset..p.offset + offset + 1][offset] == s[0];
    var nibbles: nat := p.memory[p.offset + offset] as nat / 16 + 1;
    if nibbles > maxNibbles || nibbles / 2 + 1 > len {
      return -1, 0;
    }
    var size := nibbles / 2 + 1;
    p := Pullup(buf, offset + size);
    if p == Null {
      return -1, 0;
    }
    assert p.memory[p.offset + offset..p.offset + offset + size] == p.memory[p.offset..p.offset + offset + size][offset..] == s[..size];
    number := DecodeDigits(p.memory, p.offset + offset, nibbles, s[..size]);
    DecodedAs(s, nibbles, size, maxNibbles);
    return size, number;
  }

  // When no number can be decoded.
  lemma DecodeIntFails(s: seq<byte>, maxNibbles: nat)
    ensures DecodeInt(s, maxNibbles).None? <==>
      s == [] || s[0] as nat / 16 + 1 > maxNibbles || (s[0] as nat / 16 + 1) / 2 + 1 > |s|
  {
  }

  lemma DecodedAs(s: seq<byte>, nibbles: nat, size: nat, maxNibbles: nat)
    requires s != [] && nibbles == s[0] as nat / 16 + 1 <= maxNibbles && size == nibbles / 2 + 1 <= |s|
    ensures DecodeInt(s, maxNibbles) == Some((FromDigits(DigitsOf(s[..size], nibbles)), size))
  {
    assert DigitsOf(s[..size], nibbles) == DigitsOf(s, nibbles);
  }

  // evtag_decode_int, evtag_decode_int64
  method DecodeIntDrain(buf: EvBuffer, maxNibbles: nat) returns (r: int, number: nat)
    requires buf.Valid() && !buf.freezeStart
    modifies buf, buf.store
    ensures buf.Valid() && fresh(buf.store - old(buf.store)) && unchanged(buf`freezeStart, buf`freezeEnd)
    ensures r == -1 || r == 0
    ensures r == 0 ==> var d := DecodeInt(old(buf.Contents()), maxNibbles);
      d.Some? && d.value.0 == number && buf.Contents() == old(buf.Contents())[d.value.1..]
    ensures r == -1 ==> buf.Contents() == old(buf.Contents())
    ensures buf.ample ==> (r == -1 <==> DecodeInt(old(buf.Contents()), maxNibbles).None?)
  {
    hide EvBuffer.Valid, Flatten, DecodeInt;
    var res;
    res, number := DecodeIntAt(buf, 0, maxNibbles);
    assert buf.Contents()[0..] == buf.Contents();
    if res != -1 {
      var drained := Drain(buf, res);
    }
    r := if res == -1 then -1 else 0;
  }

  // The signed value of a 32-bit length, as evtag_unmarshal_header returns it.
  function Signed32(n: nat): (r: int)
    ensures n < TWO_31 ==> r == n
    ensures TWO_31 <= n < TWO_32 ==> r < 0
  {
    if n < TWO_31 then n else n - TWO_32
  }

  // evtag_unmarshal_header: the tag and the length are drained, the payload follows.
  method UnmarshalHeader(buf: EvBuffer) returns (r: int, tag: nat)
    requires buf.Valid() && !buf.freezeStart
    modifies buf, buf.store
    ensures buf.Valid() && fresh(buf.store - old(buf.store)) && unchanged(buf`freezeStart, buf`freezeEnd)
    ensures r != -1 ==> var d := DecodeRecord(old(buf.Contents()));
      && d.Some? && d.value.0.tag == tag && |d.value.0.data| < TWO_32 && r == Signed32(|d.value.0.data|)
      && buf.Contents() == d.value.0.data + old(buf.Contents())[d.value.1..]
    ensures buf.ample ==> var d := DecodeRecord(old(buf.Contents()));
      if d.None? then r == -1
      else
        && d.value.0.tag == tag && |d.value.0.data| < TWO_32 && r == Signed32(|d.value.0.data|)
        && buf.Contents() == d.value.0.data + old(buf.Contents())[d.value.1..]
  {
    hide EvBuffer.Valid, Flatten, DecodeInt, TagFrom;
    ghost var s := buf.Contents();
    NoHeader(s);
    r, tag := DecodeTag(buf, true);
    if r == -1 {
      return;
    }
    ghost var t := r;
    var len;
    r, len := DecodeIntDrain(buf, 8);
    if r == -1 {
      return;
    }
    LengthOf(buf);
    if buf.totalLen < len {
      return -1, tag;
    }
    ghost var n := DecodeInt(s[t..], 8).value.1;
    HeaderOf(s, t, n, len, buf.Contents());
    DecodeIntBound(s[t..]);
    r := Signed32(len);
  }

  // When no record can be decoded.
  lemma NoHeader(s: seq<byte>)
    ensures DecodeRecord(s).None? <==>
      || TagFrom(s, 0).None?
      || (var t := TagFrom(s, 0).value.1;
          || DecodeInt(s[t..], 8).None?
          || (var d := DecodeInt(s[t..], 8).value; |s[t..][d.1..]| < d.0))
    ensures DecodeRecord(s).Some? ==> DecodeRecord(s).value.0.tag == TagFrom(s, 0).value.0
  {
    hide TagFrom, DecodeInt;
  }

  lemma HeaderOf(s: seq<byte>, t: nat, n: nat, len: nat, left: seq<byte>)
    requires TagFrom(s, 0).Some? && TagFrom(s, 0).value.1 == t
    requires DecodeInt(s[t..], 8) == Some((len, n)) && left == s[t..][n..] && len <= |left|
    ensures DecodeRecord(s) == Some((Record(TagFrom(s, 0).value.0, left[..len]), t + n + len))
    ensures left == left[..len] + s[t + n + len..]
  {
    hide DecodeInt, TagFrom;
    assert s[t + n..] == left;
    assert s[t + n..t + n + len] == left[..len];
  }

  // evtag_unmarshal. A payload of 2^31 bytes or more has a negative length, and fails here.
  method Unmarshal(src: EvBuffer, dst: EvBuffer) returns (r: int, tag: nat)
    requires src.Valid() && dst.Valid() && Apart(dst, src) && !src.freezeStart
    modifies src, src.store, dst, dst.store
    ensures src.Valid() && dst.Valid() && Apart(dst, src)
    ensures fresh((src.store + dst.store) - (old(src.store) + old(dst.store)))
    ensures unchanged(src`freezeStart, src`freezeEnd, dst`freezeStart, dst`freezeEnd)
    ensures r >= 0 ==> var d := DecodeRecord(old(src.Contents()));
      && d.Some? && d.value.0.tag == tag && |d.value.0.data| == r
      && dst.Contents() == old(dst.Contents()) + d.value.0.data && src.Contents() == old(src.Contents())[d.value.1..]
    ensures r < 0 ==> dst.Contents() == old(dst.Contents())
    ensures src.ample && dst.ample && !dst.freezeEnd ==> var d := DecodeRecord(old(src.Contents()));
      d.Some? && |d.value.0.data| < TWO_31 && |old(dst.Contents())| + |d.value.0.data| <= SIZE_MAX ==> r >= 0
  {
    hide EvBuffer.Valid, Flatten, DecodeRecord;
    LengthOf(src);
    LengthOf(dst);
    var len;
    len, tag := UnmarshalHeader(src);
    if len < 0 {
      return -1, tag;
    }
    var p := Pullup(src, len);
    if p == Null && len > 0 {
      // no memory: the code goes on with a null pointer
      return -1, tag;
    }
    var data := if p == Null then [] else p.memory[p.offset..p.offset + len];
    var added := Add(dst, data);
    if added == -1 {
      return -1, tag;
    }
    var drained := Drain(src, len);
    return len, tag;
  }

  // evtag_consume
  method ConsumeRecord(buf: EvBuffer) returns (r: int)
    requires buf.Valid() && !buf.freezeStart
    modifies buf, buf.store
    ensures buf.Valid() && (r == 0 || r == -1)
    ensures fresh(buf.store - old(buf.store)) && unchanged(buf`freezeStart, buf`freezeEnd)
    ensures r == 0 && |old(buf.Contents())| < SIZE_MAX / 2 ==> var d := DecodeRecord(old(buf.Contents()));
      d.Some? && buf.Contents() == if |d.value.0.data| < TWO_31 then old(buf.Contents())[d.value.1..] else []
    ensures buf.ample ==> var d := DecodeRecord(old(buf.Contents()));
      (r == -1 <==> d.None? || |d.value.0.data| == TWO_32 - 1)
  {
    hide EvBuffer.Valid, Flatten, DecodeRecord;
    var len, tag := UnmarshalHeader(buf);
    if len == -1 {
      return -1;
    }
    // a negative length becomes a huge one
    var drained := Drain(buf, if len < 0 then SIZE_MAX + 1 + len else len);
    return 0;
  }

  // evtag_marshal_int, evtag_marshal_int64: `size` is 4 or 8
  method MarshalInt(buf: EvBuffer, tag: nat, number: nat, size: nat) returns (ok: bool)
    requires buf.Valid() && tag < TWO_32 && (size == 4 || size == 8) && number < (if size == 4 then TWO_32 else TWO_64)
    modifies buf, buf.store
    ensures buf.Valid()
    ensures fresh(buf.store - old(buf.store)) && unchanged(buf`freezeStart, buf`freezeEnd)
    ensures |Digits(number)| <= 16 && |Digits(|IntBytes(number)|)| <= 8
    ensures ok ==> buf.Contents() == old(buf.Contents()) + RecordBytes(tag, IntBytes(number))
    ensures buf.ample && !buf.freezeEnd && |old(buf.Contents())| + 11 + size <= SIZE_MAX ==> ok
  {
    hide EvBuffer.Valid, Flatten, Digits, RecordBytes;
    var data := new byte[size + 1](_ => 0);
    var len := EncodeInternal(data, number, size);
    Widths(len);
    ok := Marshal(buf, tag, data[..len]);
  }

  // evtag_unmarshal_int, evtag_unmarshal_int64: maxNibbles is 8 or 16. The record is drained even if its payload is not
  // a number.
  method UnmarshalInt(buf: EvBuffer, needTag: nat, maxNibbles: nat) returns (r: int, number: nat)
    requires buf.Valid() && !buf.freezeStart
    modifies buf, buf.store
    ensures buf.Valid()
    ensures fresh(buf.store - old(buf.store)) && unchanged(buf`freezeStart, buf`freezeEnd)
    ensures r != -1 ==> var d := DecodeRecord(old(buf.Contents()));
      && d.Some? && d.value.0.tag == needTag && DecodeInt(d.value.0.data, maxNibbles) == Some((number, r))
      && buf.Contents() == old(buf.Contents())[d.value.1..]
    ensures buf.ample ==> var d := DecodeRecord(old(buf.Contents()));
      d.Some? && d.value.0.tag == needTag && DecodeInt(d.value.0.data, maxNibbles).Some? ==> r != -1
  {
    hide EvBuffer.Valid, Flatten, DecodeInt, TagFrom, DecodeRecord;
    number := 0;
    ghost var s := buf.Contents();
    NoHeader(s);
    var tag;
    r, tag := DecodeTag(buf, true);
    if r == -1 {
      return;
    }
    ghost var t := r;
    if needTag != tag {
      return -1, 0;
    }
    var len;
    r, len := DecodeIntDrain(buf, 8);
    if r == -1 {
      return;
    }
    LengthOf(buf);
    if buf.totalLen < len {
      return -1, 0;
    }
    ghost var left := buf.Contents();
    HeaderOf(s, t, DecodeInt(s[t..], 8).value.1, len, left);
    r, number := TakeNumber(buf, len, maxNibbles);
  }

  // The payload of the record: the number in it, and then it is drained.
  method TakeNumber(buf: EvBuffer, len: nat, maxNibbles: nat) returns (r: int, number: nat)
    requires buf.Valid() && !buf.freezeStart && len <= |buf.Contents()|
    modifies buf, buf.store
    ensures buf.Valid() && fresh(buf.store - old(buf.store)) && unchanged(buf`freezeStart, buf`freezeEnd)
    ensures buf.Contents() == old(buf.Contents())[len..]
    ensures r != -1 ==> DecodeInt(old(buf.Contents())[..len], maxNibbles) == Some((number, r))
    ensures buf.ample && DecodeInt(old(buf.Contents())[..len], maxNibbles).Some? ==> r != -1
  {
    hide EvBuffer.Valid, Flatten, DecodeInt;
    ghost var left := buf.Contents();
    r, number := DecodeIntAt(buf, 0, maxNibbles);
    assert left[0..] == left == left[..len] + left[len..];
    if DecodeInt(left[..len], maxNibbles).Some? {
      DecodeIntMore(left[..len], left[len..], maxNibbles);
    }
    var drained := Drain(buf, len);
    if r < 0 || r > len {
      return -1, 0;
    }
    DecodeIntPrefix(left[..len], left[len..], maxNibbles);
  }

  // evtag_marshal_timeval; the fields are converted to 32 bits.
  method MarshalTimeval(buf: EvBuffer, tag: nat, sec: int, usec: int) returns (ok: bool)
    requires buf.Valid() && tag < TWO_32
    modifies buf, buf.store
    ensures buf.Valid()
    ensures fresh(buf.store - old(buf.store)) && unchanged(buf`freezeStart, buf`freezeEnd)
    ensures |Digits(sec % TWO_32)| <= 8 && |Digits(usec % TWO_32)| <= 8
    ensures var data := IntBytes(sec % TWO_32) + IntBytes(usec % TWO_32);
      |Digits(|data|)| <= 8 && (ok ==> buf.Contents() == old(buf.Contents()) + RecordBytes(tag, data))
    ensures buf.ample && !buf.freezeEnd && |old(buf.Contents())| + 20 <= SIZE_MAX ==> ok
  {
    hide EvBuffer.Valid, Flatten, Digits, RecordBytes;
    var first, second := new byte[5](_ => 0), new byte[5](_ => 0);
    var len := EncodeInternal(first, sec % TWO_32, 4);
    var len2 := EncodeInternal(second, usec % TWO_32, 4);
    Widths(len + len2);
    ok := Marshal(buf, tag, first[..len] + second[..len2]);
  }

  // evtag_unmarshal_timeval
  method UnmarshalTimeval(buf: EvBuffer, needTag: nat) returns (r: int, sec: nat, usec: nat)
    requires buf.Valid() && !buf.freezeStart
    modifies buf, buf.store
    ensures buf.Valid() && (r == 0 || r == -1)
    ensures fresh(buf.store - old(buf.store)) && unchanged(buf`freezeStart, buf`freezeEnd)
    ensures r == 0 ==> var d := DecodeRecord(old(buf.Contents()));
      && d.Some? && d.value.0.tag == needTag
      && (|d.value.0.data| < TWO_31 ==>
            DecodeTimeval(d.value.0.data) == Some((sec, usec)) && buf.Contents() == old(buf.Contents())[d.value.1..])
    ensures buf.ample ==> var d := DecodeRecord(old(buf.Contents()));
      d.Some? && d.value.0.tag == needTag && |d.value.0.data| < TWO_31 && DecodeTimeval(d.value.0.data).Some? ==> r == 0
  {
    hide EvBuffer.Valid, Flatten, DecodeInt, DecodeRecord, DecodeTimeval;
    sec, usec := 0, 0;
    ghost var was := buf.Contents();
    var len, tag := UnmarshalHeader(buf);
    if len == -1 {
      return -1, 0, 0;
    }
    ghost var left, data := buf.Contents(), DecodeRecord(was).value.0.data;
    TimevalIn(left, data);
    assert left[0..] == left;
    r := -1;
    if tag == needTag {
      var offset, offset2;
      offset, sec := DecodeIntAt(buf, 0, 8);
      if offset != -1 {
        offset2, usec := DecodeIntAt(buf, offset, 8);
        if offset2 != -1 && !(offset + offset2 > len) {
          if len >= 0 {
            TimevalOf(left, data, sec, offset, usec, offset2);
          }
          r := 0;
        }
      }
    }
    // a negative length becomes a huge one
    var drained := Drain(buf, if len < 0 then SIZE_MAX + 1 + len else len);
  }

  // A pair of numbers in a payload is at the front of what the payload is the front of.
  lemma TimevalIn(left: seq<byte>, data: seq<byte>)
    requires data <= left
    ensures DecodeTimeval(data).Some? ==>
      && DecodeInt(left, 8).Some? && var a := DecodeInt(left, 8).value;
      && a.1 <= |data| <= |left| && DecodeInt(left[a.1..], 8).Some? && a.1 + DecodeInt(left[a.1..], 8).value.1 <= |data|
  {
    hide DecodeInt;
    if DecodeTimeval(data).Some? {
      var rest := left[|data|..];
      assert left == data + rest;
      DecodeIntMore(data, rest, 8);
      var n := DecodeInt(data, 8).value.1;
      assert left[n..] == data[n..] + rest;
      DecodeIntMore(data[n..], rest, 8);
    }
  }

  lemma TimevalOf(left: seq<byte>, data: seq<byte>, sec: nat, offset: nat, usec: nat, offset2: nat)
    requires data <= left && offset + offset2 <= |data| && DecodeInt(left, 8) == Some((sec, offset))
    requires DecodeInt(left[offset..], 8) == Some((usec, offset2))
    ensures DecodeTimeval(data) == Some((sec, usec))
  {
    hide DecodeInt;
    assert left == data + left[|data|..] && left[offset..] == data[offset..] + left[|data|..];
    DecodeIntPrefix(data, left[|data|..], 8);
    DecodeIntPrefix(data[offset..], left[|data|..], 8);
  }

  // -- A whole stream through a buffer --

  ghost predicate Records(rs: seq<Record>)
  {
    forall r :: r in rs ==> r.tag < TWO_32 && |r.data| < TWO_31
  }

  lemma {:induction false} StreamMore(rs: seq<Record>, r: Record)
    requires Records(rs) && r.tag < TWO_32 && |r.data| < TWO_31
    ensures Records(rs + [r]) && |Digits(|r.data|)| <= 8
    ensures Stream(rs + [r]) == Stream(rs) + RecordBytes(r.tag, r.data)
    decreases |rs|
  {
    hide RecordBytes, Digits;
    Widths(|r.data|);
    if rs == [] {
      assert rs + [r] == [r] && [r][1..] == [];
      assert Stream([r]) == RecordBytes(r.tag, r.data) + Stream([]);
    } else {
      StreamMore(rs[1..], r);
      Widths(|rs[0].data|);
      var first := RecordBytes(rs[0].tag, rs[0].data);
      assert (rs + [r])[1..] == rs[1..] + [r];
      assert first + (Stream(rs[1..]) + RecordBytes(r.tag, r.data)) == first + Stream(rs[1..]) + RecordBytes(r.tag, r.data);
    }
  }

  lemma {:induction false} StreamPart(rs: seq<Record>, i: nat)
    requires Records(rs) && i <= |rs|
    ensures Records(rs[..i]) && |Stream(rs[..i])| <= |Stream(rs)|
    ensures i < |rs| ==> |Stream(rs[..i])| + |rs[i].data| <= |Stream(rs)|
    decreases |rs| - i
  {
    hide Stream, Digits;
    if i == |rs| {
      assert rs[..i] == rs;
    } else {
      StreamPart(rs, i + 1);
      assert rs[..i + 1] == rs[..i] + [rs[i]];
      assert rs[i] in rs;
      StreamMore(rs[..i], rs[i]);
    }
  }

  // evtag_marshal for one record after another
  method MarshalAll(buf: EvBuffer, rs: seq<Record>)
    requires buf.Valid() && buf.ample && !buf.freezeEnd && Records(rs)
    requires |buf.Contents()| + |Stream(rs)| + 10 <= SIZE_MAX
    modifies buf, buf.store
    ensures buf.Valid() && fresh(buf.store - old(buf.store)) && unchanged(buf`freezeStart, buf`freezeEnd)
    ensures buf.Contents() == old(buf.Contents()) + Stream(rs)
  {
    hide EvBuffer.Valid, Flatten, Stream, RecordBytes, Digits;
    ghost var was := buf.Contents();
    StreamEmpty(was);
    var i := 0;
    while i < |rs|
      invariant 0 <= i <= |rs| && buf.Valid() && fresh(buf.store - old(buf.store)) && unchanged(buf`freezeStart, buf`freezeEnd)
      invariant Records(rs[..i]) && buf.Contents() == was + Stream(rs[..i])
    {
      assert rs[i] in rs && rs[..i + 1] == rs[..i] + [rs[i]];
      StreamPart(rs, i);
      StreamMore(rs[..i], rs[i]);
      var ok := Marshal(buf, rs[i].tag, rs[i].data);
      assert was + Stream(rs[..i]) + RecordBytes(rs[i].tag, rs[i].data) == was + Stream(rs[..i + 1]);
      i := i + 1;
    }
    assert rs[..i] == rs;
  }

  lemma StreamEmpty(was: seq<byte>)
    ensures Stream([]) == [] && was + Stream([]) == was
  {
  }

  // evtag_unmarshal, as long as there is something to read and it can be read
  method UnmarshalAll(src: EvBuffer, ghost rs: seq<Record>) returns (records: seq<Record>)
    requires src.Valid() && src.ample && !src.freezeStart && Records(rs) && src.Contents() == Stream(rs)
    modifies src, src.store
    ensures src.Valid() && records == rs && src.Contents() == []
  {
    hide EvBuffer.Valid, Flatten, Stream;
    records := [];
    LengthOf(src);
    ghost var k := 0;
    assert rs[0..] == rs;
    while src.totalLen > 0
      invariant src.Valid() && fresh(src.store - old(src.store)) && unchanged(src`freezeStart)
      invariant 0 <= k <= |rs| && src.Contents() == Stream(rs[k..]) && records == rs[..k] && src.totalLen == |src.Contents()|
      decreases |rs| - k
    {
      NextRecord(rs, k);
      var ok, record := UnmarshalOne(src, rs[k]);
      records := records + [record];
      k := k + 1;
      LengthOf(src);
    }
    AllRead(rs, k);
  }

  // What is left of a stream when k records have been read.
  lemma NextRecord(rs: seq<Record>, k: nat)
    requires Records(rs) && k <= |rs| && Stream(rs[k..]) != []
    ensures k < |rs| && rs[..k + 1] == rs[..k] + [rs[k]]
    ensures var s := Stream(rs[k..]); var d := DecodeRecord(s);
      && d.Some? && d.value.0 == rs[k] && s[d.value.1..] == Stream(rs[k + 1..]) && |rs[k].data| < TWO_31
  {
    hide DecodeRecord, RecordBytes, Digits;
    var left := rs[k..];
    assert left != [];
    assert left[1..] == rs[k + 1..] && rs[k] in rs;
    Widths(|rs[k].data|);
    RecordRoundTrip(rs[k].tag, rs[k].data, Stream(rs[k + 1..]));
    var first := RecordBytes(rs[k].tag, rs[k].data);
    assert (first + Stream(rs[k + 1..]))[|first|..] == Stream(rs[k + 1..]);
  }

  lemma AllRead(rs: seq<Record>, k: nat)
    requires Records(rs) && k <= |rs| && Stream(rs[k..]) == []
    ensures rs[..k] == rs
  {
    hide Stream;
    if k < |rs| {
      NotEmpty(rs, k);
    } else {
      assert rs[..k] == rs;
    }
  }

  lemma NotEmpty(rs: seq<Record>, k: nat)
    requires Records(rs) && k < |rs|
    ensures Stream(rs[k..]) != []
  {
    hide DecodeRecord, RecordBytes, Digits;
    assert rs[k] in rs && rs[k..][1..] == rs[k + 1..];
    Widths(|rs[k].data|);
    RecordRoundTrip(rs[k].tag, rs[k].data, Stream(rs[k + 1..]));
    NoRecord();
  }

  // One record into a new buffer, and out of it.
  method UnmarshalOne(src: EvBuffer, ghost next: Record) returns (ok: bool, record: Record)
    requires src.Valid() && src.ample && !src.freezeStart
    requires var d := DecodeRecord(src.Contents()); d.Some? && d.value.0 == next && |next.data| < TWO_31
    modifies src, src.store
    ensures src.Valid() && fresh(src.store - old(src.store)) && unchanged(src`freezeStart)
    ensures ok && record == next && src.Contents() == old(src.Contents())[DecodeRecord(old(src.Contents())).value.1..]
  {
    hide EvBuffer.Valid, Flatten, DecodeRecord;
    LengthOf(src);
    var dst := new EvBuffer(true);
    LengthOf(dst);
    var r, tag := Unmarshal(src, dst);
    LengthOf(dst);
    var out := new byte[dst.totalLen];
    var n := Remove(dst, out, dst.totalLen);
    record := Record(tag, out[..n]);
    ok := r >= 0;
  }

  // A stream of records that travels through a buffer comes out as the same records.
  method Transport(rs: seq<Record>) returns (records: seq<Record>)
    requires Records(rs) && |Stream(rs)| + 10 <= SIZE_MAX
    ensures records == rs
  {
    hide EvBuffer.Valid, Flatten, Stream;
    var buf := new EvBuffer(true);
    MarshalAll(buf, rs);
    assert [] + Stream(rs) == Stream(rs);
    records := UnmarshalAll(buf, rs);
  }
}
