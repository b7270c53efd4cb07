/** Tagged records (event_tagging.c): variable-length integers and tags, records, and reading them back from an evbuffer. */
module Tagging {
  import opened Bytes
  import opened EvBufferCore
  import opened EvBufferAdd
  import opened EvBufferDrain
  import opened EvBufferPullup

  const TWO_31: nat := 0x8000_0000
  const TWO_32: nat := 0x1_0000_0000
  const TWO_64: nat := 0x1_0000_0000_0000_0000

  datatype Option<T> = None | Some(value: T)

  // -- Integers, by nibbles: the first nibble is the number of nibbles less one --

  // The hexadecimal digits of a number, the lowest one first.
  function Digits(n: nat): (d: seq<nat>)
    ensures d != [] && forall i :: 0 <= i < |d| ==> d[i] < 16
  {
    if n < 16 then [n] else [n % 16] + Digits(n / 16)
  }

  function FromDigits(d: seq<nat>): (n: nat)
  {
    if d == [] then 0 else d[0] + 16 * FromDigits(d[1..])
  }

  lemma {:induction false} DigitsBack(n: nat)
    ensures FromDigits(Digits(n)) == n
  {
    if n >= 16 {
      DigitsBack(n / 16);
      assert Digits(n)[1..] == Digits(n / 16);
    } else {
      assert Digits(n)[1..] == [];
    }
  }

  function Power16(k: nat): nat
  {
    if k == 0 then 1 else 16 * Power16(k - 1)
  }

  lemma {:induction false} DigitsBound(n: nat, k: nat)
    requires n < Power16(k) && k > 0
    ensures |Digits(n)| <= k
    decreases k
  {
    if n >= 16 {
      DigitsBound(n / 16, k - 1);
    }
  }

  lemma {:induction false} FromDigitsBound(d: seq<nat>)
    requires forall i :: 0 <= i < |d| ==> d[i] < 16
    ensures FromDigits(d) < Power16(|d|)
  {
    if d != [] {
      FromDigitsBound(d[1..]);
    }
  }

  lemma {:induction false} PowerMono(a: nat, b: nat)
    requires a <= b
    ensures Power16(a) <= Power16(b)
    decreases b - a
  {
    if a < b {
      PowerMono(a, b - 1);
    }
  }

  lemma Powers()
    ensures Power16(8) == TWO_32 && Power16(16) == TWO_64
  {
    assert Power16(4) == 0x1_0000;
    assert Power16(8) == 0x1_0000_0000;
    assert Power16(12) == 0x1_0000_0000_0000;
  }

  lemma DivideTwice(n: nat, a: nat, b: nat)
    requires a > 0 && b > 0
    ensures a * b > 0 && n / a / b == n / (a * b)
  {
    var q, r := n / a / b, n / a % b;
    assert n / a == q * b + r;
    assert n == q * (a * b) + (r * a + n % a);
    assert r * a + n % a < a * b by {
      assert (r + 1) * a <= b * a;
    }
    QuotientIs(n, a * b, q, r * a + n % a);
  }

  lemma QuotientIs(n: nat, d: nat, q: nat, r: nat)
    requires d > 0 && n == q * d + r && r < d
    ensures n / d == q
  {
    var p := n / d;
    assert n == p * d + n % d && q * d == p * d + (q - p) * d;
    if p < q {
      Multiple(q - p, d);
    } else if p > q {
      Multiple(p - q, d);
    }
  }

  lemma Multiple(k: nat, d: nat)
    requires k > 0
    ensures k * d >= d
  {
  }

  // Digit i counts 16^i, and there are as many as are needed, at least one.
  lemma {:induction false} DigitIs(n: nat, i: nat)
    ensures Power16(i) > 0 && DigitOr0(Digits(n), i) == n / Power16(i) % 16
    decreases i
  {
    if i > 0 {
      DigitIs(n / 16, i - 1);
      DivideTwice(n, 16, Power16(i - 1));
      if n >= 16 {
        assert DigitOr0(Digits(n), i) == DigitOr0(Digits(n / 16), i - 1);
      } else {
        NoQuotient(Power16(i - 1));
      }
    }
  }

  lemma NoQuotient(a: nat)
    requires a > 0
    ensures 0 / a == 0
  {
    QuotientIs(0, a, 0, 0);
  }

  lemma {:induction false} DigitsNeeded(n: nat)
    ensures n < Power16(|Digits(n)|) && (|Digits(n)| > 1 ==> Power16(|Digits(n)| - 1) <= n)
  {
    if n >= 16 {
      DigitsNeeded(n / 16);
    }
  }

  function DigitOr0(d: seq<nat>, i: int): (x: nat)
    ensures (forall j :: 0 <= j < |d| ==> d[j] < 16) ==> x < 16
  {
    if 0 <= i < |d| then d[i] else 0
  }

  // Byte k of a number with these digits, apart from the number of digits.
  function DigitsByte(d: seq<nat>, k: nat): (b: nat)
    ensures (forall j :: 0 <= j < |d| ==> d[j] < 16) ==> b < 256
  {
    DigitOr0(d, 2 * k - 1) * 16 + DigitOr0(d, 2 * k)
  }

  // How a number is written, if it has at most 16 digits.
  function IntBytes(n: nat): (s: seq<byte>)
    requires |Digits(n)| <= 16
    ensures |s| == |Digits(n)| / 2 + 1
  {
    var d := Digits(n);
    seq(|d| / 2 + 1, k requires 0 <= k < |d| / 2 + 1 =>
      if k == 0 then ((|d| - 1) * 16 + d[0]) as byte else DigitsByte(d, k) as byte)
  }

  // A number is written with its lowest digits first, behind the number of its digits less one.
  lemma IntFormat(n: nat, i: nat)
    requires |Digits(n)| <= 16 && 0 < i < |IntBytes(n)|
    ensures var s := IntBytes(n); var k := s[0] as nat / 16;
      && |s| == (k + 1) / 2 + 1 && n < Power16(k + 1) && (k > 0 ==> Power16(k) <= n) && s[0] as nat % 16 == n % 16
      && Power16(2 * i) > 0 && Power16(2 * i - 1) > 0
      && s[i] as nat % 16 == n / Power16(2 * i) % 16 && s[i] as nat / 16 == n / Power16(2 * i - 1) % 16
  {
    hide Digits, Power16;
    var d := Digits(n);
    DigitsNeeded(n);
    DigitIs(n, 0);
    DigitIs(n, 2 * i);
    DigitIs(n, 2 * i - 1);
    Halves(|d| - 1, d[0]);
    Halves(DigitOr0(d, 2 * i - 1), DigitOr0(d, 2 * i));
    LowDigit(n);
  }

  lemma LowDigit(n: nat)
    ensures Digits(n)[0] == n % 16
  {
  }

  // Digit i of a number written to s.
  function DigitOf(s: seq<byte>, i: nat): (x: nat)
    requires (i + 1) / 2 < |s|
    ensures x < 16
  {
    var b := s[(i + 1) / 2] as nat;
    if i % 2 == 0 then b % 16 else b / 16
  }

  function DigitsOf(s: seq<byte>, n: nat): (d: seq<nat>)
    requires n / 2 < |s|
    ensures |d| == n && forall i :: 0 <= i < n ==> d[i] == DigitOf(s, i)
  {
    seq(n, i requires 0 <= i < n => DigitOf(s, i))
  }

  // A number at the front of s, and the number of bytes it takes.
  function DecodeInt(s: seq<byte>, maxNibbles: nat): (r: Option<(nat, nat)>)
    ensures r.Some? ==> 0 < r.value.1 <= |s|
  {
    if s == [] then None
    else
      var n := s[0] as nat / 16 + 1;
      if n > maxNibbles || n / 2 + 1 > |s| then None
      else Some((FromDigits(DigitsOf(s, n)), n / 2 + 1))
  }

  lemma DecodeIntBound(s: seq<byte>)
    ensures DecodeInt(s, 8).Some? ==> DecodeInt(s, 8).value.0 < TWO_32
    ensures DecodeInt(s, 16).Some? ==> DecodeInt(s, 16).value.0 < TWO_64
  {
    if s != [] {
      var n := s[0] as nat / 16 + 1;
      if n / 2 + 1 <= |s| {
        FromDigitsBound(DigitsOf(s, n));
        Powers();
        if n <= 8 {
          PowerMono(n, 8);
        }
        PowerMono(n, 16);
      }
    }
  }

  // The nibble codec inverts, whatever follows.
  lemma IntRoundTrip(n: nat, maxNibbles: nat, rest: seq<byte>)
    requires |Digits(n)| <= maxNibbles <= 16
    ensures DecodeInt(IntBytes(n) + rest, maxNibbles) == Some((n, |IntBytes(n)|))
  {
    var d, s := Digits(n), IntBytes(n) + rest;
    assert s[0] as nat == (|d| - 1) * 16 + d[0];
    assert s[0] as nat / 16 == |d| - 1;
    forall i | 0 <= i < |d| ensures DigitOf(s, i) == d[i] {
      DigitAt(n, rest, i);
    }
    assert DigitsOf(s, |d|) == d;
    DigitsBack(n);
  }

  lemma Halves(a: nat, b: nat)
    requires b < 16
    ensures (a * 16 + b) / 16 == a && (a * 16 + b) % 16 == b
  {
  }

  lemma DigitAt(n: nat, rest: seq<byte>, i: nat)
    requires |Digits(n)| <= 16 && i < |Digits(n)|
    ensures DigitOf(IntBytes(n) + rest, i) == Digits(n)[i]
  {
    hide Digits;
    var d, k := Digits(n), (i + 1) / 2;
    assert (IntBytes(n) + rest)[k] == IntBytes(n)[k];
    if k == 0 {
      Halves(|d| - 1, d[0]);
    } else {
      assert IntBytes(n)[k] as nat == DigitsByte(d, k);
      Halves(DigitOr0(d, 2 * k - 1), DigitOr0(d, 2 * k));
      assert i == if i % 2 == 0 then 2 * k else 2 * k - 1;
    }
  }

  // 32-bit numbers have at most 8 digits, 64-bit numbers at most 16.
  lemma Widths(n: nat)
    ensures n < TWO_32 ==> |Digits(n)| <= 8
    ensures n < TWO_64 ==> |Digits(n)| <= 16
  {
    Powers();
    if n < TWO_32 {
      DigitsBound(n, 8);
    }
    if n < TWO_64 {
      DigitsBound(n, 16);
    }
  }

  // The digits ds have been written to data, and nothing else.
  ghost predicate Written(data: array<byte>, size: nat, ds: seq<nat>)
    reads data
  {
    && size < data.Length && (forall i :: 0 <= i < |ds| ==> ds[i] < 16)
    && forall k :: 0 <= k <= size ==> data[k] as nat == DigitsByte(ds, k)
  }

  // One step of the loop of ENCODE_INT_INTERNAL: the digit x goes to nibble off.
  method PutNibble(data: array<byte>, size: nat, off: nat, x: nat, ghost ds: seq<nat>)
    requires Written(data, size, ds) && off == |ds| + 1 && off / 2 <= size && x < 16
    modifies data
    ensures Written(data, size, ds + [x])
  {
    NextByte(ds, x);
    if off % 2 == 1 {
      data[off / 2] := (data[off / 2] as nat / 16 * 16 + x) as byte;
    } else {
      data[off / 2] := (data[off / 2] as nat % 16 + x * 16) as byte;
    }
  }

  // What is left of the number, and the digits that have been taken off it.
  ghost predicate Taken(number: nat, n: nat, ds: seq<nat>)
  {
    if n != 0 then Digits(number) == ds + Digits(n) else Digits(number) == if ds == [] then [0] else ds
  }

  lemma TakeDigit(number: nat, n: nat, ds: seq<nat>)
    requires Taken(number, n, ds) && n != 0
    ensures Taken(number, n / 16, ds + [n % 16]) && |ds| < |Digits(number)|
  {
    if n >= 16 {
      assert ds + ([n % 16] + Digits(n / 16)) == ds + [n % 16] + Digits(n / 16);
    }
  }

  // ENCODE_INT_INTERNAL, for a number of `size` bytes
  method EncodeInternal(data: array<byte>, number: nat, size: nat) returns (len: nat)
    requires data.Length > size && (size == 4 || size == 8) && number < (if size == 4 then TWO_32 else TWO_64)
    modifies data
    ensures |Digits(number)| <= 2 * size && len <= size + 1 && data[..len] == IntBytes(number)
  {
    hide Written, Taken, Digits;
    Widths(number);
    var off: nat, nibbles: nat, n := 1, 0, number;
    Zero(data, size);
    ghost var ds: seq<nat> := [];
    TakeNone(number);
    while n != 0
      invariant off == |ds| + 1 && |ds| <= |Digits(number)|
      invariant Taken(number, n, ds) && Written(data, size, ds)
      decreases n
    {
      TakeDigit(number, n, ds);
      PutNibble(data, size, off, n % 16, ds);
      ds := ds + [n % 16];
      n := n / 16;
      off := off + 1;
    }
    if off > 2 {
      nibbles := off - 2;
    }
    ghost var was := data[..];
    WrittenLow(data, size, ds);
    data[0] := (data[0] as nat % 16 + nibbles % 16 * 16) as byte;
    len := (off + 1) / 2;
    AllWritten(number, size, ds, was, data[..], nibbles);
  }

  // memset
  method Zero(data: array<byte>, size: nat)
    requires size < data.Length
    modifies data
    ensures Written(data, size, [])
  {
    forall i | 0 <= i <= size {
      data[i] := 0;
    }
  }

  lemma TakeNone(number: nat)
    ensures Taken(number, number, [])
  {
    assert [] + Digits(number) == Digits(number);
  }

  lemma WrittenLow(data: array<byte>, size: nat, ds: seq<nat>)
    requires Written(data, size, ds)
    ensures forall k :: 0 <= k <= size ==> data[k] as nat == DigitsByte(ds, k)
  {
  }

  // The first byte gets the number of digits; then all is written.
  lemma AllWritten(number: nat, size: nat, ds: seq<nat>, was: seq<byte>, s: seq<byte>, nibbles: nat)
    requires Taken(number, 0, ds) && |Digits(number)| <= 2 * size <= 16 && size < |was| == |s|
    requires forall k :: 0 <= k <= size ==> was[k] as nat == DigitsByte(ds, k)
    requires nibbles == (if |ds| > 1 then |ds| - 1 else 0) && nibbles < 16
    requires s == was[0 := (was[0] as nat % 16 + nibbles % 16 * 16) as byte]
    ensures (|ds| + 2) / 2 == |IntBytes(number)| && |IntBytes(number)| <= size + 1
    ensures s[..(|ds| + 2) / 2] == IntBytes(number)
  {
    hide Digits;
    var d := Digits(number);
    assert |d| - 1 == nibbles && DigitOr0(ds, 0) == d[0] && was[0] as nat == d[0];
    forall k | 1 <= k < |d| / 2 + 1 ensures DigitsByte(ds, k) == DigitsByte(d, k) {
      assert ds == [] ==> |d| == 1;
    }
  }

  // Writing the next digit changes one half of one byte.
  lemma NextByte(ds: seq<nat>, x: nat)
    requires x < 16 && forall i :: 0 <= i < |ds| ==> ds[i] < 16
    ensures forall k: nat :: k != (|ds| + 1) / 2 ==> DigitsByte(ds + [x], k) == DigitsByte(ds, k)
    ensures var k := (|ds| + 1) / 2;
      DigitsByte(ds + [x], k) == if |ds| % 2 == 0 then DigitsByte(ds, k) / 16 * 16 + x else DigitsByte(ds, k) % 16 + x * 16
  {
  }

  // -- Tags, seven bits at a time: the high bit of a byte says that more follow --

  function TagBytes(tag: nat): (s: seq<byte>)
    ensures s != []
  {
    if tag < 128 then [tag as byte] else [(tag % 128 + 128) as byte] + TagBytes(tag / 128)
  }

  function Power128(k: nat): nat
  {
    if k == 0 then 1 else 128 * Power128(k - 1)
  }

  // A tag is written with its lowest seven bits first, in as many bytes as are needed; all of them but the last one have the
  // high bit set.
  lemma {:induction false} TagFormat(tag: nat, i: nat)
    requires i < |TagBytes(tag)|
    ensures Power128(i) > 0 && TagBytes(tag)[i] as nat % 128 == tag / Power128(i) % 128
    ensures TagBytes(tag)[i] >= 128 <==> i < |TagBytes(tag)| - 1
    ensures tag < Power128(|TagBytes(tag)|) && (|TagBytes(tag)| > 1 ==> Power128(|TagBytes(tag)| - 1) <= tag)
    decreases tag
  {
    if tag < 128 {
      assert TagBytes(tag) == [tag as byte];
    } else {
      var s, t := TagBytes(tag), TagBytes(tag / 128);
      assert s == [(tag % 128 + 128) as byte] + t;
      if i > 0 {
        TagFormat(tag / 128, i - 1);
        DivideTwice(tag, 128, Power128(i - 1));
        assert s[i] == t[i - 1];
      } else {
        TagFormat(tag / 128, 0);
      }
    }
  }

  // The number whose lowest byte is byte i, and the offset behind it. The fifth byte may only bring four more bits.
  function TagFrom(s: seq<byte>, i: nat): (r: Option<(nat, nat)>)
    ensures r.Some? ==> i < r.value.1 <= |s| && r.value.1 <= 5
    decreases |s| - i
  {
    if i >= |s| || i > 4 then None
    else
      var lower := s[i] as nat % 128;
      if i == 4 && lower > 15 then None
      else if s[i] < 128 then Some((lower, i + 1))
      else
        var r := TagFrom(s, i + 1);
        if r.None? then None else Some((lower + 128 * r.value.0, r.value.1))
  }

  // 2^(32 - 7 i): what is left of 32 bits after i bytes
  function TagLimit(i: nat): nat
    requires i <= 4
  {
    match i
    case 0 => TWO_32
    case 1 => 0x200_0000
    case 2 => 0x4_0000
    case 3 => 0x800
    case 4 => 16
  }

  // The tag codec inverts, whatever precedes and follows.
  lemma {:induction false} TagRoundTrip(tag: nat, s: seq<byte>, i: nat, rest: seq<byte>)
    requires i <= 4 && tag < TagLimit(i) && i <= |s| && s[i..] == TagBytes(tag) + rest
    ensures TagFrom(s, i) == Some((tag, i + |TagBytes(tag)|))
    decreases tag
  {
    assert s[i] == s[i..][0] == TagBytes(tag)[0];
    if tag >= 128 {
      assert s[i + 1..] == s[i..][1..] == TagBytes(tag / 128) + rest;
      TagRoundTrip(tag / 128, s, i + 1, rest);
    }
  }

  // evtag_encode_tag, as far as the bytes are concerned
  method EncodeTagInternal(data: array<byte>, tag: nat) returns (bytes: nat)
    requires data.Length == 5 && tag < TWO_32
    modifies data
    ensures bytes <= 5 && data[..bytes] == TagBytes(tag)
  {
    bytes := 0;
    var n: nat := tag;
    assert data[..0] + TagBytes(n) == TagBytes(tag);
    while n >= 128
      invariant bytes <= 4 && n < TagLimit(bytes)
      invariant data[..bytes] + TagBytes(n) == TagBytes(tag)
      decreases n
    {
      ghost var before := data[..bytes];
      data[bytes] := (n % 128 + 128) as byte;
      assert before + TagBytes(n) == before + [data[bytes]] + TagBytes(n / 128);
      n := n / 128;
      bytes := bytes + 1;
      assert data[..bytes] == before + [data[bytes - 1]];
    }
    data[bytes] := n as byte;
    bytes := bytes + 1;
    assert data[..bytes] == data[..bytes - 1] + [data[bytes - 1]];
  }

  // How the bytes before offset i, which make up number, relate to the whole.
  ghost predicate Decoding(s: seq<byte>, i: nat, number: nat)
  {
    && i <= 5 && i <= |s|
    && var t, all := TagFrom(s, i), TagFrom(s, 0);
      if t.None? then all.None? else all == Some((number + Weight(i) * t.value.0, t.value.1))
  }

  lemma DecodingStep(s: seq<byte>, i: nat, number: nat)
    requires Decoding(s, i, number)
    ensures i == |s| || i == 5 || (i == 4 && s[i] as nat % 128 > 15) ==> TagFrom(s, 0).None?
    ensures i < |s| && i < 5 && !(i == 4 && s[i] as nat % 128 > 15) ==>
      var next := number + Weight(i) * (s[i] as nat % 128);
      if s[i] < 128 then TagFrom(s, 0) == Some((next, i + 1)) else Decoding(s, i + 1, next)
  {
    if i < |s| && i < 5 {
      var t := TagFrom(s, i + 1);
      assert Weight(i + 1) == Weight(i) * 128;
      if t.Some? {
        WeightStep(Weight(i), s[i] as nat % 128, t.value.0);
      }
    }
  }

  lemma WeightStep(w: nat, a: nat, b: nat)
    ensures w * (a + 128 * b) == w * a + w * 128 * b
  {
  }

  // The loop of decode_tag_internal over the pulled-up bytes.
  method DecodeTagLoop(p: Pointer, len: nat, ghost s: seq<byte>) returns (r: int, number: nat)
    requires p.At? && p.offset + (if len < 5 then len else 5) <= p.memory.Length && len == |s|
    requires p.memory[p.offset..p.offset + if len < 5 then len else 5] == s[..if len < 5 then len else 5]
    ensures var t := TagFrom(s, 0);
      if t.None? then r == -1 else r == t.value.1 && number == t.value.0
  {
    hide TagFrom, Decoding;
    number := 0;
    var count: nat := 0;
    DecodingStart(s);
    while count < len
      invariant count <= len && count <= 5 && Decoding(s, count, number)
    {
      DecodingStep(s, count, number);
      if count == 5 {
        // the code reads one more byte here before it finds that there are too many
        return -1, 0;
      }
      ghost var k := if len < 5 then len else 5;
      assert p.memory[p.offset..p.offset + k][count] == s[..k][count];
      var lower := p.memory[p.offset + count] as nat;
      if count == 4 && lower % 128 > 15 {
        return -1, 0;
      }
      number := number + Weight(count) * (lower % 128);
      count := count + 1;
      if lower < 128 {
        return count, number;
      }
    }
    DecodingStep(s, count, number);
    return -1, 0;
  }

  lemma DecodingStart(s: seq<byte>)
    ensures Decoding(s, 0, 0)
  {
  }

  function Weight(i: nat): nat
    requires i <= 5
  {
    match i
    case 0 => 1
    case 1 => 128
    case 2 => 0x4000
    case 3 => 0x20_0000
    case 4 => 0x1000_0000
    case 5 => 0x8_0000_0000
  }

  // -- Records --

  // A record: tag, length and payload
  function RecordBytes(tag: nat, data: seq<byte>): (s: seq<byte>)
    requires |Digits(|data|)| <= 8
  {
    TagBytes(tag) + IntBytes(|data|) + data
  }

  datatype Record = Record(tag: nat, data: seq<byte>)

  // The record at the front of s, and the number of bytes it takes.
  function DecodeRecord(s: seq<byte>): (r: Option<(Record, nat)>)
    ensures r.Some? ==> 0 < r.value.1 <= |s|
  {
    var t := TagFrom(s, 0);
    if t.None? then None
    else
      var n := DecodeInt(s[t.value.1..], 8);
      if n.None? then None
      else
        var at := t.value.1 + n.value.1;
        if |s| - at < n.value.0 then None
        else Some((Record(t.value.0, s[at..at + n.value.0]), at + n.value.0))
  }

  // Every record reads back, whatever follows, and takes exactly the bytes that were written.
  lemma RecordRoundTrip(tag: nat, data: seq<byte>, rest: seq<byte>)
    requires tag < TWO_32 && |data| < TWO_32
    ensures |Digits(|data|)| <= 8
    ensures DecodeRecord(RecordBytes(tag, data) + rest) == Some((Record(tag, data), |RecordBytes(tag, data)|))
  {
    hide Digits, IntBytes, DecodeInt, TagFrom, TagBytes;
    Widths(|data|);
    var t, n := TagBytes(tag), IntBytes(|data|);
    var s := RecordBytes(tag, data) + rest;
    assert s[0..] == t + (n + data + rest) && s[|t|..] == n + (data + rest);
    TagRoundTrip(tag, s, 0, n + data + rest);
    IntRoundTrip(|data|, 8, data + rest);
    var at := |t| + |n|;
    assert s[at..at + |data|] == data;
  }

  function Stream(records: seq<Record>): seq<byte>
    requires forall r :: r in records ==> r.tag < TWO_32 && |r.data| < TWO_31
  {
    if records == [] then []
    else
      Widths(|records[0].data|);
      RecordBytes(records[0].tag, records[0].data) + Stream(records[1..])
  }

  // All records of a stream, until one cannot be read.
  function ReadAll(s: seq<byte>): seq<Record>
    decreases |s|
  {
    var r := DecodeRecord(s);
    if r.None? then [] else [r.value.0] + ReadAll(s[r.value.1..])
  }

  // A stream of records reads back as the same records.
  lemma {:induction false} StreamRoundTrip(records: seq<Record>)
    requires forall r :: r in records ==> r.tag < TWO_32 && |r.data| < TWO_31
    ensures ReadAll(Stream(records)) == records
    decreases |records|
  {
    hide DecodeRecord, RecordBytes;
    if records == [] {
      NoRecord();
    } else {
      var first, rest := records[0], Stream(records[1..]);
      RecordRoundTrip(first.tag, first.data, rest);
      var s := Stream(records);
      assert s == RecordBytes(first.tag, first.data) + rest;
      assert s[|RecordBytes(first.tag, first.data)|..] == rest;
      StreamRoundTrip(records[1..]);
      assert ReadAll(s) == [first] + ReadAll(rest);
    }
  }

  lemma NoRecord()
    ensures DecodeRecord([]) == None
  {
  }

  // What is decoded from the front of a longer sequence, if the part in front is enough.
  lemma DecodeIntPrefix(a: seq<byte>, b: seq<byte>, maxNibbles: nat)
    requires DecodeInt(a + b, maxNibbles).Some? && DecodeInt(a + b, maxNibbles).value.1 <= |a|
    ensures DecodeInt(a, maxNibbles) == DecodeInt(a + b, maxNibbles)
  {
    var n := (a + b)[0] as nat / 16 + 1;
    assert DigitsOf(a, n) == DigitsOf(a + b, n);
  }

  lemma DecodeIntMore(a: seq<byte>, b: seq<byte>, maxNibbles: nat)
    requires DecodeInt(a, maxNibbles).Some?
    ensures DecodeInt(a + b, maxNibbles) == DecodeInt(a, maxNibbles)
  {
    var n := a[0] as nat / 16 + 1;
    assert DigitsOf(a, n) == DigitsOf(a + b, n);
  }

  // A pair of numbers in one payload.
  function DecodeTimeval(data: seq<byte>): Option<(nat, nat)>
  {
    var sec := DecodeInt(data, 8);
    if sec.None? then None
    else
      var usec := DecodeInt(data[sec.value.1..], 8);
      if usec.None? then None else Some((sec.value.0, usec.value.0))
  }

  // Integers and timevals of 32 bits in a payload read back.
  lemma PayloadRoundTrip(n: nat, sec: nat, usec: nat)
    requires sec < TWO_32 && usec < TWO_32 && n < TWO_64
    ensures |Digits(n)| <= 16 && |Digits(sec)| <= 8 && |Digits(usec)| <= 8
    ensures n < TWO_32 ==> DecodeInt(IntBytes(n), 8) == Some((n, |IntBytes(n)|))
    ensures DecodeInt(IntBytes(n), 16) == Some((n, |IntBytes(n)|))
    ensures DecodeTimeval(IntBytes(sec) + IntBytes(usec)) == Some((sec, usec))
  {
    hide Digits, IntBytes, DecodeInt;
    Widths(n);
    Widths(sec);
    Widths(usec);
    var a, b := IntBytes(sec), IntBytes(usec);
    assert IntBytes(n) + [] == IntBytes(n) && b + [] == b && (a + b)[|a|..] == b;
    if n < TWO_32 {
      IntRoundTrip(n, 8, []);
    }
    IntRoundTrip(n, 16, []);
    IntRoundTrip(sec, 8, b);
    IntRoundTrip(usec, 8, []);
  }
}
