/** Bytes, and the one value-level operation everything about an evbuffer is stated with:
    the flattening of a sequence of pieces. */
module Bytes {

  newtype byte = b: int | 0 <= b < 256

  function Flatten(pieces: seq<seq<byte>>): (s: seq<byte>)
  {
    if pieces == [] then [] else pieces[0] + Flatten(pieces[1..])
  }

  lemma {:induction false} FlattenAppend(a: seq<seq<byte>>, b: seq<seq<byte>>)
    ensures Flatten(a + b) == Flatten(a) + Flatten(b)
  {
    if a == [] {
      assert a + b == b;
    } else {
      FlattenAppend(a[1..], b);
      assert (a + b)[0] == a[0] && (a + b)[1..] == a[1..] + b;
      var x, y, z := a[0], Flatten(a[1..]), Flatten(b);
      assert x + (y + z) == x + y + z;
    }
  }

  lemma FlattenSingle(x: seq<byte>)
    ensures Flatten([x]) == x
  {
  }

  // Pieces without bytes contribute nothing.
  lemma {:induction false} FlattenEmpty(pieces: seq<seq<byte>>)
    requires forall i :: 0 <= i < |pieces| ==> pieces[i] == []
    ensures Flatten(pieces) == []
  {
    if pieces != [] {
      FlattenEmpty(pieces[1..]);
    }
  }

  lemma FlattenSplit(pieces: seq<seq<byte>>, k: nat)
    requires k <= |pieces|
    ensures Flatten(pieces) == Flatten(pieces[..k]) + Flatten(pieces[k..])
  {
    FlattenAppend(pieces[..k], pieces[k..]);
    assert pieces == pieces[..k] + pieces[k..];
  }

  lemma FlattenTake(pieces: seq<seq<byte>>, k: nat)
    requires k < |pieces|
    ensures Flatten(pieces[..k + 1]) == Flatten(pieces[..k]) + pieces[k]
  {
    FlattenAppend(pieces[..k], [pieces[k]]);
    assert pieces[..k] + [pieces[k]] == pieces[..k + 1];
    FlattenSingle(pieces[k]);
  }

  // One piece taken out of the middle.
  lemma FlattenAt(pieces: seq<seq<byte>>, k: nat)
    requires k < |pieces|
    ensures Flatten(pieces) == Flatten(pieces[..k]) + pieces[k] + Flatten(pieces[k + 1..])
  {
    FlattenTake(pieces, k);
    FlattenSplit(pieces, k + 1);
  }

  // Writing behind the last piece that has data appends to the whole.
  lemma FlattenExtend(pieces: seq<seq<byte>>, k: nat, more: seq<byte>)
    requires k < |pieces|
    requires forall i :: k < i < |pieces| ==> pieces[i] == []
    ensures Flatten(pieces[k := pieces[k] + more]) == Flatten(pieces) + more
  {
    var after := pieces[k := pieces[k] + more];
    FlattenAt(pieces, k);
    FlattenAt(after, k);
    FlattenEmpty(pieces[k + 1..]);
    assert after[..k] == pieces[..k] && after[k + 1..] == pieces[k + 1..];
    var l, m := Flatten(pieces[..k]), pieces[k];
    assert l + (m + more) == l + m + more;
  }

  // A part of a part of an array.
  lemma PartOfPart(a: array<byte>, lo: nat, hi: nat, i: nat, j: nat)
    requires lo <= hi <= a.Length && i <= j <= hi - lo
    ensures a[lo..hi][i..j] == a[lo + i..lo + j]
  {
    var whole, part := a[lo..hi], a[lo + i..lo + j];
    forall k | 0 <= k < j - i ensures whole[i..j][k] == part[k] {
      assert whole[i..j][k] == whole[i + k] == a[lo + i + k];
    }
  }

  // memcpy between two arrays
  method Memcpy(to: array<byte>, at: nat, from: array<byte>, j: nat, n: nat)
    requires at + n <= to.Length && j + n <= from.Length && to != from
    modifies to
    ensures to[..at] == old(to[..at]) && to[at..at + n] == from[j..j + n] && to[at + n..] == old(to[at + n..])
  {
    forall i | at <= i < at + n {
      to[i] := from[j + (i - at)];
    }
    ghost var moved := to[at..at + n];
    forall i | 0 <= i < n ensures moved[i] == from[j..j + n][i] {
      assert moved[i] == to[at + i];
    }
  }
}
