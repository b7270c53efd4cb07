/** Room in several chains at the end of an evbuffer: evbuffer_expand_fast_. */
module EvBufferExpandFast {
  import opened Bytes
  import opened EvBufferCore
  import opened EvBufferAdd
  import opened EvBufferDrain
  import opened EvBufferExpand

  ghost function Room(c: Chain): nat
    reads c`misalign, c`off
  {
    if c.misalign + c.off <= c.buffer.Length then c.buffer.Length - (c.misalign + c.off) else 0
  }

  ghost function Rooms(cs: seq<Chain>): (rs: seq<nat>)
    reads cs
    ensures |rs| == |cs| && forall i :: 0 <= i < |cs| ==> rs[i] == Room(cs[i])
  {
    seq(|cs|, i requires 0 <= i < |cs| reads cs => Room(cs[i]))
  }

  function Sum(rs: seq<nat>): nat
  {
    if rs == [] then 0 else rs[0] + Sum(rs[1..])
  }

  lemma {:induction false} SumSnoc(rs: seq<nat>, x: nat)
    ensures Sum(rs + [x]) == Sum(rs) + x
  {
    if rs == [] {
      assert rs + [x] == [x];
    } else {
      SumSnoc(rs[1..], x);
      assert (rs + [x])[1..] == rs[1..] + [x];
    }
  }

  // The first chain with free space behind the data.
  ghost function FirstRoom(buf: EvBuffer): nat
    requires buf.chains != [] ==> buf.lwd < |buf.chains|
    reads buf`chains, buf`lwd, buf.chains
  {
    if buf.chains == [] then 0 else if Room(buf.chains[buf.lwd]) == 0 then buf.lwd + 1 else buf.lwd
  }

  // The chains from the first one with room up to chain m have room for size bytes, and each has some.
  ghost predicate RoomUpTo(buf: EvBuffer, size: nat, m: nat)
    reads buf`chains, buf`lwd, buf.chains
  {
    && buf.lwd < |buf.chains|
    && var s := FirstRoom(buf);
      && s <= m <= |buf.chains| && size <= Sum(Rooms(buf.chains[s..m]))
      && forall c :: s <= c < m ==> Room(buf.chains[c]) > 0
  }

  // At most n chains from the first one with room on have room for size bytes.
  ghost predicate HasRoom(buf: EvBuffer, size: nat, n: nat)
    reads buf`chains, buf`lwd, buf.chains
  {
    exists m: nat :: RoomUpTo(buf, size, m) && m <= FirstRoom(buf) + n
  }

  // The first chain with room directly follows the bytes.
  ghost predicate Seated(buf: EvBuffer)
    reads buf`chains, buf`pieces, buf`lwd, buf.chains
  {
    buf.lwd < |buf.chains| && buf.lwd < |buf.pieces| && (buf.pieces[buf.lwd] != [] || Room(buf.chains[buf.lwd]) > 0)
  }

  // An empty chain gets all of its memory back as free space.
  method RealignEmpty(buf: EvBuffer, chain: Chain, ghost k: nat)
    requires Rooted(buf) && k < |buf.chains| && chain == buf.chains[k] && buf.pieces[k] == []
    modifies chain`misalign
    ensures Rooted(buf) && Room(chain) == chain.buffer.Length > 0
  {
    hide Segment, Objects;
    DerefSlot(buf, k);
    chain.misalign := 0;
    assert buf.pieces == old(buf.pieces)[k := []];
    RootedUpdate(buf, k, []);
  }

  lemma RoomsStep(cs: seq<Chain>, s: nat, j: nat)
    requires s <= j < |cs|
    ensures Sum(Rooms(cs[s..j + 1])) == Sum(Rooms(cs[s..j])) + Room(cs[j])
  {
    assert cs[s..j + 1] == cs[s..j] + [cs[j]];
    assert Rooms(cs[s..j + 1]) == Rooms(cs[s..j]) + [Room(cs[j])];
    SumSnoc(Rooms(cs[s..j]), Room(cs[j]));
  }

  // The room of chains whose fields have not changed is the same.
  twostate lemma RoomsSame(new cs: seq<Chain>, new s: nat, new j: nat)
    requires s <= j <= |cs| && old(allocated(cs))
    requires forall i :: s <= i < j ==> cs[i].misalign == old(cs[i].misalign) && cs[i].off == old(cs[i].off)
    ensures Rooms(cs[s..j]) == old(Rooms(cs[s..j]))
  {
  }

  // avail is the room in the chains from s up to j, where s is the first one with room among those from lwd on.
  ghost predicate Measured(buf: EvBuffer, s: nat, j: nat, used: nat, avail: nat)
    reads buf`chains, buf`lwd, buf.chains
  {
    && buf.lwd < |buf.chains| && buf.lwd <= j <= |buf.chains| && s <= j
    && (if j == buf.lwd then s == j else s == FirstRoom(buf))
    && s + used == j && avail == Sum(Rooms(buf.chains[s..j]))
    && (forall c :: s <= c < j ==> Room(buf.chains[c]) > 0)
  }

  lemma NothingMeasured(buf: EvBuffer)
    requires buf.lwd < |buf.chains|
    ensures Measured(buf, buf.lwd, buf.lwd, 0, 0)
  {
  }

  // A chain with data that is full is skipped, ...
  lemma MeasuredFull(buf: EvBuffer)
    requires buf.lwd < |buf.chains| && Room(buf.chains[buf.lwd]) == 0
    ensures Measured(buf, buf.lwd + 1, buf.lwd + 1, 0, 0)
  {
  }

  // ... any other one counts.
  lemma MeasuredStep(buf: EvBuffer, s: nat, j: nat, used: nat, avail: nat)
    requires Measured(buf, s, j, used, avail) && j < |buf.chains| && Room(buf.chains[j]) > 0
    ensures Measured(buf, s, j + 1, used + 1, avail + Room(buf.chains[j]))
  {
    RoomsStep(buf.chains, s, j);
  }

  // What is measured does not depend on a later chain.
  twostate lemma MeasuredSame(new buf: EvBuffer, new s: nat, new j: nat, new used: nat, new avail: nat)
    requires old(allocated(buf)) && old(Measured(buf, s, j, used, avail)) && unchanged(buf`chains, buf`lwd)
    requires forall i :: 0 <= i < j ==> buf.chains[i].misalign == old(buf.chains[i].misalign) && buf.chains[i].off == old(buf.chains[i].off)
    ensures Measured(buf, s, j, used, avail)
  {
    RoomsSame(buf.chains, s, j);
  }

  lemma MeasuredEnough(buf: EvBuffer, s: nat, j: nat, used: nat, avail: nat, datlen: nat, n: nat)
    requires Measured(buf, s, j, used, avail) && datlen <= avail && used <= n && j > buf.lwd
    ensures HasRoom(buf, datlen, n)
  {
    assert RoomUpTo(buf, datlen, j);
  }

  lemma MeasuredAll(buf: EvBuffer, s: nat, used: nat, avail: nat)
    requires Measured(buf, s, |buf.chains|, used, avail)
    ensures s == FirstRoom(buf) && s + used == |buf.chains| && avail == Sum(Rooms(buf.chains[s..]))
    ensures forall c :: s <= c < |buf.chains| ==> Room(buf.chains[c]) > 0
  {
    assert buf.chains[s..|buf.chains|] == buf.chains[s..];
  }

  lemma {:induction false} MeasuredFirst(buf: EvBuffer, s: nat, j: nat, used: nat, avail: nat)
    requires Measured(buf, s, j, used, avail) && j > buf.lwd
    ensures Room(buf.chains[buf.lwd]) <= avail
  {
    if s == buf.lwd {
      RoomsMore(buf.chains, s, s + 1, j);
      NoRooms(buf.chains, s);
      RoomsStep(buf.chains, s, s);
    }
  }

  // One chain of the loop of evbuffer_expand_fast_.
  method MeasureChain(buf: EvBuffer, chain: Chain, ghost s: nat, ghost j: nat, used: nat, avail: nat)
    returns (used': nat, avail': nat, ghost s': nat)
    requires buf.Valid() && Measured(buf, s, j, used, avail) && j < |buf.chains| && chain == buf.chains[j]
    modifies chain`misalign
    ensures buf.Valid() && Measured(buf, s', j + 1, used', avail') && used' <= used + 1
    ensures chain.off == 0 ==> Room(chain) > 0
  {
    hide Rooted, Flatten, DataEndsAt, Measured;
    DerefSlot(buf, j);
    if chain.off != 0 {
      // only the last chain with data can have data here
      MeasuredAt(buf, s, j, used, avail);
      EmptyBehind(buf.pieces, buf.lwd, j);
      assert j == buf.lwd;
      var space := chain.SpaceLen();
      if space != 0 {
        MeasuredStep(buf, s, j, used, avail);
        return used + 1, avail + space, s;
      }
      MeasuredFull(buf);
      return used, avail, j + 1;
    }
    DistinctBefore(buf, j);
    RealignEmpty(buf, chain, j);
    MeasuredSame(buf, s, j, used, avail);
    MeasuredStep(buf, s, j, used, avail);
    return used + 1, avail + chain.buffer.Length, s;
  }

  lemma MeasuredAt(buf: EvBuffer, s: nat, j: nat, used: nat, avail: nat)
    requires Measured(buf, s, j, used, avail)
    ensures buf.lwd <= j <= |buf.chains|
    ensures j == buf.lwd ==> used == 0 && avail == 0
  {
    if j == buf.lwd {
      NoRooms(buf.chains, s);
    }
  }

  // The loop of evbuffer_expand_fast_: the room in the first n chains with space, the empty ones realigned.
  method MeasureRoom(buf: EvBuffer, datlen: nat, n: nat) returns (enough: bool, used: nat, avail: nat)
    requires buf.Valid() && buf.chains != [] && n >= 2
    modifies buf.chains`misalign
    ensures buf.Valid() && used <= n
    ensures enough ==> HasRoom(buf, datlen, n)
    ensures !enough ==> avail < datlen && Room(buf.chains[buf.lwd]) <= avail
    ensures !enough && |buf.chains| < n ==> used < n
    ensures !enough && used < n ==>
      && FirstRoom(buf) + used == |buf.chains| && avail == Sum(Rooms(buf.chains[FirstRoom(buf)..]))
      && forall c :: FirstRoom(buf) <= c < |buf.chains| ==> Room(buf.chains[c]) > 0
    ensures Seated(buf)
  {
    hide Rooted, Flatten, DataEndsAt, Sum, Rooms, Measured, HasRoom, FirstRoom;
    ghost var j: nat, s: nat := buf.lwd, buf.lwd;
    used, avail := 0, 0;
    DerefSlot(buf, j);
    var chain := Deref(buf, buf.lastWithDatap);
    NothingMeasured(buf);
    while chain != null
      invariant buf.Valid() && buf.lwd <= j <= |buf.chains| && chain == ChainAt(buf.chains, j)
      invariant Measured(buf, s, j, used, avail)
      invariant used < n && used <= j && (j > buf.lwd ==> avail < datlen && Seated(buf))
      decreases |buf.chains| - j
    {
      label before:
      used, avail, s := MeasureChain(buf, chain, s, j, used, avail);
      DistinctBefore(buf, j);
      SeatedNow@before(buf, j);
      j := j + 1;
      if avail >= datlen {
        MeasuredEnough(buf, s, j, used, avail, datlen, n);
        return true, used, avail;
      }
      MeasuredFirst(buf, s, j, used, avail);
      if used == n {
        return false, used, avail;
      }
      DerefSlot(buf, j);
      DerefSlot(buf, j - 1);
      chain := chain.next;
    }
    MeasuredAll(buf, s, used, avail);
    MeasuredFirst(buf, s, j, used, avail);
    return false, used, avail;
  }

  // Measuring a chain seats the buffer, or leaves it seated.
  twostate lemma SeatedNow(new buf: EvBuffer, new j: nat)
    requires old(allocated(buf)) && Rooted(buf) && DataEndsAt(buf.pieces, buf.lwd) && j < |buf.chains|
    requires unchanged(buf`chains, buf`pieces, buf`lwd) && buf.lwd <= j
    requires forall i {:trigger buf.chains[i]} :: 0 <= i < j ==>
      buf.chains[i].misalign == old(buf.chains[i].misalign) && buf.chains[i].off == old(buf.chains[i].off)
    requires buf.chains[j].off == 0 ==> Room(buf.chains[j]) > 0
    requires j > buf.lwd ==> old(Seated(buf))
    ensures Seated(buf)
  {
    hide Rooted;
    DerefSlot(buf, buf.lwd);
  }

  lemma NoRooms(cs: seq<Chain>, s: nat)
    requires s <= |cs|
    ensures Sum(Rooms(cs[s..s])) == 0
  {
  }

  lemma EmptyBehind(pieces: seq<seq<byte>>, lwd: nat, j: nat)
    requires DataEndsAt(pieces, lwd) && lwd <= j < |pieces| && pieces[j] != []
    ensures j == lwd
  {
  }

  lemma DistinctBefore(buf: EvBuffer, j: nat)
    requires Rooted(buf) && j < |buf.chains|
    ensures forall i :: 0 <= i < |buf.chains| && i != j ==> buf.chains[i] != buf.chains[j]
  {
  }

  lemma {:induction false} RoomsMore(cs: seq<Chain>, s: nat, j: nat, m: nat)
    requires s <= j <= m <= |cs|
    ensures Sum(Rooms(cs[s..j])) <= Sum(Rooms(cs[s..m]))
    decreases m - j
  {
    if j < m {
      RoomsStep(cs, s, j);
      RoomsMore(cs, s, j + 1, m);
    }
  }

  // An empty chain at the end changes neither the bytes nor where they end.
  lemma EmptyAtEnd(pieces: seq<seq<byte>>, lwd: nat)
    requires DataEndsAt(pieces, lwd) && pieces != []
    ensures DataEndsAt(pieces + [[]], lwd) && Flatten(pieces + [[]]) == Flatten(pieces)
  {
    FlattenAppend(pieces, [[]]);
    FlattenSingle([]);
    assert Flatten(pieces) + [] == Flatten(pieces);
  }

  lemma SlotKept(cs: seq<Chain>, chain: Chain, i: nat)
    requires i <= |cs|
    ensures SlotAt(cs + [chain], i) == SlotAt(cs, i)
    ensures i < |cs| ==> (cs + [chain])[i] == cs[i]
  {
  }

  // The branch that adds one more chain.
  method AddOneChain(buf: EvBuffer, need: nat) returns (r: int)
    requires buf.Valid() && buf.chains != []
    modifies buf`first, buf`last, buf`chains, buf`pieces, buf`store, buf.chains`next
    ensures buf.Valid() && fresh(buf.store - old(buf.store)) && buf.Contents() == old(buf.Contents())
    ensures r == 0 || r == -1
    ensures r == 0 ==>
      && |buf.chains| == |old(buf.chains)| + 1 && buf.chains[..|buf.chains| - 1] == old(buf.chains)
      && Room(buf.chains[|buf.chains| - 1]) >= need && fresh(buf.chains[|buf.chains| - 1])
      && Room(buf.chains[|buf.chains| - 1]) > 0 && buf.pieces == old(buf.pieces) + [[]]
    ensures r == -1 ==> unchanged(buf)
    ensures buf.ample && need <= LARGEST ==> r == 0
    ensures r == 0 ==> buf.chains[|buf.chains| - 1].buffer.Length <= 2 * need + MIN_BUFFER_SIZE
  {
    hide Rooted, Flatten, DataEndsAt, Objects;
    var tmp := ChainNew(need, buf.ample);
    if tmp == null {
      return -1;
    }
    EmptyAtEnd(buf.pieces, buf.lwd);
    SlotKept(buf.chains, tmp, buf.lwd);
    SingleList(tmp, []);
    LinkBehind(buf, NextOf(buf.last), tmp, [tmp], [[]]);
    buf.last := tmp;
    return 0;
  }

  // Every chain is empty: there are no bytes.
  lemma NukeNothing(pieces: seq<seq<byte>>, lwd: nat)
    requires DataEndsAt(pieces, lwd) && lwd < |pieces| && pieces[lwd] == []
    ensures lwd == 0 && Flatten(pieces) == [] && Flatten([[]]) == [] && DataEndsAt([[]], 0)
  {
    FlattenEmpty(pieces);
    FlattenSingle([]);
  }

  // The chains behind the last one with data are empty: freeing them keeps the bytes.
  lemma NukeTail(pieces: seq<seq<byte>>, lwd: nat)
    requires DataEndsAt(pieces, lwd) && lwd < |pieces| && pieces[lwd] != []
    ensures var front := pieces[..lwd + 1];
      && Flatten(front) == Flatten(pieces) && Flatten(front + [[]]) == Flatten(pieces)
      && DataEndsAt(front, lwd) && DataEndsAt(front + [[]], lwd)
  {
    var front := pieces[..lwd + 1];
    TrimPieces(pieces, lwd);
    assert DataEndsAt(front, lwd);
    EmptyAtEnd(front, lwd);
  }

  lemma SlotFront(cs: seq<Chain>, lwd: nat, tmp: Chain)
    requires lwd < |cs|
    ensures SlotAt(cs[..lwd + 1], lwd) == SlotAt(cs, lwd)
    ensures SlotAt(cs[..lwd + 1] + [tmp], lwd) == SlotAt(cs, lwd)
    ensures SlotAt(cs, lwd + 1) == NextOf(cs[lwd])
  {
  }

  // The branch that replaces all empty chains when the last chain with data really has some.
  method NukeBehind(buf: EvBuffer, datlen: nat) returns (r: int)
    requires buf.Valid() && buf.chains != [] && buf.pieces[buf.lwd] != [] && Room(buf.chains[buf.lwd]) <= datlen
    modifies buf`first, buf`last, buf`chains, buf`pieces, buf`store, buf.chains`next
    ensures buf.Valid() && fresh(buf.store - old(buf.store)) && buf.Contents() == old(buf.Contents())
    ensures r == 0 || r == -1
    ensures buf.ample && datlen <= LARGEST ==> r == 0
    ensures r == 0 ==>
      && |buf.chains| == buf.lwd + 2 && buf.chains[buf.lwd] == old(buf.chains[buf.lwd])
      && Room(buf.chains[buf.lwd]) + Room(buf.chains[buf.lwd + 1]) >= datlen
      && Room(buf.chains[buf.lwd + 1]) > 0
    ensures buf.lwd < |buf.pieces| && buf.pieces[..buf.lwd + 1] == old(buf.pieces)[..buf.lwd + 1]
    ensures r == -1 ==> |buf.pieces| == buf.lwd + 1
  {
    hide Rooted, Flatten, DataEndsAt, Objects;
    NukeTail(buf.pieces, buf.lwd);
    DerefSlot(buf, buf.lwd);
    var chain := Deref(buf, buf.lastWithDatap);
    SeparateFront(buf, buf.lwd + 1);
    var tmp := ChainNew(datlen - chain.SpaceLen(), buf.ample);
    if tmp == null {
      DropBehind(buf, chain);
      return -1;
    }
    SlotFront(buf.chains, buf.lwd, tmp);
    SingleList(tmp, []);
    Relink(buf, NextOf(chain), buf.lwd + 1, tmp, [tmp], [[]]);
    buf.last := tmp;
    return 0;
  }

  // The chains behind the last one with data are freed.
  method DropBehind(buf: EvBuffer, chain: Chain)
    requires buf.Valid() && buf.chains != [] && buf.pieces[buf.lwd] != [] && chain == buf.chains[buf.lwd]
    modifies buf`first, buf`last, buf`chains, buf`pieces, buf`store, buf.chains`next
    ensures buf.Valid() && fresh(buf.store - old(buf.store)) && buf.Contents() == old(buf.Contents())
    ensures buf.pieces == old(buf.pieces)[..buf.lwd + 1]
  {
    hide Rooted, Flatten, DataEndsAt, Objects;
    NukeTail(buf.pieces, buf.lwd);
    SlotFront(buf.chains, buf.lwd, chain);
    SeparateFront(buf, buf.lwd + 1);
    NilList();
    ghost var front, pieces := buf.chains[..buf.lwd + 1], buf.pieces[..buf.lwd + 1];
    Relink(buf, NextOf(chain), buf.lwd + 1, null, [], []);
    buf.last := chain;
    assert buf.chains == front && buf.pieces == pieces;
  }

  lemma SeparateFront(buf: EvBuffer, m: nat)
    requires Rooted(buf) && m <= |buf.chains|
    ensures Objects(buf.chains[..m]) <= buf.store
  {
    SlotInFront(buf.chains, m, []);
  }

  // The same when there is no data at all.
  method NukeAll(buf: EvBuffer, datlen: nat) returns (r: int)
    requires buf.Valid() && buf.chains != [] && buf.pieces[buf.lwd] == []
    modifies buf`first, buf`last, buf`lastWithDatap, buf`totalLen, buf`chains, buf`pieces, buf`lwd, buf`store, buf.chains`next
    ensures buf.Valid() && fresh(buf.store - old(buf.store)) && buf.Contents() == old(buf.Contents())
    ensures r == 0 || r == -1
    ensures buf.ample && datlen <= LARGEST ==> r == 0
    ensures r == 0 ==> |buf.chains| == 1 && buf.lwd == 0 && Room(buf.chains[0]) >= datlen && Room(buf.chains[0]) > 0
    ensures r == -1 ==> buf.chains == []
    ensures Compact(buf.pieces, buf.lwd)
  {
    hide Rooted, Flatten, DataEndsAt, Objects;
    NukeNothing(buf.pieces, buf.lwd);
    var tmp := ChainNew(datlen, buf.ample);
    if tmp == null {
      ZeroChain(buf);
      return -1;
    }
    SingleList(tmp, []);
    NilList();
    assert buf.chains[..0] == [] && buf.pieces[..0] == [];
    Relink(buf, Head, 0, tmp, [tmp], [[]]);
    assert buf.chains == [tmp] && buf.pieces == [[]];
    buf.last := tmp;
    buf.lastWithDatap := Head;
    return 0;
  }

  // Chains of moderate size were added to the list, if anything.
  ghost predicate Appended(was: seq<Chain>, now: seq<Chain>, size: nat)
  {
    was <= now && |now| <= |was| + 1 && forall i :: |was| <= i < |now| ==> now[i].buffer.Length <= 2 * size + MIN_BUFFER_SIZE
  }

  // evbuffer_expand_fast_: room for datlen bytes in at most n chains. Never copies or moves data.
  method ExpandFast(buf: EvBuffer, datlen: nat, n: nat) returns (r: int)
    requires buf.Valid() && n >= 2
    modifies buf`first, buf`last, buf`lastWithDatap, buf`totalLen, buf`chains, buf`pieces, buf`lwd, buf`store, buf.store
    ensures buf.Valid() && fresh(buf.store - old(buf.store)) && buf.Contents() == old(buf.Contents())
    ensures r == 0 || r == -1
    ensures r == 0 ==> HasRoom(buf, datlen, n) && Seated(buf)
    ensures buf.ample && datlen <= LARGEST ==> r == 0
    ensures old(Compact(buf.pieces, buf.lwd)) ==> Compact(buf.pieces, buf.lwd)
    ensures r == 0 && old(|buf.chains|) < n ==> Appended(old(buf.chains), buf.chains, datlen)
  {
    hide Rooted, Flatten, DataEndsAt, Objects, HasRoom, Sum, Rooms, FirstRoom;
    if buf.last == null {
      var chain := ChainNew(datlen, buf.ample);
      if chain == null {
        return -1;
      }
      ChainInsert(buf, chain, []);
      assert buf.chains == [chain];
      RoomInOne(buf, datlen, n);
      return 0;
    }
    var enough, used, avail := MeasureRoom(buf, datlen, n);
    if enough {
      return 0;
    }
    if used < n {
      r := AddRoom(buf, datlen, used, avail, n);
    } else {
      r := NukeEmpty(buf, datlen, n);
    }
  }

  // The loop has run off the chains before it came to n of them: one more is enough.
  method AddRoom(buf: EvBuffer, datlen: nat, used: nat, avail: nat, n: nat) returns (r: int)
    requires buf.Valid() && buf.chains != [] && avail < datlen && used < n && Seated(buf)
    requires FirstRoom(buf) + used == |buf.chains| && avail == Sum(Rooms(buf.chains[FirstRoom(buf)..]))
    requires forall c :: FirstRoom(buf) <= c < |buf.chains| ==> Room(buf.chains[c]) > 0
    modifies buf`first, buf`last, buf`chains, buf`pieces, buf`store, buf.chains`next
    ensures buf.Valid() && fresh(buf.store - old(buf.store)) && buf.Contents() == old(buf.Contents())
    ensures r == 0 || r == -1
    ensures r == 0 ==> HasRoom(buf, datlen, n) && Seated(buf)
    ensures buf.ample && datlen <= LARGEST ==> r == 0
    ensures old(Compact(buf.pieces, buf.lwd)) ==> Compact(buf.pieces, buf.lwd)
    ensures r == 0 ==> Appended(old(buf.chains), buf.chains, datlen)
  {
    hide Rooted, Flatten, DataEndsAt, Objects, HasRoom, Sum, Rooms, Compact;
    ghost var was, pieces, s := buf.chains, buf.pieces, FirstRoom(buf);
    label before:
    r := AddOneChain(buf, datlen - avail);
    if r == 0 {
      RoomsSame@before(was, s, |was|);
      assert was[s..|was|] == was[s..];
      assert forall c :: 0 <= c < |was| ==> buf.chains[c] == was[c];
      RoomAdded(buf, was, s, avail, datlen, n);
      CompactFront(pieces, buf.pieces, buf.lwd);
    }
  }

  // n chains do not have enough: all empty ones are replaced.
  method NukeEmpty(buf: EvBuffer, datlen: nat, n: nat) returns (r: int)
    requires buf.Valid() && buf.chains != [] && Room(buf.chains[buf.lwd]) <= datlen && n >= 2
    modifies buf`first, buf`last, buf`lastWithDatap, buf`totalLen, buf`chains, buf`pieces, buf`lwd, buf`store, buf.chains`next
    ensures buf.Valid() && fresh(buf.store - old(buf.store)) && buf.Contents() == old(buf.Contents())
    ensures r == 0 || r == -1
    ensures r == 0 ==> HasRoom(buf, datlen, n) && Seated(buf)
    ensures buf.ample && datlen <= LARGEST ==> r == 0
    ensures old(Compact(buf.pieces, buf.lwd)) ==> Compact(buf.pieces, buf.lwd)
  {
    hide Rooted, Flatten, DataEndsAt, Objects, HasRoom, Sum, Rooms, Compact;
    DerefSlot(buf, buf.lwd);
    var chain := Deref(buf, buf.lastWithDatap);
    if chain.off == 0 {
      r := NukeAll(buf, datlen);
      if r == 0 {
        RoomInOne(buf, datlen, n);
      }
    } else {
      ghost var pieces := buf.pieces;
      r := NukeBehind(buf, datlen);
      CompactFront(pieces, buf.pieces, buf.lwd);
      assert buf.pieces[..buf.lwd + 1][buf.lwd] == pieces[..buf.lwd + 1][buf.lwd];
      if r == 0 {
        RoomInTwo(buf, datlen, n);
      }
    }
  }

  lemma RoomInOne(buf: EvBuffer, datlen: nat, n: nat)
    requires |buf.chains| == 1 && buf.lwd == 0 && Room(buf.chains[0]) >= datlen && Room(buf.chains[0]) > 0 && n >= 2
    ensures HasRoom(buf, datlen, n)
  {
    NoRooms(buf.chains, 0);
    RoomsStep(buf.chains, 0, 0);
    assert RoomUpTo(buf, datlen, 1);
  }

  lemma RoomInTwo(buf: EvBuffer, datlen: nat, n: nat)
    requires |buf.chains| == buf.lwd + 2 && n >= 2
    requires Room(buf.chains[buf.lwd]) + Room(buf.chains[buf.lwd + 1]) >= datlen && Room(buf.chains[buf.lwd + 1]) > 0
    ensures HasRoom(buf, datlen, n)
  {
    var s := FirstRoom(buf);
    NoRooms(buf.chains, s);
    RoomsStep(buf.chains, s, s);
    if s == buf.lwd {
      RoomsStep(buf.chains, s, s + 1);
    }
    assert RoomUpTo(buf, datlen, buf.lwd + 2);
  }

  lemma RoomAdded(buf: EvBuffer, was: seq<Chain>, s: nat, avail: nat, datlen: nat, n: nat)
    requires buf.lwd < |was| && |buf.chains| == |was| + 1 && buf.chains[..|was|] == was
    requires s == FirstRoom(buf) && s <= |was| && |was| - s < n
    requires avail == Sum(Rooms(was[s..])) && avail + Room(buf.chains[|was|]) >= datlen
    requires forall c :: s <= c < |buf.chains| ==> Room(buf.chains[c]) > 0
    ensures HasRoom(buf, datlen, n)
  {
    RoomsStep(buf.chains, s, |was|);
    assert buf.chains[s..|was|] == was[s..];
    assert RoomUpTo(buf, datlen, |was| + 1);
  }

  // What comes behind the last piece with data does not matter.
  lemma CompactFront(a: seq<seq<byte>>, b: seq<seq<byte>>, lwd: nat)
    requires lwd < |a| && lwd < |b| && a[..lwd + 1] == b[..lwd + 1]
    ensures Compact(a, lwd) ==> Compact(b, lwd)
  {
    forall i | 0 <= i < lwd ensures a[i] == b[i] {
      assert a[i] == a[..lwd + 1][i];
      assert b[i] == b[..lwd + 1][i];
    }
  }
}
