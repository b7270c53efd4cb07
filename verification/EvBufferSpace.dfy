/** Handing out free space and committing it: evbuffer_read_setup_vecs_, evbuffer_reserve_space,
    evbuffer_commit_space. */
module EvBufferSpace {
  import opened Bytes
  import opened EvBufferCore
  import opened EvBufferDrain
  import opened EvBufferExpand
  import opened EvBufferExpandFast
  import opened EvBufferTransfer

  // struct evbuffer_iovec
  datatype Vec = Vec(base: Pointer, len: nat)

  // CHAIN_SPACE_PTR
  function SpacePtr(c: Chain): Pointer
    reads c
  {
    At(c.buffer, c.misalign + c.off)
  }

  // vecs are free space of the chains from s on, in order.
  ghost predicate Offered(buf: EvBuffer, s: nat, vecs: seq<Vec>)
    reads buf`chains, buf.chains
  {
    && s + |vecs| <= |buf.chains|
    && forall i :: 0 <= i < |vecs| ==> vecs[i].base == SpacePtr(buf.chains[s + i]) && vecs[i].len <= Room(buf.chains[s + i])
  }

  function Lens(vecs: seq<Vec>): (ls: seq<nat>)
    ensures |ls| == |vecs| && forall i :: 0 <= i < |vecs| ==> ls[i] == vecs[i].len
  {
    seq(|vecs|, i requires 0 <= i < |vecs| => vecs[i].len)
  }

  lemma LensSnoc(vecs: seq<Vec>, v: Vec)
    ensures Sum(Lens(vecs + [v])) == Sum(Lens(vecs)) + v.len
  {
    assert Lens(vecs + [v]) == Lens(vecs) + [v.len];
    SumSnoc(Lens(vecs), v.len);
  }

  // The slot of the first chain with room.
  method FirstRoomSlot(buf: EvBuffer) returns (slot: Slot)
    requires buf.Valid() && buf.chains != []
    ensures slot == SlotAt(buf.chains, FirstRoom(buf))
  {
    hide Rooted, Flatten, DataEndsAt;
    slot := buf.lastWithDatap;
    DerefSlot(buf, buf.lwd);
    var chain := Deref(buf, slot);
    if chain.SpaceLen() == 0 {
      slot := NextOf(chain);
    }
  }

  // vecs are all the room of chains that setup_vecs has come across, except that exact mode clips the last one.
  ghost predicate Gathered(buf: EvBuffer, vecs: seq<Vec>, soFar: nat, howmuch: nat, exact: bool)
    requires buf.chains != [] ==> buf.lwd < |buf.chains|
    reads buf`chains, buf`lwd, buf.chains
  {
    var s := FirstRoom(buf);
    && Offered(buf, s, vecs) && soFar == Sum(Lens(vecs)) && (exact ==> soFar <= howmuch)
    && (soFar < howmuch ==> soFar == Sum(Rooms(buf.chains[s..s + |vecs|])))
    && (forall i :: 0 <= i < |vecs| ==>
          vecs[i].len == Room(buf.chains[s + i]) || (exact && i == |vecs| - 1 && soFar >= howmuch))
  }

  lemma GatherStart(buf: EvBuffer, howmuch: nat, n: nat, exact: bool)
    requires HasRoom(buf, howmuch, n)
    ensures Gathered(buf, [], 0, howmuch, exact) && FirstRoom(buf) <= |buf.chains|
  {
    var m: nat :| RoomUpTo(buf, howmuch, m) && m <= FirstRoom(buf) + n;
    NoRooms(buf.chains, FirstRoom(buf));
  }

  ghost predicate Filled(vecs: seq<Vec>)
  {
    forall i :: 0 <= i < |vecs| ==> vecs[i].len > 0
  }

  // Chains that do not have enough room are fewer than those that do.
  lemma NotEnough(buf: EvBuffer, size: nat, n: nat, i: nat)
    requires HasRoom(buf, size, n) && FirstRoom(buf) + i <= |buf.chains|
    requires Sum(Rooms(buf.chains[FirstRoom(buf)..FirstRoom(buf) + i])) < size
    ensures i < n && FirstRoom(buf) + i < |buf.chains| && Room(buf.chains[FirstRoom(buf) + i]) > 0
  {
    hide Sum, Rooms;
    var m: nat :| RoomUpTo(buf, size, m) && m <= FirstRoom(buf) + n;
    if m <= FirstRoom(buf) + i {
      RoomsMore(buf.chains, FirstRoom(buf), m, FirstRoom(buf) + i);
    }
  }

  // As long as there is not enough there is another chain; its room, clipped in exact mode, is the next vec.
  lemma GatherStep(buf: EvBuffer, vecs: seq<Vec>, soFar: nat, howmuch: nat, n: nat, exact: bool)
    requires HasRoom(buf, howmuch, n) && Gathered(buf, vecs, soFar, howmuch, exact) && |vecs| <= n && soFar < howmuch
    ensures |vecs| < n && FirstRoom(buf) + |vecs| < |buf.chains| && Room(buf.chains[FirstRoom(buf) + |vecs|]) > 0
    ensures var chain := buf.chains[FirstRoom(buf) + |vecs|];
      var avail := if exact && Room(chain) > howmuch - soFar then howmuch - soFar else Room(chain);
      Gathered(buf, vecs + [Vec(SpacePtr(chain), avail)], soFar + avail, howmuch, exact)
  {
    hide Sum, Rooms, Lens, FirstRoom, Room, HasRoom;
    HasChains(buf, howmuch, n);
    var s, i := FirstRoom(buf), |vecs|;
    NotEnough(buf, howmuch, n, i);
    RoomsStep(buf.chains, s, s + i);
    var chain := buf.chains[s + i];
    var avail := if exact && Room(chain) > howmuch - soFar then howmuch - soFar else Room(chain);
    LensSnoc(vecs, Vec(SpacePtr(chain), avail));
  }

  // evbuffer_read_setup_vecs_: at most n regions that together have room for howmuch bytes.
  method SetupVecs(buf: EvBuffer, howmuch: int, n: nat, exact: bool) returns (r: int, vecs: seq<Vec>, chainp: Slot)
    requires buf.Valid() && (howmuch >= 0 ==> HasRoom(buf, howmuch, n))
    ensures buf.Valid() && buf.Contents() == old(buf.Contents())
    ensures howmuch < 0 ==> r == -1 && vecs == []
    ensures howmuch >= 0 ==>
      && r == |vecs| <= n && chainp == SlotAt(buf.chains, FirstRoom(buf)) && FirstRoom(buf) <= |buf.chains|
      && Sum(Lens(vecs)) >= howmuch && Gathered(buf, vecs, Sum(Lens(vecs)), howmuch, exact)
      && Filled(vecs)
  {
    hide Rooted, Flatten, DataEndsAt, HasRoom, Gathered, FirstRoom, Lens, Sum, SlotAt;
    vecs := [];
    chainp := Head;
    if howmuch < 0 {
      return -1, [], Head;
    }
    var soFar: nat := 0;
    GatherStart(buf, howmuch, n, exact);
    HasChains(buf, howmuch, n);
    chainp := FirstRoomSlot(buf);
    DerefSlot(buf, FirstRoom(buf));
    var chain := Deref(buf, chainp);
    while |vecs| < n && soFar < howmuch
      invariant buf.Valid() && buf.chains != [] && |vecs| <= n && FirstRoom(buf) + |vecs| <= |buf.chains|
      invariant chain == ChainAt(buf.chains, FirstRoom(buf) + |vecs|) && Gathered(buf, vecs, soFar, howmuch, exact)
      invariant Filled(vecs)
      decreases n - |vecs|
    {
      GatherStep(buf, vecs, soFar, howmuch, n, exact);
      NextChain(buf, FirstRoom(buf) + |vecs|);
      var avail := chain.SpaceLen();
      if avail > howmuch - soFar && exact {
        avail := howmuch - soFar;
      }
      vecs := vecs + [Vec(SpacePtr(chain), avail)];
      soFar := soFar + avail;
      chain := chain.next;
    }
    if soFar < howmuch {
      GatherStep(buf, vecs, soFar, howmuch, n, exact);
    }
    GatheredSum(buf, vecs, soFar, howmuch, exact);
    r := |vecs|;
  }

  lemma HasChains(buf: EvBuffer, howmuch: nat, n: nat)
    requires HasRoom(buf, howmuch, n)
    ensures buf.lwd < |buf.chains|
  {
  }

  lemma GatheredSum(buf: EvBuffer, vecs: seq<Vec>, soFar: nat, howmuch: nat, exact: bool)
    requires buf.lwd < |buf.chains| && Gathered(buf, vecs, soFar, howmuch, exact)
    ensures soFar == Sum(Lens(vecs))
  {
  }
}
