/** The lifetime of server connections (BaseConMgr and SvrCon in src/listener.cc): a connection that is disconnected is
    taken out of the map at once and deleted later, by a timer. */
module ConMgr {

  const TWO_32: nat := 0x1_0000_0000

  // The id of the n-th connection that is made, at a given second: sec << 32 | seed
  function ConnectionId(sec: nat, n: nat): nat
  {
    sec % TWO_32 * TWO_32 + n % TWO_32
  }

  // Two connections get the same id exactly if they are made in the same second (of 2^32) and the number of
  // connections made in between is a multiple of 2^32.
  predicate Collide(sec: nat, n: nat, sec': nat, n': nat)
  {
    sec % TWO_32 == sec' % TWO_32 && (n' - n) % TWO_32 == 0
  }

  lemma IdsCollide(sec: nat, n: nat, sec': nat, n': nat)
    ensures ConnectionId(sec, n) == ConnectionId(sec', n') <==> Collide(sec, n, sec', n')
  {
    assert ConnectionId(sec, n) % TWO_32 == n % TWO_32 && ConnectionId(sec, n) / TWO_32 == sec % TWO_32;
    assert ConnectionId(sec', n') % TWO_32 == n' % TWO_32 && ConnectionId(sec', n') / TWO_32 == sec' % TWO_32;
    assert n == n / TWO_32 * TWO_32 + n % TWO_32 && n' == n' / TWO_32 * TWO_32 + n' % TWO_32;
    assert n' - n == (n' / TWO_32 - n / TWO_32) * TWO_32 + (n' % TWO_32 - n % TWO_32);
  }

  ghost predicate Collided(seconds: seq<nat>, numbers: seq<nat>)
    requires |seconds| == |numbers|
  {
    exists i, j :: 0 <= i < j < |seconds| && Collide(seconds[i], numbers[i], seconds[j], numbers[j])
  }

  // SvrCon
  class SvrCon {
    const id: nat

    constructor (id: nat)
      ensures this.id == id
    {
      this.id := id;
    }
  }

  // The static counter of the SvrCon constructor; count is how often it has been used.
  class Seed {
    var seed: nat
    ghost var count: nat

    ghost predicate Valid()
      reads this
    {
      seed == count % TWO_32
    }

    constructor ()
      ensures Valid()
    {
      seed, count := 0, 0;
    }
  }

  // Everything that was made is somewhere, and only in one place.
  ghost predicate Accounted(created: seq<SvrCon>, live: map<nat, SvrCon>, waiting: seq<SvrCon>, deleted: seq<SvrCon>,
                            lost: seq<SvrCon>)
  {
    && (forall i, j :: 0 <= i < j < |created| ==> created[i] != created[j])
    && multiset(created) == multiset(live.Values) + multiset(waiting) + multiset(deleted) + multiset(lost)
  }

  ghost predicate Keyed(live: map<nat, SvrCon>)
  {
    forall id :: id in live ==> live[id].id == id
  }

  // The ids that were given out.
  ghost predicate Numbered(created: seq<SvrCon>, seconds: seq<nat>, numbers: seq<nat>, count: nat)
    ensures Numbered(created, seconds, numbers, count) ==> |created| == |seconds| == |numbers|
  {
    && |created| == |seconds| == |numbers|
    && (forall i :: 0 <= i < |created| ==> created[i].id == ConnectionId(seconds[i], numbers[i]) && numbers[i] <= count)
    && (forall i, j :: 0 <= i < j < |created| ==> numbers[i] < numbers[j])
  }

  lemma NumberedNext(created: seq<SvrCon>, seconds: seq<nat>, numbers: seq<nat>, count: nat, p: SvrCon, now: nat)
    requires Numbered(created, seconds, numbers, count) && p.id == ConnectionId(now, count)
    requires forall i :: 0 <= i < |numbers| ==> numbers[i] < count
    ensures Numbered(created + [p], seconds + [now], numbers + [count], count)
  {
    hide ConnectionId;
  }

  lemma AccountedNext(created: seq<SvrCon>, live: map<nat, SvrCon>, waiting: seq<SvrCon>, deleted: seq<SvrCon>,
                      lost: seq<SvrCon>,
                      p: SvrCon)
    requires Accounted(created, live, waiting, deleted, lost) && p !in created && Keyed(live)
    ensures Accounted(created + [p], live[p.id := p], waiting, deleted, lost + if p.id in live then [live[p.id]] else [])
    ensures p.id in live ==> live[p.id] in created && live[p.id].id == p.id
    ensures Keyed(live[p.id := p])
  {
    var pushed := if p.id in live then [live[p.id]] else [];
    assert p !in multiset(created);
    assert p !in multiset(live.Values);
    if p.id in live {
      assert p.id in live.Keys && live[p.id] in live.Values;
      assert live[p.id] in multiset(created);
    }
    ValuesPut(live, p.id, p);
    Balance(multiset(created), multiset(live.Values), multiset(live[p.id := p].Values), multiset(waiting), multiset(deleted),
            multiset(lost), multiset(pushed), p);
  }

  // BaseConMgr
  class Manager {
    const ids: Seed
    var live: map<nat, SvrCon>
    var waiting: seq<SvrCon>
    // everything that was ever made, with the second and the number of its making, ...
    ghost var created: seq<SvrCon>
    ghost var seconds: seq<nat>
    ghost var numbers: seq<nat>
    // ... what DelConnect was called for, and what was pushed out of the map by a connection with the same id
    ghost var deleted: seq<SvrCon>
    ghost var lost: seq<SvrCon>

    constructor (ids: Seed)
      requires ids.Valid()
      ensures Valid() && created == [] && this.ids == ids
    {
      this.ids := ids;
      live, waiting, created, seconds, numbers, deleted, lost := map[], [], [], [], [], [], [];
    }

    ghost predicate Valid()
      reads this, ids
    {
      && ids.Valid()
      && Accounted(created, live, waiting, deleted, lost)
      && Keyed(live)
      && Numbered(created, seconds, numbers, ids.count)
      && (lost != [] ==> Collision())
    }

    // Two of the connections that were made have the same id.
    ghost predicate Collision()
      requires |created| == |seconds| == |numbers|
      reads this
    {
      Collided(seconds, numbers)
    }

    // Every connection that was made is in exactly one place, and DelConnect was called for it at most once. None is
    // lost unless two creations that share a second are a multiple of 2^32 creations apart.
    lemma ExactlyOnePlace(con: SvrCon)
      requires Valid() && con in created
      ensures (if con in live.Values then 1 else 0) + multiset(waiting)[con] + multiset(deleted)[con] + multiset(lost)[con] == 1
      ensures !Collision() ==> lost == []
    {
      var i :| 0 <= i < |created| && created[i] == con;
      assert created == created[..i] + [con] + created[i + 1..];
      assert con !in created[..i] && con !in created[i + 1..];
      assert multiset(created)[con] == 1;
    }

    // BaseConMgr::CreateConnectForListener; made says whether NewConnect makes a connection.
    method Create(now: nat, made: bool) returns (p: SvrCon?)
      requires Valid()
      modifies this, ids
      ensures Valid() && deleted == old(deleted) && waiting == old(waiting)
      ensures !made ==> p == null && unchanged(this) && unchanged(ids)
      ensures made ==> ids.seed == (old(ids.seed) + 1) % 0x1_0000_0000 && p != null && p.id == now % 0x1_0000_0000 * 0x1_0000_0000 + ids.seed
      ensures made ==>
        && p != null && fresh(p) && live == old(live)[p.id := p] && created == old(created) + [p]
        && lost == old(lost) + if p.id in old(live) then [old(live)[p.id]] else []
    {
      if !made {
        return null;
      }
      ids.seed := (ids.seed + 1) % TWO_32;
      ids.count := ids.count + 1;
      p := new SvrCon(now % TWO_32 * TWO_32 + ids.seed);
      Register(p, now);
    }

    // m_all_connector[p->GetId()] = p
    method Register(p: SvrCon, ghost now: nat)
      requires Valid() && p !in created && p.id == ConnectionId(now, ids.count)
      requires forall i :: 0 <= i < |created| ==> numbers[i] < ids.count
      modifies this`live, this`created, this`seconds, this`numbers, this`lost
      ensures Valid() && live == old(live)[p.id := p] && created == old(created) + [p]
      ensures lost == old(lost) + if p.id in old(live) then [old(live)[p.id]] else []
    {
      hide Collide, ConnectionId, Accounted, Numbered, Collided, Keyed;
      if lost != [] {
        CollisionKept(now, ids.count);
      }
      AccountedNext(created, live, waiting, deleted, lost, p);
      NumberedNext(created, seconds, numbers, ids.count, p, now);
      created, seconds, numbers := created + [p], seconds + [now], numbers + [ids.count];
      if p.id in live {
        assert created[..|created| - 1] == old(created);
        Pushed(p);
      }
      lost := lost + if p.id in live then [live[p.id]] else [];
      live := live[p.id := p];
    }

    // A collision stays one whatever is made later.
    lemma CollisionKept(now: nat, n: nat)
      requires |created| == |seconds| == |numbers| && Collision()
      ensures Collided(seconds + [now], numbers + [n])
    {
      var i, j :| 0 <= i < j < |created| && Collide(seconds[i], numbers[i], seconds[j], numbers[j]);
      assert Collide((seconds + [now])[i], (numbers + [n])[i], (seconds + [now])[j], (numbers + [n])[j]);
    }

    // The connection that p pushes out has the same id.
    lemma Pushed(p: SvrCon)
      requires p.id in live && live[p.id].id == p.id && Numbered(created, seconds, numbers, ids.count) && created != []
      requires created[|created| - 1] == p && live[p.id] in created[..|created| - 1]
      ensures Collision()
    {
      var q, last := live[p.id], |created| - 1;
      var i :| 0 <= i < last && created[..last][i] == q;
      IdsCollide(seconds[i], numbers[i], seconds[last], numbers[last]);
    }

    // BaseConMgr::PostDelConn
    method PostDelConn(id: nat) returns (found: bool)
      requires Valid()
      modifies this`live, this`waiting
      ensures Valid() && found == (id in old(live))
      ensures found ==> live == old(live) - {id} && waiting == old(waiting) + [old(live)[id]]
      ensures !found ==> live == old(live) && waiting == old(waiting)
    {
      if id !in live {
        return false;
      }
      var p := live[id];
      ValuesTaken(live, id);
      live := live - {id};
      waiting := waiting + [p];
      return true;
    }

    // BaseConMgr::FindConn
    method FindConn(id: nat) returns (con: SvrCon?)
      requires Valid()
      ensures con != null <==> id in live
      ensures con != null ==> con == live[id] && con.id == id && con !in waiting && con !in deleted
    {
      if id !in live {
        return null;
      }
      con := live[id];
      assert id in live.Keys && con in live.Values;
      assert con in multiset(created);
      ExactlyOnePlace(con);
    }

    // SvrCon::DisConnect. When the connection has a socket, ConCom::DisConnect closes it and calls OnDisconnected; the
    // second PostDelConn then finds nothing, and this is what the result says.
    method DisConnect(con: SvrCon, connected: bool) returns (found: bool)
      requires Valid()
      modifies this`live, this`waiting
      ensures Valid() && con.id !in live
      ensures live == old(live) - {con.id} && waiting == old(waiting) + if con.id in old(live) then [old(live)[con.id]] else []
      ensures found <==> !connected && con.id in old(live)
    {
      if connected {
        var _ := PostDelConn(con.id);
      }
      found := PostDelConn(con.id);
    }

    // BaseConMgr::OnTimerDelConn: DelConnect for everything that waits.
    method OnTimerDelConn()
      requires Valid()
      modifies this`waiting, this`deleted
      ensures Valid() && waiting == [] && deleted == old(deleted) + old(waiting)
    {
      ghost var before := deleted;
      var i := 0;
      while i < |waiting|
        invariant 0 <= i <= |waiting| && waiting == old(waiting) && deleted == before + waiting[..i]
      {
        deleted := deleted + [waiting[i]];
        i := i + 1;
      }
      assert waiting[..i] == waiting;
      waiting := [];
    }

    // What the callback of Foreach may do: make and disconnect connections and post deletes, in any order. Only the
    // timer deletes.
    method UserCode()
      requires Valid()
      modifies this, ids
      ensures Valid() && deleted == old(deleted)
    {
      var steps: nat := *;
      while steps > 0
        invariant Valid() && deleted == old(deleted)
      {
        var id: nat := *;
        if * {
          var now: nat, made: bool := *, *;
          var con := Create(now, made);
        } else if id in live {
          var connected: bool := *;
          var found := DisConnect(live[id], connected);
        } else {
          var found := PostDelConn(id);
        }
        steps := steps - 1;
      }
    }

    // The connections of the map, in some order.
    method Snapshot() returns (cons: seq<SvrCon>)
      requires Valid()
      ensures multiset(cons) == multiset(live.Values)
    {
      cons := [];
      var rest := live;
      while rest != map[]
        invariant rest.Keys <= live.Keys && forall id :: id in rest ==> rest[id] == live[id]
        invariant multiset(cons) + multiset(rest.Values) == multiset(live.Values)
        decreases |rest|
      {
        var id :| id in rest;
        ValuesTaken(rest, id);
        cons := cons + [rest[id]];
        rest := rest - {id};
      }
      assert rest.Values == {};
    }

    // BaseConMgr::Foreach: the callback gets every connection that was in the map when it began, once, and never one
    // that has been deleted, whatever the callbacks do.
    method Foreach() returns (ghost called: seq<SvrCon>)
      requires Valid()
      modifies this, ids
      ensures Valid() && deleted == old(deleted)
      ensures multiset(called) == multiset(old(live.Values))
      ensures forall c :: c in called ==> c in old(created) && c !in deleted
    {
      hide Collided, Collide, ConnectionId;
      var tmp := Snapshot();
      called := [];
      var i := 0;
      Undeleted(tmp);
      while i < |tmp|
        invariant 0 <= i <= |tmp| && called == tmp[..i] && Valid() && deleted == old(deleted)
      {
        // the callback is not handed a deleted connection
        assert tmp[i] !in deleted;
        called := called + [tmp[i]];
        UserCode();
        i := i + 1;
      }
      assert tmp[..i] == tmp;
    }

    lemma Undeleted(tmp: seq<SvrCon>)
      requires Valid() && multiset(tmp) == multiset(live.Values)
      ensures forall c :: c in tmp ==> c in created && c !in deleted
    {
      forall c | c in tmp ensures c in created && c !in deleted {
        assert c in multiset(tmp) && c in multiset(created);
        ExactlyOnePlace(c);
      }
    }
  }

  // Taking an entry out of the map takes one connection out of its values.
  lemma ValuesTaken(m: map<nat, SvrCon>, id: nat)
    requires id in m && forall k :: k in m ==> m[k].id == k
    ensures multiset(m.Values) == multiset((m - {id}).Values) + multiset{m[id]}
  {
    var rest := m - {id};
    assert m[id] !in rest.Values;
    assert m.Values == rest.Values + {m[id]} by {
      forall v | v in m.Values ensures v in rest.Values + {m[id]} {
        var k :| k in m && m[k] == v;
        if k != id {
          assert k in rest && rest[k] == v;
        }
      }
      forall v | v in rest.Values ensures v in m.Values {
        var k :| k in rest && rest[k] == v;
        assert k in m && m[k] == v;
      }
      assert id in m.Keys;
    }
  }

  lemma ValuesPut(m: map<nat, SvrCon>, id: nat, p: SvrCon)
    requires p.id == id && p !in m.Values && forall k :: k in m ==> m[k].id == k
    ensures multiset(m[id := p].Values) + (if id in m then multiset{m[id]} else multiset{}) == multiset(m.Values) + multiset{p}
  {
    var m' := m[id := p];
    assert m' - {id} == m - {id};
    ValuesTaken(m', id);
    if id in m {
      ValuesTaken(m, id);
    } else {
      assert m - {id} == m;
    }
  }

  lemma Balance(c: multiset<SvrCon>, l: multiset<SvrCon>, l': multiset<SvrCon>, w: multiset<SvrCon>, d: multiset<SvrCon>,
                o: multiset<SvrCon>, x: multiset<SvrCon>, p: SvrCon)
    requires c == l + w + d + o && l' + x == l + multiset{p}
    ensures c + multiset{p} == l' + w + d + (o + x)
  {
    assert c + multiset{p} == (l + multiset{p}) + w + d + o;
    assert (l' + x) + w + d + o == l' + w + d + (o + x);
  }
}
