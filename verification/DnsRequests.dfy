/** The index of DNS requests (evdns.c): a hash table of circular lists, keyed by transaction id. */
module DnsRequests {

  // The transaction id of a request that is not in flight.
  const NO_ID: nat := 0xffff
  // What the option max-inflight is clipped to.
  const MAX_INFLIGHT: nat := 65000

  // struct request
  class Request {
    var next: Request?
    var prev: Request?
    var transId: nat
    var ns: Nameserver?
    var txCount: nat
    var transmitMe: bool

    // request_new: not in any list yet
    constructor (transId: nat, ns: Nameserver?)
      ensures this.transId == transId && this.ns == ns && next == null && prev == null && txCount == 0 && !transmitMe
    {
      next, prev, this.transId, this.ns, txCount, transmitMe := null, null, transId, ns, 0, false;
    }
  }

  // struct nameserver
  class Nameserver {
    var up: bool
    var requestsInflight: int

    constructor ()
      ensures up && requestsInflight == 0
    {
      up, requestsInflight := true, 0;
    }
  }

  ghost predicate NoDup(rs: seq<Request>)
  {
    forall i, j :: 0 <= i < j < |rs| ==> rs[i] != rs[j]
  }

  ghost function After(n: nat, k: nat): (r: nat)
    requires k < n
    ensures r < n
  {
    if k + 1 < n then k + 1 else 0
  }

  ghost function Before(n: nat, k: nat): (r: nat)
    requires k < n
    ensures r < n
  {
    if k > 0 then k - 1 else n - 1
  }

  // head leads round a circular doubly-linked list of exactly these requests.
  ghost predicate Ring(head: Request?, rs: seq<Request>)
    reads rs`next, rs`prev
  {
    && NoDup(rs)
    && head == (if rs == [] then null else rs[0])
    && (forall i {:trigger rs[i].next} :: 0 <= i < |rs| ==> rs[i].next == rs[After(|rs|, i)])
    && (forall i {:trigger rs[i].prev} :: 0 <= i < |rs| ==> rs[i].prev == rs[Before(|rs|, i)])
  }

  // evdns_request_insert: at the tail. The result is the new head.
  method Insert(req: Request, head: Request?, ghost rs: seq<Request>) returns (newHead: Request)
    requires Ring(head, rs) && req !in rs
    modifies req`next, req`prev, rs`next, rs`prev
    ensures Ring(newHead, rs + [req])
  {
    if head == null {
      req.next, req.prev := req, req;
      assert rs + [req] == [req];
      return req;
    }
    assert head == rs[0];
    var last := head.prev;
    assert last == rs[|rs| - 1];
    req.prev := last;
    last.next := req;
    req.next := head;
    head.prev := req;
    ghost var all := rs + [req];
    forall i {:trigger all[i].next} | 0 <= i < |all| ensures all[i].next == all[After(|all|, i)] {
      assert i < |rs| ==> all[i] == rs[i];
    }
    forall i {:trigger all[i].prev} | 0 <= i < |all| ensures all[i].prev == all[Before(|all|, i)] {
      assert i < |rs| ==> all[i] == rs[i];
    }
    return head;
  }

  // Where entry i of a list without entry k was before.
  ghost function Skip(k: nat, i: nat): nat { if i < k then i else i + 1 }

  lemma SkipAround(n: nat, k: nat, i: nat)
    requires k < n && i < n - 1
    ensures var j := Skip(k, i);
      && j < n && j != k
      && Skip(k, After(n - 1, i)) == (if j == Before(n, k) then After(n, k) else After(n, j))
      && Skip(k, Before(n - 1, i)) == (if j == After(n, k) then Before(n, k) else Before(n, j))
  {
  }

  // The neighbours of request k now point to each other.
  twostate lemma Unlinked(new rs: seq<Request>, new k: nat, new head: Request)
    requires old(allocated(rs)) && old(allocated(head)) && k < |rs| && |rs| > 1 && old(Ring(head, rs))
    requires forall i {:trigger rs[i].next} :: 0 <= i < |rs| && i != k ==>
      rs[i].next == (if i == Before(|rs|, k) then rs[After(|rs|, k)] else old(rs[i].next))
    requires forall i {:trigger rs[i].prev} :: 0 <= i < |rs| && i != k ==>
      rs[i].prev == (if i == After(|rs|, k) then rs[Before(|rs|, k)] else old(rs[i].prev))
    ensures Ring(if k == 0 then rs[1] else head, rs[..k] + rs[k + 1..])
  {
    var left := rs[..k] + rs[k + 1..];
    hide After, Before, Skip;
    forall i | 0 <= i < |left|
      ensures left[i].next == left[After(|left|, i)] && left[i].prev == left[Before(|left|, i)]
    {
      var j := Skip(k, i);
      SkipAround(|rs|, k, i);
      assert old(rs[j].next) == rs[After(|rs|, j)] && old(rs[j].prev) == rs[Before(|rs|, j)];
      LeftAt(rs, k, i);
      LeftAt(rs, k, After(|left|, i));
      LeftAt(rs, k, Before(|left|, i));
    }
  }

  lemma LeftAt(rs: seq<Request>, k: nat, i: nat)
    requires k < |rs| && i < |rs| - 1
    ensures Skip(k, i) < |rs| && (rs[..k] + rs[k + 1..])[i] == rs[Skip(k, i)]
  {
  }

  // evdns_request_remove. The result is the new head.
  method Remove(req: Request, head: Request?, ghost rs: seq<Request>, ghost k: nat) returns (newHead: Request?)
    requires Ring(head, rs) && k < |rs| && req == rs[k]
    modifies rs`next, rs`prev
    ensures Ring(newHead, rs[..k] + rs[k + 1..]) && req.next == null && req.prev == null
  {
    assert req.next == rs[After(|rs|, k)] && req.prev == rs[Before(|rs|, k)];
    newHead := head;
    if req.next == req {
      assert |rs| == 1;
      newHead := null;
      req.next, req.prev := null, null;
    } else {
      req.next.prev := req.prev;
      req.prev.next := req.next;
      if head == req {
        newHead := req.next;
      }
      req.next, req.prev := null, null;
      Unlinked(rs, k, head);
    }
  }

  // Every request of the set is in the list of its transaction id, and nothing else is.
  ghost predicate Placed(qs: seq<seq<Request>>, members: set<Request>)
    reads members`transId
  {
    && |qs| > 0
    && (forall b, i :: 0 <= b < |qs| && 0 <= i < |qs[b]| ==> qs[b][i] in members && qs[b][i].transId % |qs| == b)
    && (forall r :: r in members ==> r in qs[r.transId % |qs|])
  }

  // A hash table of circular lists that holds exactly these requests.
  ghost predicate Table(heads: array<Request?>, qs: seq<seq<Request>>, members: set<Request>)
    reads heads, members`transId, members`next, members`prev
  {
    && Placed(qs, members) && heads.Length == |qs| > 0
    && (forall b :: 0 <= b < |qs| ==> Ring(heads[b], qs[b]))
  }

  lemma PlacedWith(qs: seq<seq<Request>>, members: set<Request>, req: Request)
    requires Placed(qs, members)
    ensures var b := req.transId % |qs|; Placed(qs[b := qs[b] + [req]], members + {req})
  {
    var b := req.transId % |qs|;
    var after := qs[b := qs[b] + [req]];
    forall r | r in members + {req} ensures r in after[r.transId % |qs|] {
      if r in members {
        assert r in qs[r.transId % |qs|];
      } else {
        assert after[b][|qs[b]|] == req;
      }
    }
  }

  lemma PlacedWithout(qs: seq<seq<Request>>, members: set<Request>, req: Request, k: nat)
    requires Placed(qs, members)
    requires var b := req.transId % |qs|; k < |qs[b]| && qs[b][k] == req && NoDup(qs[b])
    ensures var b := req.transId % |qs|; Placed(qs[b := qs[b][..k] + qs[b][k + 1..]], members - {req})
  {
    var b := req.transId % |qs|;
    var q := qs[b];
    var left := q[..k] + q[k + 1..];
    var after := qs[b := left];
    forall c, i | 0 <= c < |after| && 0 <= i < |after[c]|
      ensures after[c][i] in members - {req} && after[c][i].transId % |after| == c
    {
      if c == b {
        assert left[i] == q[Skip(k, i)];
      } else {
        assert after[c][i] == qs[c][i] && qs[c][i].transId % |qs| == c;
      }
    }
    forall r | r in members - {req} ensures r in after[r.transId % |qs|] {
      var j :| 0 <= j < |qs[r.transId % |qs|]| && qs[r.transId % |qs|][j] == r;
      if r.transId % |qs| == b {
        assert left[if j < k then j else j - 1] == r;
      }
    }
  }

  // evdns_request_insert(req, &REQ_HEAD(base, req->trans_id))
  method InsertHashed(req: Request, heads: array<Request?>, ghost qs: seq<seq<Request>>, ghost members: set<Request>)
    requires Table(heads, qs, members) && req !in members
    modifies heads, req`next, req`prev, members`next, members`prev
    ensures var b := req.transId % |qs|; Table(heads, qs[b := qs[b] + [req]], members + {req})
  {
    hide Ring, Placed, NoDup;
    var b := req.transId % heads.Length;
    PlacedWith(qs, members, req);
    RingsApart(qs, members, b);
    heads[b] := Insert(req, heads[b], qs[b]);
  }

  lemma RingsApart(qs: seq<seq<Request>>, members: set<Request>, b: nat)
    requires Placed(qs, members) && b < |qs|
    ensures forall c, i :: 0 <= c < |qs| && c != b && 0 <= i < |qs[c]| ==> qs[c][i] !in qs[b]
    ensures forall c, i :: 0 <= c < |qs| && 0 <= i < |qs[c]| ==> qs[c][i] in members
  {
  }

  lemma RingDistinct(head: Request?, rs: seq<Request>)
    requires Ring(head, rs)
    ensures NoDup(rs)
  {
  }

  // evdns_request_remove(req, &REQ_HEAD(base, req->trans_id))
  method RemoveHashed(req: Request, heads: array<Request?>, ghost qs: seq<seq<Request>>, ghost members: set<Request>,
                      ghost k: nat)
    requires Table(heads, qs, members) && req in members
    requires var b := req.transId % |qs|; k < |qs[b]| && qs[b][k] == req
    modifies heads, members`next, members`prev
    ensures var b := req.transId % |qs|; Table(heads, qs[b := qs[b][..k] + qs[b][k + 1..]], members - {req})
  {
    hide Ring, Placed, NoDup;
    var b := req.transId % heads.Length;
    RingDistinct(heads[b], qs[b]);
    PlacedWithout(qs, members, req, k);
    RingsApart(qs, members, b);
    heads[b] := Remove(req, heads[b], qs[b], k);
  }

  // request_find_from_trans_id: the first request with this id from the head of its list on, if there is one.
  method FindHashed(id: nat, heads: array<Request?>, ghost qs: seq<seq<Request>>, ghost members: set<Request>)
    returns (found: Request?)
    requires Table(heads, qs, members)
    ensures found == null <==> forall r :: r in members ==> r.transId != id
    ensures found != null ==> found in members && found.transId == id
    ensures found != null ==>
      var q := qs[id % |qs|]; exists k :: 0 <= k < |q| && q[k] == found && forall j :: 0 <= j < k ==> q[j].transId != id
  {
    var startedAt := heads[id % heads.Length];
    ghost var q := qs[id % |qs|];
    assert Ring(startedAt, q);
    if startedAt == null {
      return null;
    }
    var req := startedAt;
    ghost var k: nat := 0;
    while true
      invariant k < |q| && req == q[k] && forall j :: 0 <= j < k ==> q[j].transId != id
      decreases |q| - k
    {
      if req.transId == id {
        return req;
      }
      assert q[k].next == q[After(|q|, k)];
      req := req.next;
      if req == startedAt {
        assert k == |q| - 1;
        return null;
      }
      k := k + 1;
    }
  }

  // The body of the loop that moves one request to the new table.
  method Rehang(i: nat, oldHeads: array<Request?>, ghost src: seq<seq<Request>>, ghost left: set<Request>,
                heads: array<Request?>, ghost qs: seq<seq<Request>>, ghost moved: set<Request>) returns (req: Request)
    requires oldHeads != heads && i < oldHeads.Length && oldHeads[i] != null
    requires Table(oldHeads, src, left) && Table(heads, qs, moved) && left !! moved
    modifies oldHeads, heads, left`next, left`prev, moved`next, moved`prev
    ensures i < |src| && |src[i]| > 0 && req == src[i][0] && req in left
    ensures Table(oldHeads, src[i := src[i][1..]], left - {req})
    ensures |qs| > 0 && var b := req.transId % |qs|; Table(heads, qs[b := qs[b] + [req]], moved + {req})
  {
    hide Ring, Placed, NoDup;
    EmptyRing(oldHeads, src, left, i);
    req := oldHeads[i];
    assert src[i][..0] + src[i][1..] == src[i][1..];
    RemoveHashed(req, oldHeads, src, left, 0);
    InsertHashed(req, heads, qs, moved);
  }

  lemma NothingLeft(qs: seq<seq<Request>>, members: set<Request>)
    requires Placed(qs, members) && forall c :: 0 <= c < |qs| ==> qs[c] == []
    ensures members == {}
  {
    assert forall r :: r in members ==> r in qs[r.transId % |qs|];
  }

  lemma EmptyTable(heads: array<Request?>, qs: seq<seq<Request>>)
    requires heads.Length == |qs| > 0
    requires forall c :: 0 <= c < |qs| ==> heads[c] == null && qs[c] == []
    ensures Table(heads, qs, {})
  {
  }

  lemma EmptyRing(heads: array<Request?>, qs: seq<seq<Request>>, members: set<Request>, i: nat)
    requires Table(heads, qs, members) && i < |qs|
    ensures heads[i] == null <==> qs[i] == []
    ensures qs[i] != [] ==> heads[i] == qs[i][0] && qs[i][0] in members && qs[i][0].transId % |qs| == i
  {
    assert Ring(heads[i], qs[i]);
  }

  // The loops of evdns_base_set_max_requests_inflight.
  method Rehash(oldHeads: array<Request?>, ghost oldQs: seq<seq<Request>>, ghost members: set<Request>, n: nat)
    returns (heads: array<Request?>, ghost qs: seq<seq<Request>>)
    requires Table(oldHeads, oldQs, members) && n > 0
    modifies oldHeads, members`next, members`prev
    ensures fresh(heads) && |qs| == n && Table(heads, qs, members)
  {
    hide Ring, Placed, NoDup;
    heads := new Request?[n](_ => null);
    qs := seq(n, _ => []);
    ghost var src, left, moved := oldQs, members, {};
    EmptyTable(heads, qs);
    var i := 0;
    while i < oldHeads.Length
      invariant i <= oldHeads.Length == |src| && fresh(heads) && |qs| == n
      invariant Table(oldHeads, src, left) && Table(heads, qs, moved) && left !! moved && left + moved == members
      invariant forall c :: 0 <= c < i ==> src[c] == []
    {
      while oldHeads[i] != null
        invariant |src| == oldHeads.Length && fresh(heads) && |qs| == n
        invariant Table(oldHeads, src, left) && Table(heads, qs, moved) && left !! moved && left + moved == members
        invariant forall c :: 0 <= c < i ==> src[c] == []
        decreases |src[i]|
      {
        var req := Rehang(i, oldHeads, src, left, heads, qs, moved);
        src, left := src[i := src[i][1..]], left - {req};
        qs, moved := qs[req.transId % n := qs[req.transId % n] + [req]], moved + {req};
      }
      EmptyRing(oldHeads, src, left, i);
      i := i + 1;
    }
    NothingLeft(src, left);
    assert moved == members;
  }

  // The requests of a set that are assigned to a server.
  ghost function AssignedTo(members: set<Request>, s: Nameserver): set<Request>
    reads members`ns
  {
    set r | r in members && r.ns == s
  }

  lemma AssignedWith(members: set<Request>, req: Request, s: Nameserver)
    requires req !in members
    ensures |AssignedTo(members + {req}, s)| == |AssignedTo(members, s)| + if req.ns == s then 1 else 0
  {
    assert AssignedTo(members + {req}, s) == AssignedTo(members, s) + if req.ns == s then {req} else {};
  }

  ghost function Ids(members: set<Request>): set<nat>
    reads members`transId
  {
    set r | r in members :: r.transId
  }

  lemma {:induction false} IdsAtMost(members: set<Request>)
    ensures |Ids(members)| <= |members|
  {
    if members != {} {
      var r :| r in members;
      IdsAtMost(members - {r});
      assert Ids(members) == Ids(members - {r}) + {r.transId};
      assert |members - {r}| == |members| - 1;
    } else {
      assert Ids(members) == {};
    }
  }

  function Below(n: nat): (all: set<nat>)
    ensures |all| == n && forall i: nat :: i in all <==> i < n
  {
    if n == 0 then {} else Below(n - 1) + {n - 1}
  }

  // With fewer requests than ids, some id is free.
  lemma SomeFree(members: set<Request>) returns (id: nat)
    requires |members| < NO_ID
    ensures id < NO_ID && forall r :: r in members ==> r.transId != id
  {
    hide Below;
    IdsAtMost(members);
    var all := Below(NO_ID);
    if forall i :: i in all ==> i in Ids(members) {
      SubsetSize(all, Ids(members));
    }
    id :| id in all && id !in Ids(members);
    assert forall r :: r in members ==> r.transId in Ids(members);
  }

  lemma {:induction false} SubsetSize(a: set<nat>, b: set<nat>)
    requires a <= b
    ensures |a| <= |b|
  {
    if a != {} {
      var x :| x in a;
      SubsetSize(a - {x}, b - {x});
    }
  }

  // transaction_id_pick: draws 16-bit numbers until one is not in use. A number that was drawn before is not drawn
  // again, so that the loop ends.
  method TransactionIdPick(heads: array<Request?>, ghost qs: seq<seq<Request>>, ghost members: set<Request>)
    returns (id: nat)
    requires Table(heads, qs, members) && |members| < NO_ID
    ensures id < NO_ID && forall r :: r in members ==> r.transId != id
  {
    hide Ring, Placed, NoDup, Below;
    ghost var free := SomeFree(members);
    var undrawn := Below(0x10000);
    while true
      invariant free in undrawn && forall i :: i in undrawn ==> i < 0x10000
      decreases |undrawn|
    {
      var drawn :| drawn in undrawn;
      undrawn := undrawn - {drawn};
      if drawn != NO_ID {
        var user := FindHashed(drawn, heads, qs, members);
        if user == null {
          return drawn;
        }
      }
    }
  }
}
