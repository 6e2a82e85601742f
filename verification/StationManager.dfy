/** The heap-allocated, singly linked station list of wlinkd/src/wlan_sta_mgr.c. */
module StationManager {
  import opened StationLists

  class Node {
    var bssid: string
    var rssi: int
    var pkts: nat
    var assoc: int
    var next: Node?

    constructor (bssid: string, now: int, next: Node?)
      ensures Record() == Station(bssid, 0, 0, now) && this.next == next
    {
      this.bssid, this.rssi, this.pkts, this.assoc, this.next := bssid, 0, 0, now, next;
    }

    function Record(): Station
      reads this
    {
      Station(bssid, rssi, pkts, assoc)
    }
  }

  /** `wlan_utils_find_sta`; an absent array or a count of zero finds nothing. */
  method FindSta(bssid: string, bssids: seq<string>) returns (found: bool)
    ensures found <==> bssid in bssids
  {
    for i := 0 to |bssids|
      invariant bssid !in bssids[..i]
    {
      if bssid == bssids[i] {
        return true;
      }
    }
    return false;
  }

  /** The additions of a synchronisation, in array order; empty entries are passed over. */
  function AddAll(l: Stations, bssids: seq<string>, env: seq<(bool, int)>): Stations
    requires |env| == |bssids|
  {
    if bssids == [] then l
    else
      var k := |bssids| - 1;
      var l' := AddAll(l, bssids[..k], env[..k]);
      if bssids[k] != "" then AddTo(l', bssids[k], env[k].0, env[k].1).0 else l'
  }

  /** A traversal that drops what is not kept has kept the first k stations of c and not looked at the others. */
  ghost predicate KeptSoFar(c0: Stations, c: Stations, k: nat, keep: set<string>) {
    && k <= |c|
    && c[..k] + Retain(c[k..], keep) == Retain(c0, keep)
    && Keys(c[..k]) <= keep
  }

  lemma KeptStep(c0: Stations, c: Stations, k: nat, keep: set<string>)
    requires KeptSoFar(c0, c, k, keep) && k < |c|
    ensures if c[k].bssid in keep then KeptSoFar(c0, c, k + 1, keep)
            else KeptSoFar(c0, c[..k] + c[k + 1..], k, keep) && c[k].bssid !in Keys(c[..k])
  {
    var d := c[..k] + c[k + 1..];
    assert c[k..][1..] == c[k + 1..] && c[..k + 1] == c[..k] + [c[k]];
    assert d[..k] == c[..k] && d[k..] == c[k + 1..];
    KeysAppend(c[..k], [c[k]]);
  }

  ghost function NodeSet(ns: seq<Node>): set<Node> { set n | n in ns }

  class StaMgr {
    var head: Node?
    ghost var spine: seq<Node>  // the nodes reachable from head, in order
    ghost var freed: set<Node>  // every node handed to free()
    ghost var contents: Stations  // their records

    /** Acyclic, ends in null, and holds no freed node. */
    ghost predicate Valid()
      reads this, spine
    {
      && head == At(spine, 0)
      && (forall i {:trigger spine[i].next} :: 0 <= i < |spine| ==> spine[i].next == At(spine, i + 1))
      && (forall i, j :: 0 <= i < j < |spine| ==> spine[i] != spine[j])
      && (forall i :: 0 <= i < |spine| ==> spine[i] !in freed)
      && |contents| == |spine|
      && (forall i :: 0 <= i < |spine| ==> spine[i].Record() == contents[i])
    }

    /** The links once the (i - 1)-th node points past the i-th. */
    static lemma Bypassed(was: seq<Node>, rest: seq<Node>, i: nat)
      requires 0 < i < |was| && rest == was[..i] + was[i + 1..] && was[i - 1].next == At(was, i + 1)
      requires forall j {:trigger was[j].next} :: 0 <= j < |was| && j != i - 1 ==> was[j].next == At(was, j + 1)
      ensures At(rest, 0) == At(was, 0)
      ensures forall j {:trigger rest[j].next} :: 0 <= j < |rest| ==> rest[j].next == At(rest, j + 1)
    {
      forall j {:trigger rest[j].next} | 0 <= j < |rest|
        ensures rest[j].next == At(rest, j + 1)
      {
        assert rest[j] == was[if j < i then j else j + 1];
      }
    }

    /** A new node in front of a list. */
    static lemma Prepended(n: Node, was: seq<Node>, freed: set<Node>, records: Stations)
      requires n !in was && n !in freed && n.next == At(was, 0) && |records| == |was|
      requires forall j {:trigger was[j].next} :: 0 <= j < |was| ==> was[j].next == At(was, j + 1)
      requires forall j, k :: 0 <= j < k < |was| ==> was[j] != was[k]
      requires forall j :: 0 <= j < |was| ==> was[j] !in freed && was[j].Record() == records[j]
      ensures var ns, rs := [n] + was, [n.Record()] + records;
              && (forall j {:trigger ns[j].next} :: 0 <= j < |ns| ==> ns[j].next == At(ns, j + 1))
              && (forall j, k :: 0 <= j < k < |ns| ==> ns[j] != ns[k])
              && (forall j :: 0 <= j < |ns| ==> ns[j] !in freed && ns[j].Record() == rs[j])
    {
      var ns := [n] + was;
      forall j {:trigger ns[j].next} | 0 <= j < |ns|
        ensures ns[j].next == At(ns, j + 1)
      {
        assert j > 0 ==> ns[j] == was[j - 1];
      }
    }

    /** Those that stay are distinct, live, and not the one that goes. */
    static lemma RestLive(was: seq<Node>, rest: seq<Node>, freed: set<Node>, i: nat)
      requires i < |was| && rest == was[..i] + was[i + 1..]
      requires forall j, k :: 0 <= j < k < |was| ==> was[j] != was[k]
      requires forall j :: 0 <= j < |was| ==> was[j] !in freed
      ensures forall j, k :: 0 <= j < k < |rest| ==> rest[j] != rest[k]
      ensures forall j :: 0 <= j < |rest| ==> rest[j] !in freed + {was[i]}
    {
    }

    static lemma RestInside(was: seq<Node>, rest: seq<Node>, i: nat)
      requires i < |was| && rest == was[..i] + was[i + 1..]
      ensures NodeSet(rest) <= NodeSet(was)
    {
    }

    static lemma RestRecords(was: seq<Node>, rest: seq<Node>, records: Stations, left: Stations, i: nat)
      requires i < |was| == |records| && rest == was[..i] + was[i + 1..] && left == records[..i] + records[i + 1..]
      requires forall j :: 0 <= j < |was| ==> was[j].Record() == records[j]
      ensures |left| == |rest| && forall j :: 0 <= j < |rest| ==> rest[j].Record() == left[j]
    {
      forall j | 0 <= j < |rest|
        ensures rest[j].Record() == left[j]
      {
        var k := if j < i then j else j + 1;
        assert rest[j] == was[k] && left[j] == records[k];
      }
    }

    static ghost function At(ns: seq<Node>, i: nat): Node? {
      if i < |ns| then ns[i] else null
    }

    ghost function Nodes(): set<Node>
      reads this
    {
      NodeSet(spine)
    }

    lemma NodeAt(n: Node, i: nat)
      requires Valid() && n == At(spine, i)
      ensures i < |spine| == |contents| && n.Record() == contents[i] && n.next == At(spine, i + 1)
    {
    }

    /** `wlan_sta_mgr_init`. */
    constructor ()
      ensures Valid() && contents == [] && spine == [] && freed == {}
    {
      head, spine, freed, contents := null, [], {}, [];
    }

    method Find(b: string) returns (n: Node?)
      requires Valid()
      ensures n == At(spine, IndexOf(contents, b))
    {
      n := head;
      ghost var i := 0;
      while n != null
        invariant i <= |spine| && n == At(spine, i)
        invariant forall j :: 0 <= j < i ==> spine[j].bssid != b
        decreases |spine| - i
      {
        assert n !in freed;
        if n.bssid == b {
          return;
        }
        n := n.next;
        i := i + 1;
      }
    }

    method Count() returns (count: nat)
      requires Valid()
      ensures count == |contents|
      ensures WellKeyed(contents) ==> count == |AsMap(contents)|
    {
      count := 0;
      var curr := head;
      while curr != null
        invariant count <= |spine| && curr == At(spine, count)
        decreases |spine| - count
      {
        assert curr !in freed;
        count := count + 1;
        curr := curr.next;
      }
      if WellKeyed(contents) { MapSize(contents); }
    }

    method Add(b: string, alloc: bool, now: int) returns (rc: int)
      requires Valid()
      modifies this
      ensures Valid() && freed == old(freed)
      ensures (contents, rc) == AddTo(old(contents), b, alloc, now)
      ensures fresh(Nodes() - old(Nodes()))
    {
      if b == "" {
        return -1;
      }
      var n := Find(b);
      if n != null {
        return 0;
      }
      if !alloc {
        return -1;
      }
      PushFront(b, now);
      return 1;
    }

    method PushFront(b: string, now: int)
      requires Valid()
      modifies this
      ensures Valid() && freed == old(freed)
      ensures contents == [Station(Copied(b), 0, 0, now)] + old(contents)
      ensures fresh(Nodes() - old(Nodes()))
    {
      var added := new Node(Copied(b), now, head);
      Prepended(added, spine, freed, contents);
      head := added;
      spine, contents := [added] + spine, [added.Record()] + contents;
    }

    /** `sta->rssi = ...; sta->priv_pkts = ...` through the pointer a search for b returned. */
    method StoreReport(sta: Node, b: string, rssi: int, pkts: nat)
      requires Valid() && b in Keys(contents) && sta == spine[IndexOf(contents, b)]
      modifies this`contents, sta
      ensures Valid() && contents == Store(old(contents), b, rssi, pkts)
    {
      ghost var i := IndexOf(contents, b);
      StoreAtIndex(contents, b, rssi, pkts);
      sta.rssi := rssi;
      sta.pkts := pkts;
      contents := contents[i := contents[i].(rssi := rssi, pkts := pkts)];
    }

    /** Bypasses and frees the i-th node. */
    method Unlink(prev: Node?, curr: Node, ghost i: nat)
      requires Valid()
      requires i < |spine| && curr == spine[i]
      requires prev == if i == 0 then null else spine[i - 1]
      modifies this, Nodes()
      ensures Valid()
      ensures spine == old(spine)[..i] + old(spine)[i + 1..]
      ensures freed == old(freed) + {curr}
      ensures contents == old(contents)[..i] + old(contents)[i + 1..]
    {
      if prev != null {
        UnlinkAfter(prev, curr, i);
      } else {
        head := curr.next;
        spine, contents := spine[1..], contents[1..];
        freed := freed + {curr};
      }
    }

    /** The same past the first node. */
    method UnlinkAfter(prev: Node, curr: Node, ghost i: nat)
      requires Valid()
      requires 0 < i < |spine| && curr == spine[i] && prev == spine[i - 1]
      modifies this`spine, this`contents, this`freed, prev`next
      ensures Valid()
      ensures spine == old(spine)[..i] + old(spine)[i + 1..]
      ensures freed == old(freed) + {curr}
      ensures contents == old(contents)[..i] + old(contents)[i + 1..]
    {
      ghost var was, records := spine, contents;
      ghost var rest, left := was[..i] + was[i + 1..], records[..i] + records[i + 1..];
      prev.next := curr.next;
      assert forall j {:trigger was[j].next} :: 0 <= j < |was| && j != i - 1 ==> was[j].next == At(was, j + 1);
      Bypassed(was, rest, i);
      RestLive(was, rest, freed, i);
      RestRecords(was, rest, records, left, i);
      spine, contents, freed := rest, left, freed + {curr};
    }

    /** The search-and-unlink loop, with the position it unlinks at. */
    method UnlinkNamed(b: string) returns (rc: int)
      requires Valid()
      modifies this, Nodes()
      ensures Valid()
      ensures contents == RemoveFrom(old(contents), b)
      ensures rc == if b in Keys(old(contents)) then 1 else 0
      ensures var i := IndexOf(old(contents), b);
              if i < |old(spine)|
              then spine == old(spine)[..i] + old(spine)[i + 1..] && freed == old(freed) + {old(spine)[i]}
              else spine == old(spine) && freed == old(freed)
      ensures Nodes() <= old(Nodes())
    {
      var curr, prev: Node? := head, null;
      ghost var i := 0;
      RemoveAtIndex(contents, b);
      while curr != null
        invariant i <= |spine| && curr == At(spine, i)
        invariant prev == if i == 0 then null else spine[i - 1]
        invariant forall j :: 0 <= j < i ==> spine[j].bssid != b
        decreases |spine| - i
      {
        assert curr !in freed;
        if curr.bssid == b {
          assert i == IndexOf(contents, b);
          Unlink(prev, curr, i);
          RestInside(old(spine), spine, i);
          return 1;
        }
        prev := curr;
        curr := curr.next;
        i := i + 1;
      }
      return 0;
    }

    method Remove(b: string) returns (rc: int)
      requires Valid()
      modifies this, Nodes()
      ensures Valid() && Nodes() <= old(Nodes()) <= Nodes() + freed
      ensures contents == RemoveFrom(old(contents), b)
      ensures rc == if b in Keys(old(contents)) then 1 else 0
    {
      rc := UnlinkNamed(b);
    }

    /** `wlan_sta_mgr_remove(curr->bssid)` on a node no earlier node shares its key with: it is curr that goes. */
    method RemoveCurrent(curr: Node, ghost k: nat)
      requires Valid() && k < |spine| && curr == spine[k]
      requires curr.bssid !in Keys(contents[..k])
      modifies this, Nodes()
      ensures Valid()
      ensures |spine| == |old(spine)| - 1 && spine[k..] == old(spine)[k + 1..] && freed == old(freed) + {curr}
      ensures contents == old(contents)[..k] + old(contents)[k + 1..]
      ensures old(Nodes()) == Nodes() + {curr}
    {
      ghost var c := contents;
      assert c == c[..k] + [c[k]] + c[k + 1..];
      RemoveMiddle(c[..k], c[k], c[k + 1..]);
      var _ := UnlinkNamed(curr.bssid);
    }

    /** A saved-next traversal of the nodes s0 has visited some, kept k of them and is about to look at curr. */
    ghost predicate Traversing(curr: Node?, s0: seq<Node>, c0: Stations, visited: seq<Node>, k: nat, keep: set<string>)
      reads this, spine
    {
      && Valid() && Nodes() <= NodeSet(s0)
      && k <= |spine| && curr == At(spine, k) && visited + spine[k..] == s0
      && KeptSoFar(c0, contents, k, keep)
    }

    lemma VisitKept(curr: Node, s0: seq<Node>, c0: Stations, visited: seq<Node>, k: nat, keep: set<string>)
      requires Traversing(curr, s0, c0, visited, k, keep) && curr.bssid in keep
      ensures Traversing(curr.next, s0, c0, visited + [curr], k + 1, keep)
    {
      KeptStep(c0, contents, k, keep);
      assert spine[k..] == [curr] + spine[k + 1..];
    }

    lemma TraversalDone(s0: seq<Node>, c0: Stations, visited: seq<Node>, k: nat, keep: set<string>)
      requires Traversing(null, s0, c0, visited, k, keep)
      ensures visited == s0 && contents == Retain(c0, keep)
    {
      assert spine[k..] == [] && contents[k..] == [] && contents[..k] == contents;
    }

    method VisitDropped(curr: Node, ghost s0: seq<Node>, ghost c0: Stations, ghost visited: seq<Node>, ghost k: nat,
                        ghost keep: set<string>)
      requires Traversing(curr, s0, c0, visited, k, keep) && curr.bssid !in keep
      modifies this, Nodes()
      ensures Traversing(old(curr.next), s0, c0, visited + [curr], k, keep)
      ensures |contents| == |old(contents)| - 1 && contents[k..] == old(contents)[k + 1..]
      ensures Nodes() <= old(Nodes())
    {
      KeptStep(c0, contents, k, keep);
      assert spine[k..] == [curr] + spine[k + 1..];
      assert Valid() && spine[k].next == At(spine, k + 1);
      RemoveCurrent(curr, k);
      assert contents[k..] == old(contents)[k + 1..];
    }

    /** One turn of the traversal. */
    method Visit(here: Node, bssids: seq<string>, ghost s0: seq<Node>, ghost c0: Stations, ghost visited: seq<Node>,
                 ghost k: nat, ghost keep: set<string>)
      returns (found: bool)
      requires Traversing(here, s0, c0, visited, k, keep) && keep == ToSet(bssids)
      modifies this, Nodes()
      ensures Traversing(old(here.next), s0, c0, visited + [here], if found then k + 1 else k, keep)
      ensures Nodes() <= old(Nodes())
    {
      found := FindSta(here.bssid, bssids);
      if !found {
        VisitDropped(here, s0, c0, visited, k, keep);
      } else {
        VisitKept(here, s0, c0, visited, k, keep);
      }
    }

    /** The saved-next traversal: every original node is visited once, live, and those not listed are removed. */
    method Prune(bssids: seq<string>) returns (ghost visited: seq<Node>)
      requires Valid()
      modifies this, Nodes()
      ensures Valid() && Nodes() <= old(Nodes())
      ensures visited == old(spine)
      ensures contents == Retain(old(contents), ToSet(bssids))
    {
      ghost var s0, c0, keep, k := spine, contents, ToSet(bssids), 0;
      var curr := head;
      visited := [];
      while curr != null
        invariant Traversing(curr, s0, c0, visited, k, keep)
        decreases |s0| - |visited|
      {
        var here: Node := curr;
        assert here !in freed;
        curr := here.next;
        var found := Visit(here, bssids, s0, c0, visited, k, keep);
        k := if found then k + 1 else k;
        visited := visited + [here];
      }
      TraversalDone(s0, c0, visited, k, keep);
    }

    /** `wlan_sta_mgr_sync_from_list`; env[i] holds malloc's and time()'s answers for entry i. */
    method SyncFromList(bssids: seq<string>, env: seq<(bool, int)>)
      requires Valid() && |env| == |bssids|
      modifies this, Nodes()
      ensures Valid()
      ensures contents == Retain(AddAll(old(contents), bssids, env), ToSet(bssids))
    {
      for i := 0 to |bssids|
        invariant Valid()
        invariant contents == AddAll(old(contents), bssids[..i], env[..i])
        invariant fresh(Nodes() - old(Nodes()))
      {
        assert bssids[..i + 1][..i] == bssids[..i] && env[..i + 1][..i] == env[..i];
        if bssids[i] != "" {
          var _ := Add(bssids[i], env[i].0, env[i].1);
        }
      }
      assert bssids[..|bssids|] == bssids && env[..|env|] == env;
      ghost var _ := Prune(bssids);
    }

    /** `wlan_sta_mgr_clear`: every node is freed, each once. */
    method Clear()
      requires Valid()
      modifies this
      ensures Valid() && contents == []
      ensures freed == old(freed) + set n | n in old(spine)
    {
      var curr := head;
      ghost var i := 0;
      while curr != null
        invariant i <= |spine| && curr == At(spine, i) && spine == old(spine)
        invariant forall j :: i <= j < |spine| ==> spine[j] !in freed
        invariant freed == old(freed) + set n | n in spine[..i]
        decreases |spine| - i
      {
        assert curr !in freed;
        var next := curr.next;
        freed := freed + {curr};
        curr := next;
        i := i + 1;
      }
      head, spine, contents := null, [], [];
    }
  }
}
