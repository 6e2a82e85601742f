/** The station list as a value: what each operation of wlinkd/src/wlan_sta_mgr.c makes of it, head first. */
module StationLists {
  import opened Bssids
  import opened Text

  datatype Station = Station(bssid: string, rssi: int, pkts: nat, assoc: int)
  type Stations = seq<Station>

  function Keys(l: Stations): set<string> {
    if l == [] then {} else {l[0].bssid} + Keys(l[1..])
  }

  /** Position of the first station called `b`, or |l|. */
  function IndexOf(l: Stations, b: string): (i: nat)
    ensures i <= |l|
    ensures i < |l| ==> l[i].bssid == b
    ensures forall j :: 0 <= j < i ==> l[j].bssid != b
    ensures i < |l| <==> b in Keys(l)
  {
    if l == [] || l[0].bssid == b then 0 else 1 + IndexOf(l[1..], b)
  }

  /** What `strncpy` leaves of `b` in a zeroed `char[MAC_ADDR_LEN]`. */
  function Copied(b: string): string { if |b| <= BSSID_CHARS then b else b[..BSSID_CHARS] }

  /** `wlan_sta_mgr_add`: the new list and the return code; `alloc` and `now` are malloc's and time()'s answers. */
  function AddTo(l: Stations, b: string, alloc: bool, now: int): (Stations, int) {
    if b == "" then (l, -1)
    else if b in Keys(l) then (l, 0)
    else if !alloc then (l, -1)
    else ([Station(Copied(b), 0, 0, now)] + l, 1)
  }

  /** `wlan_sta_mgr_remove`: the first station called `b` goes. */
  function RemoveFrom(l: Stations, b: string): Stations {
    if l == [] then []
    else if l[0].bssid == b then l[1..]
    else [l[0]] + RemoveFrom(l[1..], b)
  }

  /** The first station called `b` gets a new signal and packet total. */
  function Store(l: Stations, b: string, rssi: int, pkts: nat): Stations {
    if l == [] then []
    else if l[0].bssid == b then [l[0].(rssi := rssi, pkts := pkts)] + l[1..]
    else [l[0]] + Store(l[1..], b, rssi, pkts)
  }

  /** The entries of an array of names. */
  function ToSet(bssids: seq<string>): set<string> { set b | b in bssids }

  /** The stations whose key is kept, in order. */
  function Retain(l: Stations, keep: set<string>): Stations {
    if l == [] then []
    else (if l[0].bssid in keep then [l[0]] else []) + Retain(l[1..], keep)
  }

  /** Every key is a non-empty text that fits its buffer, and no key occurs twice. */
  predicate WellKeyed(l: Stations) {
    l != [] ==> 0 < |l[0].bssid| <= BSSID_CHARS && l[0].bssid !in Keys(l[1..]) && WellKeyed(l[1..])
  }

  /** The finite map a list stands for. */
  function AsMap(l: Stations): (m: map<string, Station>)
    ensures m.Keys == Keys(l)
  {
    if l == [] then map[] else AsMap(l[1..])[l[0].bssid := l[0]]
  }

  /** Writing through the pointer the search found. */
  lemma {:induction false} StoreAtIndex(l: Stations, b: string, rssi: int, pkts: nat)
    requires b in Keys(l)
    ensures Store(l, b, rssi, pkts) == l[IndexOf(l, b) := l[IndexOf(l, b)].(rssi := rssi, pkts := pkts)]
  {
    if l[0].bssid != b {
      var rest, i := l[1..], IndexOf(l[1..], b);
      StoreAtIndex(rest, b, rssi, pkts);
      assert l == [l[0]] + rest;
      var s := rest[i].(rssi := rssi, pkts := pkts);
      assert l[i + 1 := s] == [l[0]] + rest[i := s];
    }
  }

  lemma {:induction false} StoreKeepsLength(l: Stations, b: string, rssi: int, pkts: nat)
    ensures |Store(l, b, rssi, pkts)| == |l|
  {
    if l != [] { StoreKeepsLength(l[1..], b, rssi, pkts); }
  }

  /** Unlinking at the position the search found. */
  lemma {:induction false} RemoveAtIndex(l: Stations, b: string)
    ensures RemoveFrom(l, b) == var i := IndexOf(l, b); if i < |l| then l[..i] + l[i + 1..] else l
  {
    if l != [] && l[0].bssid != b {
      var rest, i := l[1..], IndexOf(l[1..], b);
      RemoveAtIndex(rest, b);
      if i < |rest| { TakenOutOfRest(l, i); } else { SplitFirst(l); }
    }
  }

  /** A station none of whose predecessors shares its key is the one that goes. */
  lemma {:induction false} RemoveMiddle(a: Stations, s: Station, rest: Stations)
    requires s.bssid !in Keys(a)
    ensures RemoveFrom(a + [s] + rest, s.bssid) == a + rest
    ensures IndexOf(a + [s] + rest, s.bssid) == |a|
  {
    var l := a + [s] + rest;
    if a == [] {
      assert l[1..] == rest;
    } else {
      assert l[0] == a[0] && l[1..] == a[1..] + [s] + rest;
      RemoveMiddle(a[1..], s, rest);
    }
  }

  lemma {:induction false} RetainKeys(l: Stations, keep: set<string>)
    ensures Keys(Retain(l, keep)) == Keys(l) * keep
  {
    if l != [] {
      RetainKeys(l[1..], keep);
      if l[0].bssid in keep {
        assert Retain(l, keep)[1..] == Retain(l[1..], keep);
      } else {
        assert Retain(l, keep) == Retain(l[1..], keep);
      }
    }
  }

  /** Order is kept: the two parts of a list are pruned each on its own. */
  lemma {:induction false} RetainConcat(a: Stations, b: Stations, keep: set<string>)
    ensures Retain(a + b, keep) == Retain(a, keep) + Retain(b, keep)
  {
    if a == [] {
      assert a + b == b;
    } else {
      RestOfConcat(a, b);
      RetainConcat(a[1..], b, keep);
      Assoc(if a[0].bssid in keep then [a[0]] else [], Retain(a[1..], keep), Retain(b, keep));
    }
  }

  lemma {:induction false} KeysAppend(a: Stations, b: Stations)
    ensures Keys(a + b) == Keys(a) + Keys(b)
  {
    if a == [] {
      assert a + b == b;
    } else {
      assert (a + b)[1..] == a[1..] + b;
      KeysAppend(a[1..], b);
    }
  }

  lemma {:induction false} RetainMap(l: Stations, keep: set<string>)
    requires WellKeyed(l)
    ensures WellKeyed(Retain(l, keep))
    ensures Keys(Retain(l, keep)) == Keys(l) * keep
    ensures forall b :: b in Keys(l) * keep ==> AsMap(Retain(l, keep))[b] == AsMap(l)[b]
  {
    RetainKeys(l, keep);
    if l != [] {
      RetainKeys(l[1..], keep);
      RetainMap(l[1..], keep);
      if l[0].bssid in keep {
        assert Retain(l, keep)[1..] == Retain(l[1..], keep);
      } else {
        assert Retain(l, keep) == Retain(l[1..], keep);
      }
    }
  }

  lemma {:induction false} MapSize(l: Stations)
    requires WellKeyed(l)
    ensures |Keys(l)| == |AsMap(l)| == |l|
  {
    if l != [] { MapSize(l[1..]); }
  }

  /** Adding is a map insertion of a fresh record, refused for a known key, an empty key or a failed malloc. */
  lemma AddRefinesMap(l: Stations, b: string, alloc: bool, now: int)
    requires WellKeyed(l) && |b| <= BSSID_CHARS
    ensures var (l', rc) := AddTo(l, b, alloc, now);
            && WellKeyed(l')
            && (rc == 1 <==> b != "" && b !in AsMap(l) && alloc)
            && (rc == 0 <==> b != "" && b in AsMap(l))
            && AsMap(l') == (if rc == 1 then AsMap(l)[b := Station(b, 0, 0, now)] else AsMap(l))
            && l' == if rc == 1 then [Station(b, 0, 0, now)] + l else l
  {
  }

  lemma AddThenDrop(m: map<string, Station>, k: string, v: Station, b: string)
    requires k != b
    ensures m[k := v] - {b} == (m - {b})[k := v]
  {
  }

  lemma {:induction false} RemoveRefinesMap(l: Stations, b: string)
    requires WellKeyed(l)
    ensures WellKeyed(RemoveFrom(l, b))
    ensures AsMap(RemoveFrom(l, b)) == AsMap(l) - {b}
    ensures Keys(RemoveFrom(l, b)) == Keys(l) - {b}
  {
    if l != [] {
      RemoveRefinesMap(l[1..], b);
      if l[0].bssid == b {
        assert AsMap(l) - {b} == AsMap(l[1..]);
      } else {
        assert RemoveFrom(l, b)[1..] == RemoveFrom(l[1..], b);
        assert Keys(RemoveFrom(l[1..], b)) == AsMap(RemoveFrom(l[1..], b)).Keys;
        AddThenDrop(AsMap(l[1..]), l[0].bssid, l[0], b);
      }
    }
  }

  /** A found station is the map's entry. */
  lemma {:induction false} FoundIsEntry(l: Stations, b: string)
    requires WellKeyed(l) && b in Keys(l)
    ensures l[IndexOf(l, b)] == AsMap(l)[b]
  {
    if l[0].bssid != b { FoundIsEntry(l[1..], b); }
  }

  /** Storing a new signal and packet total in place is a map update. */
  lemma {:induction false} StoreRefinesMap(l: Stations, b: string, rssi: int, pkts: nat)
    requires WellKeyed(l) && b in Keys(l)
    ensures WellKeyed(Store(l, b, rssi, pkts)) && Keys(Store(l, b, rssi, pkts)) == Keys(l)
    ensures AsMap(Store(l, b, rssi, pkts)) == AsMap(l)[b := AsMap(l)[b].(rssi := rssi, pkts := pkts)]
  {
    var l' := Store(l, b, rssi, pkts);
    if l[0].bssid == b {
      assert l'[1..] == l[1..];
    } else {
      StoreRefinesMap(l[1..], b, rssi, pkts);
      assert l'[1..] == Store(l[1..], b, rssi, pkts);
    }
  }

  /** A just-added station can be found again exactly when its key fits the record's buffer. */
  lemma FindAfterAdd(l: Stations, b: string, now: int)
    requires b != "" && (forall s :: s in l ==> |s.bssid| <= 17)
    ensures b in Keys(AddTo(l, b, true, now).0) <==> |b| <= 17
  {
    if b in Keys(l) {
      assert l[IndexOf(l, b)] in l;
    } else {
      assert AddTo(l, b, true, now).0[1..] == l;
    }
  }

  datatype Op = OpAdd(b: string, alloc: bool, now: int) | OpStore(b: string, rssi: int, pkts: nat) | OpRemove(b: string)

  function RunList(ops: seq<Op>): Stations {
    if ops == [] then []
    else
      var l := RunList(ops[..|ops| - 1]);
      match ops[|ops| - 1]
      case OpAdd(b, alloc, now) => AddTo(l, b, alloc, now).0
      case OpStore(b, rssi, pkts) => if b in Keys(l) then Store(l, b, rssi, pkts) else l
      case OpRemove(b) => RemoveFrom(l, b)
  }

  /** The same operations on a plain dictionary. */
  function RunMap(ops: seq<Op>): map<string, Station> {
    if ops == [] then map[]
    else
      var m := RunMap(ops[..|ops| - 1]);
      match ops[|ops| - 1]
      case OpAdd(b, alloc, now) => if b != "" && b !in m && alloc then m[b := Station(b, 0, 0, now)] else m
      case OpStore(b, rssi, pkts) => if b in m then m[b := m[b].(rssi := rssi, pkts := pkts)] else m
      case OpRemove(b) => m - {b}
  }

  /** Every sequence of additions, reports and removals keeps the list a dictionary with unique, non-empty keys. */
  lemma {:induction false} RunRefinesMap(ops: seq<Op>)
    requires forall o :: o in ops ==> |o.b| <= BSSID_CHARS
    ensures WellKeyed(RunList(ops))
    ensures AsMap(RunList(ops)) == RunMap(ops)
    ensures |RunList(ops)| == |RunMap(ops)|
  {
    if ops != [] {
      var o := ops[|ops| - 1];
      assert o in ops;
      RunRefinesMap(ops[..|ops| - 1]);
      var l := RunList(ops[..|ops| - 1]);
      match o {
        case OpAdd(b, alloc, now) => AddRefinesMap(l, b, alloc, now);
        case OpStore(b, rssi, pkts) => if b in Keys(l) { StoreRefinesMap(l, b, rssi, pkts); }
        case OpRemove(b) => RemoveRefinesMap(l, b);
      }
    }
    MapSize(RunList(ops));
  }
}
