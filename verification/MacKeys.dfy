/** The station list is keyed by the text of an address; that is as good as being keyed by the address. */
module MacKeys {
  import opened Bssids
  import opened StationLists
  import opened Tracker
  import opened TrackerRuns
  import opened TrackerRefresh

  /** A record without its key. */
  datatype Info = Info(rssi: int, pkts: nat, assoc: int)

  function InfoOf(s: Station): Info { Info(s.rssi, s.pkts, s.assoc) }

  /** The two dictionaries agree on m. */
  ghost predicate Agree(macs: map<Mac, Info>, texts: map<string, Station>, m: Mac) {
    && (m in macs <==> FormatBssid(m) in texts)
    && (m in macs ==> macs[m] == InfoOf(texts[FormatBssid(m)]))
  }

  // ----- operations on addresses

  datatype MacOp = MacAdd(m: Mac, alloc: bool, now: int) | MacStore(m: Mac, rssi: int, pkts: nat) | MacRemove(m: Mac)

  /** A plain dictionary keyed by address. */
  function RunMac(ops: seq<MacOp>): map<Mac, Info> {
    if ops == [] then map[]
    else
      var macs := RunMac(ops[..|ops| - 1]);
      match ops[|ops| - 1]
      case MacAdd(m, alloc, now) => if m !in macs && alloc then macs[m := Info(0, 0, now)] else macs
      case MacStore(m, rssi, pkts) => if m in macs then macs[m := macs[m].(rssi := rssi, pkts := pkts)] else macs
      case MacRemove(m) => macs - {m}
  }

  function TextOp(o: MacOp): Op {
    match o
    case MacAdd(m, alloc, now) => OpAdd(FormatBssid(m), alloc, now)
    case MacStore(m, rssi, pkts) => OpStore(FormatBssid(m), rssi, pkts)
    case MacRemove(m) => OpRemove(FormatBssid(m))
  }

  /** The same operations, each on the text of its address. */
  function TextOps(ops: seq<MacOp>): seq<Op> {
    if ops == [] then [] else TextOps(ops[..|ops| - 1]) + [TextOp(ops[|ops| - 1])]
  }

  lemma {:induction false} TextOpsFit(ops: seq<MacOp>)
    ensures forall o :: o in TextOps(ops) ==> |o.b| == BSSID_CHARS
  {
    if ops != [] { TextOpsFit(ops[..|ops| - 1]); }
  }

  lemma {:induction false} RunsAgree(ops: seq<MacOp>, m: Mac)
    ensures Agree(RunMac(ops), RunMap(TextOps(ops)), m)
  {
    if ops != [] {
      var n := |ops| - 1;
      RunsAgree(ops[..n], m);
      RunsAgree(ops[..n], ops[n].m);
      assert TextOps(ops)[..|TextOps(ops)| - 1] == TextOps(ops[..n]);
      FormatInjective(m, ops[n].m);
    }
  }

  ghost predicate IsBssid(b: string) { exists m: Mac :: FormatBssid(m) == b }

  lemma {:induction false} RunKeysAreBssids(ops: seq<MacOp>)
    ensures forall b :: b in RunMap(TextOps(ops)) ==> IsBssid(b)
  {
    if ops != [] {
      var n := |ops| - 1;
      RunKeysAreBssids(ops[..n]);
      assert TextOps(ops)[..|TextOps(ops)| - 1] == TextOps(ops[..n]);
      assert IsBssid(FormatBssid(ops[n].m));
    }
  }

  /** As many addresses as texts. */
  lemma {:induction false} SameSize(macs: set<Mac>, texts: set<string>)
    requires forall m: Mac :: m in macs <==> FormatBssid(m) in texts
    requires forall b :: b in texts ==> IsBssid(b)
    ensures |macs| == |texts|
    decreases |texts|
  {
    if texts == {} {
      assert forall m: Mac :: FormatBssid(m) !in texts;
      assert macs == {};
    } else {
      var b :| b in texts;
      var m: Mac :| FormatBssid(m) == b;
      forall n: Mac
        ensures n in macs - {m} <==> FormatBssid(n) in texts - {b}
      {
        FormatInjective(m, n);
      }
      SameSize(macs - {m}, texts - {b});
    }
  }

  lemma AgreeSameSize(macs: map<Mac, Info>, texts: map<string, Station>)
    requires forall m: Mac :: Agree(macs, texts, m)
    requires forall b :: b in texts ==> IsBssid(b)
    ensures |macs| == |texts|
  {
    forall m: Mac
      ensures m in macs.Keys <==> FormatBssid(m) in texts.Keys
    {
      assert Agree(macs, texts, m);
    }
    SameSize(macs.Keys, texts.Keys);
  }

  /**
   * For every sequence of additions, reports and removals, the list keyed by text holds exactly the addresses a
   * dictionary keyed by address would, with the same records, and as many of them.
   */
  lemma TextKeysAsGood(ops: seq<MacOp>)
    ensures forall m: Mac :: Agree(RunMac(ops), AsMap(RunList(TextOps(ops))), m)
    ensures |RunMac(ops)| == |RunList(TextOps(ops))|
  {
    var macs, l := RunMac(ops), RunList(TextOps(ops));
    TextOpsFit(ops);
    RunRefinesMap(TextOps(ops));
    forall m: Mac
      ensures Agree(macs, AsMap(l), m)
    {
      RunsAgree(ops, m);
    }
    RunKeysAreBssids(ops);
    AgreeSameSize(macs, AsMap(l));
    MapSize(l);
  }

  // ----- the tracker

  ghost predicate KeyedByMac(t: State) { forall b :: b in Keys(t.stas) ==> IsBssid(b) }

  lemma AddedKeys(l: Stations, b: string, alloc: bool, now: int)
    requires |b| <= BSSID_CHARS
    ensures Keys(AddTo(l, b, alloc, now).0) <= Keys(l) + {b}
  {
    assert ([Station(b, 0, 0, now)] + l)[1..] == l;
  }

  lemma NetdevKeyed(t: State, idx: nat, m: NlMsg)
    requires Consistent(t) && KeyedByMac(t)
    ensures KeyedByMac(OnNetdev(t, idx, m))
  {
    var b := Name(m.mac);
    RemoveRefinesMap(t.stas, b);
    assert m.mac.Some? ==> IsBssid(b);
    if m.cmd == NewStation { AddedKeys(t.stas, b, m.alloc, m.now); }
  }

  lemma {:induction false} FoldNetKeyed(t: State, idx: nat, msgs: seq<NlMsg>)
    requires Consistent(t) && LedAgrees(t) && KeyedByMac(t)
    ensures KeyedByMac(FoldNet(t, idx, msgs))
    decreases msgs
  {
    if msgs != [] {
      NetdevKeeps(t, idx, msgs[0]);
      NetdevKeyed(t, idx, msgs[0]);
      FoldNetKeyed(OnNetdev(t, idx, msgs[0]), idx, msgs[1..]);
    }
  }

  lemma {:induction false} AllocatedAreBssids(msgs: seq<StaMsg>)
    ensures forall b :: b in Allocated(msgs) ==> IsBssid(b)
  {
    if msgs != [] {
      AllocatedAreBssids(msgs[1..]);
      assert msgs[0].mac.Some? ==> IsBssid(Name(msgs[0].mac));
    }
  }

  lemma RefreshKeyed(t: State, idx: nat, w: World)
    requires Consistent(t) && LedAgrees(t) && KeyedByMac(t)
    ensures KeyedByMac(Refresh(t, idx, w))
  {
    var t0, t1 := t.(apMode := false), AfterInterfaces(t, idx, w);
    ModeKeeps(t, false);
    FoldNetKeyed(t0, idx, IfReplies(w));
    FoldNetKeeps(t0, idx, IfReplies(w));
    RetainKeys(t1.stas, {});
    AllocatedAreBssids(StaReplies(w));
    FoldStaKeys(t1, StaReplies(w));
    RetainKeys(FoldSta(t1, StaReplies(w)).stas, KeptNames(w));
  }

  /** Over every run, each key of the list is the text of an address. */
  lemma {:induction false} RunKeyedByMac(idx: nat, steps: seq<Step>)
    ensures KeyedByMac(Run(idx, steps))
  {
    if steps != [] {
      var n := |steps| - 1;
      RunKeyedByMac(idx, steps[..n]);
      RunKeeps(idx, steps[..n]);
      match steps[n] {
        case NetEvent(m) => NetdevKeyed(Run(idx, steps[..n]), idx, m);
        case Timer(w) => RefreshKeyed(Run(idx, steps[..n]), idx, w);
      }
    }
  }
}
