/** Exactly what a refresh does to the list, and when it may remove a station. */
module TrackerRefresh {
  import opened Text
  import opened Bssids
  import opened StationLists
  import opened Tracker
  import opened TrackerRuns
  import opened StationManager
  import Libnl

  /** The stations a dump names, in order. */
  function Names(msgs: seq<StaMsg>): seq<string> {
    if msgs == [] then [] else (if msgs[0].mac.Some? then [Name(msgs[0].mac)] else []) + Names(msgs[1..])
  }

  /** The names for which some message found memory, had it needed a new record. */
  function Allocated(msgs: seq<StaMsg>): set<string> {
    if msgs == [] then {}
    else (if msgs[0].mac.Some? && msgs[0].alloc then {Name(msgs[0].mac)} else {}) + Allocated(msgs[1..])
  }

  /** The signal and packet total of the last message naming b. */
  function LastReport(msgs: seq<StaMsg>, b: string): Option<(int, nat)> {
    if msgs == [] then None
    else
      var later := LastReport(msgs[1..], b);
      if later.Some? then later
      else if msgs[0].mac.Some? && Name(msgs[0].mac) == b then Some((Rssi(msgs[0].signal), Packets(msgs[0])))
      else None
  }

  function First(k: nat, names: seq<string>): seq<string> { names[..Min(k, |names|)] }

  lemma FirstOfCons(k: nat, b: string, rest: seq<string>)
    ensures First(k + 1, [b] + rest) == [b] + First(k, rest)
  {
  }

  lemma {:induction false} KeptAreFirst(kept: seq<string>, msgs: seq<StaMsg>)
    requires |kept| <= MAX_STAS
    ensures FoldKept(kept, msgs) == kept + First(MAX_STAS - |kept|, Names(msgs))
    decreases msgs
  {
    if msgs != [] {
      var b, rest := Name(msgs[0].mac), Names(msgs[1..]);
      KeptAreFirst(OnStaKept(kept, msgs[0]), msgs[1..]);
      if msgs[0].mac.None? {
        assert Names(msgs) == rest;
      } else if |kept| == MAX_STAS {
        assert First(0, rest) == First(0, Names(msgs));
      } else {
        FirstOfCons(MAX_STAS - |kept| - 1, b, rest);
        assert kept + [b] + First(MAX_STAS - |kept| - 1, rest) == kept + ([b] + First(MAX_STAS - |kept| - 1, rest));
      }
    }
  }

  function Updated(before: map<string, Station>, m: StaMsg): map<string, Station> {
    var b := Name(m.mac);
    if m.mac.None? then before
    else if b in before then before[b := before[b].(rssi := Rssi(m.signal), pkts := Packets(m))]
    else if m.alloc then before[b := Station(b, Rssi(m.signal), Packets(m), m.now)]
    else before
  }

  /** One dump message as a map update. */
  lemma StaMap(t: State, m: StaMsg)
    requires WellKeyed(t.stas)
    ensures WellKeyed(OnSta(t, m).stas)
    ensures AsMap(OnSta(t, m).stas) == Updated(AsMap(t.stas), m)
  {
    if m.mac.Some? {
      var b := Name(m.mac);
      UpdateIsMove(t, b, Rssi(m.signal), Packets(m), m.alloc, m.now);
      if b in Keys(t.stas) {
        StoreRefinesMap(t.stas, b, Rssi(m.signal), Packets(m));
      } else if m.alloc {
        assert OnSta(t, m).stas[1..] == t.stas;
      }
    }
  }

  /** A whole dump: who is listed after it. */
  lemma {:induction false} FoldStaKeys(t: State, msgs: seq<StaMsg>)
    requires WellKeyed(t.stas)
    ensures WellKeyed(FoldSta(t, msgs).stas)
    ensures Keys(FoldSta(t, msgs).stas) == Keys(t.stas) + Allocated(msgs)
    decreases msgs
  {
    if msgs != [] {
      var t1 := OnSta(t, msgs[0]);
      StaMap(t, msgs[0]);
      assert Keys(t1.stas) == AsMap(t1.stas).Keys;
      FoldStaKeys(t1, msgs[1..]);
    }
  }

  /** What b's record holds after a whole dump: the last report of b, if any, and its old association time. */
  ghost predicate Reported(before: map<string, Station>, after: map<string, Station>, msgs: seq<StaMsg>, b: string) {
    && (b in before ==> b in after && after[b].assoc == before[b].assoc)
    && (b in after && LastReport(msgs, b).Some? ==> LastReport(msgs, b).value == (after[b].rssi, after[b].pkts))
    && (LastReport(msgs, b).None? ==> (b in before <==> b in after) && (b in before ==> after[b] == before[b]))
  }

  lemma {:induction false} FoldStaReported(t: State, msgs: seq<StaMsg>, b: string)
    requires WellKeyed(t.stas)
    ensures Reported(AsMap(t.stas), AsMap(FoldSta(t, msgs).stas), msgs, b)
    decreases msgs
  {
    if msgs != [] {
      StaMap(t, msgs[0]);
      FoldStaReported(OnSta(t, msgs[0]), msgs[1..], b);
      ReportedCons(AsMap(t.stas), AsMap(FoldSta(t, msgs).stas), msgs, b);
    }
  }

  lemma ReportedCons(before: map<string, Station>, after: map<string, Station>, msgs: seq<StaMsg>, b: string)
    requires msgs != [] && Reported(Updated(before, msgs[0]), after, msgs[1..], b)
    ensures Reported(before, after, msgs, b)
  {
  }

  // ----- the interface dump

  /** The request socket is unicast: its replies to GET_INTERFACE carry no station events. */
  predicate InterfaceOnly(msgs: seq<NlMsg>) {
    forall i :: 0 <= i < |msgs| ==> msgs[i].cmd == OtherCmd
  }

  /** The last report of our interface's type says it is an access point. */
  function ReportsAp(idx: nat, msgs: seq<NlMsg>): bool {
    if msgs == [] then false
    else
      var m := msgs[|msgs| - 1];
      if m.ifindex == Some(idx) && m.iftype.Some? then m.iftype.value == IfAp || m.iftype.value == IfP2pGo
      else ReportsAp(idx, msgs[..|msgs| - 1])
  }

  lemma {:induction false} FoldNetSnoc(t: State, idx: nat, msgs: seq<NlMsg>)
    requires msgs != []
    ensures FoldNet(t, idx, msgs) == OnNetdev(FoldNet(t, idx, msgs[..|msgs| - 1]), idx, msgs[|msgs| - 1])
    decreases msgs
  {
    if |msgs| > 1 {
      FoldNetSnoc(OnNetdev(t, idx, msgs[0]), idx, msgs[1..]);
      assert msgs[1..][..|msgs| - 2] == msgs[..|msgs| - 1][1..];
    }
  }

  lemma {:induction false} InterfacesOnlySetMode(t: State, idx: nat, msgs: seq<NlMsg>)
    requires InterfaceOnly(msgs) && !t.apMode
    ensures FoldNet(t, idx, msgs) == t.(apMode := ReportsAp(idx, msgs))
    decreases msgs
  {
    if msgs != [] {
      FoldNetSnoc(t, idx, msgs);
      InterfacesOnlySetMode(t, idx, msgs[..|msgs| - 1]);
    }
  }

  // ----- the whole refresh

  function IfReplies(w: World): seq<NlMsg> { Libnl.Outcome(w.ifDump).1 }
  function StaReplies(w: World): seq<StaMsg> { Libnl.Outcome(w.staDump).1 }

  /** The first min(64, n) names of the n-entry dump. */
  function FirstNamed(w: World): set<string> { ToSet(First(MAX_STAS, Names(StaReplies(w)))) }

  /** Both dumps were confirmed and the interface reports access-point mode. */
  ghost predicate Completes(t: State, idx: nat, w: World) {
    && w.ready && w.ifMsg && Libnl.Confirmed(w.ifDump) && AfterInterfaces(t, idx, w).apMode
    && w.staMsg && Libnl.Confirmed(w.staDump)
  }

  lemma KeptNamesAreFirst(w: World)
    ensures KeptNames(w) == FirstNamed(w)
  {
    KeptAreFirst([], StaReplies(w));
    assert FoldKept([], StaReplies(w)) == First(MAX_STAS, Names(StaReplies(w)));
  }

  lemma {:induction false} NamedIsReported(msgs: seq<StaMsg>, b: string)
    ensures b in Names(msgs) <==> LastReport(msgs, b).Some?
    ensures (forall i :: 0 <= i < |msgs| ==> msgs[i].alloc) ==> (b in Names(msgs) <==> b in Allocated(msgs))
  {
    if msgs != [] { NamedIsReported(msgs[1..], b); }
  }

  lemma InterfacesKeep(idx: nat, steps: seq<Step>, w: World)
    ensures Consistent(AfterInterfaces(Run(idx, steps), idx, w)) && LedAgrees(AfterInterfaces(Run(idx, steps), idx, w))
    ensures InterfaceOnly(IfReplies(w)) ==>
              AfterInterfaces(Run(idx, steps), idx, w) == Run(idx, steps).(apMode := ReportsAp(idx, IfReplies(w)))
  {
    var t := Run(idx, steps);
    RunKeeps(idx, steps);
    ModeKeeps(t, false);
    FoldNetKeeps(t.(apMode := false), idx, IfReplies(w));
    if InterfaceOnly(IfReplies(w)) {
      InterfacesOnlySetMode(t.(apMode := false), idx, IfReplies(w));
    }
  }

  /**
   * After a completed refresh, whatever was listed before: the listed stations are those among the first 64 dumped
   * that were listed already or found memory; so without allocation failure exactly the first 64 dumped.
   */
  lemma CompleteRefresh(idx: nat, steps: seq<Step>, w: World)
    requires Completes(Run(idx, steps), idx, w)
    ensures var before := AfterInterfaces(Run(idx, steps), idx, w).stas;
            var after := Refresh(Run(idx, steps), idx, w).stas;
            && Keys(after) == FirstNamed(w) * (Keys(before) + Allocated(StaReplies(w)))
            && ((forall i :: 0 <= i < |StaReplies(w)| ==> StaReplies(w)[i].alloc) ==> Keys(after) == FirstNamed(w))
  {
    var t1 := AfterInterfaces(Run(idx, steps), idx, w);
    InterfacesKeep(idx, steps, w);
    Libnl.SuccessMeansConfirmed(w.ifDump);
    Libnl.SuccessMeansConfirmed(w.staDump);
    FoldStaKeys(t1, StaReplies(w));
    RetainKeys(FoldSta(t1, StaReplies(w)).stas, KeptNames(w));
    KeptNamesAreFirst(w);
    if forall i :: 0 <= i < |StaReplies(w)| ==> StaReplies(w)[i].alloc {
      forall b | b in FirstNamed(w)
        ensures b in Allocated(StaReplies(w))
      {
        NamedIsReported(StaReplies(w), b);
      }
    }
  }

  /** Every record after a completed refresh holds the last dumped report; survivors keep their association time. */
  lemma CompleteRefreshRecords(idx: nat, steps: seq<Step>, w: World, b: string)
    requires Completes(Run(idx, steps), idx, w) && InterfaceOnly(IfReplies(w))
    requires b in AsMap(Refresh(Run(idx, steps), idx, w).stas)
    ensures var before, after := AsMap(Run(idx, steps).stas), AsMap(Refresh(Run(idx, steps), idx, w).stas);
            && LastReport(StaReplies(w), b) == Some((after[b].rssi, after[b].pkts))
            && (b in before ==> after[b].assoc == before[b].assoc)
  {
    var t1 := AfterInterfaces(Run(idx, steps), idx, w);
    var t2 := FoldSta(t1, StaReplies(w));
    InterfacesKeep(idx, steps, w);
    Libnl.SuccessMeansConfirmed(w.ifDump);
    Libnl.SuccessMeansConfirmed(w.staDump);
    FoldStaKeys(t1, StaReplies(w));
    RetainMap(t2.stas, KeptNames(w));
    KeptNamesAreFirst(w);
    FoldStaReported(t1, StaReplies(w), b);
    NamedIsReported(StaReplies(w), b);
  }

  /**
   * A refresh removes a listed station exactly when the interface dump was confirmed and either did not report
   * access-point mode, or the station dump was confirmed too and its first 64 entries do not name the station.
   */
  lemma RemovedExactlyWhen(idx: nat, steps: seq<Step>, w: World, b: string)
    requires b in Keys(Run(idx, steps).stas) && InterfaceOnly(IfReplies(w))
    ensures b !in Keys(Refresh(Run(idx, steps), idx, w).stas) <==>
            && w.ready && w.ifMsg && Libnl.Confirmed(w.ifDump)
            && (!ReportsAp(idx, IfReplies(w)) || (w.staMsg && Libnl.Confirmed(w.staDump) && b !in FirstNamed(w)))
  {
    var t1 := AfterInterfaces(Run(idx, steps), idx, w);
    InterfacesKeep(idx, steps, w);
    Libnl.SuccessMeansConfirmed(w.ifDump);
    Libnl.SuccessMeansConfirmed(w.staDump);
    FoldStaKeys(t1, StaReplies(w));
    RetainKeys(t1.stas, {});
    RetainKeys(FoldSta(t1, StaReplies(w)).stas, KeptNames(w));
    KeptNamesAreFirst(w);
  }

  /** A station dump that fails, is interrupted or never ends only grows the list. */
  lemma FailedDumpOnlyGrows(idx: nat, steps: seq<Step>, w: World)
    requires InterfaceOnly(IfReplies(w)) && ReportsAp(idx, IfReplies(w)) && !Libnl.Confirmed(w.staDump)
    ensures Keys(Run(idx, steps).stas) <= Keys(Refresh(Run(idx, steps), idx, w).stas)
  {
    forall b | b in Keys(Run(idx, steps).stas)
      ensures b in Keys(Refresh(Run(idx, steps), idx, w).stas)
    {
      RemovedExactlyWhen(idx, steps, w, b);
    }
  }

  // ----- a station dumped beyond the first 64 joins and leaves in every refresh

  lemma {:induction false} TcpGrows(tr: seq<Event>, more: seq<Event>)
    ensures Tcp(tr) <= Tcp(tr + more)
  {
    if more == [] {
      assert tr + more == tr;
    } else {
      var n := |more| - 1;
      TcpGrows(tr, more[..n]);
      assert tr + more == (tr + more[..n]) + [more[n]];
      LogsSnoc(tr + more[..n], more[n]);
    }
  }

  /** A join that is now the last event naming b, and was not n events into the log, came after those. */
  lemma {:induction false} JoinIsNew(log: seq<TcpEvent>, n: nat, b: string) returns (i: nat)
    requires n <= |log| && LastNaming(log, b) == Some(TcpJoin(b)) && LastNaming(log[..n], b) != Some(TcpJoin(b))
    ensures n <= i < |log| && log[i] == TcpJoin(b)
  {
    var m := |log| - 1;
    assert n != |log| by {
      assert log[..|log|] == log;
    }
    if log[m].b == b {
      i := m;
    } else {
      assert log[..m][..n] == log[..n];
      i := JoinIsNew(log[..m], n, b);
    }
  }

  /** A log in which b's last event is not a join, then is one, then is not again. */
  lemma JoinThenLeave(l1: seq<TcpEvent>, l2: seq<TcpEvent>, l3: seq<TcpEvent>, b: string) returns (i: nat, j: nat)
    requires l1 <= l2 <= l3
    requires LastNaming(l1, b) != Some(TcpJoin(b)) && LastNaming(l2, b) == Some(TcpJoin(b))
    requires LastNaming(l3, b) != Some(TcpJoin(b))
    ensures |l1| <= i < j < |l3| && l3[i] == TcpJoin(b) && l3[j] == TcpLeave(b)
  {
    assert l2[..|l1|] == l1;
    i := JoinIsNew(l2, |l1|, b);
    EveryJoinLeft(l3, b, i);
    j :| i < j < |l3| && l3[j] == TcpLeave(b);
  }

  lemma TcpPrefix(tr: seq<Event>, tr': seq<Event>)
    requires tr <= tr'
    ensures Tcp(tr) <= Tcp(tr')
  {
    TcpGrows(tr, tr'[|tr|..]);
    assert tr + tr'[|tr|..] == tr';
  }

  lemma OverflowingStationFlaps(idx: nat, steps: seq<Step>, w: World, b: string) returns (i: nat, j: nat)
    requires Completes(Run(idx, steps), idx, w)
    requires b in Allocated(StaReplies(w)) && b !in FirstNamed(w)
    requires b !in Keys(AfterInterfaces(Run(idx, steps), idx, w).stas)
    ensures var before := Tcp(AfterInterfaces(Run(idx, steps), idx, w).trace);
            var after := Tcp(Refresh(Run(idx, steps), idx, w).trace);
            |before| <= i < j < |after| && after[i] == TcpJoin(b) && after[j] == TcpLeave(b)
  {
    var t := Run(idx, steps);
    var t1, t' := AfterInterfaces(t, idx, w), Refresh(t, idx, w);
    var t2 := FoldSta(t1, StaReplies(w));
    InterfacesKeep(idx, steps, w);
    Libnl.SuccessMeansConfirmed(w.ifDump);
    Libnl.SuccessMeansConfirmed(w.staDump);
    FoldStaKeys(t1, StaReplies(w));
    FoldStaKeeps(t1, StaReplies(w));
    RemoveStaKeeps(t2, KeptNames(w));
    CompleteRefresh(idx, steps, w);
    DumpReportsNoDeparture(t1, StaReplies(w));
    TcpPrefix(t1.trace, t2.trace);
    TcpPrefix(t2.trace, t'.trace);
    assert Named(t1, b) && Named(t2, b) && Named(t', b);
    i, j := JoinThenLeave(Tcp(t1.trace), Tcp(t2.trace), Tcp(t'.trace), b);
  }

  // ----- sta_mgr_sync_from_list leaves the same stations

  lemma AddKeys(l: Stations, b: string, now: int)
    requires WellKeyed(l) && |b| <= BSSID_CHARS
    ensures WellKeyed(AddTo(l, b, true, now).0)
    ensures Keys(AddTo(l, b, true, now).0) == Keys(l) + ({b} - {""})
  {
    var l' := AddTo(l, b, true, now).0;
    AddRefinesMap(l, b, true, now);
    assert Keys(l') == AsMap(l').Keys && Keys(l) == AsMap(l).Keys;
  }

  lemma ToSetSnoc(bssids: seq<string>, b: string)
    ensures ToSet(bssids + [b]) == ToSet(bssids) + {b}
  {
  }

  lemma {:induction false} AddAllKeys(l: Stations, bssids: seq<string>, env: seq<(bool, int)>)
    requires WellKeyed(l) && |env| == |bssids|
    requires forall i :: 0 <= i < |bssids| ==> env[i].0 && |bssids[i]| <= BSSID_CHARS
    ensures WellKeyed(AddAll(l, bssids, env))
    ensures Keys(AddAll(l, bssids, env)) == Keys(l) + (ToSet(bssids) - {""})
  {
    if bssids != [] {
      var k := |bssids| - 1;
      var l1 := AddAll(l, bssids[..k], env[..k]);
      AddAllKeys(l, bssids[..k], env[..k]);
      AddKeys(l1, bssids[k], env[k].1);
      ToSetSnoc(bssids[..k], bssids[k]);
      assert bssids == bssids[..k] + [bssids[k]];
      assert AddAll(l, bssids, env) == AddTo(l1, bssids[k], true, env[k].1).0;
    }
  }

  /** With memory available, synchronising leaves exactly the non-empty entries of the array. */
  lemma SyncLeavesEntries(l: Stations, bssids: seq<string>, env: seq<(bool, int)>)
    requires WellKeyed(l) && |env| == |bssids|
    requires forall i :: 0 <= i < |bssids| ==> env[i].0 && |bssids[i]| <= BSSID_CHARS
    ensures Keys(Retain(AddAll(l, bssids, env), ToSet(bssids))) == ToSet(bssids) - {""}
  {
    AddAllKeys(l, bssids, env);
    RetainKeys(AddAll(l, bssids, env), ToSet(bssids));
    forall b | b in Keys(l)
      ensures b != ""
    {
      EmptyIsNoKey(l);
    }
  }

  lemma {:induction false} EmptyIsNoKey(l: Stations)
    requires WellKeyed(l)
    ensures "" !in Keys(l)
  {
    if l != [] { EmptyIsNoKey(l[1..]); }
  }

  lemma {:induction false} NamesFit(msgs: seq<StaMsg>)
    ensures forall i :: 0 <= i < |Names(msgs)| ==> |Names(msgs)[i]| == BSSID_CHARS
  {
    if msgs != [] { NamesFit(msgs[1..]); }
  }

  /** For a dump of at most 64 stations the refresh and the synchronisation leave the same stations. */
  lemma SyncAgreesWithRefresh(idx: nat, steps: seq<Step>, w: World, l: Stations, env: seq<(bool, int)>)
    requires Completes(Run(idx, steps), idx, w)
    requires |Names(StaReplies(w))| <= MAX_STAS && |env| == |Names(StaReplies(w))|
    requires forall i :: 0 <= i < |env| ==> env[i].0
    requires forall i :: 0 <= i < |StaReplies(w)| ==> StaReplies(w)[i].alloc
    requires WellKeyed(l)
    ensures var names := Names(StaReplies(w));
            Keys(Refresh(Run(idx, steps), idx, w).stas) == Keys(Retain(AddAll(l, names, env), ToSet(names)))
  {
    var names := Names(StaReplies(w));
    CompleteRefresh(idx, steps, w);
    NamesFit(StaReplies(w));
    SyncLeavesEntries(l, names, env);
    assert First(MAX_STAS, names) == names;
  }

  // ----- the wlinkd manual says `sta_leave` is pushed when the last station leaves

  /** What a step emits. */
  function Emitted(t: State, t': State): seq<Event>
    requires |t.trace| <= |t'.trace|
  {
    t'.trace[|t.trace|..]
  }

  /** For a kernel event that is so, except that a DEL_STATION also pushes it when no station was listed at all. */
  lemma LeavePushedExactlyWhen(idx: nat, steps: seq<Step>, m: NlMsg)
    ensures var t := Run(idx, steps);
            var t' := OnNetdev(t, idx, m);
            && |t.trace| <= |t'.trace|
            && ((LedOff in Emitted(t, t') <==> t.stas != [] && t'.stas == []) <==>
                !(m.ifindex == Some(idx) && m.cmd == DelStation && m.mac.Some? && t.stas == []))
  {
    var t := Run(idx, steps);
    var t' := OnNetdev(t, idx, m);
    if m.ifindex == Some(idx) && m.cmd == DelStation && m.mac.Some? {
      var e := [Leave(Name(m.mac))] + if |t'.stas| == 0 then [LedOff] else [];
      assert t'.trace == t.trace + e;
      assert Emitted(t, t') == e;
      assert |t'.stas| == 0 ==> e[1] == LedOff;
    }
  }

  lemma LeavePushedOnEmptyList(mac: Mac)
    ensures var m := NlMsg(Some(3), DelStation, Some(mac), None, true, 0);
            LedOff in OnNetdev(Run(3, []), 3, m).trace && Run(3, []).stas == []
  {
  }

  /** Events that report neither a leave nor an empty list. */
  predicate NoDeparture(es: seq<Event>) { forall i :: 0 <= i < |es| ==> !es[i].Leave? && !es[i].LedOff? }

  lemma EmittedInTwo(t: State, t1: State, t2: State)
    requires t.trace <= t1.trace <= t2.trace
    ensures Emitted(t, t2) == Emitted(t, t1) + Emitted(t1, t2)
  {
  }

  lemma StaReportsNoDeparture(t: State, m: StaMsg)
    ensures t.trace <= OnSta(t, m).trace && NoDeparture(Emitted(t, OnSta(t, m)))
  {
  }

  lemma {:induction false} DumpReportsNoDeparture(t: State, msgs: seq<StaMsg>)
    ensures t.trace <= FoldSta(t, msgs).trace && NoDeparture(Emitted(t, FoldSta(t, msgs)))
    decreases msgs
  {
    if msgs != [] {
      var t1 := OnSta(t, msgs[0]);
      var t2 := FoldSta(t1, msgs[1..]);
      StaReportsNoDeparture(t, msgs[0]);
      DumpReportsNoDeparture(t1, msgs[1..]);
      EmittedInTwo(t, t1, t2);
    }
  }

  lemma {:induction false} LeavesAreLeaves(l: Stations, keep: set<string>)
    ensures forall i :: 0 <= i < |Leaves(l, keep)| ==> Leaves(l, keep)[i].Leave?
  {
    if l != [] { LeavesAreLeaves(l[1..], keep); }
  }

  /** `sta_leave` was pushed exactly when a leave was reported and nobody is left. */
  ghost predicate PushRule(es: seq<Event>, t': State) {
    LedOff in es <==> t'.stas == [] && exists i :: 0 <= i < |es| && es[i].Leave?
  }

  lemma RemovalObeysRule(t: State, keep: set<string>)
    ensures |t.trace| <= |RemoveSta(t, keep).trace| && PushRule(Emitted(t, RemoveSta(t, keep)), RemoveSta(t, keep))
  {
    var gone, t' := Leaves(t.stas, keep), RemoveSta(t, keep);
    LeavesAreLeaves(t.stas, keep);
    var off: seq<Event> := if |gone| > 0 && |t'.stas| == 0 then [LedOff] else [];
    assert Emitted(t, t') == gone + off;
    assert |gone| > 0 ==> (gone + off)[0].Leave?;
    assert off != [] ==> (gone + off)[|gone|] == LedOff;
  }

  lemma QuietPrefixObeysRule(quiet: seq<Event>, es: seq<Event>, t': State)
    requires NoDeparture(quiet) && PushRule(es, t')
    ensures PushRule(quiet + es, t')
  {
    var all := quiet + es;
    assert forall i :: 0 <= i < |es| ==> all[|quiet| + i] == es[i];
  }

  lemma DumpObeysRule(t: State, msgs: seq<StaMsg>, keep: set<string>)
    ensures var t2 := FoldSta(t, msgs);
            var t3 := RemoveSta(t2, keep);
            && |t.trace| <= |t2.trace| <= |t3.trace| && PushRule(Emitted(t, t2), t2) && PushRule(Emitted(t, t3), t3)
  {
    var t2 := FoldSta(t, msgs);
    var t3 := RemoveSta(t2, keep);
    DumpReportsNoDeparture(t, msgs);
    RemovalObeysRule(t2, keep);
    QuietPrefixObeysRule(Emitted(t, t2), Emitted(t2, t3), t3);
    EmittedInTwo(t, t2, t3);
  }

  /** For a refresh the documented rule holds, on each of its exits. */
  lemma RefreshPushesLeaveExactlyWhen(idx: nat, steps: seq<Step>, w: World)
    requires InterfaceOnly(IfReplies(w))
    ensures var t := Run(idx, steps);
            var t' := Refresh(t, idx, w);
            && |t.trace| <= |t'.trace|
            && (LedOff in Emitted(t, t') <==>
                t'.stas == [] && exists i :: 0 <= i < |Emitted(t, t')| && Emitted(t, t')[i].Leave?)
  {
    var t := Run(idx, steps);
    var t', t1 := Refresh(t, idx, w), AfterInterfaces(t, idx, w);
    InterfacesOnlySetMode(t.(apMode := false), idx, IfReplies(w));
    assert t1.trace == t.trace;
    RemovalObeysRule(t1, {});
    DumpObeysRule(t1, StaReplies(w), KeptNames(w));
    assert PushRule(Emitted(t, t'), t');
  }
}
