/** What one kernel event and one dump message do to the list, as a map, and to the two logs. */
module TrackerEffects {
  import opened Text
  import opened Bssids
  import opened StationLists
  import opened Tracker
  import opened TrackerRuns
  import opened TrackerRefresh
  import opened StationManager
  import Libnl

  /** The logs grew by exactly these pushes. */
  ghost predicate Pushed(t: State, t': State, ipc: seq<IpcEvent>, tcp: seq<TcpEvent>) {
    Ipc(t'.trace) == Ipc(t.trace) + ipc && Tcp(t'.trace) == Tcp(t.trace) + tcp
  }

  lemma AdmitPushes(t: State, s: Station)
    ensures Pushed(t, Admit(t, s), [StaJoin], [TcpJoin(s.bssid)])
  {
    LogsSnoc(t.trace, Total(s.bssid, s.pkts));
    LogsSnoc(t.trace + [Total(s.bssid, s.pkts)], Join(s.bssid));
  }

  lemma TouchPushes(t: State, b: string, rssi: int, total: nat)
    requires WellKeyed(t.stas) && b in AsMap(t.stas)
    ensures Pushed(t, Touch(t, b, rssi, total), if total > AsMap(t.stas)[b].pkts then [StaTraffic] else [], [])
  {
    var active := total > AsMap(t.stas)[b].pkts;
    assert Touch(t, b, rssi, total).trace == Touched(t.trace, b, total, active) by {
      FoundIsEntry(t.stas, b);
    }
    TouchedLogs(t.trace, b, total, active);
    AddNothing(Tcp(t.trace));
  }

  lemma AddNothing<T>(s: seq<T>)
    ensures s + [] == s
  {
  }

  /** NEW_STATION lists its station, with a zeroed record and a join report, unless it is listed or memory ran out. */
  lemma ArrivalLists(t: State, idx: nat, mac: Mac, iftype: Option<IfType>, alloc: bool, now: int)
    requires WellKeyed(t.stas)
    ensures var b := FormatBssid(mac);
            var t' := OnNetdev(t, idx, NlMsg(Some(idx), NewStation, Some(mac), iftype, alloc, now));
            if b !in AsMap(t.stas) && alloc
            then AsMap(t'.stas) == AsMap(t.stas)[b := Station(b, 0, 0, now)] && Pushed(t, t', [StaJoin], [TcpJoin(b)])
            else t' == t
  {
    var b, m := FormatBssid(mac), NlMsg(Some(idx), NewStation, Some(mac), iftype, alloc, now);
    var t' := OnNetdev(t, idx, m);
    AddRefinesMap(t.stas, b, alloc, now);
    if b !in AsMap(t.stas) && alloc {
      assert t.trace + [Total(b, 0), Join(b)] == t.trace + [Total(b, 0)] + [Join(b)];
      assert t' == Admit(t, Station(b, 0, 0, now));
      AdmitPushes(t, Station(b, 0, 0, now));
    }
  }

  /** DEL_STATION unlists its own station and reports its leave, and the empty list if nobody is left. */
  lemma DepartureUnlists(t: State, idx: nat, mac: Mac, iftype: Option<IfType>, alloc: bool, now: int)
    requires WellKeyed(t.stas)
    ensures var b := FormatBssid(mac);
            var t' := OnNetdev(t, idx, NlMsg(Some(idx), DelStation, Some(mac), iftype, alloc, now));
            && AsMap(t'.stas) == AsMap(t.stas) - {b} && t'.apMode == t.apMode
            && Pushed(t, t', if AsMap(t.stas) - {b} == map[] then [StaLeave] else [], [TcpLeave(b)])
  {
    var b := FormatBssid(mac);
    var l := RemoveFrom(t.stas, b);
    RemoveRefinesMap(t.stas, b);
    LogsSnoc(t.trace, Leave(b));
    if l == [] {
      LogsSnoc(t.trace + [Leave(b)], LedOff);
    } else {
      assert l[0].bssid in AsMap(l);
      assert t.trace + [Leave(b)] + [] == t.trace + [Leave(b)];
    }
  }

  /** A message of another interface, or a station event without an address, changes nothing. */
  lemma ForeignChangesNothing(t: State, idx: nat, m: NlMsg)
    requires m.ifindex != Some(idx) || (m.cmd != OtherCmd && m.mac.None?)
    ensures OnNetdev(t, idx, m) == t
  {
  }

  /** Any other message of our interface only says whether it is an access point, if it says its type. */
  lemma ReportSetsMode(t: State, idx: nat, m: NlMsg)
    requires m.ifindex == Some(idx) && m.cmd == OtherCmd
    ensures m.iftype == Some(IfAp) || m.iftype == Some(IfP2pGo) ==> OnNetdev(t, idx, m) == t.(apMode := true)
    ensures m.iftype == Some(IfMonitor) || m.iftype == Some(IfOther) ==> OnNetdev(t, idx, m) == t.(apMode := false)
    ensures m.iftype == None ==> OnNetdev(t, idx, m) == t
  {
  }

  // ----- a dump message

  function Counter(n: Option<U32>): nat { if n.Some? then n.value else 0 }

  /** The signal byte as a signed number of dBm, 0 if absent. */
  function Dbm(signal: Option<Byte>): int {
    if signal.None? then 0 else if signal.value < 128 then signal.value else signal.value - 256
  }

  /** A dump message stores the signal and the sum of both counters in its station's record, if need be a new one. */
  lemma DumpMessageStores(t: State, mac: Mac, signal: Option<Byte>, tx: Option<U32>, rx: Option<U32>, alloc: bool,
                          now: int)
    requires WellKeyed(t.stas)
    ensures var b, sum := FormatBssid(mac), Counter(tx) + Counter(rx);
            var before, t' := AsMap(t.stas), OnSta(t, StaMsg(Some(mac), signal, tx, rx, alloc, now));
            && t'.apMode == t.apMode
            && AsMap(t'.stas) == if b in before then before[b := before[b].(rssi := Dbm(signal), pkts := sum)]
                                 else if alloc then before[b := Station(b, Dbm(signal), sum, now)]
                                 else before
  {
    var m := StaMsg(Some(mac), signal, tx, rx, alloc, now);
    StaMap(t, m);
    assert Packets(m) == Counter(tx) + Counter(rx) && Rssi(signal) == Dbm(signal);
    UpdateIsMove(t, FormatBssid(mac), Rssi(signal), Packets(m), alloc, now);
  }

  /** It reports a join for a station it adds, traffic for a listed one exactly when the sum of its counters rose. */
  lemma DumpMessageReports(t: State, mac: Mac, signal: Option<Byte>, tx: Option<U32>, rx: Option<U32>, alloc: bool,
                           now: int)
    requires WellKeyed(t.stas)
    ensures var b, sum := FormatBssid(mac), Counter(tx) + Counter(rx);
            var before, t' := AsMap(t.stas), OnSta(t, StaMsg(Some(mac), signal, tx, rx, alloc, now));
            if b in before then Pushed(t, t', if sum > before[b].pkts then [StaTraffic] else [], [])
            else if alloc then Pushed(t, t', [StaJoin], [TcpJoin(b)])
            else t' == t
  {
    var b, m := FormatBssid(mac), StaMsg(Some(mac), signal, tx, rx, alloc, now);
    assert Packets(m) == Counter(tx) + Counter(rx);
    UpdateIsMove(t, b, Rssi(signal), Packets(m), alloc, now);
    if b in AsMap(t.stas) {
      TouchPushes(t, b, Rssi(signal), Packets(m));
    } else if alloc {
      AdmitPushes(t, Station(b, Rssi(signal), Packets(m), now));
    }
  }

  lemma NamelessChangesNothing(t: State, m: StaMsg)
    requires m.mac.None?
    ensures OnSta(t, m) == t
  {
  }

  // ----- a refresh

  /** Who is listed after a refresh, on each of its exits, and the mode it leaves. */
  lemma RefreshListsExactly(idx: nat, steps: seq<Step>, w: World)
    ensures var t := Run(idx, steps);
            var t1, t' := AfterInterfaces(t, idx, w), Refresh(t, idx, w);
            && Keys(t'.stas) == (
                 if !w.ready || !w.ifMsg then Keys(t.stas)
                 else if !Libnl.Confirmed(w.ifDump) then Keys(t1.stas)
                 else if !t1.apMode then {}
                 else if !w.staMsg then Keys(t1.stas)
                 else if !Libnl.Confirmed(w.staDump) then Keys(t1.stas) + Allocated(StaReplies(w))
                 else FirstNamed(w) * (Keys(t1.stas) + Allocated(StaReplies(w))))
            && t'.apMode == if !w.ready then t.apMode else w.ifMsg && t1.apMode
  {
    var t1 := AfterInterfaces(Run(idx, steps), idx, w);
    InterfacesKeep(idx, steps, w);
    Libnl.SuccessMeansConfirmed(w.ifDump);
    Libnl.SuccessMeansConfirmed(w.staDump);
    FoldStaKeys(t1, StaReplies(w));
    FoldStaMode(t1, StaReplies(w));
    RetainKeys(t1.stas, {});
    RetainKeys(FoldSta(t1, StaReplies(w)).stas, KeptNames(w));
    KeptNamesAreFirst(w);
  }

  lemma {:induction false} FoldStaMode(t: State, msgs: seq<StaMsg>)
    ensures FoldSta(t, msgs).apMode == t.apMode
    decreases msgs
  {
    if msgs != [] { FoldStaMode(OnSta(t, msgs[0]), msgs[1..]); }
  }

  /** A dump entry past the 64th is not kept: the kept names are the first 64 named. */
  lemma KeepsFirst64(w: World)
    ensures var names := Names(StaReplies(w));
            FirstNamed(w) == ToSet(if |names| < 64 then names else names[..64])
  {
  }
}
