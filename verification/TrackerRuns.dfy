/** What every run of the poll loop keeps between the list and the two event logs. */
module TrackerRuns {
  import opened Text
  import opened Bssids
  import opened StationLists
  import opened Tracker
  import Libnl

  // ----- what a log says

  /** The LED after the pushes of a log: `sta_join` and `traffic` leave it lit, `sta_leave` dark. */
  function Lit(log: seq<IpcEvent>): bool { log != [] && log[|log| - 1] != StaLeave }

  /** The last event of a log that names b. */
  function LastNaming(log: seq<TcpEvent>, b: string): Option<TcpEvent> {
    if log == [] then None
    else if log[|log| - 1].b == b then Some(log[|log| - 1])
    else LastNaming(log[..|log| - 1], b)
  }

  /** Between two joins of b there is always a leave of b. */
  ghost predicate JoinsAlternate(log: seq<TcpEvent>, b: string) {
    forall i, j :: 0 <= i < j < |log| && log[i] == log[j] == TcpJoin(b) ==>
                     exists k :: i < k < j && log[k] == TcpLeave(b)
  }

  /** The same, event by event: b joins only when the last event naming it is not a join. */
  predicate Alternates(log: seq<TcpEvent>, b: string) {
    log != [] ==>
      var n := |log| - 1;
      Alternates(log[..n], b) && (log[n] == TcpJoin(b) ==> LastNaming(log[..n], b) != Some(TcpJoin(b)))
  }

  /** The packet totals stored for b since its last leave. */
  function Totals(tr: seq<Event>, b: string): seq<nat> {
    if tr == [] then [] else NextTotals(Totals(tr[..|tr| - 1], b), tr[|tr| - 1], b)
  }

  function NextTotals(before: seq<nat>, e: Event, b: string): seq<nat> {
    if e.Total? && e.b == b then before + [e.pkts] else if e == Leave(b) then [] else before
  }

  /** The traffic reports for b since its last leave. */
  function TrafficReports(tr: seq<Event>, b: string): nat {
    if tr == [] then 0 else NextTraffic(TrafficReports(tr[..|tr| - 1], b), tr[|tr| - 1], b)
  }

  function NextTraffic(before: nat, e: Event, b: string): nat {
    if e == Traffic(b) then before + 1 else if e == Leave(b) then 0 else before
  }

  /** How often a sequence strictly rises. */
  function Ascents(s: seq<nat>): nat {
    if |s| < 2 then 0
    else Ascents(s[..|s| - 1]) + if s[|s| - 2] < s[|s| - 1] then 1 else 0
  }

  // ----- the invariants

  /** b is listed exactly when the last TCP event naming it is its join, and its joins alternate with leaves. */
  ghost predicate Named(t: State, b: string) {
    && (b in Keys(t.stas) <==> LastNaming(Tcp(t.trace), b) == Some(TcpJoin(b)))
    && Alternates(Tcp(t.trace), b)
  }

  /** The traffic reports for b count the rises of its stored totals, the last of which its record holds. */
  ghost predicate Counted(t: State, b: string) {
    var totals := Totals(t.trace, b);
    && TrafficReports(t.trace, b) == Ascents(totals)
    && (b !in Keys(t.stas) ==> totals == [])
    && (b in Keys(t.stas) ==> totals != [] && totals[|totals| - 1] == AsMap(t.stas)[b].pkts)
  }

  ghost predicate Consistent(t: State) {
    && WellKeyed(t.stas)
    && forall b: string :: Named(t, b) && Counted(t, b)
  }

  predicate LedAgrees(t: State) { Lit(Ipc(t.trace)) <==> t.stas != [] }

  // ----- appending one event

  lemma LogsSnoc(tr: seq<Event>, e: Event)
    ensures Ipc(tr + [e]) == Ipc(tr) + IpcOf(e)
    ensures Tcp(tr + [e]) == Tcp(tr) + TcpOf(e)
    ensures IpcOf(e) == [] ==> Ipc(tr + [e]) == Ipc(tr)
    ensures TcpOf(e) == [] ==> Tcp(tr + [e]) == Tcp(tr)
  {
  }

  lemma CountsSnoc(tr: seq<Event>, e: Event, b: string)
    ensures Totals(tr + [e], b) == NextTotals(Totals(tr, b), e, b)
    ensures TrafficReports(tr + [e], b) == NextTraffic(TrafficReports(tr, b), e, b)
  {
  }

  lemma LastNamingSnoc(log: seq<TcpEvent>, e: TcpEvent, b: string)
    ensures LastNaming(log + [e], b) == if e.b == b then Some(e) else LastNaming(log, b)
  {
  }

  /** A b whose last event is not a join has left after each of its joins. */
  lemma {:induction false} EveryJoinLeft(log: seq<TcpEvent>, b: string, i: nat)
    requires i < |log| && log[i] == TcpJoin(b) && LastNaming(log, b) != Some(TcpJoin(b))
    ensures exists k :: i < k < |log| && log[k] == TcpLeave(b)
  {
    var n := |log| - 1;
    if log[n].b != b {
      EveryJoinLeft(log[..n], b, i);
      var k :| i < k < n && log[..n][k] == TcpLeave(b);
      assert log[k] == TcpLeave(b);
    } else {
      assert log[n] == TcpLeave(b);
    }
  }

  lemma AlternatesSnoc(log: seq<TcpEvent>, e: TcpEvent, b: string)
    requires Alternates(log, b)
    requires e == TcpJoin(b) ==> LastNaming(log, b) != Some(TcpJoin(b))
    ensures Alternates(log + [e], b)
  {
    assert (log + [e])[..|log|] == log;
  }

  lemma {:induction false} AlternatesMeans(log: seq<TcpEvent>, b: string, i: nat, j: nat)
    requires Alternates(log, b) && i < j < |log| && log[i] == log[j] == TcpJoin(b)
    ensures exists k :: i < k < j && log[k] == TcpLeave(b)
  {
    var n := |log| - 1;
    if j == n {
      EveryJoinLeft(log[..n], b, i);
    } else {
      AlternatesMeans(log[..n], b, i, j);
    }
    var k :| i < k < j && log[..n][k] == TcpLeave(b);
    assert log[k] == TcpLeave(b);
  }

  // ----- the three moves every handler is made of

  function Admit(t: State, s: Station): State {
    t.(stas := [s] + t.stas, trace := t.trace + [Total(s.bssid, s.pkts)] + [Join(s.bssid)])
  }

  function Touch(t: State, b: string, rssi: int, total: nat): State {
    var i := IndexOf(t.stas, b);
    if i == |t.stas| then t
    else
      t.(stas := Store(t.stas, b, rssi, total), trace := Touched(t.trace, b, total, total > t.stas[i].pkts))
  }

  function Drop(t: State, b: string): State {
    t.(stas := RemoveFrom(t.stas, b), trace := t.trace + [Leave(b)])
  }

  lemma AdmitNamed(t: State, s: Station, x: string)
    requires Named(t, x) && Named(t, s.bssid) && s.bssid !in Keys(t.stas)
    ensures Named(Admit(t, s), x)
  {
    var t', b, stored := Admit(t, s), s.bssid, t.trace + [Total(s.bssid, s.pkts)];
    LogsSnoc(t.trace, Total(b, s.pkts));
    LogsSnoc(stored, Join(b));
    LastNamingSnoc(Tcp(t.trace), TcpJoin(b), x);
    AlternatesSnoc(Tcp(t.trace), TcpJoin(b), x);
    assert t'.stas[1..] == t.stas;
  }

  lemma AdmitCounted(t: State, s: Station, x: string)
    requires Counted(t, x) && s.bssid !in Keys(t.stas)
    ensures Counted(Admit(t, s), x)
  {
  }

  /** The trace a refreshed record leaves. */
  function Touched(tr: seq<Event>, b: string, total: nat, active: bool): seq<Event> {
    if active then tr + [Total(b, total)] + [Traffic(b)] else tr + [Total(b, total)]
  }

  lemma TouchedLogs(tr: seq<Event>, b: string, total: nat, active: bool)
    ensures Tcp(Touched(tr, b, total, active)) == Tcp(tr)
    ensures Ipc(Touched(tr, b, total, active)) == Ipc(tr) + if active then [StaTraffic] else []
  {
    LogsSnoc(tr, Total(b, total));
    LogsSnoc(tr + [Total(b, total)], Traffic(b));
  }

  lemma TouchNamed(t: State, b: string, rssi: int, total: nat, x: string)
    requires WellKeyed(t.stas) && Named(t, x) && b in Keys(t.stas)
    ensures Named(Touch(t, b, rssi, total), x)
  {
    StoreRefinesMap(t.stas, b, rssi, total);
    TouchedLogs(t.trace, b, total, total > t.stas[IndexOf(t.stas, b)].pkts);
  }

  lemma TouchCounted(t: State, b: string, rssi: int, total: nat, x: string)
    requires WellKeyed(t.stas) && Counted(t, x) && b in Keys(t.stas)
    ensures Counted(Touch(t, b, rssi, total), x)
  {
    var t' := Touch(t, b, rssi, total);
    StoreRefinesMap(t.stas, b, rssi, total);
    FoundIsEntry(t.stas, b);
    TouchCounts(t.trace, b, total, total > AsMap(t.stas)[b].pkts, x);
    if x == b {
      assert AsMap(t'.stas)[b].pkts == total;
      AscentsSnoc(Totals(t.trace, b), total);
    } else {
      assert x in Keys(t.stas) ==> AsMap(t'.stas)[x] == AsMap(t.stas)[x];
    }
  }

  lemma TouchCounts(tr: seq<Event>, b: string, total: nat, active: bool, x: string)
    ensures var tr' := Touched(tr, b, total, active);
            && Totals(tr', x) == (if x == b then Totals(tr, x) + [total] else Totals(tr, x))
            && TrafficReports(tr', x) == TrafficReports(tr, x) + if x == b && active then 1 else 0
  {
  }

  lemma AscentsSnoc(s: seq<nat>, v: nat)
    ensures Ascents(s + [v]) == Ascents(s) + if s != [] && s[|s| - 1] < v then 1 else 0
  {
  }

  lemma DropNamed(t: State, b: string, x: string)
    requires WellKeyed(t.stas) && Named(t, x)
    ensures Named(Drop(t, b), x)
  {
    RemoveRefinesMap(t.stas, b);
    LogsSnoc(t.trace, Leave(b));
    LastNamingSnoc(Tcp(t.trace), TcpLeave(b), x);
    AlternatesSnoc(Tcp(t.trace), TcpLeave(b), x);
  }

  lemma DropCounted(t: State, b: string, x: string)
    requires WellKeyed(t.stas) && Counted(t, x)
    ensures Counted(Drop(t, b), x)
  {
    var t' := Drop(t, b);
    RemoveRefinesMap(t.stas, b);
    CountsSnoc(t.trace, Leave(b), x);
    assert x != b && x in Keys(t.stas) ==> AsMap(t'.stas)[x] == AsMap(t.stas)[x];
  }

  // ----- the moves keep every invariant of the list and the TCP log

  lemma AdmitKeeps(t: State, s: Station)
    requires Consistent(t) && s.bssid !in Keys(t.stas) && 0 < |s.bssid| <= BSSID_CHARS
    ensures Consistent(Admit(t, s))
    ensures LedAgrees(Admit(t, s))
  {
    assert Admit(t, s).stas[1..] == t.stas;
    forall x: string
      ensures Named(Admit(t, s), x) && Counted(Admit(t, s), x)
    {
      assert Named(t, x) && Counted(t, x) && Named(t, s.bssid);
      AdmitNamed(t, s, x);
      AdmitCounted(t, s, x);
    }
    LogsSnoc(t.trace + [Total(s.bssid, s.pkts)], Join(s.bssid));
  }

  lemma TouchKeeps(t: State, b: string, rssi: int, total: nat)
    requires Consistent(t) && b in Keys(t.stas)
    ensures Consistent(Touch(t, b, rssi, total))
  {
    var t' := Touch(t, b, rssi, total);
    StoreRefinesMap(t.stas, b, rssi, total);
    forall x: string
      ensures Named(t', x) && Counted(t', x)
    {
      assert Named(t, x) && Counted(t, x);
      TouchNamed(t, b, rssi, total, x);
      TouchCounted(t, b, rssi, total, x);
    }
  }

  lemma TouchKeepsLed(t: State, b: string, rssi: int, total: nat)
    requires LedAgrees(t) && b in Keys(t.stas)
    ensures LedAgrees(Touch(t, b, rssi, total))
  {
    var active := total > t.stas[IndexOf(t.stas, b)].pkts;
    assert t.stas != [];
    StoreKeepsLength(t.stas, b, rssi, total);
    TouchedLogs(t.trace, b, total, active);
    TrafficKeepsLit(Ipc(t.trace), active);
  }

  lemma TrafficKeepsLit(log: seq<IpcEvent>, active: bool)
    requires Lit(log)
    ensures Lit(log + if active then [StaTraffic] else [])
  {
    assert log + [] == log;
  }

  lemma DropKeeps(t: State, b: string)
    requires Consistent(t)
    ensures Consistent(Drop(t, b))
    ensures Ipc(Drop(t, b).trace) == Ipc(t.trace)
  {
    RemoveRefinesMap(t.stas, b);
    forall x: string
      ensures Named(Drop(t, b), x) && Counted(Drop(t, b), x)
    {
      assert Named(t, x) && Counted(t, x);
      DropNamed(t, b, x);
      DropCounted(t, b, x);
    }
    LogsSnoc(t.trace, Leave(b));
  }

  /** Reporting the list empty when it is. */
  lemma LedOffKeeps(t: State)
    requires Consistent(t) && t.stas == []
    ensures Consistent(t.(trace := t.trace + [LedOff])) && LedAgrees(t.(trace := t.trace + [LedOff]))
  {
    var t' := t.(trace := t.trace + [LedOff]);
    forall x: string
      ensures Named(t', x) && Counted(t', x)
    {
      assert Named(t, x) && Counted(t, x);
      LedOffNames(t, x);
    }
    LogsSnoc(t.trace, LedOff);
  }

  lemma LedOffNames(t: State, x: string)
    requires Named(t, x) && Counted(t, x)
    ensures Named(t.(trace := t.trace + [LedOff]), x) && Counted(t.(trace := t.trace + [LedOff]), x)
  {
    LogsSnoc(t.trace, LedOff);
    CountsSnoc(t.trace, LedOff, x);
  }

  lemma ModeKeeps(t: State, mode: bool)
    requires Consistent(t)
    ensures Consistent(t.(apMode := mode))
    ensures LedAgrees(t) ==> LedAgrees(t.(apMode := mode))
  {
    forall x: string
      ensures Named(t.(apMode := mode), x) && Counted(t.(apMode := mode), x)
    {
      assert Named(t, x) && Counted(t, x);
    }
  }

  // ----- the handlers

  /** A DEL_STATION: the station goes and, if that leaves nobody, the empty list is reported. */
  lemma DepartureKeeps(t: State, b: string)
    requires Consistent(t) && LedAgrees(t)
    ensures var l := RemoveFrom(t.stas, b);
            var t' := t.(stas := l, trace := t.trace + [Leave(b)] + if |l| == 0 then [LedOff] else []);
            Consistent(t') && LedAgrees(t')
  {
    var d := Drop(t, b);
    DropKeeps(t, b);
    if d.stas == [] {
      LedOffKeeps(d);
    } else {
      assert d.trace + [] == d.trace;
    }
  }

  lemma NetdevKeeps(t: State, idx: nat, m: NlMsg)
    requires Consistent(t) && LedAgrees(t)
    ensures Consistent(OnNetdev(t, idx, m)) && LedAgrees(OnNetdev(t, idx, m))
  {
    var t', b := OnNetdev(t, idx, m), Name(m.mac);
    if m.ifindex == Some(idx) {
      match m.cmd {
        case NewStation =>
          if t' != t {
            assert t.trace + [Total(b, 0), Join(b)] == t.trace + [Total(b, 0)] + [Join(b)];
            assert t' == Admit(t, Station(b, 0, 0, m.now));
            AdmitKeeps(t, Station(b, 0, 0, m.now));
          }
        case DelStation =>
          if b != "" { DepartureKeeps(t, b); }
        case OtherCmd =>
          ModeKeeps(t, t'.apMode);
      }
    }
  }

  lemma UpdateIsMove(t: State, b: string, rssi: int, total: nat, alloc: bool, now: int)
    requires 0 < |b| <= BSSID_CHARS
    ensures UpdateSta(t, b, rssi, total, alloc, now) ==
            if b in Keys(t.stas) then Touch(t, b, rssi, total)
            else if alloc then Admit(t, Station(b, rssi, total, now))
            else t
  {
  }

  lemma StaKeeps(t: State, m: StaMsg)
    requires Consistent(t) && LedAgrees(t)
    ensures Consistent(OnSta(t, m)) && LedAgrees(OnSta(t, m))
  {
    if m.mac.Some? {
      var b := Name(m.mac);
      UpdateIsMove(t, b, Rssi(m.signal), Packets(m), m.alloc, m.now);
      if b in Keys(t.stas) {
        TouchKeeps(t, b, Rssi(m.signal), Packets(m));
        TouchKeepsLed(t, b, Rssi(m.signal), Packets(m));
      } else if m.alloc {
        AdmitKeeps(t, Station(b, Rssi(m.signal), Packets(m), m.now));
      }
    }
  }

  /** The end of a traversal that has kept `done` and has `rest` still ahead. */
  function Swept(t: State, done: Stations, rest: Stations, keep: set<string>): State {
    t.(stas := done + Retain(rest, keep), trace := t.trace + Leaves(rest, keep))
  }

  lemma SweptPastKept(t: State, done: Stations, rest: Stations, keep: set<string>)
    requires rest != [] && rest[0].bssid in keep
    ensures Swept(t, done, rest, keep) == Swept(t, done + [rest[0]], rest[1..], keep)
    ensures done + rest == done + [rest[0]] + rest[1..]
  {
    assert rest == [rest[0]] + rest[1..];
    assert done + [rest[0]] + Retain(rest[1..], keep) == done + Retain(rest, keep);
    assert Leaves(rest, keep) == Leaves(rest[1..], keep);
  }

  lemma SweptPastDropped(t: State, done: Stations, rest: Stations, keep: set<string>)
    requires rest != [] && rest[0].bssid !in keep && Keys(done) <= keep && t.stas == done + rest
    ensures Swept(t, done, rest, keep) == Swept(Drop(t, rest[0].bssid), done, rest[1..], keep)
    ensures Drop(t, rest[0].bssid).stas == done + rest[1..]
  {
    var b := rest[0].bssid;
    SplitFirst(rest);
    Assoc(done, [rest[0]], rest[1..]);
    RemoveMiddle(done, rest[0], rest[1..]);
    assert Retain(rest, keep) == Retain(rest[1..], keep);
    Assoc(t.trace, [Leave(b)], Leaves(rest[1..], keep));
  }

  lemma {:induction false} SweepKeeps(t: State, done: Stations, rest: Stations, keep: set<string>)
    requires Consistent(t) && t.stas == done + rest && Keys(done) <= keep
    ensures Consistent(Swept(t, done, rest, keep))
    ensures Ipc(Swept(t, done, rest, keep).trace) == Ipc(t.trace)
    decreases |rest|
  {
    if rest == [] {
      assert Swept(t, done, rest, keep) == t;
    } else if rest[0].bssid in keep {
      SweptPastKept(t, done, rest, keep);
      KeysAppend(done, [rest[0]]);
      SweepKeeps(t, done + [rest[0]], rest[1..], keep);
    } else {
      SweptPastDropped(t, done, rest, keep);
      DropKeeps(t, rest[0].bssid);
      SweepKeeps(Drop(t, rest[0].bssid), done, rest[1..], keep);
    }
  }

  lemma {:induction false} NoLeaves(l: Stations, keep: set<string>)
    ensures Leaves(l, keep) == [] <==> Keys(l) <= keep
    ensures |Retain(l, keep)| + |Leaves(l, keep)| == |l|
  {
    if l != [] { NoLeaves(l[1..], keep); }
  }

  lemma RemoveStaKeeps(t: State, keep: set<string>)
    requires Consistent(t) && LedAgrees(t)
    ensures Consistent(RemoveSta(t, keep)) && LedAgrees(RemoveSta(t, keep))
  {
    var gone, l := Leaves(t.stas, keep), Retain(t.stas, keep);
    var swept := Swept(t, [], t.stas, keep);
    assert [] + t.stas == t.stas && [] + l == l;
    SweepKeeps(t, [], t.stas, keep);
    NoLeaves(t.stas, keep);
    if |gone| > 0 && |l| == 0 {
      LedOffKeeps(swept);
      assert RemoveSta(t, keep) == swept.(trace := swept.trace + [LedOff]);
    } else {
      assert RemoveSta(t, keep) == swept;
    }
  }

  lemma {:induction false} FoldNetKeeps(t: State, idx: nat, msgs: seq<NlMsg>)
    requires Consistent(t) && LedAgrees(t)
    ensures Consistent(FoldNet(t, idx, msgs)) && LedAgrees(FoldNet(t, idx, msgs))
    decreases msgs
  {
    if msgs != [] {
      NetdevKeeps(t, idx, msgs[0]);
      FoldNetKeeps(OnNetdev(t, idx, msgs[0]), idx, msgs[1..]);
    }
  }

  lemma {:induction false} FoldStaKeeps(t: State, msgs: seq<StaMsg>)
    requires Consistent(t) && LedAgrees(t)
    ensures Consistent(FoldSta(t, msgs)) && LedAgrees(FoldSta(t, msgs))
    decreases msgs
  {
    if msgs != [] {
      StaKeeps(t, msgs[0]);
      FoldStaKeeps(OnSta(t, msgs[0]), msgs[1..]);
    }
  }

  lemma RefreshKeeps(t: State, idx: nat, w: World)
    requires Consistent(t) && LedAgrees(t)
    ensures Consistent(Refresh(t, idx, w)) && LedAgrees(Refresh(t, idx, w))
  {
    ModeKeeps(t, false);
    var t1 := AfterInterfaces(t, idx, w);
    FoldNetKeeps(t.(apMode := false), idx, Libnl.Outcome(w.ifDump).1);
    RemoveStaKeeps(t1, {});
    var t2 := FoldSta(t1, Libnl.Outcome(w.staDump).1);
    FoldStaKeeps(t1, Libnl.Outcome(w.staDump).1);
    RemoveStaKeeps(t2, KeptNames(w));
  }

  /**
   * Over every run, whatever the kernel, malloc and the sockets answer: the LED log says "lit" exactly when a
   * station is listed, a station is listed exactly when the last TCP event naming it is its join, joins and leaves
   * of a station alternate, and its traffic reports count the rises of its stored totals.
   */
  lemma {:induction false} RunKeeps(idx: nat, steps: seq<Step>)
    ensures LedAgrees(Run(idx, steps))
    ensures WellKeyed(Run(idx, steps).stas)
    ensures forall b: string :: Named(Run(idx, steps), b) && Counted(Run(idx, steps), b)
  {
    if steps == [] {
      forall b: string
        ensures Named(START, b) && Counted(START, b)
      {
      }
    } else {
      var t := Run(idx, steps[..|steps| - 1]);
      RunKeeps(idx, steps[..|steps| - 1]);
      match steps[|steps| - 1] {
        case NetEvent(m) => NetdevKeeps(t, idx, m);
        case Timer(w) => RefreshKeeps(t, idx, w);
      }
    }
  }

  /** Over every run, two joins of a station have a leave of it between them. */
  lemma JoinsAlternateOverRuns(idx: nat, steps: seq<Step>, b: string)
    ensures JoinsAlternate(Tcp(Run(idx, steps).trace), b)
  {
    var log := Tcp(Run(idx, steps).trace);
    RunKeeps(idx, steps);
    assert Named(Run(idx, steps), b);
    forall i, j | 0 <= i < j < |log| && log[i] == log[j] == TcpJoin(b)
      ensures exists k :: i < k < j && log[k] == TcpLeave(b)
    {
      AlternatesMeans(log, b, i, j);
    }
  }

  // ----- where a station's totals start

  lemma AdmitTotals(t: State, s: Station)
    requires Counted(t, s.bssid) && s.bssid !in Keys(t.stas)
    ensures Totals(Admit(t, s).trace, s.bssid) == [s.pkts] && TrafficReports(Admit(t, s).trace, s.bssid) == 0
  {
    var b := s.bssid;
    CountsSnoc(t.trace, Total(b, s.pkts), b);
    CountsSnoc(t.trace + [Total(b, s.pkts)], Join(b), b);
  }

  /** A station that a kernel event adds starts with the total 0 and no traffic report. */
  lemma ArrivalStartsAtZero(t: State, idx: nat, m: NlMsg, b: string)
    requires Consistent(t) && b !in Keys(t.stas) && b in Keys(OnNetdev(t, idx, m).stas)
    ensures var tr := OnNetdev(t, idx, m).trace;
            Totals(tr, b) == [0] && TrafficReports(tr, b) == 0
  {
    var t' := OnNetdev(t, idx, m);
    RemoveRefinesMap(t.stas, Name(m.mac));
    assert m.cmd == NewStation;
    var s := Station(Name(m.mac), 0, 0, m.now);
    assert t'.stas == [s] + t.stas && s.bssid == b;
    assert t'.trace == Admit(t, s).trace;
    assert Counted(t, b);
    AdmitTotals(t, s);
  }

  /** A station that a dump message adds starts with the total of that message and no traffic report. */
  lemma DumpedStartsAtTotal(t: State, m: StaMsg, b: string)
    requires Consistent(t) && b !in Keys(t.stas) && b in Keys(OnSta(t, m).stas)
    ensures var tr := OnSta(t, m).trace;
            Totals(tr, b) == [Packets(m)] && TrafficReports(tr, b) == 0
  {
    var x, t' := Name(m.mac), OnSta(t, m);
    UpdateIsMove(t, x, Rssi(m.signal), Packets(m), m.alloc, m.now);
    if x in Keys(t.stas) {
      StoreRefinesMap(t.stas, x, Rssi(m.signal), Packets(m));
      assert false;
    }
    var s := Station(x, Rssi(m.signal), Packets(m), m.now);
    assert t' == Admit(t, s) && t'.stas[1..] == t.stas;
    assert Counted(t, b);
    AdmitTotals(t, s);
  }

  // ----- the TCP log is a replica of the list

  /** What a client that knows nothing else makes of the log. */
  function Replay(log: seq<TcpEvent>): set<string> {
    if log == [] then {}
    else
      var before := Replay(log[..|log| - 1]);
      match log[|log| - 1]
      case TcpJoin(b) => before + {b}
      case TcpLeave(b) => before - {b}
  }

  lemma {:induction false} ReplayIsLastNaming(log: seq<TcpEvent>, b: string)
    ensures b in Replay(log) <==> LastNaming(log, b) == Some(TcpJoin(b))
  {
    if log != [] { ReplayIsLastNaming(log[..|log| - 1], b); }
  }

  /** Over every run, replaying the TCP log gives exactly the listed stations. */
  lemma ReplayGivesStations(idx: nat, steps: seq<Step>)
    ensures Replay(Tcp(Run(idx, steps).trace)) == Keys(Run(idx, steps).stas)
  {
    var t := Run(idx, steps);
    RunKeeps(idx, steps);
    forall b: string
      ensures b in Replay(Tcp(t.trace)) <==> b in Keys(t.stas)
    {
      assert Named(t, b);
      ReplayIsLastNaming(Tcp(t.trace), b);
    }
  }
}
