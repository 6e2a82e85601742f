/**
 * The tracker's TCP events as a monitoring client sees them (wlinkd/src/wlan_sta_mgr.c, wlinkd/src/tcp_server.c): what
 * a client that skips nothing can say about the stations.
 */
module Watchers {
  import opened Bssids
  import opened StationLists
  import opened Text
  import opened Tracker
  import opened TrackerRuns
  import opened TrackerRefresh
  import Broadcast = Monitor
  import Subscribers

  // ----- the text of an event, and back

  function Verb(e: TcpEvent): string { if e.TcpJoin? then "sta_join" else "sta_leave" }

  function TextOf(e: TcpEvent): string { Broadcast.PushText(Verb(e), e.b) }

  function Texts(log: seq<TcpEvent>): seq<string> { seq(|log|, i requires 0 <= i < |log| => TextOf(log[i])) }

  const JOIN := "sta_join "
  const LEAVE := "sta_leave "

  /** What a client makes of one line. */
  function Decode(text: string): seq<TcpEvent> {
    if JOIN <= text then [TcpJoin(text[|JOIN|..])]
    else if LEAVE <= text then [TcpLeave(text[|LEAVE|..])]
    else []
  }

  /** What it makes of all it has read. */
  function DecodeAll(got: seq<(nat, string)>): seq<TcpEvent> {
    if got == [] then [] else DecodeAll(got[..|got| - 1]) + Decode(got[|got| - 1].1)
  }

  lemma DecodeOfText(e: TcpEvent)
    requires |e.b| <= BSSID_CHARS
    ensures TextOf(e) == (if e.TcpJoin? then "sta_join " else "sta_leave ") + e.b
    ensures Decode(TextOf(e)) == [e]
  {
    var t := TextOf(e);
    Broadcast.PushedWholeExactlyWhen(Verb(e), e.b);
    if e.TcpJoin? {
      assert t == JOIN + e.b;
    } else {
      assert t == LEAVE + e.b;
      assert t[4] == LEAVE[4] == 'l' && JOIN[4] == 'j';
    }
  }

  // ----- every event of a run names a station in at most 17 characters

  predicate Fits(e: Event) { e.Join? || e.Leave? ==> |e.b| <= BSSID_CHARS }

  predicate AllFit(tr: seq<Event>) { forall i :: 0 <= i < |tr| ==> Fits(tr[i]) }

  lemma {:induction false} LeavesFit(l: Stations, keep: set<string>)
    requires WellKeyed(l)
    ensures AllFit(Leaves(l, keep))
  {
    if l != [] { LeavesFit(l[1..], keep); }
  }

  lemma RemoveStaFits(t: State, keep: set<string>)
    requires WellKeyed(t.stas) && AllFit(t.trace)
    ensures AllFit(RemoveSta(t, keep).trace)
  {
    LeavesFit(t.stas, keep);
  }

  lemma {:induction false} FoldNetFits(t: State, idx: nat, msgs: seq<NlMsg>)
    requires AllFit(t.trace)
    ensures AllFit(FoldNet(t, idx, msgs).trace)
    decreases msgs
  {
    if msgs != [] { FoldNetFits(OnNetdev(t, idx, msgs[0]), idx, msgs[1..]); }
  }

  lemma {:induction false} FoldStaFits(t: State, msgs: seq<StaMsg>)
    requires AllFit(t.trace)
    ensures AllFit(FoldSta(t, msgs).trace)
    decreases msgs
  {
    if msgs != [] { FoldStaFits(OnSta(t, msgs[0]), msgs[1..]); }
  }

  lemma RefreshFits(idx: nat, steps: seq<Step>, w: World)
    requires AllFit(Run(idx, steps).trace)
    ensures AllFit(Refresh(Run(idx, steps), idx, w).trace)
  {
    var t := Run(idx, steps);
    var t1 := AfterInterfaces(t, idx, w);
    InterfacesKeep(idx, steps, w);
    FoldNetFits(t.(apMode := false), idx, IfReplies(w));
    FoldStaFits(t1, StaReplies(w));
    FoldStaKeys(t1, StaReplies(w));
    RemoveStaFits(t1, {});
    RemoveStaFits(FoldSta(t1, StaReplies(w)), KeptNames(w));
  }

  lemma {:induction false} RunFits(idx: nat, steps: seq<Step>)
    ensures AllFit(Run(idx, steps).trace)
  {
    if steps != [] {
      var n := |steps| - 1;
      RunFits(idx, steps[..n]);
      match steps[n] {
        case NetEvent(m) => FoldNetFits(Run(idx, steps[..n]), idx, [m]);
        case Timer(w) => RefreshFits(idx, steps[..n], w);
      }
    }
  }

  predicate LogFits(log: seq<TcpEvent>) { forall i :: 0 <= i < |log| ==> |log[i].b| <= BSSID_CHARS }

  lemma {:induction false} TraceLogFits(tr: seq<Event>)
    requires AllFit(tr)
    ensures LogFits(Tcp(tr))
  {
    if tr != [] { TraceLogFits(tr[..|tr| - 1]); }
  }

  // ----- logs

  lemma {:induction false} RunGrows(idx: nat, steps: seq<Step>, k: nat)
    requires k <= |steps|
    ensures Run(idx, steps[..k]).trace <= Run(idx, steps).trace
  {
    if k == |steps| {
      assert steps[..k] == steps;
    } else {
      var n := |steps| - 1;
      RunGrows(idx, steps[..n], k);
      assert steps[..n][..k] == steps[..k];
      Subscribers.ApplyGrows(Run(idx, steps[..n]), idx, steps[n]);
    }
  }

  /** What a client that knows some stations already makes of the events that follow. */
  function ReplayOn(known: set<string>, log: seq<TcpEvent>): set<string> {
    if log == [] then known
    else
      var before := ReplayOn(known, log[..|log| - 1]);
      match log[|log| - 1]
      case TcpJoin(b) => before + {b}
      case TcpLeave(b) => before - {b}
  }

  lemma {:induction false} ReplayInTwo(a: seq<TcpEvent>, b: seq<TcpEvent>)
    ensures Replay(a + b) == ReplayOn(Replay(a), b)
  {
    if b == [] {
      assert a + b == a;
    } else {
      var n := |b| - 1;
      ReplayInTwo(a, b[..n]);
      assert (a + b)[..|a| + n] == a + b[..n];
    }
  }

  lemma {:induction false} ReplayOnNothing(log: seq<TcpEvent>)
    ensures ReplayOn({}, log) == Replay(log)
  {
    if log != [] { ReplayOnNothing(log[..|log| - 1]); }
  }

  /** Readings numbered consecutively from start + 1. */
  ghost predicate Numbered(hist: seq<string>, start: nat, got: seq<(nat, string)>) {
    && start + |got| <= |hist|
    && forall i :: 0 <= i < |got| ==> got[i] == (start + 1 + i, hist[start + i])
  }

  /** The readings are the texts of these events. */
  ghost predicate Carries(got: seq<(nat, string)>, es: seq<TcpEvent>) {
    |got| == |es| && forall i :: 0 <= i < |got| ==> got[i].1 == TextOf(es[i])
  }

  lemma {:induction false} DecodeTexts(es: seq<TcpEvent>, got: seq<(nat, string)>)
    requires LogFits(es) && Carries(got, es)
    ensures DecodeAll(got) == es
  {
    if got != [] {
      var n := |got| - 1;
      DecodeTexts(es[..n], got[..n]);
      DecodeOfText(es[n]);
      SplitLast(es);
    }
  }

  lemma StretchCarried(log: seq<TcpEvent>, start: nat, got: seq<(nat, string)>, es: seq<TcpEvent>)
    requires LogFits(log) && Numbered(Texts(log), start, got) && es == log[start..start + |got|]
    ensures LogFits(es) && Carries(got, es)
  {
    forall i | 0 <= i < |got|
      ensures got[i].1 == TextOf(es[i])
    {
      assert es[i] == log[start + i] && got[i] == (start + 1 + i, Texts(log)[start + i]);
    }
  }

  /** They decode to that stretch of the log. */
  lemma DecodeNumbered(log: seq<TcpEvent>, start: nat, got: seq<(nat, string)>)
    requires LogFits(log) && Numbered(Texts(log), start, got)
    ensures DecodeAll(got) == log[start..start + |got|]
  {
    StretchCarried(log, start, got, log[start..start + |got|]);
    DecodeTexts(log[start..start + |got|], got);
  }

  /** A reader of a stretch that knew what was listed where it starts. */
  ghost predicate Knows(log: seq<TcpEvent>, start: nat, seen: nat, known: set<string>, read: seq<TcpEvent>)
    requires start <= seen <= |log|
  {
    && ReplayOn(known, read + log[seen..]) == Replay(log)
    && (seen == |log| ==> ReplayOn(known, read) == Replay(log))
  }

  lemma ReaderKnows(log: seq<TcpEvent>, start: nat, seen: nat, read: seq<TcpEvent>)
    requires start <= seen <= |log| && read == log[start..seen]
    ensures Knows(log, start, seen, Replay(log[..start]), read)
  {
    assert read + log[seen..] == log[start..];
    ReplayInTwo(log[..start], log[start..]);
    assert log[..start] + log[start..] == log;
    assert seen == |log| ==> read == log[start..];
  }

  // ----- the watcher

  /** The server has broadcast the tracker's whole log, and the client began after k of the handler calls. */
  ghost predicate Watching(idx: nat, steps: seq<Step>, k: nat, broadcast: seq<Broadcast.Step>, id: nat) {
    var s := Broadcast.Run(broadcast);
    && s.hist == Texts(Tcp(Run(idx, steps).trace))
    && Broadcast.Listens(s, id)
    && k <= |steps| && s.clients[id].start == |Tcp(Run(idx, steps[..k]).trace)|
  }

  /** What a client that skipped nothing has read, by number. */
  lemma ReadByNumber(broadcast: seq<Broadcast.Step>, id: nat) returns (c: Broadcast.Client, hist: seq<string>)
    requires Broadcast.Listens(Broadcast.Run(broadcast), id) && Broadcast.Run(broadcast).clients[id].lost == 0
    ensures c == Broadcast.Run(broadcast).clients[id] && hist == Broadcast.Run(broadcast).hist
    ensures c.start <= c.seen <= |hist| <= c.seen + 1 && |c.got| == c.seen - c.start
    ensures Numbered(hist, c.start, c.got)
  {
    c, hist := Broadcast.Run(broadcast).clients[id], Broadcast.Run(broadcast).hist;
    Broadcast.MonitorSafe(broadcast, id);
    Broadcast.NothingSkippedExactlyWhen(broadcast, id);
  }

  /** A run's log, and the part of it after k handler calls. */
  lemma LogOfRun(idx: nat, steps: seq<Step>, k: nat) returns (log: seq<TcpEvent>, before: seq<TcpEvent>)
    requires k <= |steps|
    ensures log == Tcp(Run(idx, steps).trace) && before == Tcp(Run(idx, steps[..k]).trace)
    ensures LogFits(log) && Replay(log) == Keys(Run(idx, steps).stas)
    ensures |before| <= |log| && log[..|before|] == before && Replay(before) == Keys(Run(idx, steps[..k]).stas)
  {
    log, before := Tcp(Run(idx, steps).trace), Tcp(Run(idx, steps[..k]).trace);
    RunFits(idx, steps);
    TraceLogFits(Run(idx, steps).trace);
    ReplayGivesStations(idx, steps);
    RunGrows(idx, steps, k);
    TcpPrefix(Run(idx, steps[..k]).trace, Run(idx, steps).trace);
    ReplayGivesStations(idx, steps[..k]);
  }

  lemma WatcherReads(idx: nat, steps: seq<Step>, k: nat, broadcast: seq<Broadcast.Step>, id: nat)
    returns (c: Broadcast.Client, log: seq<TcpEvent>)
    requires Watching(idx, steps, k, broadcast, id) && Broadcast.Run(broadcast).clients[id].lost == 0
    ensures c == Broadcast.Run(broadcast).clients[id] && log == Tcp(Run(idx, steps).trace)
    ensures LogFits(log) && Numbered(Texts(log), c.start, c.got)
    ensures c.start + |c.got| == c.seen <= |log| <= c.seen + 1
    ensures Replay(log[..c.start]) == Keys(Run(idx, steps[..k]).stas) && Replay(log) == Keys(Run(idx, steps).stas)
  {
    var before, hist;
    log, before := LogOfRun(idx, steps, k);
    c, hist := ReadByNumber(broadcast, id);
    assert hist == Texts(log);
  }

  /** What a client can say of a log, having known some stations when it began. */
  ghost predicate ClientKnows(log: seq<TcpEvent>, c: Broadcast.Client, known: set<string>) {
    && c.start <= c.seen <= |log| <= c.seen + 1
    && DecodeAll(c.got) == log[c.start..c.seen]
    && Knows(log, c.start, c.seen, known, DecodeAll(c.got))
  }

  lemma NumberedKnows(log: seq<TcpEvent>, c: Broadcast.Client)
    requires LogFits(log) && Numbered(Texts(log), c.start, c.got) && c.start + |c.got| == c.seen <= |log| <= c.seen + 1
    ensures ClientKnows(log, c, Replay(log[..c.start]))
  {
    DecodeNumbered(log, c.start, c.got);
    ReaderKnows(log, c.start, c.seen, DecodeAll(c.got));
  }

  lemma WatcherKnows(idx: nat, steps: seq<Step>, k: nat, broadcast: seq<Broadcast.Step>, id: nat)
    requires Watching(idx, steps, k, broadcast, id) && Broadcast.Run(broadcast).clients[id].lost == 0
    ensures ClientKnows(Tcp(Run(idx, steps).trace), Broadcast.Run(broadcast).clients[id],
                        Keys(Run(idx, steps[..k]).stas))
    ensures Replay(Tcp(Run(idx, steps).trace)) == Keys(Run(idx, steps).stas)
  {
    var c, log := WatcherReads(idx, steps, k, broadcast, id);
    NumberedKnows(log, c);
  }

  /**
   * A watcher that skipped nothing has read the log from its start up to at most one waiting event. Replaying what
   * it read on the stations listed when it began, it knows exactly the listed stations, unless one event waits; and
   * then it does once it has read that too. If nobody was listed when it began, it need know nothing to begin with.
   */
  lemma WatcherKnowsStations(idx: nat, steps: seq<Step>, k: nat, broadcast: seq<Broadcast.Step>, id: nat)
    requires Watching(idx, steps, k, broadcast, id) && Broadcast.Run(broadcast).clients[id].lost == 0
    ensures var c, log := Broadcast.Run(broadcast).clients[id], Tcp(Run(idx, steps).trace);
            var known, read := Keys(Run(idx, steps[..k]).stas), DecodeAll(c.got);
            && c.start <= c.seen <= |log| <= c.seen + 1 && read == log[c.start..c.seen]
            && ReplayOn(known, read + log[c.seen..]) == Keys(Run(idx, steps).stas)
            && (c.seen == |log| ==> ReplayOn(known, read) == Keys(Run(idx, steps).stas))
            && (known == {} && c.seen == |log| ==> Replay(read) == Keys(Run(idx, steps).stas))
  {
    WatcherKnows(idx, steps, k, broadcast, id);
    ReplayOnNothing(DecodeAll(Broadcast.Run(broadcast).clients[id].got));
  }

  /** In particular a watcher that looks between every two broadcasts. */
  lemma AttentiveWatcherKnows(idx: nat, steps: seq<Step>, k: nat, broadcast: seq<Broadcast.Step>, id: nat)
    requires Watching(idx, steps, k, broadcast, id) && Broadcast.LooksBetweenPushes(broadcast, id)
    ensures var c, log := Broadcast.Run(broadcast).clients[id], Tcp(Run(idx, steps).trace);
            var known := Keys(Run(idx, steps[..k]).stas);
            && c.seen <= |log| <= c.seen + 1
            && ReplayOn(known, DecodeAll(c.got) + log[c.seen..]) == Keys(Run(idx, steps).stas)
  {
    Broadcast.KeepingUpLosesNothing(broadcast, |broadcast|, id);
    assert broadcast[..|broadcast|] == broadcast;
    WatcherKnows(idx, steps, k, broadcast, id);
  }
}
