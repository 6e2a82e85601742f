/** The handlers as wlinkd runs them, on the linked list and global state (wlinkd/src/wlan_nl80211.c). */
module TrackerDaemon {
  import opened Text
  import opened Bssids
  import opened StationLists
  import opened StationManager
  import opened Tracker
  import opened TrackerRuns
  import Libnl

  /** A traversal with `ahead` still to visit has reported the stations it removed, and counted them. */
  ghost predicate ReportedSoFar(tr0: seq<Event>, c0: Stations, tr: seq<Event>, ahead: Stations, keep: set<string>,
                                removed: nat) {
    && tr + Leaves(ahead, keep) == tr0 + Leaves(c0, keep)
    && removed + |Leaves(ahead, keep)| == |Leaves(c0, keep)|
  }

  lemma ReportedStep(tr0: seq<Event>, c0: Stations, tr: seq<Event>, c: Stations, k: nat, keep: set<string>,
                     removed: nat)
    requires k < |c| && ReportedSoFar(tr0, c0, tr, c[k..], keep, removed)
    ensures if c[k].bssid in keep then ReportedSoFar(tr0, c0, tr, c[k + 1..], keep, removed)
            else ReportedSoFar(tr0, c0, tr + [Leave(c[k].bssid)], c[k + 1..], keep, removed + 1)
  {
  }

  /** What a traversal started from. */
  datatype Origin = Origin(nodes: seq<Node>, stas: Stations, trace: seq<Event>)

  class Daemon {
    const idx: nat
    const mgr: StaMgr
    var trace: seq<Event>
    var apMode: bool

    ghost predicate Valid()
      reads this, mgr, mgr.spine
    {
      mgr.Valid()
    }

    ghost function Model(): State
      reads this, mgr
    {
      State(mgr.contents, trace, apMode)
    }

    /** `wlan_core_init` up to its first refresh. */
    constructor (idx: nat)
      ensures Valid() && Model() == START && this.idx == idx && fresh(mgr)
    {
      this.idx, this.trace, this.apMode := idx, [], false;
      this.mgr := new StaMgr();
    }

    method Emit(e: Event)
      modifies this`trace
      ensures trace == old(trace) + [e]
    {
      trace := trace + [e];
    }

    method StationArrived(b: string, alloc: bool, now: int)
      requires Valid()
      modifies this`trace, mgr
      ensures Valid() && fresh(mgr.Nodes() - old(mgr.Nodes()))
      ensures var (l, rc) := AddTo(old(mgr.contents), b, alloc, now);
              mgr.contents == l && trace == old(trace) + if b != "" && rc > 0 then [Total(b, 0), Join(b)] else []
    {
      if b != "" {
        var added := mgr.Add(b, alloc, now);
        if added > 0 {
          Emit(Total(b, 0));
          Emit(Join(b));
        }
      }
    }

    method StationGone(b: string)
      requires Valid()
      modifies this`trace, mgr, mgr.Nodes()
      ensures Valid() && mgr.Nodes() <= old(mgr.Nodes())
      ensures if b == "" then mgr.contents == old(mgr.contents) && trace == old(trace)
              else mgr.contents == RemoveFrom(old(mgr.contents), b)
                   && trace == old(trace) + [Leave(b)] + if |mgr.contents| == 0 then [LedOff] else []
    {
      if b != "" {
        Emit(Leave(b));
        var _ := mgr.Remove(b);
        var count := mgr.Count();
        if count == 0 {
          Emit(LedOff);
        }
      }
    }

    method NetdevInfo(m: NlMsg)
      requires Valid()
      modifies this, mgr, mgr.Nodes()
      ensures Valid() && fresh(mgr.Nodes() - old(mgr.Nodes()))
      ensures Model() == OnNetdev(old(Model()), idx, m)
    {
      if m.ifindex != Some(idx) {
        return;
      }
      var b := "";
      if m.mac.Some? {
        b := FormatBssid(m.mac.value);
      }
      match m.cmd {
        case NewStation => StationArrived(b, m.alloc, m.now);
        case DelStation => StationGone(b);
        case OtherCmd =>
          if m.iftype.Some? {
            apMode := m.iftype.value == IfAp || m.iftype.value == IfP2pGo;
          }
      }
    }

    /** The record of a listed station is refreshed, and what that means is reported. */
    method Report(sta: Node, b: string, rssi: int, total: nat, added: int)
      requires Valid() && b in Keys(mgr.contents) && sta == mgr.spine[IndexOf(mgr.contents, b)]
      modifies this`trace, mgr`contents, sta
      ensures Valid()
      ensures mgr.contents == Store(old(mgr.contents), b, rssi, total)
      ensures var before := old(mgr.contents)[IndexOf(old(mgr.contents), b)].pkts;
              trace == old(trace) + [Total(b, total)]
                       + if added > 0 then [Join(b)] else if total > before then [Traffic(b)] else []
    {
      assert sta.Record() == mgr.contents[IndexOf(mgr.contents, b)];
      var before := sta.pkts;
      mgr.StoreReport(sta, b, rssi, total);
      Emit(Total(b, total));
      if added > 0 {
        Emit(Join(b));
      } else if total > before {
        Emit(Traffic(b));
      }
    }

    method UpdateStation(b: string, rssi: int, total: nat, alloc: bool, now: int)
      requires Valid()
      modifies this`trace, mgr, mgr.Nodes()
      ensures Valid() && fresh(mgr.Nodes() - old(mgr.Nodes()))
      ensures Model() == UpdateSta(old(Model()), b, rssi, total, alloc, now)
    {
      if b == "" {
        return;
      }
      var added := mgr.Add(b, alloc, now);
      ReportListed(b, rssi, total, added);
    }

    /** `wlan_sta_mgr_find` and, if that found a record, the report. */
    method ReportListed(b: string, rssi: int, total: nat, added: int)
      requires Valid()
      modifies this`trace, mgr`contents, mgr.Nodes()
      ensures Valid() && mgr.Nodes() == old(mgr.Nodes())
      ensures var l, i := old(mgr.contents), IndexOf(old(mgr.contents), b);
              if i == |l| then mgr.contents == l && trace == old(trace)
              else
                && mgr.contents == Store(l, b, rssi, total)
                && trace == old(trace) + [Total(b, total)]
                            + if added > 0 then [Join(b)] else if total > l[i].pkts then [Traffic(b)] else []
    {
      var sta := mgr.Find(b);
      if sta == null {
        return;
      }
      assert sta in mgr.Nodes();
      Report(sta, b, rssi, total, added);
    }

    /** `wlan_nl80211_get_link_signal_cb`, with the keep-list array and its fill count. */
    method GetLinkSignal(m: StaMsg, bssids: array<string>, count0: nat) returns (count: nat)
      requires Valid() && count0 <= bssids.Length == MAX_STAS
      modifies this`trace, mgr, mgr.Nodes(), bssids
      ensures Valid() && fresh(mgr.Nodes() - old(mgr.Nodes()))
      ensures Model() == OnSta(old(Model()), m)
      ensures count <= bssids.Length && bssids[..count] == OnStaKept(old(bssids[..count0]), m)
    {
      count := count0;
      if m.mac.None? {
        return;
      }
      var b := FormatBssid(m.mac.value);
      if count < bssids.Length {
        bssids[count] := Copied(b);
        count := count + 1;
      }
      UpdateStation(b, Rssi(m.signal), Packets(m), m.alloc, m.now);
    }

    /** A traversal in progress: where it stands in the list, and what it has reported. */
    ghost predicate Sweeping(curr: Node?, start: Origin, visited: seq<Node>, k: nat, keep: set<string>, removed: nat)
      reads this, mgr, mgr.spine
    {
      && mgr.Traversing(curr, start.nodes, start.stas, visited, k, keep)
      && ReportedSoFar(start.trace, start.stas, trace, mgr.contents[k..], keep, removed)
    }

    lemma SweepKept(curr: Node, start: Origin, visited: seq<Node>, k: nat, keep: set<string>, removed: nat)
      requires Sweeping(curr, start, visited, k, keep, removed) && curr.bssid in keep
      ensures Sweeping(curr.next, start, visited + [curr], k + 1, keep, removed)
    {
      mgr.VisitKept(curr, start.nodes, start.stas, visited, k, keep);
      ReportedStep(start.trace, start.stas, trace, mgr.contents, k, keep, removed);
    }

    method SweepDropped(curr: Node, ghost start: Origin, ghost visited: seq<Node>, ghost k: nat,
                        ghost keep: set<string>, removed: nat)
      requires Sweeping(curr, start, visited, k, keep, removed) && curr.bssid !in keep
      modifies this`trace, mgr, mgr.Nodes()
      ensures Sweeping(old(curr.next), start, visited + [curr], k, keep, removed + 1)
      ensures mgr.Nodes() <= old(mgr.Nodes())
    {
      ReportedStep(start.trace, start.stas, trace, mgr.contents, k, keep, removed);
      Emit(Leave(curr.bssid));
      mgr.VisitDropped(curr, start.nodes, start.stas, visited, k, keep);
    }

    method SweepVisit(curr: Node, bssids: seq<string>, ghost start: Origin, ghost visited: seq<Node>, ghost k: nat,
                      ghost keep: set<string>, removed: nat)
      returns (dropped: bool)
      requires Sweeping(curr, start, visited, k, keep, removed) && keep == ToSet(bssids)
      modifies this`trace, mgr, mgr.Nodes()
      ensures Sweeping(old(curr.next), start, visited + [curr], if dropped then k else k + 1, keep,
                       if dropped then removed + 1 else removed)
      ensures mgr.Nodes() <= old(mgr.Nodes())
    {
      var found := FindSta(curr.bssid, bssids);
      dropped := !found;
      if dropped {
        SweepDropped(curr, start, visited, k, keep, removed);
      } else {
        SweepKept(curr, start, visited, k, keep, removed);
      }
    }

    lemma SweepDone(start: Origin, visited: seq<Node>, k: nat, keep: set<string>, removed: nat)
      requires Sweeping(null, start, visited, k, keep, removed)
      ensures Valid() && visited == start.nodes && mgr.contents == Retain(start.stas, keep)
      ensures trace == start.trace + Leaves(start.stas, keep) && removed == |Leaves(start.stas, keep)|
    {
    }

    /** The traversal of `wlan_nl80211_remove_sta` after a station dump. */
    method SweepMissing(bssids: seq<string>) returns (removed: nat, ghost visited: seq<Node>)
      requires Valid()
      modifies this`trace, mgr, mgr.Nodes()
      ensures Valid() && mgr.Nodes() <= old(mgr.Nodes()) && visited == old(mgr.spine)
      ensures mgr.contents == Retain(old(mgr.contents), ToSet(bssids))
      ensures trace == old(trace) + Leaves(old(mgr.contents), ToSet(bssids))
      ensures removed == |Leaves(old(mgr.contents), ToSet(bssids))|
    {
      ghost var start, keep, k := Origin(mgr.spine, mgr.contents, trace), ToSet(bssids), 0;
      var curr := mgr.head;
      removed, visited := 0, [];
      while curr != null
        invariant Sweeping(curr, start, visited, k, keep, removed) && mgr.Nodes() <= old(mgr.Nodes())
        decreases |start.nodes| - |visited|
      {
        var here: Node := curr;
        assert here !in mgr.freed;
        curr := here.next;
        var dropped := SweepVisit(here, bssids, start, visited, k, keep, removed);
        if dropped {
          removed := removed + 1;
        } else {
          k := k + 1;
        }
        visited := visited + [here];
      }
      SweepDone(start, visited, k, keep, removed);
    }

    /** The traversal after a mode change, which passes no array: every station goes. */
    method SweepAll() returns (removed: nat, ghost visited: seq<Node>)
      requires Valid()
      modifies this`trace, mgr, mgr.Nodes()
      ensures Valid() && mgr.Nodes() <= old(mgr.Nodes()) && visited == old(mgr.spine)
      ensures mgr.contents == Retain(old(mgr.contents), {})
      ensures trace == old(trace) + Leaves(old(mgr.contents), {})
      ensures removed == |Leaves(old(mgr.contents), {})|
    {
      ghost var start := Origin(mgr.spine, mgr.contents, trace);
      var curr := mgr.head;
      removed, visited := 0, [];
      while curr != null
        invariant Sweeping(curr, start, visited, 0, {}, removed) && mgr.Nodes() <= old(mgr.Nodes())
        decreases |start.nodes| - |visited|
      {
        var here: Node := curr;
        assert here !in mgr.freed;
        curr := here.next;
        SweepDropped(here, start, visited, 0, {}, removed);
        removed := removed + 1;
        visited := visited + [here];
      }
      SweepDone(start, visited, 0, {}, removed);
    }

    /** `wlan_nl80211_remove_sta`; no array stands for the mode-change call. */
    method RemoveStations(bssids: Option<seq<string>>)
      requires Valid()
      modifies this`trace, mgr, mgr.Nodes()
      ensures Valid() && mgr.Nodes() <= old(mgr.Nodes())
      ensures Model() == RemoveSta(old(Model()), if bssids.None? then {} else ToSet(bssids.value))
    {
      var removed;
      ghost var visited;
      match bssids {
        case None => removed, visited := SweepAll();
        case Some(kept) => removed, visited := SweepMissing(kept);
      }
      ReportIfEmpty(removed);
    }

    method ReportIfEmpty(removed: nat)
      requires Valid()
      modifies this`trace
      ensures trace == old(trace) + if removed > 0 && |mgr.contents| == 0 then [LedOff] else []
    {
      var count := mgr.Count();
      if removed > 0 && count == 0 {
        Emit(LedOff);
      }
    }

    method ReadInterfaces(msgs: seq<NlMsg>)
      requires Valid()
      modifies this, mgr, mgr.Nodes()
      ensures Valid() && fresh(mgr.Nodes() - old(mgr.Nodes()))
      ensures Model() == FoldNet(old(Model()), idx, msgs)
    {
      assert msgs[0..] == msgs;
      for i := 0 to |msgs|
        invariant Valid() && fresh(mgr.Nodes() - old(mgr.Nodes()))
        invariant FoldNet(Model(), idx, msgs[i..]) == FoldNet(old(Model()), idx, msgs)
      {
        assert msgs[i..][1..] == msgs[i + 1..];
        NetdevInfo(msgs[i]);
      }
    }

    method ReadStations(msgs: seq<StaMsg>, bssids: array<string>) returns (count: nat)
      requires Valid() && bssids.Length == MAX_STAS
      modifies this`trace, mgr, mgr.Nodes(), bssids
      ensures Valid() && fresh(mgr.Nodes() - old(mgr.Nodes()))
      ensures Model() == FoldSta(old(Model()), msgs)
      ensures count <= bssids.Length && bssids[..count] == FoldKept([], msgs)
    {
      count := 0;
      assert msgs[0..] == msgs && bssids[..0] == [];
      for i := 0 to |msgs|
        invariant Valid() && fresh(mgr.Nodes() - old(mgr.Nodes()))
        invariant FoldSta(Model(), msgs[i..]) == FoldSta(old(Model()), msgs)
        invariant count <= bssids.Length && FoldKept(bssids[..count], msgs[i..]) == FoldKept([], msgs)
      {
        assert msgs[i..][1..] == msgs[i + 1..];
        count := GetLinkSignal(msgs[i], bssids, count);
      }
    }

    /** `wlan_nl80211_refresh`. */
    method RefreshAll(w: World)
      requires Valid()
      modifies this, mgr, mgr.Nodes()
      ensures Valid() && fresh(mgr.Nodes() - old(mgr.Nodes()))
      ensures Model() == Refresh(old(Model()), idx, w)
    {
      if !w.ready {
        return;
      }
      apMode := false;
      if !w.ifMsg {
        return;
      }
      var err, interfaces := Libnl.SendAndRecv(w.ifDump);
      ReadInterfaces(interfaces);
      if err != 0 {
        return;
      }
      if !apMode {
        RemoveStations(None);
        return;
      }
      if w.staMsg {
        DumpStations(w);
      }
    }

    /** The second half of the refresh: read the station dump, then remove what it did not name. */
    method DumpStations(w: World)
      requires Valid()
      modifies this`trace, mgr, mgr.Nodes()
      ensures Valid() && fresh(mgr.Nodes() - old(mgr.Nodes()))
      ensures var t := FoldSta(old(Model()), Libnl.Outcome(w.staDump).1);
              Model() == if Libnl.Outcome(w.staDump).0 != 0 then t else RemoveSta(t, KeptNames(w))
    {
      var bssids := new string[MAX_STAS](_ => "");
      var err, stations := Libnl.SendAndRecv(w.staDump);
      var count := ReadStations(stations, bssids);
      if err == 0 {
        RemoveStations(Some(bssids[..count]));
      }
    }
  }

  /** The poll loop as a choice of handler calls: the daemon is where the run says, its logs agree with its list. */
  method PollLoop(idx: nat, steps: seq<Step>) returns (d: Daemon)
    ensures fresh(d) && d.Valid() && d.idx == idx
    ensures d.Model() == Run(idx, steps)
    ensures LedAgrees(d.Model()) && Consistent(d.Model())
  {
    d := new Daemon(idx);
    for i := 0 to |steps|
      invariant fresh(d) && fresh(d.mgr) && fresh(d.mgr.Nodes()) && d.Valid() && d.idx == idx
      invariant d.Model() == Run(idx, steps[..i])
    {
      assert steps[..i + 1][..i] == steps[..i];
      match steps[i] {
        case NetEvent(m) => d.NetdevInfo(m);
        case Timer(w) => d.RefreshAll(w);
      }
    }
    assert steps[..|steps|] == steps;
    RunKeeps(idx, steps);
  }
}
