/**
 * What the poll-loop handlers of wlinkd make of the station list and of the events they emit
 * (wlinkd/src/wlan_nl80211.c, wlinkd/src/wlan_sta_mgr.c).
 */
module Tracker {
  import opened Text
  import opened Bssids
  import opened StationLists
  import Libnl

  /**
   * Calls of wlan_sta_mgr_join, _leave, _led_off and _traffic in the order they are made. Total records the
   * packet total a callback leaves in a station's record.
   */
  datatype Event = Join(b: string) | Leave(b: string) | LedOff | Traffic(b: string) | Total(b: string, pkts: nat)

  datatype IpcEvent = StaJoin | StaLeave | StaTraffic
  datatype TcpEvent = TcpJoin(b: string) | TcpLeave(b: string)

  function IpcOf(e: Event): seq<IpcEvent> {
    match e
    case Join(_) => [StaJoin]
    case LedOff => [StaLeave]
    case Traffic(_) => [StaTraffic]
    case _ => []
  }

  function TcpOf(e: Event): seq<TcpEvent> {
    match e
    case Join(b) => [TcpJoin(b)]
    case Leave(b) => [TcpLeave(b)]
    case _ => []
  }

  /** The log of `ipc_push_event` calls. */
  function Ipc(tr: seq<Event>): seq<IpcEvent> {
    if tr == [] then [] else Ipc(tr[..|tr| - 1]) + IpcOf(tr[|tr| - 1])
  }

  /** The log of `tcp_server_push_event` calls. */
  function Tcp(tr: seq<Event>): seq<TcpEvent> {
    if tr == [] then [] else Tcp(tr[..|tr| - 1]) + TcpOf(tr[|tr| - 1])
  }

  datatype IfType = IfAp | IfP2pGo | IfMonitor | IfOther
  datatype Cmd = NewStation | DelStation | OtherCmd

  /** A message for the interface callback; `alloc` and `now` are malloc's and time()'s answers while it runs. */
  datatype NlMsg =
    NlMsg(ifindex: Option<nat>, cmd: Cmd, mac: Option<Mac>, iftype: Option<IfType>, alloc: bool, now: int)

  type U32 = n: int | 0 <= n < 0x1_0000_0000

  /** A station-dump message; absent station info reads as three absent attributes. */
  datatype StaMsg =
    StaMsg(mac: Option<Mac>, signal: Option<Byte>, tx: Option<U32>, rx: Option<U32>, alloc: bool, now: int)

  datatype State = State(stas: Stations, trace: seq<Event>, apMode: bool)

  function Name(mac: Option<Mac>): string {
    match mac case Some(m) => FormatBssid(m) case None => ""
  }

  /** The part of `wlan_nl80211_netdev_info_handler_cb` that touches stations or the mode. */
  function OnNetdev(t: State, idx: nat, m: NlMsg): State {
    if m.ifindex != Some(idx) then t
    else
      var b := Name(m.mac);
      match m.cmd
      case NewStation =>
        var (l, rc) := AddTo(t.stas, b, m.alloc, m.now);
        if b != "" && rc > 0 then t.(stas := l, trace := t.trace + [Total(b, 0), Join(b)]) else t
      case DelStation =>
        if b == "" then t
        else
          var l := RemoveFrom(t.stas, b);
          t.(stas := l, trace := t.trace + [Leave(b)] + if |l| == 0 then [LedOff] else [])
      case OtherCmd =>
        match m.iftype
        case None => t
        case Some(ty) => t.(apMode := ty == IfAp || ty == IfP2pGo)
  }

  /** `(int)(int8_t)` of the signal byte: the value in -128..127 it stands for modulo 256, and 0 without one. */
  function Rssi(signal: Option<Byte>): (r: int)
    ensures signal.None? ==> r == 0
    ensures signal.Some? ==> -128 <= r <= 127 && (r - signal.value) % 256 == 0
  {
    match signal case None => 0 case Some(u) => if u < 128 then u else u - 256
  }

  function Packets(m: StaMsg): nat {
    (match m.tx case Some(n) => n case None => 0) + (match m.rx case Some(n) => n case None => 0)
  }

  /** `wlan_nl80211_update_sta`. */
  function UpdateSta(t: State, b: string, rssi: int, total: nat, alloc: bool, now: int): State {
    if b == "" then t
    else
      var (l, rc) := AddTo(t.stas, b, alloc, now);
      var i := IndexOf(l, b);
      if i == |l| then t.(stas := l)
      else
        t.(stas := Store(l, b, rssi, total),
           trace := t.trace + [Total(b, total)]
                  + if rc > 0 then [Join(b)] else if total > l[i].pkts then [Traffic(b)] else [])
  }

  const MAX_STAS := 64

  /** Entry kept for the removal that follows the dump: the array holds the first 64. */
  function KeepName(kept: seq<string>, b: string): seq<string> {
    if |kept| < MAX_STAS then kept + [b] else kept
  }

  /** `wlan_nl80211_get_link_signal_cb`: the state it leaves and the keep-list it leaves. */
  function OnSta(t: State, m: StaMsg): State {
    if m.mac.None? then t else UpdateSta(t, Name(m.mac), Rssi(m.signal), Packets(m), m.alloc, m.now)
  }

  function OnStaKept(kept: seq<string>, m: StaMsg): seq<string> {
    if m.mac.None? then kept else KeepName(kept, Name(m.mac))
  }

  /** The leave reports for the stations that are not kept, in list order. */
  function Leaves(l: Stations, keep: set<string>): seq<Event> {
    if l == [] then []
    else (if l[0].bssid in keep then [] else [Leave(l[0].bssid)]) + Leaves(l[1..], keep)
  }

  /** `wlan_nl80211_remove_sta`; the mode-change call, which passes no array, keeps nothing. */
  function RemoveSta(t: State, keep: set<string>): State {
    var gone, l := Leaves(t.stas, keep), Retain(t.stas, keep);
    t.(stas := l, trace := t.trace + gone + if |gone| > 0 && |l| == 0 then [LedOff] else [])
  }

  function FoldNet(t: State, idx: nat, msgs: seq<NlMsg>): State
    decreases msgs
  {
    if msgs == [] then t else FoldNet(OnNetdev(t, idx, msgs[0]), idx, msgs[1..])
  }

  function FoldSta(t: State, msgs: seq<StaMsg>): State
    decreases msgs
  {
    if msgs == [] then t else FoldSta(OnSta(t, msgs[0]), msgs[1..])
  }

  function FoldKept(kept: seq<string>, msgs: seq<StaMsg>): seq<string>
    decreases msgs
  {
    if msgs == [] then kept else FoldKept(OnStaKept(kept, msgs[0]), msgs[1..])
  }

  /** Everything the outside world answers during one refresh. */
  datatype World =
    World(ready: bool, ifMsg: bool, ifDump: Libnl.Exchange<NlMsg>, staMsg: bool, staDump: Libnl.Exchange<StaMsg>)

  /** The state once the interface dump has been read. */
  function AfterInterfaces(t: State, idx: nat, w: World): State {
    FoldNet(t.(apMode := false), idx, Libnl.Outcome(w.ifDump).1)
  }

  function KeptNames(w: World): set<string> {
    ToSet(FoldKept([], Libnl.Outcome(w.staDump).1))
  }

  /** `wlan_nl80211_refresh`; an exchange still waiting leaves the state as far as it got. */
  function Refresh(t: State, idx: nat, w: World): State {
    if !w.ready then t
    else if !w.ifMsg then t.(apMode := false)
    else
      var t1 := AfterInterfaces(t, idx, w);
      if Libnl.Outcome(w.ifDump).0 != 0 then t1
      else if !t1.apMode then RemoveSta(t1, {})
      else if !w.staMsg then t1
      else
        var t2 := FoldSta(t1, Libnl.Outcome(w.staDump).1);
        if Libnl.Outcome(w.staDump).0 != 0 then t2 else RemoveSta(t2, KeptNames(w))
  }

  /** One turn of the poll loop that reaches the station list. */
  datatype Step = NetEvent(m: NlMsg) | Timer(w: World)

  function Apply(t: State, idx: nat, s: Step): State {
    match s
    case NetEvent(m) => OnNetdev(t, idx, m)
    case Timer(w) => Refresh(t, idx, w)
  }

  const START := State([], [], false)

  function Run(idx: nat, steps: seq<Step>): State {
    if steps == [] then START else Apply(Run(idx, steps[..|steps| - 1]), idx, steps[|steps| - 1])
  }
}
