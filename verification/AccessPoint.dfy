/** What the daemon writes about its own interface (wlinkd/src/wlan_nl80211.c, wlinkd/src/wlan_utils.c). */
module AccessPoint {
  import opened Text
  import opened Tracker

  datatype ApInfo =
    ApInfo(mode: string, iface: string, ip: string, channel: string, bandwidth: int, phyRate: int, rssi: int)

  predicate OneLine(s: string) { '\n' !in s }

  /** A Linux interface name: at most 15 characters, none of them white space. */
  type IfName = s: string | |s| < 16 && OneLine(s) witness "wlan0"

  datatype Ip4 = Ip4(a: Byte, b: Byte, c: Byte, d: Byte)

  /** `inet_ntop` of an IPv4 address. */
  function Dotted(a: Ip4): string {
    Decimal(a.a) + "." + Decimal(a.b) + "." + Decimal(a.c) + "." + Decimal(a.d)
  }

  /** `wlan_utils_format_channel`. */
  function Channel(freq: U32): string {
    if freq == 2484 then "CH 14"
    else if 2412 <= freq <= 2472 then "CH " + Decimal((freq - 2407) / 5)
    else if 5000 <= freq <= 5895 then "CH " + Decimal((freq - 5000) / 5)
    else Decimal(freq) + " MHz"
  }

  const NOT_AVAILABLE := "N/A"

  function ModeText(ty: IfType): string {
    match ty
    case IfAp => "AP"
    case IfP2pGo => "AP"
    case IfMonitor => "MONITOR"
    case IfOther => "UNKNOWN"
  }

  /** One writer of the record: the reset, an interface report, or a station's rate and signal. */
  datatype Write =
    | Reset(name: IfName, addr: Option<Ip4>)
    | Report(ifname: Option<IfName>, freq: Option<U32>, width: Option<int>, iftype: Option<IfType>, addr: Option<Ip4>)
    | Link(rate: Option<int>, rssi: int)

  function ModeAfter(t: string, w: Write): string {
    match w
    case Reset(_, _) => "UNKNOWN"
    case Report(_, _, _, Some(ty), _) => ModeText(ty)
    case _ => t
  }

  function NameAfter(t: string, w: Write): string {
    match w
    case Reset(name, _) => name
    case Report(Some(name), _, _, _, _) => name
    case _ => t
  }

  /** `wlan_utils_fill_ip_address`: an interface without an address keeps what was there. */
  function AddressAfter(t: string, w: Write): string {
    match w
    case Reset(_, addr) => if addr.Some? then Dotted(addr.value) else NOT_AVAILABLE
    case Report(_, _, _, _, Some(a)) => Dotted(a)
    case _ => t
  }

  function ChannelAfter(t: string, w: Write): string {
    match w
    case Reset(_, _) => NOT_AVAILABLE
    case Report(_, Some(freq), _, _, _) => Channel(freq)
    case _ => t
  }

  /** What a write leaves of a number; the reset clears it. */
  function NumberAfter(n: int, w: Write, new': Option<int>): int {
    if w.Reset? then 0 else if new'.Some? then new'.value else n
  }

  function Written(ap: ApInfo, w: Write): ApInfo {
    ApInfo(ModeAfter(ap.mode, w), NameAfter(ap.iface, w), AddressAfter(ap.ip, w), ChannelAfter(ap.channel, w),
           NumberAfter(ap.bandwidth, w, if w.Report? then w.width else None),
           NumberAfter(ap.phyRate, w, if w.Link? then w.rate else None),
           NumberAfter(ap.rssi, w, if w.Link? then Some(w.rssi) else None))
  }

  /** The record after any sequence of writes; it starts zeroed. */
  function Info(writes: seq<Write>): ApInfo {
    if writes == [] then ApInfo("", "", "", "", 0, 0, 0)
    else Written(Info(writes[..|writes| - 1]), writes[|writes| - 1])
  }

  /** `g_nl80211_is_ap_mode` after the same writes. */
  function IsAp(writes: seq<Write>): bool {
    if writes == [] then false
    else
      match writes[|writes| - 1]
      case Reset(_, _) => false
      case Report(_, _, _, Some(ty), _) => ty == IfAp || ty == IfP2pGo
      case _ => IsAp(writes[..|writes| - 1])
  }

  /** The mode text and the mode flag always agree. */
  lemma {:induction false} ModeTextAgrees(writes: seq<Write>)
    ensures Info(writes).mode == "AP" <==> IsAp(writes)
  {
    if writes != [] { ModeTextAgrees(writes[..|writes| - 1]); }
  }

  // ----- what the writers produce

  predicate IsMode(t: string) { t == "" || t == "AP" || t == "MONITOR" || t == "UNKNOWN" }

  ghost predicate IsChannel(t: string) { t == "" || t == NOT_AVAILABLE || exists freq: U32 :: t == Channel(freq) }

  ghost predicate IsAddress(t: string) { t == "" || t == NOT_AVAILABLE || exists a: Ip4 :: t == Dotted(a) }

  /** One of the three modes, a channel and an address as formatted or "N/A", an interface name; or not written yet. */
  ghost predicate Produced(ap: ApInfo) {
    IsMode(ap.mode) && IsChannel(ap.channel) && IsAddress(ap.ip) && |ap.iface| < 16 && OneLine(ap.iface)
  }

  lemma ModeProduced(t: string, w: Write)
    requires IsMode(t)
    ensures IsMode(ModeAfter(t, w))
  {
  }

  lemma ChannelProduced(t: string, w: Write)
    requires IsChannel(t)
    ensures IsChannel(ChannelAfter(t, w))
  {
  }

  lemma AddressProduced(t: string, w: Write)
    requires IsAddress(t)
    ensures IsAddress(AddressAfter(t, w))
  {
  }

  /** Whatever was written, the record holds only such texts. */
  lemma {:induction false} InfoProduced(writes: seq<Write>)
    ensures Produced(Info(writes))
  {
    if writes != [] {
      var ap, w := Info(writes[..|writes| - 1]), writes[|writes| - 1];
      InfoProduced(writes[..|writes| - 1]);
      ModeProduced(ap.mode, w);
      ChannelProduced(ap.channel, w);
      AddressProduced(ap.ip, w);
    }
  }

  predicate OneLineTexts(ap: ApInfo) { OneLine(ap.mode) && OneLine(ap.iface) && OneLine(ap.ip) && OneLine(ap.channel) }

  lemma OneLineConcat(a: string, b: string)
    requires OneLine(a) && OneLine(b)
    ensures OneLine(a + b)
  {
  }

  lemma DottedOneLine(a: Ip4)
    ensures OneLine(Dotted(a))
  {
    var t := Decimal(a.a) + "." + Decimal(a.b);
    OneLineConcat(Decimal(a.a) + ".", Decimal(a.b));
    OneLineConcat(t, ".");
    OneLineConcat(t + ".", Decimal(a.c));
    OneLineConcat(t + "." + Decimal(a.c), ".");
    OneLineConcat(t + "." + Decimal(a.c) + ".", Decimal(a.d));
  }

  lemma ChannelOneLine(freq: U32)
    ensures OneLine(Channel(freq))
  {
  }

  /** None of these texts holds a newline. */
  lemma ProducedOneLine(ap: ApInfo)
    requires Produced(ap)
    ensures OneLineTexts(ap)
  {
    if freq: U32 :| ap.channel == Channel(freq) { ChannelOneLine(freq); }
    if a: Ip4 :| ap.ip == Dotted(a) { DottedOneLine(a); }
  }

  // ----- the texts fit their buffers

  function Pow10(k: nat): nat { if k == 0 then 1 else 10 * Pow10(k - 1) }

  lemma {:induction false} DecimalFits(n: nat, k: nat)
    requires k > 0 && n < Pow10(k)
    ensures |Decimal(n)| <= k
  {
    if n >= 10 {
      assert k > 1;
      DecimalFits(n / 10, k - 1);
    }
  }

  /** Neither `snprintf` nor `inet_ntop` cuts: each text fits its 32 bytes. */
  lemma TextsFit(freq: U32, a: Ip4)
    ensures |Channel(freq)| < 32 && |Dotted(a)| < 16
  {
    assert Pow10(3) == 1000;
    assert Pow10(10) == 10_000_000_000 by {
      assert Pow10(6) == 1000_000;
    }
    DecimalFits(freq, 10);
    if 2412 <= freq <= 2472 { DecimalFits((freq - 2407) / 5, 3); }
    if 5000 <= freq <= 5895 { DecimalFits((freq - 5000) / 5, 3); }
    DecimalFits(a.a, 3);
    DecimalFits(a.b, 3);
    DecimalFits(a.c, 3);
    DecimalFits(a.d, 3);
  }

  // ----- what each write leaves

  /** The channels of the 2.4 GHz band, 5 MHz apart from 2412 on, and the 14th. */
  lemma ChannelBelow3(n: nat, freq: U32)
    requires 1 <= n <= 13 && freq == 2407 + 5 * n
    ensures Channel(freq) == "CH " + Decimal(n)
    ensures Channel(2484) == "CH 14"
  {
    assert (freq - 2407) / 5 == n;
  }

  /** The channels of the 5 GHz band. */
  lemma ChannelAbove5(n: nat, freq: U32)
    requires n <= 179 && freq == 5000 + 5 * n
    ensures Channel(freq) == "CH " + Decimal(n)
  {
    assert (freq - 5000) / 5 == n;
  }

  /** Any other frequency is shown as it is. */
  lemma NoChannel(freq: U32)
    requires freq < 2412 || 2472 < freq < 2484 || 2484 < freq < 5000 || 5895 < freq
    ensures Channel(freq) == Decimal(freq) + " MHz"
  {
  }

  lemma DottedIs(a: Ip4)
    ensures Dotted(a) == Decimal(a.a) + "." + Decimal(a.b) + "." + Decimal(a.c) + "." + Decimal(a.d)
  {
  }

  lemma InfoSnoc(writes: seq<Write>, w: Write)
    ensures Info(writes + [w]) == Written(Info(writes), w)
  {
    assert (writes + [w])[..|writes|] == writes;
  }

  /** After a reset nothing but the name and perhaps the address is known. */
  lemma ResetLeaves(writes: seq<Write>, name: IfName, addr: Option<Ip4>)
    ensures Info(writes + [Reset(name, addr)]) ==
            ApInfo("UNKNOWN", name, if addr.Some? then Dotted(addr.value) else "N/A", "N/A", 0, 0, 0)
  {
    InfoSnoc(writes, Reset(name, addr));
  }

  /** A report stores what it carries and keeps the rest. */
  lemma ReportLeaves(writes: seq<Write>, w: Write)
    requires w.Report?
    ensures var ap, ap' := Info(writes), Info(writes + [w]);
            && ap'.iface == (if w.ifname.Some? then w.ifname.value else ap.iface)
            && ap'.channel == (if w.freq.Some? then Channel(w.freq.value) else ap.channel)
            && ap'.ip == (if w.addr.Some? then Dotted(w.addr.value) else ap.ip)
            && ap'.bandwidth == (if w.width.Some? then w.width.value else ap.bandwidth)
            && ap'.phyRate == ap.phyRate && ap'.rssi == ap.rssi
            && (w.iftype == Some(IfAp) || w.iftype == Some(IfP2pGo) ==> ap'.mode == "AP")
            && (w.iftype == Some(IfMonitor) ==> ap'.mode == "MONITOR")
            && (w.iftype == Some(IfOther) ==> ap'.mode == "UNKNOWN")
            && (w.iftype == None ==> ap'.mode == ap.mode)
  {
    InfoSnoc(writes, w);
  }

  /** A station's report changes the signal, and the rate if it carries one. */
  lemma LinkLeaves(writes: seq<Write>, rate: Option<int>, rssi: int)
    ensures var ap := Info(writes);
            Info(writes + [Link(rate, rssi)]) ==
            ap.(phyRate := if rate.Some? then rate.value else ap.phyRate, rssi := rssi)
  {
    InfoSnoc(writes, Link(rate, rssi));
  }
}
