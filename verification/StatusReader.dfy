/** The status text read back: which value stands behind which key (wlinkd/src/wlan_core.c). */
module StatusReader {
  import opened AccessPoint
  import opened Text
  import opened StationLists
  import opened Status
  import Bssids
  import MacKeys
  import Tracker

  // ----- the lines of the rendering

  function BlocksLines(l: Stations): seq<string> {
    if l == [] then [] else BlockLines(l[0]) + BlocksLines(l[1..])
  }

  lemma BlockOneLine(s: Station)
    requires OneLine(s.bssid)
    ensures AllOneLine(BlockLines(s))
  {
    OneLineConcat("BSSID=", s.bssid);
    OneLineConcat("RSSI=", Signed(s.rssi));
    OneLineConcat("PKTS=", Decimal(s.pkts));
    OneLineConcat("CONNECTED=", Signed(s.assoc));
  }

  lemma {:induction false} LinesOfBlocks(l: Stations)
    requires forall b :: b in Keys(l) ==> OneLine(b)
    ensures Lines(Blocks(l)) == BlocksLines(l)
  {
    if l != [] {
      LinesOfBlocks(l[1..]);
      BlockOneLine(l[0]);
      LinesOfUnlines(BlockLines(l[0]));
      UnlinesTerminated(BlockLines(l[0]));
      LinesConcat(Unlines(BlockLines(l[0])), Blocks(l[1..]));
    }
  }

  lemma ListedOneLine(idx: nat, steps: seq<Tracker.Step>)
    ensures forall b :: b in Keys(Tracker.Run(idx, steps).stas) ==> OneLine(b)
  {
    MacKeys.RunKeyedByMac(idx, steps);
    forall b | b in Keys(Tracker.Run(idx, steps).stas)
      ensures OneLine(b)
    {
      assert MacKeys.IsBssid(b);
      var m: Bssids.Mac :| Bssids.FormatBssid(m) == b;
      BssidOneLine(m);
    }
  }

  /** Whatever was written about the interface and over every run, these are the lines of the status. */
  lemma LinesOfStatus(writes: seq<Write>, idx: nat, steps: seq<Tracker.Step>)
    ensures var ap, l := Info(writes), Tracker.Run(idx, steps).stas;
            Lines(Full(ap, l)) == ApLines(ap, |l|) + StaLines(|l|) + BlocksLines(l)
  {
    var ap, l := Info(writes), Tracker.Run(idx, steps).stas;
    InfoProduced(writes);
    ProducedOneLine(ap);
    ApTextsOneLine(ap);
    ApNumbersOneLine(ap, |l|);
    LinesOfUnlines(ApLines(ap, |l|));
    StaLinesOneLine(|l|);
    LinesOfUnlines(StaLines(|l|));
    ListedOneLine(idx, steps);
    LinesOfBlocks(l);
    LinesOfFull(ap, l);
  }

  lemma ApLinesAre(ap: ApInfo, n: nat)
    ensures ApLines(ap, n) ==
            ["===== AP =====", "MODE=" + ap.mode, "IFACE=" + ap.iface, "IP=" + ap.ip, "CHANNEL=" + ap.channel,
             "BANDWIDTH=" + (Signed(ap.bandwidth) + " MHz"), "PHY_RATE=" + (Signed(ap.phyRate) + " Mbps"),
             "RSSI=" + (Signed(ap.rssi) + " dBm"), "STA_COUNT=" + Decimal(n)]
  {
  }

  lemma BlockLinesAre(s: Station)
    ensures BlockLines(s) ==
            ["-----", "BSSID=" + s.bssid, "RSSI=" + Signed(s.rssi), "PKTS=" + Decimal(s.pkts),
             "CONNECTED=" + Signed(s.assoc)]
  {
  }

  lemma SplitConcat<T>(a: seq<T>, b: seq<T>)
    ensures (a + b)[..|a|] == a && (a + b)[|a|..] == b
  {
  }

  // ----- reading them

  function Strip(key: string, line: string): Option<string> {
    if key <= line then Some(line[|key|..]) else None
  }

  function StripUnit(unit: string, t: Option<string>): Option<string> {
    if t.Some? && |unit| <= |t.value| && t.value[|t.value| - |unit|..] == unit
    then Some(t.value[..|t.value| - |unit|]) else None
  }

  function ReadInt(t: Option<string>): Option<int> {
    if t.None? || t.value == "" then None
    else if AllDigits(t.value) then Some(Value(t.value))
    else if t.value[0] == '-' && |t.value| > 1 && AllDigits(t.value[1..]) then Some(0 - Value(t.value[1..]))
    else None
  }

  function ReadBlock(lines: seq<string>): Option<Station>
    requires |lines| == 5
  {
    var b, r := Strip("BSSID=", lines[1]), ReadInt(Strip("RSSI=", lines[2]));
    var p, a := ReadInt(Strip("PKTS=", lines[3])), ReadInt(Strip("CONNECTED=", lines[4]));
    if lines[0] == RULE && b.Some? && r.Some? && p.Some? && p.value >= 0 && a.Some?
    then Some(Station(b.value, r.value, p.value, a.value)) else None
  }

  function ReadBlocks(lines: seq<string>): Option<Stations> {
    if lines == [] then Some([])
    else if |lines| < 5 then None
    else
      var s, rest := ReadBlock(lines[..5]), ReadBlocks(lines[5..]);
      if s.Some? && rest.Some? then Some([s.value] + rest.value) else None
  }

  function ReadAp(lines: seq<string>): Option<ApInfo>
    requires |lines| == 9
  {
    var m, f := Strip("MODE=", lines[1]), Strip("IFACE=", lines[2]);
    var i, c := Strip("IP=", lines[3]), Strip("CHANNEL=", lines[4]);
    var w := ReadInt(StripUnit(" MHz", Strip("BANDWIDTH=", lines[5])));
    var p := ReadInt(StripUnit(" Mbps", Strip("PHY_RATE=", lines[6])));
    var r := ReadInt(StripUnit(" dBm", Strip("RSSI=", lines[7])));
    if m.Some? && f.Some? && i.Some? && c.Some? && w.Some? && p.Some? && r.Some?
    then Some(ApInfo(m.value, f.value, i.value, c.value, w.value, p.value, r.value)) else None
  }

  /** The interface record, the two counts and the stations of a status text. */
  function ReadStatus(text: string): (Option<ApInfo>, Option<int>, Option<int>, Option<Stations>) {
    var lines := Lines(text);
    if |lines| < 11 then (None, None, None, None)
    else (ReadAp(lines[..9]), ReadInt(Strip("STA_COUNT=", lines[8])), ReadInt(Strip("COUNT=", lines[10])),
          ReadBlocks(lines[11..]))
  }

  // ----- what was printed is what is read

  lemma StripKey(key: string, f: string)
    ensures Strip(key, key + f) == Some(f)
  {
  }

  lemma StripUnitOf(f: string, unit: string)
    ensures StripUnit(unit, Some(f + unit)) == Some(f)
  {
  }

  lemma ReadDigits(d: string, n: int)
    requires d != "" && AllDigits(d) && n == Value(d)
    ensures ReadInt(Some(d)) == Some(n) && ReadInt(Some("-" + d)) == Some(-n)
  {
    var t := "-" + d;
    assert t[0] == '-' && t[1..] == d;
  }

  lemma ReadIntOfSigned(i: int)
    ensures ReadInt(Some(Signed(i))) == Some(i)
    ensures i >= 0 ==> ReadInt(Some(Decimal(i))) == Some(i)
  {
    var n := if i < 0 then -i else i;
    ValueOfDecimal(n);
    ReadDigits(Decimal(n), n);
  }

  lemma IntField(key: string, i: int)
    ensures ReadInt(Strip(key, key + Signed(i))) == Some(i)
    ensures i >= 0 ==> ReadInt(Strip(key, key + Decimal(i))) == Some(i)
  {
    StripKey(key, Signed(i));
    ReadIntOfSigned(i);
  }

  lemma UnitField(key: string, i: int, unit: string)
    ensures ReadInt(StripUnit(unit, Strip(key, key + (Signed(i) + unit)))) == Some(i)
  {
    StripKey(key, Signed(i) + unit);
    StripUnitOf(Signed(i), unit);
    ReadIntOfSigned(i);
  }

  lemma ReadOneBlock(s: Station)
    ensures ReadBlock(BlockLines(s)) == Some(s)
  {
    StripKey("BSSID=", s.bssid);
    IntField("RSSI=", s.rssi);
    IntField("PKTS=", s.pkts);
    IntField("CONNECTED=", s.assoc);
  }

  lemma ReadBlocksCons(b: seq<string>, rest: seq<string>, s: Station, l: Stations)
    requires |b| == 5 && ReadBlock(b) == Some(s) && ReadBlocks(rest) == Some(l)
    ensures ReadBlocks(b + rest) == Some([s] + l)
  {
    SplitConcat(b, rest);
  }

  lemma {:induction false} ReadAllBlocks(l: Stations)
    ensures ReadBlocks(BlocksLines(l)) == Some(l)
  {
    if l != [] {
      ReadOneBlock(l[0]);
      ReadAllBlocks(l[1..]);
      SplitConcat(BlockLines(l[0]), BlocksLines(l[1..]));
      ReadBlocksCons(BlockLines(l[0]), BlocksLines(l[1..]), l[0], l[1..]);
      SplitFirst(l);
    }
  }

  lemma ReadApLines(ap: ApInfo, n: nat)
    ensures ReadAp(ApLines(ap, n)) == Some(ap)
  {
    StripKey("MODE=", ap.mode);
    StripKey("IFACE=", ap.iface);
    StripKey("IP=", ap.ip);
    StripKey("CHANNEL=", ap.channel);
    UnitField("BANDWIDTH=", ap.bandwidth, " MHz");
    UnitField("PHY_RATE=", ap.phyRate, " Mbps");
    UnitField("RSSI=", ap.rssi, " dBm");
  }

  /**
   * Whatever was written about the interface and over every run, the status text read back gives the record of the
   * interface, the number of stations twice, and every listed station with its signal, packets and association time.
   */
  lemma StatusReadsBack(writes: seq<Write>, idx: nat, steps: seq<Tracker.Step>)
    ensures var l := Tracker.Run(idx, steps).stas;
            ReadStatus(Full(Info(writes), l)) == (Some(Info(writes)), Some(|l|), Some(|l|), Some(l))
  {
    var ap, l := Info(writes), Tracker.Run(idx, steps).stas;
    var a, s, b := ApLines(ap, |l|), StaLines(|l|), BlocksLines(l);
    LinesOfStatus(writes, idx, steps);
    ThreeParts(a, s, b);
    ReadApLines(ap, |l|);
    IntField("STA_COUNT=", |l|);
    IntField("COUNT=", |l|);
    ReadAllBlocks(l);
  }

  lemma ThreeParts(a: seq<string>, s: seq<string>, b: seq<string>)
    requires |a| == 9 && |s| == 2
    ensures var lines := a + s + b; lines[..9] == a && lines[8] == a[8] && lines[10] == s[1] && lines[11..] == b
  {
  }
}
