/** The bounded-buffer status printer (wlinkd/src/wlan_core.c). */
module Status {
  import opened AccessPoint
  import opened Text
  import opened StationLists
  import opened StationManager
  import Bssids
  import MacKeys
  import Tracker

  // ----- the unbounded rendering, line by line

  const AP_HEADING := "===== AP ====="

  function ApTexts(ap: ApInfo): seq<string> {
    ["MODE=" + ap.mode, "IFACE=" + ap.iface, "IP=" + ap.ip, "CHANNEL=" + ap.channel]
  }

  function ApNumbers(ap: ApInfo, count: nat): seq<string> {
    ["BANDWIDTH=" + (Signed(ap.bandwidth) + " MHz"), "PHY_RATE=" + (Signed(ap.phyRate) + " Mbps"),
     "RSSI=" + (Signed(ap.rssi) + " dBm"), "STA_COUNT=" + Decimal(count)]
  }

  function ApLines(ap: ApInfo, count: nat): seq<string> { [AP_HEADING] + ApTexts(ap) + ApNumbers(ap, count) }

  function StaLines(count: nat): seq<string> { ["===== STA =====", "COUNT=" + Decimal(count)] }

  const RULE := "-----"

  function BlockLines(s: Station): seq<string> {
    [RULE] + ["BSSID=" + s.bssid, "RSSI=" + Signed(s.rssi), "PKTS=" + Decimal(s.pkts), "CONNECTED=" + Signed(s.assoc)]
  }

  /** One snprintf's worth of text per station. */
  function Blocks(l: Stations): string {
    if l == [] then "" else Unlines(BlockLines(l[0])) + Blocks(l[1..])
  }

  function Full(ap: ApInfo, l: Stations): string {
    Unlines(ApLines(ap, |l|)) + Unlines(StaLines(|l|)) + Blocks(l)
  }

  // ----- the bounded one

  /** `snprintf(buf + pos, size - pos, ...)`: cuts to the room there is, terminates, returns the uncut length. */
  method Snprintf(buf: array<char>, pos: nat, size: nat, text: string) returns (n: nat)
    requires pos <= size <= buf.Length
    modifies buf
    ensures n == |text|
    ensures buf[..pos] == old(buf[..pos]) && buf[size..] == old(buf[size..])
    ensures pos < size ==>
              var k := Min(|text|, size - pos - 1);
              buf[pos..pos + k] == text[..k] && buf[pos + k] == '\0'
  {
    n := |text|;
    if pos == size {
      return;
    }
    var k := if |text| < size - pos - 1 then |text| else size - pos - 1;
    for i := 0 to k
      invariant buf[..pos] == old(buf[..pos]) && buf[size..] == old(buf[size..])
      invariant buf[pos..pos + i] == text[..i]
    {
      buf[pos + i] := text[i];
      assert buf[pos..pos + i + 1] == buf[pos..pos + i] + [text[i]];
    }
    buf[pos + k] := '\0';
  }

  /** The buffer holds text, cut to fit, and terminated. */
  ghost predicate Holds(buf: array<char>, size: nat, text: string)
    reads buf
    requires 0 < size <= buf.Length
  {
    var k := Min(|text|, size - 1);
    buf[..k] == text[..k] && buf[k] == '\0'
  }

  /** Printing after what is already there: the buffer holds the longer text, cut to fit. */
  method Append(buf: array<char>, size: nat, ghost before: string, pos: nat, text: string) returns (fits: bool)
    requires 0 < size <= buf.Length
    requires pos == |before| < size && buf[..pos] == before
    modifies buf
    ensures fits <==> |before| + |text| < size
    ensures Holds(buf, size, before + text)
    ensures fits ==> buf[..pos + |text|] == before + text
    ensures buf[size..] == old(buf[size..])
  {
    var n := Snprintf(buf, pos, size, text);
    fits := n < size - pos;
    ghost var k := Min(|text|, size - pos - 1);
    assert buf[..pos + k] == buf[..pos] + buf[pos..pos + k] == before + text[..k];
    assert (before + text)[..pos + k] == before + text[..k];
  }

  lemma CutPrefix(buf: array<char>, size: nat, text: string, more: string)
    requires 0 < size <= buf.Length && |text| >= size && Holds(buf, size, text)
    ensures Holds(buf, size, text + more)
  {
  }

  /** What is printed so far, and what is still to come. */
  ghost predicate Printing(buf: array<char>, size: nat, pos: nat, before: string, ahead: string, full: string)
    reads buf
    requires 0 < size <= buf.Length
  {
    pos == |before| < size && buf[..pos] == before && Holds(buf, size, before) && before + ahead == full
  }

  /** One snprintf of the printer: either it fitted and printing goes on, or the buffer now holds the cut rendering. */
  method PrintPart(buf: array<char>, size: nat, pos: nat, text: string, ghost before: string, ghost rest: string,
                   ghost full: string)
    returns (fits: bool)
    requires 0 < size <= buf.Length
    requires pos == |before| < size && buf[..pos] == before && before + (text + rest) == full
    modifies buf
    ensures buf[size..] == old(buf[size..])
    ensures if fits then Printing(buf, size, pos + |text|, before + text, rest, full) else Holds(buf, size, full)
  {
    fits := Append(buf, size, before, pos, text);
    assert before + (text + rest) == before + text + rest;
    if !fits {
      CutPrefix(buf, size, before + text, rest);
    }
  }

  /** The three stages of the printer, given the text of the first two. */
  method PrintStages(buf: array<char>, size: nat, apText: string, staText: string, mgr: StaMgr)
    requires mgr.Valid() && 0 < size <= buf.Length
    modifies buf
    ensures Holds(buf, size, apText + staText + Blocks(mgr.contents))
    ensures buf[size..] == old(buf[size..])
  {
    ghost var blocks := Blocks(mgr.contents);
    ghost var full := apText + staText + blocks;
    Assoc(apText, staText, blocks);
    assert "" + full == full && "" + apText == apText;
    var fits := PrintPart(buf, size, 0, apText, "", staText + blocks, full);
    if !fits {
      return;
    }
    fits := PrintPart(buf, size, |apText|, staText, apText, blocks, full);
    if !fits {
      return;
    }
    PrintBlocks(buf, size, |apText| + |staText|, mgr, apText + staText, full);
  }

  /** `wlan_core_build_status`: for every list and size, the first size - 1 characters of the full rendering. */
  method BuildStatus(buf: array<char>, size: nat, ap: ApInfo, mgr: StaMgr)
    requires mgr.Valid() && size <= buf.Length
    modifies buf
    ensures size > 0 ==> Holds(buf, size, Full(ap, mgr.contents))
    ensures buf[size..] == old(buf[size..])
  {
    if size == 0 {
      return;
    }
    var count := mgr.Count();
    var apText := Unlines(ApLines(ap, count));
    count := mgr.Count();
    var staText := Unlines(StaLines(count));
    PrintStages(buf, size, apText, staText, mgr);
  }

  lemma BlocksStep(l: Stations, i: nat)
    requires i < |l|
    ensures Blocks(l[i..]) == Unlines(BlockLines(l[i])) + Blocks(l[i + 1..])
  {
    assert l[i..][1..] == l[i + 1..];
  }

  lemma PrintingDone(buf: array<char>, size: nat, pos: nat, before: string, full: string)
    requires 0 < size <= buf.Length && Printing(buf, size, pos, before, "", full)
    ensures Holds(buf, size, full)
  {
    assert before + "" == before;
  }

  /** One turn of the list walk. */
  method PrintBlock(buf: array<char>, size: nat, pos: nat, s: Station, ghost l: Stations, ghost i: nat,
                    ghost before: string, ghost full: string)
    returns (fits: bool, next: nat, ghost after: string)
    requires 0 < size <= buf.Length && i < |l| && s == l[i]
    requires Printing(buf, size, pos, before, Blocks(l[i..]), full)
    modifies buf
    ensures buf[size..] == old(buf[size..])
    ensures if fits then Printing(buf, size, next, after, Blocks(l[i + 1..]), full) else Holds(buf, size, full)
  {
    BlocksStep(l, i);
    var text := Unlines(BlockLines(s));
    fits := PrintPart(buf, size, pos, text, before, Blocks(l[i + 1..]), full);
    next, after := pos + |text|, before + text;
  }

  /** The list-walking loop. */
  method PrintBlocks(buf: array<char>, size: nat, pos0: nat, mgr: StaMgr, ghost before0: string, ghost full: string)
    requires mgr.Valid() && 0 < size <= buf.Length
    requires Printing(buf, size, pos0, before0, Blocks(mgr.contents), full)
    modifies buf
    ensures Holds(buf, size, full)
    ensures buf[size..] == old(buf[size..])
  {
    var curr, pos: nat, fits := mgr.head, pos0, true;
    ghost var i: nat, before := 0, before0;
    assert mgr.contents[0..] == mgr.contents;
    while curr != null && pos < size
      invariant 0 <= i <= |mgr.spine| && curr == StaMgr.At(mgr.spine, i)
      invariant Printing(buf, size, pos, before, Blocks(mgr.contents[i..]), full)
      invariant buf[size..] == old(buf[size..])
      decreases |mgr.spine| - i
    {
      mgr.NodeAt(curr, i);
      fits, pos, before := PrintBlock(buf, size, pos, curr.Record(), mgr.contents, i, before, full);
      if !fits {
        return;
      }
      curr := curr.next;
      i := i + 1;
    }
    assert i == |mgr.contents| && mgr.contents[i..] == [];
    PrintingDone(buf, size, pos, before, full);
  }

  // ----- the counts it prints

  /** How many lines open a station block. */
  function Rules(lines: seq<string>): nat {
    if lines == [] then 0 else (if lines[0] == RULE then 1 else 0) + Rules(lines[1..])
  }

  /** How many lines of a field, after its first, look like the opening of a station block. */
  function Inside(field: string): nat {
    var lines := Lines(field + "\n");
    if lines == [] then 0 else Rules(lines[1..])
  }

  function InsideAp(ap: ApInfo): nat { Inside(ap.mode) + Inside(ap.iface) + Inside(ap.ip) + Inside(ap.channel) }

  function InsideAll(l: Stations): nat { if l == [] then 0 else Inside(l[0].bssid) + InsideAll(l[1..]) }

  lemma {:induction false} RulesConcat(a: seq<string>, b: seq<string>)
    ensures Rules(a + b) == Rules(a) + Rules(b)
  {
    if a == [] {
      assert a + b == b;
    } else {
      assert (a + b)[1..] == a[1..] + b;
      RulesConcat(a[1..], b);
    }
  }

  /** How many openings printing a line adds, whatever the line holds. */
  function Marks(line: string): nat { Rules(Lines(line + "\n")) }

  function MarksOf(lines: seq<string>): nat {
    if lines == [] then 0 else Marks(lines[0]) + MarksOf(lines[1..])
  }

  lemma RulesOfText(a: string, b: string)
    requires Terminated(a)
    ensures Rules(Lines(a + b)) == Rules(Lines(a)) + Rules(Lines(b))
  {
    LinesConcat(a, b);
    RulesConcat(Lines(a), Lines(b));
  }

  lemma {:induction false} RulesOfUnlines(lines: seq<string>)
    ensures Rules(Lines(Unlines(lines))) == MarksOf(lines)
  {
    if lines != [] {
      RulesOfUnlines(lines[1..]);
      RulesOfText(lines[0] + "\n", Unlines(lines[1..]));
    }
  }

  /** What every line but RULE begins with. */
  predicate Key(key: string) { OneLine(key) && key != "" && key[0] != '-' }

  /** A labelled field adds what is inside it. */
  lemma MarksOfField(key: string, field: string)
    requires Key(key)
    ensures Marks(key + field) == Inside(field)
  {
    LinesAfterPrefix(key, field);
    var without, with := Lines(field + "\n"), Lines(key + field + "\n");
    assert with[0][0] == key[0] && RULE[0] == '-';
  }

  lemma NothingInside(field: string)
    requires OneLine(field)
    ensures Inside(field) == 0
  {
    LinesOfOne(field);
  }

  function InsideFields(fields: seq<string>): nat {
    if fields == [] then 0 else Inside(fields[0]) + InsideFields(fields[1..])
  }

  predicate Labelled(keys: seq<string>, fields: seq<string>, lines: seq<string>) {
    |keys| == |fields| == |lines| && forall i :: 0 <= i < |lines| ==> Key(keys[i]) && lines[i] == keys[i] + fields[i]
  }

  lemma {:induction false} MarksOfLabelled(keys: seq<string>, fields: seq<string>, lines: seq<string>)
    requires Labelled(keys, fields, lines)
    ensures MarksOf(lines) == InsideFields(fields)
  {
    if lines != [] {
      MarksOfField(keys[0], fields[0]);
      MarksOfLabelled(keys[1..], fields[1..], lines[1..]);
    }
  }

  lemma InsideFour(a: string, b: string, c: string, d: string)
    ensures InsideFields([a, b, c, d]) == Inside(a) + Inside(b) + Inside(c) + Inside(d)
  {
    assert [a, b, c, d][1..] == [b, c, d] && [b, c, d][1..] == [c, d] && [c, d][1..] == [d] && [d][1..] == [];
    assert InsideFields([d]) == Inside(d) + InsideFields([]);
    assert InsideFields([c, d]) == Inside(c) + InsideFields([d]);
    assert InsideFields([b, c, d]) == Inside(b) + InsideFields([c, d]);
  }

  lemma {:induction false} MarksOfConcat(a: seq<string>, b: seq<string>)
    ensures MarksOf(a + b) == MarksOf(a) + MarksOf(b)
  {
    if a == [] {
      assert a + b == b;
    } else {
      assert (a + b)[1..] == a[1..] + b;
      MarksOfConcat(a[1..], b);
    }
  }

  function FourLines(keys: seq<string>, fields: seq<string>): seq<string>
    requires |keys| == |fields| == 4
  {
    [keys[0] + fields[0], keys[1] + fields[1], keys[2] + fields[2], keys[3] + fields[3]]
  }

  lemma FourLabelled(keys: seq<string>, fields: seq<string>)
    requires |keys| == |fields| == 4 && Key(keys[0]) && Key(keys[1]) && Key(keys[2]) && Key(keys[3])
    ensures MarksOf(FourLines(keys, fields)) == InsideFields(fields)
  {
    var lines := FourLines(keys, fields);
    forall i | 0 <= i < 4
      ensures Key(keys[i]) && lines[i] == keys[i] + fields[i]
    {
      assert i == 0 || i == 1 || i == 2 || i == 3;
    }
    MarksOfLabelled(keys, fields, lines);
  }

  lemma MarksOfRule()
    ensures MarksOf([RULE]) == 1
  {
    LinesOfOne(RULE);
    assert [RULE][1..] == [];
    assert Rules([RULE]) == 1 && MarksOf([RULE]) == Marks(RULE) + MarksOf([]);
  }

  /** Four lines of which only the first may hold more than one. */
  lemma FourFields(keys: seq<string>, a: string, b: string, c: string, d: string)
    requires |keys| == 4 && Key(keys[0]) && Key(keys[1]) && Key(keys[2]) && Key(keys[3])
    requires OneLine(b) && OneLine(c) && OneLine(d)
    ensures MarksOf(FourLines(keys, [a, b, c, d])) == Inside(a)
    ensures MarksOf([RULE] + FourLines(keys, [a, b, c, d])) == 1 + Inside(a)
  {
    NothingInside(b);
    NothingInside(c);
    NothingInside(d);
    InsideFour(a, b, c, d);
    FourLabelled(keys, [a, b, c, d]);
    MarksOfConcat([RULE], FourLines(keys, [a, b, c, d]));
    MarksOfRule();
  }

  lemma MarksOfApTexts(ap: ApInfo)
    ensures MarksOf(ApTexts(ap)) == InsideAp(ap)
  {
    FourLabelled(["MODE=", "IFACE=", "IP=", "CHANNEL="], [ap.mode, ap.iface, ap.ip, ap.channel]);
    InsideFour(ap.mode, ap.iface, ap.ip, ap.channel);
  }

  lemma NumberOneLine(i: int, unit: string)
    requires OneLine(unit)
    ensures OneLine(Signed(i) + unit)
  {
    OneLineConcat(Signed(i), unit);
  }

  lemma MarksOfApNumbers(ap: ApInfo, n: nat)
    ensures MarksOf(ApNumbers(ap, n)) == 0
  {
    var a, b, c := Signed(ap.bandwidth) + " MHz", Signed(ap.phyRate) + " Mbps", Signed(ap.rssi) + " dBm";
    NumberOneLine(ap.bandwidth, " MHz");
    NumberOneLine(ap.phyRate, " Mbps");
    NumberOneLine(ap.rssi, " dBm");
    NothingInside(a);
    FourFields(["BANDWIDTH=", "PHY_RATE=", "RSSI=", "STA_COUNT="], a, b, c, Decimal(n));
  }

  /** A heading adds none. */
  lemma MarksOfHeading(h: string)
    requires Key(h)
    ensures MarksOf([h]) == 0
  {
    MarksOfField(h, "");
    NothingInside("");
    assert h + "" == h && [h][1..] == [];
  }

  lemma MarksOfAp(ap: ApInfo, n: nat)
    ensures MarksOf(ApLines(ap, n)) == InsideAp(ap)
  {
    MarksOfHeading(AP_HEADING);
    MarksOfApTexts(ap);
    MarksOfApNumbers(ap, n);
    MarksOfConcat([AP_HEADING], ApTexts(ap));
    MarksOfConcat([AP_HEADING] + ApTexts(ap), ApNumbers(ap, n));
  }

  lemma MarksOfSta(n: nat)
    ensures MarksOf(StaLines(n)) == 0
  {
    MarksOfHeading("===== STA =====");
    NothingInside(Decimal(n));
    MarksOfField("COUNT=", Decimal(n));
    MarksOfConcat(["===== STA ====="], ["COUNT=" + Decimal(n)]);
    assert MarksOf(["COUNT=" + Decimal(n)]) == Marks("COUNT=" + Decimal(n)) + MarksOf([]);
    assert StaLines(n) == ["===== STA ====="] + ["COUNT=" + Decimal(n)];
  }

  lemma MarksOfBlock(s: Station)
    ensures MarksOf(BlockLines(s)) == 1 + Inside(s.bssid)
  {
    FourFields(["BSSID=", "RSSI=", "PKTS=", "CONNECTED="], s.bssid, Signed(s.rssi), Decimal(s.pkts), Signed(s.assoc));
  }

  lemma {:induction false} RulesOfBlocks(l: Stations)
    ensures Rules(Lines(Blocks(l))) == |l| + InsideAll(l)
  {
    if l != [] {
      RulesOfBlocks(l[1..]);
      UnlinesTerminated(BlockLines(l[0]));
      RulesOfText(Unlines(BlockLines(l[0])), Blocks(l[1..]));
      RulesOfUnlines(BlockLines(l[0]));
      MarksOfBlock(l[0]);
    }
  }

  /** The lines of the three stages, one after the other. */
  lemma LinesOfFull(ap: ApInfo, l: Stations)
    ensures Lines(Full(ap, l)) ==
            Lines(Unlines(ApLines(ap, |l|))) + Lines(Unlines(StaLines(|l|))) + Lines(Blocks(l))
  {
    var a, s, b := Unlines(ApLines(ap, |l|)), Unlines(StaLines(|l|)), Blocks(l);
    UnlinesTerminated(ApLines(ap, |l|));
    UnlinesTerminated(StaLines(|l|));
    LinesConcat(a, s + b);
    LinesConcat(s, b);
    Assoc(a, s, b);
    Assoc(Lines(a), Lines(s), Lines(b));
  }

  lemma LastLine(front: seq<string>, last: string)
    requires OneLine(last)
    ensures Lines(Unlines(front + [last])) == Lines(Unlines(front)) + [last]
  {
    UnlinesConcat(front, [last]);
    UnlinesTerminated(front);
    LinesConcat(Unlines(front), Unlines([last]));
    assert Unlines([last]) == last + "\n";
    LinesOfOne(last);
  }

  predicate AllOneLine(lines: seq<string>) { forall i :: 0 <= i < |lines| ==> OneLine(lines[i]) }

  lemma StaLinesOneLine(n: nat)
    ensures AllOneLine(StaLines(n))
  {
    OneLineConcat("COUNT=", Decimal(n));
  }

  lemma CountsAt(front: seq<string>, count: string, sta: seq<string>, rest: seq<string>)
    requires |sta| == 2
    ensures var lines := front + [count] + sta + rest;
            lines[|front + [count]| - 1] == count && lines[|front + [count]| + 1] == sta[1]
  {
  }

  /** The last of the AP lines is the station count, and the two lines after it are the heading and the count again. */
  lemma CountLines(ap: ApInfo, l: Stations)
    ensures var head, lines := |Lines(Unlines(ApLines(ap, |l|)))|, Lines(Full(ap, l));
            && 0 < head < |lines| - 1
            && lines[head - 1] == "STA_COUNT=" + Decimal(|l|) && lines[head + 1] == "COUNT=" + Decimal(|l|)
  {
    var front, numbers := [AP_HEADING] + ApTexts(ap), ApNumbers(ap, |l|);
    SplitLast(numbers);
    Assoc(front, numbers[..3], [numbers[3]]);
    OneLineConcat("STA_COUNT=", Decimal(|l|));
    LastLine(front + numbers[..3], numbers[3]);
    StaLinesOneLine(|l|);
    LinesOfUnlines(StaLines(|l|));
    LinesOfFull(ap, l);
    CountsAt(Lines(Unlines(front + numbers[..3])), numbers[3], StaLines(|l|), Lines(Blocks(l)));
  }

  /**
   * Read back line by line, the full rendering has as many station blocks as both printed counts say, and one more
   * for each line inside a field that looks like the opening of a block: so exactly as many when there is none.
   */
  lemma CountsMatchBlocks(ap: ApInfo, l: Stations)
    ensures var head, lines := |Lines(Unlines(ApLines(ap, |l|)))|, Lines(Full(ap, l));
            && 0 < head < |lines| - 1
            && lines[head - 1] == "STA_COUNT=" + Decimal(|l|) && lines[head + 1] == "COUNT=" + Decimal(|l|)
            && Value(Decimal(|l|)) == |l|
            && Rules(lines) == |l| + InsideAp(ap) + InsideAll(l)
            && (Rules(lines) == |l| <==> InsideAp(ap) == 0 && InsideAll(l) == 0)
  {
    var a, s, b := Unlines(ApLines(ap, |l|)), Unlines(StaLines(|l|)), Blocks(l);
    CountLines(ap, l);
    ValueOfDecimal(|l|);
    LinesOfFull(ap, l);
    RulesConcat(Lines(a), Lines(s));
    RulesConcat(Lines(a) + Lines(s), Lines(b));
    RulesOfUnlines(ApLines(ap, |l|));
    RulesOfUnlines(StaLines(|l|));
    MarksOfAp(ap, |l|);
    MarksOfSta(|l|);
    RulesOfBlocks(l);
  }

  // ----- the stations the tracker lists

  lemma BssidOneLine(m: Bssids.Mac)
    ensures OneLine(Bssids.FormatBssid(m))
  {
    var t := Bssids.FormatBssid(m);
    forall i | 0 <= i < |t|
      ensures t[i] != '\n'
    {
      assert t[i] == Bssids.CharAt(m, i);
    }
  }

  lemma ApTextsOneLine(ap: ApInfo)
    requires OneLineTexts(ap)
    ensures AllOneLine(ApTexts(ap))
  {
    OneLineConcat("MODE=", ap.mode);
    OneLineConcat("IFACE=", ap.iface);
    OneLineConcat("IP=", ap.ip);
    OneLineConcat("CHANNEL=", ap.channel);
  }

  lemma ApNumbersOneLine(ap: ApInfo, n: nat)
    ensures AllOneLine(ApNumbers(ap, n))
  {
    NumberOneLine(ap.bandwidth, " MHz");
    NumberOneLine(ap.phyRate, " Mbps");
    NumberOneLine(ap.rssi, " dBm");
    OneLineConcat("BANDWIDTH=", Signed(ap.bandwidth) + " MHz");
    OneLineConcat("PHY_RATE=", Signed(ap.phyRate) + " Mbps");
    OneLineConcat("RSSI=", Signed(ap.rssi) + " dBm");
    OneLineConcat("STA_COUNT=", Decimal(n));
  }

  /** The AP part is nine lines when its texts are one line each. */
  lemma NineLines(ap: ApInfo, n: nat)
    requires OneLineTexts(ap)
    ensures |Lines(Unlines(ApLines(ap, n)))| == 9
  {
    ApTextsOneLine(ap);
    ApNumbersOneLine(ap, n);
    LinesOfUnlines(ApLines(ap, n));
  }

  lemma {:induction false} ListedInside(l: Stations)
    requires forall b :: b in Keys(l) ==> MacKeys.IsBssid(b)
    ensures InsideAll(l) == 0
  {
    if l != [] {
      assert MacKeys.IsBssid(l[0].bssid);
      var m: Bssids.Mac :| Bssids.FormatBssid(m) == l[0].bssid;
      BssidOneLine(m);
      NothingInside(l[0].bssid);
      ListedInside(l[1..]);
    }
  }

  /**
   * Whatever the daemon has written about its interface and whoever the tracker lists, the rendering has as many
   * station blocks as its ninth and its eleventh line count.
   */
  lemma CountsMatchBlocksOverRuns(writes: seq<Write>, idx: nat, steps: seq<Tracker.Step>)
    ensures var l := Tracker.Run(idx, steps).stas;
            var lines := Lines(Full(Info(writes), l));
            && Rules(lines) == |l| && |lines| >= 11
            && lines[8] == "STA_COUNT=" + Decimal(|l|) && lines[10] == "COUNT=" + Decimal(|l|)
  {
    var ap, l := Info(writes), Tracker.Run(idx, steps).stas;
    InfoProduced(writes);
    ProducedOneLine(ap);
    MacKeys.RunKeyedByMac(idx, steps);
    ListedInside(l);
    CountsMatchBlocks(ap, l);
    NothingInside(ap.mode);
    NothingInside(ap.iface);
    NothingInside(ap.ip);
    NothingInside(ap.channel);
    NineLines(ap, |l|);
  }
}
