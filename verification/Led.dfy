/**
 * From the pushed messages to the pins: the wire text, the subscriber thread (src/core/worker.c) and the driver
 * that interprets what it is written (drivers/led_gpio.c).
 */
module Led {
  import opened Bssids
  import opened StationLists
  import opened Text
  import opened Tracker
  import opened TrackerRuns

  /** Both pins of a side are always set together. */
  datatype Pins = Pins(left: bool, right: bool)

  const ON := Pins(true, true)
  const OFF := Pins(false, false)

  function Verb(e: IpcEvent): string {
    match e
    case StaJoin => "sta_join"
    case StaLeave => "sta_leave"
    case StaTraffic => "traffic"
  }

  /** `ipc_push_event`'s payload. */
  function Wire(e: IpcEvent): string { Verb(e) + "\n" }

  lemma WireIs()
    ensures Wire(StaJoin) == "sta_join\n" && Wire(StaLeave) == "sta_leave\n" && Wire(StaTraffic) == "traffic\n"
  {
  }

  /** What a write leaves on the pins. */
  function Written(p: Pins, text: string): Pins {
    if "sta_join" <= text then ON
    else if "sta_leave" <= text then OFF
    else if "traffic" <= text then ON
    else if text == "" || text[0] == '\0' then OFF
    else p
  }

  class Driver {
    var left: bool
    var right: bool
    ghost var shown: seq<Pins>  // the pin states passed through

    ghost function Now(): Pins
      reads this
    {
      Pins(left, right)
    }

    constructor ()
      ensures Now() == OFF && shown == []
    {
      left, right, shown := false, false, [];
    }

    /** `toy_driver_write`; traffic blinks: the pins go dark and end lit. */
    method Write(text: string)
      modifies this
      ensures Now() == Written(old(Now()), text)
      ensures "sta_join" <= text ==> left && right && shown == old(shown) + [ON]
      ensures "sta_leave" <= text ==> !left && !right && shown == old(shown) + [OFF]
      ensures "traffic" <= text ==>
                left && right && shown == old(shown) + [Pins(old(left), false), OFF, Pins(true, false), ON]
      ensures text == "" ==> !left && !right
      ensures !("sta_join" <= text) && !("sta_leave" <= text) && !("traffic" <= text) && text != "" && text[0] != '\0'
              ==> left == old(left) && right == old(right)
    {
      assert "traffic" <= text ==> text[0] == "traffic"[0] == 't';
      assert "sta_join" <= text ==> text[0] == "sta_join"[0] == 's' && text[4] == "sta_join"[4] == 'j';
      assert "sta_leave" <= text ==> text[0] == "sta_leave"[0] == 's' && text[4] == "sta_leave"[4] == 'l';
      if "sta_join" <= text {
        left := true;
        right := true;
      } else if "sta_leave" <= text {
        left := false;
        right := false;
      } else if "traffic" <= text {
        right := false;
        shown := shown + [Now()];
        left := false;
        shown := shown + [Now()];
        left := true;
        shown := shown + [Now()];
        right := true;
      } else if text == "" || text[0] == '\0' {
        left := false;
        right := false;
      }
      shown := shown + [Now()];
    }
  }

  /** `led_watcher_thread` on one received chunk: only its first line is acted on. */
  function OnChunk(p: Pins, chunk: string): Pins {
    if "sta_join" <= chunk || "sta_leave" <= chunk || "traffic" <= chunk
    then Written(p, chunk[..FirstNewline(chunk)])
    else p
  }

  /** Messages that arrived together. */
  function Joined(es: seq<IpcEvent>): string {
    if es == [] then "" else Wire(es[0]) + Joined(es[1..])
  }

  function Deliver(p: Pins, chunks: seq<seq<IpcEvent>>): Pins {
    if chunks == [] then p
    else OnChunk(Deliver(p, chunks[..|chunks| - 1]), Joined(chunks[|chunks| - 1]))
  }

  function Flatten(chunks: seq<seq<IpcEvent>>): seq<IpcEvent> {
    if chunks == [] then [] else Flatten(chunks[..|chunks| - 1]) + chunks[|chunks| - 1]
  }

  function Shown(lit: bool): Pins { if lit then ON else OFF }

  lemma FirstMessageRules(p: Pins, es: seq<IpcEvent>)
    requires es != []
    ensures OnChunk(p, Joined(es)) == Shown(es[0] != StaLeave)
  {
    var v, rest := Verb(es[0]), Joined(es[1..]);
    var c := Joined(es);
    assert c == v + "\n" + rest;
    FirstNewlineAfter(v, rest);
    assert c[..|v|] == v;
    assert c[0] == v[0] && c[4] == v[4];
  }

  /**
   * Over every way the pushed messages may be coalesced into chunks of whole messages, the pins show what the log
   * says exactly when the first and the last message of the final chunk agree on it.
   */
  lemma PinsShowLogExactlyWhen(chunks: seq<seq<IpcEvent>>, p: Pins)
    requires chunks != [] && chunks[|chunks| - 1] != []
    ensures var last := chunks[|chunks| - 1];
            Deliver(p, chunks) == Shown(Lit(Flatten(chunks))) <==>
            (last[0] == StaLeave <==> last[|last| - 1] == StaLeave)
  {
    var last := chunks[|chunks| - 1];
    FirstMessageRules(Deliver(p, chunks[..|chunks| - 1]), last);
    assert Flatten(chunks)[|Flatten(chunks)| - 1] == last[|last| - 1];
  }

  /** One station joins and leaves again. */
  function JoinAndLeave(idx: nat, mac: Mac): seq<Step> {
    [NetEvent(NlMsg(Some(idx), NewStation, Some(mac), None, true, 0)),
     NetEvent(NlMsg(Some(idx), DelStation, Some(mac), None, true, 0))]
  }

  lemma JoinAndLeaveRun(idx: nat, mac: Mac)
    ensures var t, b := Run(idx, JoinAndLeave(idx, mac)), FormatBssid(mac);
            t.stas == [] && t.trace == [Total(b, 0), Join(b)] + [Leave(b)] + [LedOff]
  {
    var steps, b := JoinAndLeave(idx, mac), FormatBssid(mac);
    var m0, m1 := steps[0].m, steps[1].m;
    var t1 := OnNetdev(START, idx, m0);
    assert Run(idx, steps[..1]) == t1 by {
      assert steps[..1][..0] == [];
      assert Run(idx, []) == START;
    }
    assert t1.stas == [Station(b, 0, 0, 0)] && t1.trace == [Total(b, 0), Join(b)] by {
      assert b != "";
      assert AddTo([], b, true, 0).1 > 0;
    }
    assert IndexOf(t1.stas, b) == 0;
    assert OnNetdev(t1, idx, m1).stas == [];
  }

  lemma JoinLog(b: string)
    ensures Ipc([Total(b, 0), Join(b)]) == [StaJoin]
  {
    var joined := [Total(b, 0), Join(b)];
    assert joined[..1] == [Total(b, 0)] && [Total(b, 0)][..0] == [];
    assert Ipc([Total(b, 0)]) == [];
  }

  lemma JoinAndLeaveLog(b: string)
    ensures Ipc([Total(b, 0), Join(b)] + [Leave(b)] + [LedOff]) == [StaJoin, StaLeave]
  {
    var joined := [Total(b, 0), Join(b)];
    JoinLog(b);
    LogsSnoc(joined, Leave(b));
    LogsSnoc(joined + [Leave(b)], LedOff);
  }

  lemma OneChunkRules(p: Pins, es: seq<IpcEvent>)
    requires es != []
    ensures Deliver(p, [es]) == Shown(es[0] != StaLeave)
  {
    assert [es][..0] == [];
    FirstMessageRules(p, es);
  }

  /** A run whose two messages, received together, leave the pins lit although nobody is listed. */
  lemma CoalescedPinsWrong(idx: nat, mac: Mac)
    ensures var t := Run(idx, JoinAndLeave(idx, mac));
            t.stas == [] && Deliver(OFF, [Ipc(t.trace)]) == ON
  {
    var log := Ipc(Run(idx, JoinAndLeave(idx, mac)).trace);
    assert log == [StaJoin, StaLeave] by {
      JoinAndLeaveRun(idx, mac);
      JoinAndLeaveLog(FormatBssid(mac));
    }
    OneChunkRules(OFF, log);
    JoinAndLeaveRun(idx, mac);
  }
}
