/**
 * The poll loop with its push subscribers: what a handler pushes goes to the descriptors registered at that moment
 * (wlinkd/src/main.c, wlinkd/src/ipc.c), and from there through the subscriber thread to the pins.
 */
module Subscribers {
  import opened Bssids
  import opened StationLists
  import opened Text
  import opened Tracker
  import opened TrackerRuns
  import opened TrackerRefresh
  import opened Led
  import Server = Ipc

  datatype System = System(tracker: State, server: Server.Server)

  /** One turn of the poll loop: a handler, with the sends that succeed for each of its pushes, or a connection. */
  datatype Turn = Handler(step: Step, oks: seq<set<int>>) | Connection(fd: nat, req: Server.Request)

  /** Successive pushes; no more outcomes given means that the sends fail. */
  function PushEach(server: Server.Server, es: seq<IpcEvent>, oks: seq<set<int>>): Server.Server
    decreases es
  {
    if es == [] then server
    else
      var ok := if oks == [] then {} else oks[0];
      PushEach(Server.Next(server, Server.PushAll(Wire(es[0]), ok)), es[1..], if oks == [] then [] else oks[1..])
  }

  function After(s: System, idx: nat, turn: Turn): System {
    match turn
    case Handler(step, oks) =>
      var t := Apply(s.tracker, idx, step);
      ApplyGrows(s.tracker, idx, step);
      System(t, PushEach(s.server, Ipc(Emitted(s.tracker, t)), oks))
    case Connection(fd, req) => s.(server := Server.Next(s.server, Server.Accept(fd, req)))
  }

  function Loop(idx: nat, turns: seq<Turn>): System {
    if turns == [] then System(START, Server.EMPTY) else After(Loop(idx, turns[..|turns| - 1]), idx, turns[|turns| - 1])
  }

  /** The handler calls of a run, as the tracker alone sees it. */
  function Steps(turns: seq<Turn>): seq<Step> {
    if turns == [] then []
    else
      var turn := turns[|turns| - 1];
      Steps(turns[..|turns| - 1]) + if turn.Handler? then [turn.step] else []
  }

  /** accept() never returns a descriptor that is still open. */
  ghost predicate KernelFresh(idx: nat, turns: seq<Turn>) {
    forall i :: 0 <= i < |turns| && turns[i].Connection? ==> turns[i].fd !in Loop(idx, turns[..i]).server.registered
  }

  function Wires(es: seq<IpcEvent>): seq<string> {
    if es == [] then [] else Wires(es[..|es| - 1]) + [Wire(es[|es| - 1])]
  }

  /** The subscriber thread on messages received one at a time. */
  function ReadEach(p: Pins, msgs: seq<string>): Pins {
    if msgs == [] then p else OnChunk(ReadEach(p, msgs[..|msgs| - 1]), msgs[|msgs| - 1])
  }

  // ----- the server has been pushed exactly the tracker's log

  lemma {:induction false} LoopIsRun(idx: nat, turns: seq<Turn>)
    ensures Loop(idx, turns).tracker == Run(idx, Steps(turns))
  {
    if turns != [] {
      var n := |turns| - 1;
      LoopIsRun(idx, turns[..n]);
      if turns[n].Handler? {
        var steps := Steps(turns[..n]);
        assert (steps + [turns[n].step])[..|steps|] == steps;
      } else {
        assert Steps(turns) == Steps(turns[..n]);
      }
    }
  }

  lemma {:induction false} FoldNetGrows(t: State, idx: nat, msgs: seq<NlMsg>)
    ensures t.trace <= FoldNet(t, idx, msgs).trace
    decreases msgs
  {
    if msgs != [] { FoldNetGrows(OnNetdev(t, idx, msgs[0]), idx, msgs[1..]); }
  }

  lemma ApplyGrows(t: State, idx: nat, step: Step)
    ensures t.trace <= Apply(t, idx, step).trace
  {
    if step.Timer? {
      var t1 := AfterInterfaces(t, idx, step.w);
      FoldNetGrows(t.(apMode := false), idx, IfReplies(step.w));
      DumpReportsNoDeparture(t1, StaReplies(step.w));
    }
  }

  lemma {:induction false} IpcConcat(a: seq<Event>, b: seq<Event>)
    ensures Ipc(a + b) == Ipc(a) + Ipc(b)
  {
    if b == [] {
      assert a + b == a;
    } else {
      var n := |b| - 1;
      var front, last := b[..n], b[n];
      IpcConcat(a, front);
      SplitLast(b);
      Assoc(a, front, [last]);
      LogsSnoc(a + front, last);
      LogsSnoc(front, last);
      Assoc(Ipc(a), Ipc(front), IpcOf(last));
    }
  }

  lemma WiresSnoc(es: seq<IpcEvent>, e: IpcEvent)
    ensures Wires(es + [e]) == Wires(es) + [Wire(e)]
  {
    assert (es + [e])[..|es|] == es;
  }

  lemma {:induction false} WiresConcat(a: seq<IpcEvent>, b: seq<IpcEvent>)
    ensures Wires(a + b) == Wires(a) + Wires(b)
  {
    if b == [] {
      assert a + b == a;
    } else {
      var n := |b| - 1;
      var front, last := b[..n], b[n];
      WiresConcat(a, front);
      SplitLast(b);
      Assoc(a, front, [last]);
      WiresSnoc(a + front, last);
      WiresSnoc(front, last);
      Assoc(Wires(a), Wires(front), [Wire(last)]);
    }
  }

  lemma WiresCons(es: seq<IpcEvent>)
    requires es != []
    ensures Wires(es) == [Wire(es[0])] + Wires(es[1..])
  {
    assert es == [es[0]] + es[1..];
    WiresConcat([es[0]], es[1..]);
    assert [es[0]][..0] == [];
  }

  lemma {:induction false} WiresAt(es: seq<IpcEvent>)
    ensures |Wires(es)| == |es|
    ensures forall n :: 0 <= n <= |es| ==> Wires(es)[n..] == Wires(es[n..])
  {
    if es != [] { WiresAt(es[..|es| - 1]); }
    forall n | 0 <= n <= |es|
      ensures Wires(es)[n..] == Wires(es[n..])
    {
      assert es == es[..n] + es[n..];
      WiresConcat(es[..n], es[n..]);
      if n < |es| { WiresAt(es[..n]); } else { assert es[n..] == []; }
    }
  }

  lemma {:induction false} PushEachKeeps(server: Server.Server, es: seq<IpcEvent>, oks: seq<set<int>>)
    requires Server.Conserved(server) && Server.Served(server)
    ensures Server.Conserved(PushEach(server, es, oks)) && Server.Served(PushEach(server, es, oks))
    decreases es
  {
    if es != [] {
      var st := Server.PushAll(Wire(es[0]), if oks == [] then {} else oks[0]);
      Server.StepConserves(server, st);
      Server.StepServes(server, st);
      PushEachKeeps(Server.Next(server, st), es[1..], if oks == [] then [] else oks[1..]);
    }
  }

  lemma {:induction false} PushEachPushes(server: Server.Server, es: seq<IpcEvent>, oks: seq<set<int>>)
    ensures PushEach(server, es, oks).pushed == server.pushed + Wires(es)
    decreases es
  {
    if es != [] {
      var st := Server.PushAll(Wire(es[0]), if oks == [] then {} else oks[0]);
      PushEachPushes(Server.Next(server, st), es[1..], if oks == [] then [] else oks[1..]);
      WiresCons(es);
      Assoc(server.pushed, [Wire(es[0])], Wires(es[1..]));
    }
  }

  ghost predicate SystemOk(s: System) {
    && Server.Conserved(s.server) && Server.Served(s.server)
    && s.server.pushed == Wires(Ipc(s.tracker.trace))
  }

  lemma TurnKeeps(s: System, idx: nat, turn: Turn)
    requires SystemOk(s) && (turn.Connection? ==> turn.fd !in s.server.registered)
    ensures SystemOk(After(s, idx, turn))
  {
    match turn {
      case Handler(step, oks) =>
        var t := Apply(s.tracker, idx, step);
        ApplyGrows(s.tracker, idx, step);
        var news := Emitted(s.tracker, t);
        assert t.trace == s.tracker.trace + news;
        IpcConcat(s.tracker.trace, news);
        WiresConcat(Ipc(s.tracker.trace), Ipc(news));
        PushEachKeeps(s.server, Ipc(news), oks);
        PushEachPushes(s.server, Ipc(news), oks);
      case Connection(fd, req) =>
        Server.StepConserves(s.server, Server.Accept(fd, req));
        Server.StepServes(s.server, Server.Accept(fd, req));
    }
  }

  lemma {:induction false} LoopKeeps(idx: nat, turns: seq<Turn>)
    requires KernelFresh(idx, turns)
    ensures SystemOk(Loop(idx, turns))
  {
    if turns != [] {
      var n := |turns| - 1;
      assert KernelFresh(idx, turns[..n]) by {
        assert forall i :: 0 <= i < n ==> turns[..n][..i] == turns[..i];
      }
      LoopKeeps(idx, turns[..n]);
      TurnKeeps(Loop(idx, turns[..n]), idx, turns[n]);
    }
  }

  // ----- who stays subscribed

  /** A subscription made while fewer than 8 are registered is registered, whoever is listed, and pushes nothing. */
  lemma SubscriptionTurn(s: System, idx: nat, fd: nat)
    requires |s.server.registered| < 8
    ensures var s' := After(s, idx, Connection(fd, Server.Subscribe));
            && s'.tracker == s.tracker && s'.server.pushed == s.server.pushed
            && s'.server.registered == s.server.registered + [fd]
  {
    Server.SubscribeRegisters(s.server, fd);
  }

  /** The send to fd succeeds for each of n pushes. */
  predicate Succeeds(oks: seq<set<int>>, n: nat, fd: int) { |oks| >= n && forall i :: 0 <= i < n ==> fd in oks[i] }

  lemma {:induction false} StaysRegistered(server: Server.Server, es: seq<IpcEvent>, oks: seq<set<int>>, fd: int)
    requires fd >= 0 && fd in server.registered && Succeeds(oks, |es|, fd)
    ensures fd in PushEach(server, es, oks).registered
    decreases es
  {
    if es != [] {
      Server.ReachedAreOk(server.registered, oks[0], fd);
      StaysRegistered(Server.Next(server, Server.PushAll(Wire(es[0]), oks[0])), es[1..], oks[1..], fd);
    }
  }

  /** A subscriber stays registered through every handler whose sends to it all succeed, and every connection. */
  lemma StaysSubscribed(s: System, idx: nat, turn: Turn, fd: int)
    requires fd >= 0 && fd in s.server.registered
    requires turn.Handler? ==>
               var t := Apply(s.tracker, idx, turn.step);
               |s.tracker.trace| <= |t.trace| ==> Succeeds(turn.oks, |Ipc(Emitted(s.tracker, t))|, fd)
    ensures fd in After(s, idx, turn).server.registered
  {
    if turn.Handler? {
      var t := Apply(s.tracker, idx, turn.step);
      ApplyGrows(s.tracker, idx, turn.step);
      StaysRegistered(s.server, Ipc(Emitted(s.tracker, t)), turn.oks, fd);
    }
  }

  // ----- what a subscriber shows

  lemma {:induction false} LastMessageRules(p: Pins, es: seq<IpcEvent>)
    ensures ReadEach(p, Wires(es)) == if es == [] then p else Shown(es[|es| - 1] != StaLeave)
  {
    if es != [] {
      var n := |es| - 1;
      var before := ReadEach(p, Wires(es[..n]));
      assert Wires(es)[..|Wires(es)| - 1] == Wires(es[..n]);
      FirstMessageRules(before, [es[n]]);
      assert Joined([es[n]]) == Wire(es[n]) + Joined([]) == Wire(es[n]);
    }
  }

  /** A registered subscriber has been sent exactly the tracker's log since it registered. */
  lemma SubscriberReads(idx: nat, turns: seq<Turn>, fd: int)
    requires KernelFresh(idx, turns) && fd in Loop(idx, turns).server.registered
    ensures var s := Loop(idx, turns);
            var log := Ipc(s.tracker.trace);
            && fd in s.server.since && fd in s.server.inbox && s.server.since[fd] <= |log|
            && s.server.inbox[fd] == Wires(log[s.server.since[fd]..])
  {
    LoopKeeps(idx, turns);
    var s := Loop(idx, turns);
    assert Server.ServedFd(s.server, fd);
    WiresAt(Ipc(s.tracker.trace));
  }

  /**
   * Over every run, a subscriber that reads one message at a time, with the pins at p when it registered, shows
   * whether a station is listed exactly when something was pushed since, or p happened to be right. In particular,
   * with the pins dark: exactly when something was pushed since or no station is listed.
   */
  lemma PinsShowStationsExactlyWhen(idx: nat, turns: seq<Turn>, fd: int, p: Pins)
    requires KernelFresh(idx, turns) && fd in Loop(idx, turns).server.registered
    ensures var s := Loop(idx, turns);
            var lit := s.tracker.stas != [];
            && fd in s.server.since && fd in s.server.inbox
            && (ReadEach(p, s.server.inbox[fd]) == Shown(lit) <==>
                s.server.since[fd] < |s.server.pushed| || p == Shown(lit))
            && (ReadEach(OFF, s.server.inbox[fd]) == Shown(lit) <==>
                s.server.since[fd] < |s.server.pushed| || s.tracker.stas == [])
  {
    var s := Loop(idx, turns);
    var log := Ipc(s.tracker.trace);
    SubscriberReads(idx, turns, fd);
    LoopKeeps(idx, turns);
    WiresAt(log);
    var n := s.server.since[fd];
    LoopIsRun(idx, turns);
    RunKeeps(idx, Steps(turns));
    LastMessageRules(p, log[n..]);
    LastMessageRules(OFF, log[n..]);
    assert n < |log| ==> log[n..][|log| - n - 1] == log[|log| - 1];
  }

  /** So the pins stay dark for a subscriber that comes after the only station, as one at start-up does. */
  lemma LateSubscriberStaysDark(idx: nat, mac: Mac, fd: nat)
    ensures var join := NlMsg(Some(idx), NewStation, Some(mac), None, true, 0);
            var turns := [Handler(NetEvent(join), []), Connection(fd, Server.Subscribe)];
            var s := Loop(idx, turns);
            && KernelFresh(idx, turns) && fd in s.server.registered && fd in s.server.inbox
            && s.tracker.stas != [] && ReadEach(OFF, s.server.inbox[fd]) == OFF
  {
    var join := NlMsg(Some(idx), NewStation, Some(mac), None, true, 0);
    var turns := [Handler(NetEvent(join), []), Connection(fd, Server.Subscribe)];
    assert turns[..0] == [] && turns[..1] == [turns[0]] && turns[..1][..0] == [];
    var s0, s1 := Loop(idx, []), Loop(idx, turns[..1]);
    assert s1 == After(s0, idx, turns[0]);
    assert s1.tracker.stas == [Station(FormatBssid(mac), 0, 0, 0)];
    PushEachKeepsNobody(s0.server, Ipc(Emitted(s0.tracker, s1.tracker)), []);
  }

  // ----- a whole session: the reply to the subscription, then chunks of any size

  const REPLY := "OK\n"

  /** The subscriber thread from its first recv on: only the first two characters of that are looked at. */
  function Session(p: Pins, first: string, chunks: seq<seq<IpcEvent>>): Option<Pins> {
    if "OK" <= first then Some(Deliver(p, chunks)) else None
  }

  lemma ReplyAccepted(p: Pins, swallowed: seq<IpcEvent>, chunks: seq<seq<IpcEvent>>)
    ensures Session(p, REPLY + Joined(swallowed), chunks) == Some(Deliver(p, chunks))
  {
    var t := REPLY + Joined(swallowed);
    assert t[0] == 'O' && t[1] == 'K';
  }

  /** Only a reply that begins with "OK" starts a session: a full server's does not. */
  lemma RefusedStartsNothing(p: Pins, first: string, chunks: seq<seq<IpcEvent>>)
    ensures Session(p, first, chunks).Some? <==> |first| >= 2 && first[0] == 'O' && first[1] == 'K'
    ensures Session(p, "ERR full\n", chunks) == None
  {
    var ok := "OK";
    assert ok <= first ==> first[0] == ok[0] && first[1] == ok[1];
    assert |first| >= 2 && first[0] == 'O' && first[1] == 'K' ==> first[..2] == ok;
    var full := "ERR full\n";
    assert full[0] == 'E';
  }

  lemma {:induction false} FlattenEnd(chunks: seq<seq<IpcEvent>>)
    requires chunks != [] && chunks[|chunks| - 1] != []
    ensures var all, last := Flatten(chunks), chunks[|chunks| - 1];
            all != [] && all[|all| - 1] == last[|last| - 1]
  {
  }

  /** What was sent since fd registered: some of it came with the reply, the rest in chunks of whole messages. */
  ghost predicate Received(s: System, fd: int, swallowed: seq<IpcEvent>, chunks: seq<seq<IpcEvent>>) {
    var log := Ipc(s.tracker.trace);
    && fd in s.server.registered && fd in s.server.since && s.server.since[fd] <= |log|
    && swallowed + Flatten(chunks) == log[s.server.since[fd]..]
    && forall i :: 0 <= i < |chunks| ==> chunks[i] != []
  }

  /**
   * Over every run, for a registered subscriber with the pins at p: however many of the messages sent since it
   * registered came together with the reply, and however the others were coalesced, its pins show whether a station
   * is listed exactly when the first and the last message of the final chunk agree; with no chunk, when p was right.
   */
  lemma SessionShowsStationsExactlyWhen(idx: nat, turns: seq<Turn>, fd: int, p: Pins, swallowed: seq<IpcEvent>,
                                        chunks: seq<seq<IpcEvent>>)
    requires Received(Loop(idx, turns), fd, swallowed, chunks)
    ensures var lit := Loop(idx, turns).tracker.stas != [];
            Session(p, REPLY + Joined(swallowed), chunks) == Some(Shown(lit)) <==>
            if chunks == [] then p == Shown(lit)
            else var last := chunks[|chunks| - 1]; last[0] == StaLeave <==> last[|last| - 1] == StaLeave
  {
    var s := Loop(idx, turns);
    ReplyAccepted(p, swallowed, chunks);
    if chunks != [] {
      FlattenEnd(chunks);
      SameEnd(swallowed, Flatten(chunks), Ipc(s.tracker.trace), s.server.since[fd]);
      LoopIsRun(idx, turns);
      RunKeeps(idx, Steps(turns));
      PinsShowLogExactlyWhen(chunks, p);
    }
  }

  lemma SameEnd(a: seq<IpcEvent>, b: seq<IpcEvent>, log: seq<IpcEvent>, n: nat)
    requires n <= |log| && a + b == log[n..] && b != []
    ensures Lit(b) == Lit(log)
  {
    assert (a + b)[|a + b| - 1] == b[|b| - 1] && log[n..][|log| - n - 1] == log[|log| - 1];
  }

  /** One station joins right after the subscription, and its message is read together with the reply. */
  lemma ReplySwallowsJoin(idx: nat, mac: Mac, fd: nat)
    ensures var join := NlMsg(Some(idx), NewStation, Some(mac), None, true, 0);
            var turns := [Connection(fd, Server.Subscribe), Handler(NetEvent(join), [{fd}])];
            var s := Loop(idx, turns);
            && KernelFresh(idx, turns) && Received(s, fd, [StaJoin], [])
            && s.server.since[fd] < |s.server.pushed| && s.tracker.stas != []
            && Session(OFF, REPLY + Joined([StaJoin]), []) == Some(OFF)
  {
    var join := NlMsg(Some(idx), NewStation, Some(mac), None, true, 0);
    var turns := [Connection(fd, Server.Subscribe), Handler(NetEvent(join), [{fd}])];
    assert turns[..0] == [] && turns[..1] == [turns[0]] && turns[..1][..0] == [];
    var s0, s1, s2 := Loop(idx, []), Loop(idx, turns[..1]), Loop(idx, turns);
    assert s1 == After(s0, idx, turns[0]) && s2 == After(s1, idx, turns[1]);
    JoinEmits(idx, mac);
    SubscribeThenPush(fd, Wire(StaJoin));
    OneEach(s1.server, StaJoin, {fd});
    assert [StaJoin] + Flatten([]) == [StaJoin][0..];
    ReplyAccepted(OFF, [StaJoin], []);
  }

  lemma JoinEmits(idx: nat, mac: Mac)
    ensures var t := Apply(START, idx, NetEvent(NlMsg(Some(idx), NewStation, Some(mac), None, true, 0)));
            t.stas != [] && Emitted(START, t) == t.trace && Ipc(t.trace) == [StaJoin]
  {
    var b := FormatBssid(mac);
    var t := Apply(START, idx, NetEvent(NlMsg(Some(idx), NewStation, Some(mac), None, true, 0)));
    assert t.trace == [Total(b, 0), Join(b)];
    JoinLog(b);
  }

  lemma OneEach(server: Server.Server, e: IpcEvent, ok: set<int>)
    ensures PushEach(server, [e], [ok]) == Server.Next(server, Server.PushAll(Wire(e), ok))
  {
    assert [e][1..] == [];
  }

  /** One subscriber, one message that reaches it. */
  lemma SubscribeThenPush(fd: nat, msg: string)
    ensures var s1 := Server.Next(Server.EMPTY, Server.Accept(fd, Server.Subscribe));
            var s2 := Server.Next(s1, Server.PushAll(msg, {fd}));
            && s2.registered == [fd] && fd in s2.since && s2.since[fd] == 0 && |s2.pushed| == 1
  {
    var s1 := Server.Next(Server.EMPTY, Server.Accept(fd, Server.Subscribe));
    assert s1.registered == [fd];
    assert [fd][1..] == [] && Server.Reached([fd], {fd}) == [fd] + Server.Reached([], {fd});
  }

  lemma {:induction false} PushEachKeepsNobody(server: Server.Server, es: seq<IpcEvent>, oks: seq<set<int>>)
    requires server.registered == []
    ensures PushEach(server, es, oks).registered == []
    decreases es
  {
    if es != [] {
      var st := Server.PushAll(Wire(es[0]), if oks == [] then {} else oks[0]);
      PushEachKeepsNobody(Server.Next(server, st), es[1..], if oks == [] then [] else oks[1..]);
    }
  }
}
