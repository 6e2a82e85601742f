/**
 * The TCP monitor broadcast (wlinkd/src/tcp_server.c): one producer, any number of client threads, a one-slot buffer
 * and a sequence counter under a mutex and a condition variable, interleaved statement by statement.
 */
module Monitor {
  import opened Text

  const WRAP := 0x1_0000_0000_0000_0000  // `unsigned long long g_seq`
  const TCP_SERVER_BUF := 1024

  /** `snprintf(g_push_event, sizeof - 1, "%s %s", ...)`. */
  function PushText(arg: string, bssid: string): (t: string)
    ensures |t| <= TCP_SERVER_BUF - 2
  {
    var full := arg + " " + bssid;
    full[..Min(|full|, TCP_SERVER_BUF - 2)]
  }

  /** An event is pushed whole exactly when it fits the buffer, as a verb and a 17-character BSSID always do. */
  lemma PushedWholeExactlyWhen(arg: string, bssid: string)
    ensures PushText(arg, bssid) <= arg + " " + bssid
    ensures PushText(arg, bssid) == arg + " " + bssid <==> |arg| + 1 + |bssid| <= 1022
  {
  }

  datatype Owner = Nobody | Producer | Thread(id: nat)

  /** Where `tcp_server_push_event` stands; every value but Idle holds the lock. */
  datatype Push = Idle | Writing(text: string, k: nat) | Written(text: string) | Counted | Announced

  /** Where a client thread stands. */
  datatype Pc =
    | Command                          // at the command recv, not monitoring
    | Starting                         // holds the lock, about to remember the current sequence number
    | Top                              // at the head of the monitor loop, about to lock
    | Holding(timedOut: bool)          // holds the lock, at the sequence test
    | Asleep(signalled: bool)          // in pthread_cond_timedwait
    | Copying(local: string)           // holds the lock, part of the buffer copied
    | Copied(local: string)            // holds the lock, last_seq updated
    | Sending(local: string)
    | Polling

  predicate HoldsLock(pc: Pc) { pc.Starting? || pc.Holding? || pc.Copying? || pc.Copied? }
  predicate Monitoring(pc: Pc) { !pc.Command? && !pc.Starting? }

  /**
   * A client thread. Beside its pc and last_seq it carries a history of its current monitor session: how many
   * events had been pushed at the `monitor` command (start) and at its last look (seen), the events it read with
   * their numbers, how many were overwritten before it looked, and the lines it was sent.
   */
  datatype Client =
    Client(pc: Pc, last: nat, start: nat, seen: nat, got: seq<(nat, string)>, lost: nat, sent: seq<string>)

  /** hist[i] is the text of event number i + 1. */
  datatype State = State(lock: Owner, seqNo: nat, buf: string, hist: seq<string>, push: Push, clients: map<nat, Client>)

  const START := State(Nobody, 0, "", [], Idle, map[])

  datatype Action =
    | Connect | Monitor | Remember | Lock | Test | Wake(timedOut: bool)
    | CopyChar | CopyEnd | Unlock | Send(ok: bool) | Poll(stop: bool)

  datatype Step =
    | PushLock(arg: string, bssid: string) | PushChar | PushEnd | PushCount | PushBroadcast | PushUnlock
    | By(id: nat, action: Action)

  /** A step that is not possible in a state leaves it alone. */
  function Next(s: State, st: Step): State {
    match st
    case PushLock(arg, bssid) =>
      if s.push.Idle? && s.lock.Nobody? then s.(lock := Producer, push := Writing(PushText(arg, bssid), 0)) else s
    case PushChar =>
      if s.push.Writing? && s.push.k < |s.push.text| then
        var k := s.push.k + 1;
        s.(buf := s.push.text[..k] + (if k <= |s.buf| then s.buf[k..] else ""), push := Writing(s.push.text, k))
      else s
    case PushEnd =>
      if s.push.Writing? && s.push.k == |s.push.text| then s.(buf := s.push.text, push := Written(s.push.text)) else s
    case PushCount =>
      if s.push.Written? then
        s.(seqNo := (s.seqNo + 1) % WRAP, hist := s.hist + [s.push.text], push := Counted,
           clients := map c | c in s.clients :: Overwrite(s.clients[c], |s.hist|))
      else s
    case PushBroadcast =>
      if s.push.Counted? then s.(push := Announced, clients := map c | c in s.clients :: Signal(s.clients[c])) else s
    case PushUnlock =>
      if s.push.Announced? then s.(lock := Nobody, push := Idle) else s
    case By(id, a) => Act(s, id, a)
  }

  /** The event a client had not read yet is about to be replaced. */
  function Overwrite(c: Client, pushed: nat): Client {
    if Monitoring(c.pc) && c.seen < pushed then c.(lost := c.lost + 1) else c
  }

  function Signal(c: Client): Client { if c.pc.Asleep? then c.(pc := Asleep(true)) else c }

  /** Entering a locked region takes the lock, which Moved allows only when it is free; leaving one releases it. */
  function Act(s: State, id: nat, a: Action): State {
    if id !in s.clients then
      if a.Connect? then s.(clients := s.clients[id := Client(Command, 0, 0, 0, [], 0, [])]) else s
    else
      var c := s.clients[id];
      var c' := Moved(s, c, a);
      var s' := s.(clients := s.clients[id := c']);
      if !HoldsLock(c.pc) && HoldsLock(c'.pc) then s'.(lock := Thread(id))
      else if HoldsLock(c.pc) && !HoldsLock(c'.pc) then s'.(lock := Nobody)
      else s'
  }

  /** `"event: %s\n"`. */
  function EventLine(text: string): string { "event: " + text + "\n" }

  function Moved(s: State, c: Client, a: Action): Client {
    var free, pushed := s.lock.Nobody?, |s.hist|;
    match a
    case Connect => c
    case Monitor => if c.pc.Command? && free then c.(pc := Starting) else c
    case Remember => if c.pc.Starting? then Client(Top, s.seqNo, pushed, pushed, [], 0, []) else c
    case Lock => if c.pc.Top? && free then c.(pc := Holding(false)) else c
    case Test =>
      if !c.pc.Holding? then c
      else if s.seqNo != c.last then c.(pc := Copying(""))
      else c.(pc := if c.pc.timedOut then Polling else Asleep(false))
    case Wake(timedOut) => if c.pc.Asleep? && free then c.(pc := Holding(timedOut)) else c
    case CopyChar =>
      if c.pc.Copying? && |c.pc.local| < Min(|s.buf|, TCP_SERVER_BUF - 1)
      then c.(pc := Copying(c.pc.local + [s.buf[|c.pc.local|]]))
      else c
    case CopyEnd =>
      if c.pc.Copying? && |c.pc.local| >= Min(|s.buf|, TCP_SERVER_BUF - 1)
      then c.(pc := Copied(c.pc.local), last := s.seqNo, seen := pushed, got := c.got + [(pushed, c.pc.local)])
      else c
    case Unlock => if c.pc.Copied? then c.(pc := Sending(c.pc.local)) else c
    case Send(ok) =>
      if !c.pc.Sending? then c
      else if ok then c.(pc := Polling, sent := c.sent + [EventLine(c.pc.local)])
      else c.(pc := Command)
    case Poll(stop) => if c.pc.Polling? then c.(pc := if stop then Command else Top) else c
  }

  function Run(steps: seq<Step>): State {
    if steps == [] then START else Next(Run(steps[..|steps| - 1]), steps[|steps| - 1])
  }

  // ----- the invariant

  /** A client's readings: numbered upwards from after its `monitor` command, each with the text of that event. */
  ghost predicate ReadInOrder(hist: seq<string>, c: Client)
    requires c.seen <= |hist|
  {
    && (forall i :: 0 <= i < |c.got| ==> c.start < c.got[i].0 <= c.seen && c.got[i].1 == hist[c.got[i].0 - 1])
    && (forall i, j :: 0 <= i < j < |c.got| ==> c.got[i].0 < c.got[j].0)
    && (if c.got == [] then c.seen == c.start else c.got[|c.got| - 1].0 == c.seen)
  }

  /** Every event pushed since the command was read, was overwritten, or is the one waiting to be read. */
  ghost predicate Accounted(hist: seq<string>, c: Client) {
    |c.got| + c.lost + (if c.seen < |hist| then 1 else 0) == |hist| - c.start
  }

  ghost predicate ClientOk(hist: seq<string>, buf: string, announcing: bool, c: Client) {
    Monitoring(c.pc) ==>
      && c.start <= c.seen <= |hist| && c.last == c.seen % WRAP
      && ReadInOrder(hist, c) && Accounted(hist, c)
      && (c.pc == Asleep(false) ==> c.last == |hist| % WRAP || announcing)
      && (c.pc.Copying? ==> c.pc.local <= buf && c.seen < |hist|)
      && (c.pc.Copied? ==> c.seen == |hist|)
      && (c.pc.Copied? || c.pc.Sending? ==> c.got != [] && c.got[|c.got| - 1] == (c.seen, c.pc.local))
  }

  /** Only the lock's owner is inside a locked region. */
  ghost predicate Mutex(s: State) {
    && (s.lock.Producer? <==> !s.push.Idle?)
    && (s.lock.Thread? ==> s.lock.id in s.clients)
    && (forall id :: id in s.clients ==> (s.lock == Thread(id) <==> HoldsLock(s.clients[id].pc)))
  }

  ghost predicate BufferOk(s: State) {
    && |s.buf| < TCP_SERVER_BUF - 1 && s.seqNo == |s.hist| % WRAP
    && match s.push
       case Writing(text, k) => |text| < TCP_SERVER_BUF - 1 && k <= |text| && k <= |s.buf| && s.buf[..k] == text[..k]
       case Written(text) => s.buf == text
       case _ => s.buf == if s.hist == [] then "" else s.hist[|s.hist| - 1]
  }

  ghost predicate Inv(s: State) {
    && Mutex(s) && BufferOk(s)
    && forall id :: id in s.clients ==> ClientOk(s.hist, s.buf, s.push.Counted?, s.clients[id])
  }

  // ----- the producer's steps

  lemma OverwriteOk(hist: seq<string>, buf: string, text: string, c: Client)
    requires ClientOk(hist, buf, false, c) && !HoldsLock(c.pc)
    ensures ClientOk(hist + [text], buf, true, Overwrite(c, |hist|))
  {
    if Monitoring(c.pc) {
      var c', h := Overwrite(c, |hist|), hist + [text];
      assert forall i :: 0 <= i < |c'.got| ==> h[c'.got[i].0 - 1] == hist[c.got[i].0 - 1];
      assert ReadInOrder(h, c');
    }
  }

  lemma CountKeeps(s: State)
    requires Inv(s) && s.push.Written?
    ensures Inv(Next(s, PushCount))
  {
    var s' := Next(s, PushCount);
    assert Mutex(s) && BufferOk(s);
    forall id | id in s'.clients
      ensures ClientOk(s'.hist, s'.buf, true, s'.clients[id]) && !HoldsLock(s'.clients[id].pc)
    {
      CountedOk(s, id);
    }
    assert BufferOk(s');
  }

  lemma CountedOk(s: State, id: nat)
    requires Inv(s) && s.push.Written? && id in s.clients
    ensures var s' := Next(s, PushCount);
            ClientOk(s'.hist, s'.buf, true, s'.clients[id]) && !HoldsLock(s'.clients[id].pc)
  {
    var s', c := Next(s, PushCount), s.clients[id];
    assert ClientOk(s.hist, s.buf, false, c);
    assert s.lock == Thread(id) <==> HoldsLock(c.pc);
    assert s'.clients[id] == Overwrite(c, |s.hist|) && s'.hist == s.hist + [s.push.text];
    OverwriteOk(s.hist, s.buf, s.push.text, c);
  }

  lemma BroadcastKeeps(s: State)
    requires Inv(s) && s.push.Counted?
    ensures Inv(Next(s, PushBroadcast))
  {
    var s' := Next(s, PushBroadcast);
    forall id | id in s'.clients
      ensures ClientOk(s'.hist, s'.buf, false, s'.clients[id]) && !HoldsLock(s'.clients[id].pc)
    {
      assert ClientOk(s.hist, s.buf, true, s.clients[id]);
      assert s.lock == Thread(id) <==> HoldsLock(s.clients[id].pc);
    }
  }

  /** The other steps touch no client, and the buffer only while no client copies it. */
  lemma OtherPushKeeps(s: State, st: Step)
    requires Inv(s) && !st.By? && !st.PushCount? && !st.PushBroadcast?
    ensures Inv(Next(s, st))
  {
    var s' := Next(s, st);
    assert s'.clients == s.clients && s'.hist == s.hist;
    forall id | id in s.clients
      ensures ClientOk(s.hist, s'.buf, s'.push.Counted?, s.clients[id])
      ensures s'.lock == Thread(id) <==> HoldsLock(s.clients[id].pc)
    {
      assert ClientOk(s.hist, s.buf, s.push.Counted?, s.clients[id]);
      assert s.lock == Thread(id) <==> HoldsLock(s.clients[id].pc);
    }
  }

  lemma PushKeeps(s: State, st: Step)
    requires Inv(s) && !st.By?
    ensures Inv(Next(s, st))
  {
    match st {
      case PushCount => if s.push.Written? { CountKeeps(s); }
      case PushBroadcast => if s.push.Counted? { BroadcastKeeps(s); }
      case _ => OtherPushKeeps(s, st);
    }
  }

  // ----- a client's steps

  /** Reading the buffer under the lock yields the newest event, whole. */
  lemma CopyEndOk(s: State, c: Client)
    requires BufferOk(s) && s.push.Idle? && ClientOk(s.hist, s.buf, false, c) && c.pc.Copying?
    ensures ClientOk(s.hist, s.buf, false, Moved(s, c, CopyEnd))
  {
  }

  /** Inside a locked region. */
  lemma MovedInsideOk(s: State, c: Client, a: Action)
    requires BufferOk(s) && s.push.Idle? && ClientOk(s.hist, s.buf, false, c) && HoldsLock(c.pc)
    ensures ClientOk(s.hist, s.buf, false, Moved(s, c, a))
  {
    if c.pc.Copying? && a.CopyEnd? {
      CopyEndOk(s, c);
    } else if c.pc.Starting? {
      StartOk(s, c, a);
    } else {
      var pc := Moved(s, c, a).pc;
      assert Moved(s, c, a) == c.(pc := pc);
      PcOnly(s.hist, c, pc, c.sent);
      assert ReadInOrder(s.hist, c) && Accounted(s.hist, c);
    }
  }

  lemma StartOk(s: State, c: Client, a: Action)
    requires BufferOk(s) && c.pc.Starting?
    ensures ClientOk(s.hist, s.buf, false, Moved(s, c, a))
  {
  }

  /** What was read does not depend on where the thread stands or what it sent. */
  lemma PcOnly(hist: seq<string>, c: Client, pc: Pc, sent: seq<string>)
    requires c.seen <= |hist| && ReadInOrder(hist, c) && Accounted(hist, c)
    ensures ReadInOrder(hist, c.(pc := pc, sent := sent)) && Accounted(hist, c.(pc := pc, sent := sent))
  {
  }

  lemma MovedOutsideOk(s: State, c: Client, a: Action)
    requires ClientOk(s.hist, s.buf, s.push.Counted?, c) && !HoldsLock(c.pc)
    ensures ClientOk(s.hist, s.buf, s.push.Counted?, Moved(s, c, a))
    ensures HoldsLock(Moved(s, c, a).pc) ==> s.lock.Nobody?
  {
    var c' := Moved(s, c, a);
    if Monitoring(c.pc) {
      assert ReadInOrder(s.hist, c) && Accounted(s.hist, c);
      assert c' == c.(pc := c'.pc, sent := c'.sent);
      PcOnly(s.hist, c, c'.pc, c'.sent);
    }
  }

  /** The acting client stays in order, and takes the lock only when it is free. */
  lemma ActorOk(s: State, id: nat, a: Action)
    requires Inv(s) && id in s.clients
    ensures var c, c' := s.clients[id], Moved(s, s.clients[id], a);
            && ClientOk(s.hist, s.buf, s.push.Counted?, c')
            && (s.lock == Thread(id) <==> HoldsLock(c.pc))
            && (HoldsLock(c'.pc) && !HoldsLock(c.pc) ==> s.lock.Nobody?)
  {
    var c := s.clients[id];
    assert ClientOk(s.hist, s.buf, s.push.Counted?, c);
    if HoldsLock(c.pc) {
      assert s.lock == Thread(id);
      MovedInsideOk(s, c, a);
    } else {
      MovedOutsideOk(s, c, a);
    }
  }

  lemma ActKeeps(s: State, id: nat, a: Action)
    requires Inv(s)
    ensures Inv(Act(s, id, a))
  {
    var s' := Act(s, id, a);
    if id in s.clients { ActorOk(s, id, a); }
    assert s'.hist == s.hist && s'.buf == s.buf && s'.push == s.push && s'.seqNo == s.seqNo;
    forall x | x in s'.clients
      ensures ClientOk(s'.hist, s'.buf, s'.push.Counted?, s'.clients[x])
      ensures s'.lock == Thread(x) <==> HoldsLock(s'.clients[x].pc)
    {
      if x != id { BystanderOk(s, id, a, x); }
    }
  }

  /** A client that does not act is as it was, and so is its hold on the lock. */
  lemma BystanderOk(s: State, id: nat, a: Action, x: nat)
    requires Inv(s) && x in s.clients && x != id
    ensures var s' := Act(s, id, a);
            && x in s'.clients && ClientOk(s'.hist, s'.buf, s'.push.Counted?, s'.clients[x])
            && (s'.lock == Thread(x) <==> HoldsLock(s'.clients[x].pc))
  {
    var s' := Act(s, id, a);
    assert s'.clients[x] == s.clients[x];
    assert ClientOk(s.hist, s.buf, s.push.Counted?, s.clients[x]);
    assert s.lock == Thread(x) <==> HoldsLock(s.clients[x].pc);
    if id in s.clients { ActorOk(s, id, a); }
  }

  lemma StepKeeps(s: State, st: Step)
    requires Inv(s)
    ensures Inv(Next(s, st))
  {
    if st.By? {
      ActKeeps(s, st.id, st.action);
    } else {
      PushKeeps(s, st);
    }
  }

  lemma {:induction false} RunKeeps(steps: seq<Step>)
    ensures Inv(Run(steps))
  {
    if steps != [] {
      var s, st := Run(steps[..|steps| - 1]), steps[|steps| - 1];
      RunKeeps(steps[..|steps| - 1]);
      StepKeeps(s, st);
    }
  }

  // ----- what it means

  /** What the invariant says of one client. */
  lemma ClientOfRun(steps: seq<Step>, id: nat) returns (s: State, c: Client)
    requires id in Run(steps).clients
    ensures s == Run(steps) && c == s.clients[id]
    ensures ClientOk(s.hist, s.buf, s.push.Counted?, c) && s.seqNo == |s.hist| % WRAP
    ensures s.lock.Nobody? ==> !s.push.Counted?
  {
    RunKeeps(steps);
    s := Run(steps);
    c := s.clients[id];
  }

  lemma ReaderOfRun(steps: seq<Step>, id: nat) returns (s: State, c: Client)
    requires id in Run(steps).clients && Monitoring(Run(steps).clients[id].pc)
    ensures s == Run(steps) && c == s.clients[id]
    ensures c.start <= c.seen <= |s.hist| && ReadInOrder(s.hist, c) && Accounted(s.hist, c)
  {
    s, c := ClientOfRun(steps, id);
  }

  /**
   * Under every interleaving: what a monitoring client has read are numbered events after its command, in strictly
   * rising order and each with its own whole text; and read, overwritten and still waiting make up all of them.
   */
  lemma MonitorSafe(steps: seq<Step>, id: nat)
    requires id in Run(steps).clients && Monitoring(Run(steps).clients[id].pc)
    ensures var s := Run(steps);
            var c := s.clients[id];
            && c.start <= c.seen <= |s.hist|
            && (forall i :: 0 <= i < |c.got| ==>
                              c.start < c.got[i].0 <= |s.hist| && c.got[i].1 == s.hist[c.got[i].0 - 1])
            && (forall i, j :: 0 <= i < j < |c.got| ==> c.got[i].0 < c.got[j].0)
            && |c.got| + c.lost + (if c.seen < |s.hist| then 1 else 0) == |s.hist| - c.start
  {
    SafeOfRun(steps, id);
  }

  /** The readings are numbered events since the start, in rising order and with their own texts. */
  ghost predicate Readings(hist: seq<string>, c: Client) {
    && (forall i :: 0 <= i < |c.got| ==> c.start < c.got[i].0 <= |hist| && c.got[i].1 == hist[c.got[i].0 - 1])
    && (forall i, j :: 0 <= i < j < |c.got| ==> c.got[i].0 < c.got[j].0)
  }

  lemma InOrderMeans(hist: seq<string>, c: Client)
    requires c.seen <= |hist| && ReadInOrder(hist, c)
    ensures Readings(hist, c)
  {
  }

  lemma SafeOfRun(steps: seq<Step>, id: nat)
    requires id in Run(steps).clients && Monitoring(Run(steps).clients[id].pc)
    ensures var s := Run(steps);
            var c := s.clients[id];
            c.start <= c.seen <= |s.hist| && Readings(s.hist, c) && Accounted(s.hist, c)
  {
    var s, c := ReaderOfRun(steps, id);
    InOrderMeans(s.hist, c);
  }

  /** A reading is of the newest event there is, and what is then sent is that event's text. */
  lemma ReadsNewest(steps: seq<Step>, id: nat)
    requires id in Run(steps).clients && Run(steps).clients[id].pc.Copied?
    ensures var s := Run(steps);
            var c := s.clients[id];
            && s.hist != [] && c.got != []
            && c.got[|c.got| - 1] == (|s.hist|, s.hist[|s.hist| - 1]) && c.pc.local == s.hist[|s.hist| - 1]
  {
    RunKeeps(steps);
    CopiedNewest(Run(steps), id);
  }

  lemma CopiedNewest(s: State, id: nat)
    requires Inv(s) && id in s.clients && s.clients[id].pc.Copied?
    ensures var c := s.clients[id];
            && s.hist != [] && c.got != [] && c.seen == |s.hist|
            && c.got[|c.got| - 1] == (|s.hist|, s.hist[|s.hist| - 1]) && c.pc.local == s.hist[|s.hist| - 1]
  {
    var c := s.clients[id];
    assert ClientOk(s.hist, s.buf, s.push.Counted?, c);
  }

  lemma SleeperRemembersNewest(steps: seq<Step>, id: nat)
    requires id in Run(steps).clients && Run(steps).clients[id].pc == Asleep(false) && Run(steps).lock.Nobody?
    ensures Run(steps).clients[id].last == |Run(steps).hist| % WRAP
  {
    var s, c := ClientOfRun(steps, id);
  }

  /**
   * No wake-up is lost: with the lock free, a sleeper nobody has signalled has no unread event (up to a multiple of
   * 2^64 of them).
   */
  lemma SleeperHasSeenAll(steps: seq<Step>, id: nat)
    requires id in Run(steps).clients && Run(steps).clients[id].pc == Asleep(false) && Run(steps).lock.Nobody?
    ensures var s := Run(steps);
            s.clients[id].seen <= |s.hist| && (|s.hist| - s.clients[id].seen) % WRAP == 0
  {
    var pushed, seen := NumbersOfRun(steps, id);
    SleeperRemembersNewest(steps, id);
    SameRemainder(pushed, seen);
  }

  lemma NumbersOfRun(steps: seq<Step>, id: nat) returns (pushed: nat, seen: nat)
    requires id in Run(steps).clients && Monitoring(Run(steps).clients[id].pc)
    ensures pushed == |Run(steps).hist| && seen == Run(steps).clients[id].seen <= pushed
    ensures Run(steps).seqNo == pushed % WRAP && Run(steps).clients[id].last == seen % WRAP
  {
    var s, c := ClientOfRun(steps, id);
    pushed, seen := |s.hist|, c.seen;
  }

  /** The sequence test misses unread events exactly when their number is a multiple of 2^64. */
  lemma TestSeesNothingExactlyWhen(steps: seq<Step>, id: nat)
    requires id in Run(steps).clients && Monitoring(Run(steps).clients[id].pc)
    ensures var s := Run(steps);
            var c := s.clients[id];
            c.seen <= |s.hist| && (s.seqNo == c.last <==> (|s.hist| - c.seen) % WRAP == 0)
  {
    var pushed, seen := NumbersOfRun(steps, id);
    SameRemainder(pushed, seen);
  }

  lemma SameRemainder(a: nat, b: nat)
    requires b <= a
    ensures a % WRAP == b % WRAP <==> (a - b) % WRAP == 0
  {
  }

  /** Nothing is skipped exactly when no push found the client behind: the readings are then consecutive. */
  lemma NothingSkippedExactlyWhen(steps: seq<Step>, id: nat)
    requires id in Run(steps).clients && Monitoring(Run(steps).clients[id].pc)
    ensures var s := Run(steps);
            var c := s.clients[id];
            c.lost == 0 <==> (forall i :: 0 <= i < |c.got| ==> c.got[i].0 == c.start + 1 + i) && |s.hist| <= c.seen + 1
  {
    var s, c := ReaderOfRun(steps, id);
    ConsecutiveExactlyWhen(s.hist, c);
  }

  lemma ConsecutiveExactlyWhen(hist: seq<string>, c: Client)
    requires c.start <= c.seen <= |hist| && ReadInOrder(hist, c) && Accounted(hist, c)
    ensures c.lost == 0 <==> (forall i :: 0 <= i < |c.got| ==> c.got[i].0 == c.start + 1 + i) && |hist| <= c.seen + 1
  {
    SpreadOut(c.got, c.start, |c.got|);
    if c.lost == 0 && c.got != [] {
      forall i | 0 <= i < |c.got|
        ensures c.got[i].0 == c.start + 1 + i
      {
        FarApart(c.got, i, |c.got| - 1);
        SpreadOut(c.got, c.start, i + 1);
      }
    }
  }

  // ----- a client that reads between every two pushes

  predicate Listens(s: State, id: nat) { id in s.clients && Monitoring(s.clients[id].pc) }

  /** A step that really pushes an event. */
  predicate Pushes(s: State, st: Step) { st.PushCount? && s.push.Written? }

  /** A step by which the client really looks: it finishes a copy, or starts a session. */
  predicate Looks(s: State, st: Step, id: nat) {
    && (st == By(id, CopyEnd) || st == By(id, Remember))
    && id in s.clients && Moved(s, s.clients[id], st.action) != s.clients[id]
  }

  /** Between any two pushes of the run at which the client is monitoring it looks at least once. */
  ghost predicate LooksBetweenPushes(steps: seq<Step>, id: nat) {
    forall i, j :: 0 <= i < j < |steps| && PushesAt(steps, i, id) && PushesAt(steps, j, id) ==>
                     exists k :: i < k < j && LooksAt(steps, k, id)
  }

  predicate PushesAt(steps: seq<Step>, i: nat, id: nat)
    requires i < |steps|
  {
    Pushes(Run(steps[..i]), steps[i]) && Listens(Run(steps[..i]), id)
  }

  predicate LooksAt(steps: seq<Step>, k: nat, id: nat)
    requires k < |steps|
  {
    Looks(Run(steps[..k]), steps[k], id)
  }

  /** A client that is behind was listening before; and behind, unless the step is a push. */
  lemma BehindBefore(s: State, st: Step, id: nat)
    requires Listens(Next(s, st), id) && Next(s, st).clients[id].seen < |Next(s, st).hist|
    ensures Listens(s, id) && !Looks(s, st, id)
    ensures !Pushes(s, st) ==> s.clients[id].seen < |s.hist|
  {
  }

  /** A client that is behind has been listening since a push after which it has not looked. */
  lemma {:induction false} BehindSince(steps: seq<Step>, id: nat) returns (i: nat)
    requires Listens(Run(steps), id) && Run(steps).clients[id].seen < |Run(steps).hist|
    ensures i < |steps| && PushesAt(steps, i, id) && NoLookAfter(steps, i, id)
  {
    var n := |steps| - 1;
    var s := Run(steps[..n]);
    BehindBefore(s, steps[n], id);
    if Pushes(s, steps[n]) {
      i := n;
    } else {
      i := BehindSince(steps[..n], id);
      PrefixAt(steps, n, i, id);
      NoLookSnoc(steps, i, id);
    }
  }

  ghost predicate NoLookAfter(steps: seq<Step>, i: nat, id: nat) {
    forall k :: i < k < |steps| ==> !LooksAt(steps, k, id)
  }

  lemma NoLookSnoc(steps: seq<Step>, i: nat, id: nat)
    requires steps != [] && NoLookAfter(steps[..|steps| - 1], i, id) && !LooksAt(steps, |steps| - 1, id)
    ensures NoLookAfter(steps, i, id)
  {
    forall k | i < k < |steps|
      ensures !LooksAt(steps, k, id)
    {
      if k < |steps| - 1 { PrefixAt(steps, |steps| - 1, k, id); }
    }
  }

  lemma PrefixAt(steps: seq<Step>, n: nat, k: nat, id: nat)
    requires k < n <= |steps|
    ensures PushesAt(steps[..n], k, id) == PushesAt(steps, k, id)
    ensures LooksAt(steps[..n], k, id) == LooksAt(steps, k, id)
  {
    assert steps[..n][..k] == steps[..k];
  }

  /** So no push finds such a client behind. */
  lemma NeverBehind(steps: seq<Step>, id: nat, j: nat)
    requires LooksBetweenPushes(steps, id) && j < |steps| && PushesAt(steps, j, id)
    ensures Run(steps[..j]).clients[id].seen == |Run(steps[..j]).hist|
  {
    var _, c := ClientOfRun(steps[..j], id);
    if c.seen < |Run(steps[..j]).hist| {
      var i := BehindSince(steps[..j], id);
      PrefixAt(steps, j, i, id);
      var k :| i < k < j && LooksAt(steps, k, id);
      PrefixAt(steps, j, k, id);
      assert false;
    }
  }

  lemma LostOnlyWhenBehind(s: State, st: Step, id: nat)
    requires Listens(s, id) ==> s.clients[id].lost == 0
    requires Pushes(s, st) && Listens(s, id) ==> s.clients[id].seen == |s.hist|
    ensures Listens(Next(s, st), id) ==> Next(s, st).clients[id].lost == 0
  {
  }

  lemma {:induction false} KeepingUpLosesNothing(steps: seq<Step>, n: nat, id: nat)
    requires LooksBetweenPushes(steps, id) && n <= |steps|
    ensures Listens(Run(steps[..n]), id) ==> Run(steps[..n]).clients[id].lost == 0
  {
    if n > 0 {
      assert steps[..n][..n - 1] == steps[..n - 1];
      KeepingUpLosesNothing(steps, n - 1, id);
      if PushesAt(steps, n - 1, id) { NeverBehind(steps, id, n - 1); }
      LostOnlyWhenBehind(Run(steps[..n - 1]), steps[n - 1], id);
    }
  }

  /** A client that looks between every two pushes reads every event, in order, up to at most one that waits. */
  lemma KeepingUpSkipsNothing(steps: seq<Step>, id: nat)
    requires LooksBetweenPushes(steps, id) && Listens(Run(steps), id)
    ensures var s := Run(steps);
            var c := s.clients[id];
            (forall i :: 0 <= i < |c.got| ==> c.got[i].0 == c.start + 1 + i) && |s.hist| <= c.seen + 1
  {
    KeepingUpLosesNothing(steps, |steps|, id);
    assert steps[..|steps|] == steps;
    NothingSkippedExactlyWhen(steps, id);
  }

  // ----- what a client is sent

  function EventLines(got: seq<(nat, string)>): seq<string> {
    if got == [] then [] else EventLines(got[..|got| - 1]) + ["event: " + got[|got| - 1].1 + "\n"]
  }

  /** The lines sent are those of the readings, but for the reading in hand. */
  ghost predicate SentOk(c: Client) {
    if c.pc.Copied? || c.pc.Sending?
    then c.got != [] && c.got[|c.got| - 1].1 == c.pc.local && c.sent == EventLines(c.got[..|c.got| - 1])
    else c.sent == EventLines(c.got)
  }

  ghost predicate AllSentOk(s: State) {
    forall id :: id in s.clients && Monitoring(s.clients[id].pc) ==> SentOk(s.clients[id])
  }

  lemma MovedSentOk(s: State, c: Client, a: Action)
    requires Monitoring(c.pc) ==> SentOk(c)
    ensures Monitoring(Moved(s, c, a).pc) ==> SentOk(Moved(s, c, a))
  {
    if a.CopyEnd? && c.pc.Copying? {
      assert (c.got + [(|s.hist|, c.pc.local)])[..|c.got|] == c.got;
    }
  }

  lemma StepKeepsSent(s: State, st: Step)
    requires AllSentOk(s)
    ensures AllSentOk(Next(s, st))
  {
    if st.By? && st.id in s.clients { MovedSentOk(s, s.clients[st.id], st.action); }
    forall id | id in Next(s, st).clients && Monitoring(Next(s, st).clients[id].pc)
      ensures SentOk(Next(s, st).clients[id])
    {
      if id in s.clients { assert Monitoring(s.clients[id].pc) ==> SentOk(s.clients[id]); }
    }
  }

  lemma {:induction false} RunKeepsSent(steps: seq<Step>)
    ensures AllSentOk(Run(steps))
  {
    if steps != [] {
      RunKeepsSent(steps[..|steps| - 1]);
      StepKeepsSent(Run(steps[..|steps| - 1]), steps[|steps| - 1]);
    }
  }

  /** Under every interleaving, a monitoring client was sent one line per reading, in order, but for the one in hand. */
  lemma SentIsRead(steps: seq<Step>, id: nat)
    requires Listens(Run(steps), id)
    ensures var c := Run(steps).clients[id];
            if c.pc.Copied? || c.pc.Sending?
            then c.got != [] && c.sent == EventLines(c.got[..|c.got| - 1]) && c.got[|c.got| - 1].1 == c.pc.local
            else c.sent == EventLines(c.got)
  {
    RunKeepsSent(steps);
  }

  // ----- how a session begins, goes on and ends

  /** It begins with the events after the command. */
  lemma SessionBegins(s: State, id: nat)
    requires id in s.clients && s.clients[id].pc.Starting?
    ensures var s' := Next(s, By(id, Remember));
            && Listens(s', id) && s'.hist == s.hist && s'.clients[id].start == |s.hist|
            && s'.clients[id].got == [] && s'.clients[id].lost == 0
  {
  }

  /** A failed send, or input from the client. */
  predicate Quits(st: Step, id: nat) { st == By(id, Send(false)) || st == By(id, Poll(true)) }

  /** Nothing else ends it, and what was read stays read. */
  lemma SessionGoesOn(s: State, st: Step, id: nat)
    requires Listens(s, id) && !Quits(st, id)
    ensures Listens(Next(s, st), id) && Next(s, st).clients[id].start == s.clients[id].start
    ensures s.clients[id].got <= Next(s, st).clients[id].got
  {
  }

  /** Either does. */
  lemma SessionEnds(s: State, id: nat)
    requires id in s.clients
    ensures s.clients[id].pc.Polling? ==> Next(s, By(id, Poll(true))).clients[id].pc == Command
    ensures s.clients[id].pc.Sending? ==> Next(s, By(id, Send(false))).clients[id].pc == Command
  {
  }

  /** Over any further run in which the client does not quit, its session goes on. */
  lemma {:induction false} SessionGoesOnOverRuns(steps: seq<Step>, more: seq<Step>, id: nat)
    requires Listens(Run(steps), id) && forall i :: 0 <= i < |more| ==> !Quits(more[i], id)
    ensures var c, s' := Run(steps).clients[id], Run(steps + more);
            Listens(s', id) && s'.clients[id].start == c.start && c.got <= s'.clients[id].got
  {
    if more == [] {
      assert steps + more == steps;
    } else {
      var n := |more| - 1;
      SessionGoesOnOverRuns(steps, more[..n], id);
      SplitLast(more);
      Assoc(steps, more[..n], [more[n]]);
      RunSnoc(steps + more[..n], more[n]);
      SessionGoesOn(Run(steps + more[..n]), more[n], id);
    }
  }

  // ----- a client can always catch up

  /** `more` are steps of this client alone, none of which ends its session. */
  predicate OwnSteps(more: seq<Step>, id: nat) {
    forall i :: 0 <= i < |more| ==> more[i].By? && more[i].id == id && !Quits(more[i], id)
  }

  /** The client has read the newest event there is, and nobody holds the lock. */
  ghost predicate UpToDate(s: State, id: nat) {
    && s.lock.Nobody? && Listens(s, id) && s.clients[id].pc == Top && s.clients[id].seen == |s.hist|
    && s.hist != [] && s.clients[id].got != []
    && s.clients[id].got[|s.clients[id].got| - 1] == (|s.hist|, s.hist[|s.hist| - 1])
  }

  /** A run continued. */
  function After(s: State, more: seq<Step>): State {
    if more == [] then s else Next(After(s, more[..|more| - 1]), more[|more| - 1])
  }

  lemma {:induction false} AfterConcat(s: State, a: seq<Step>, b: seq<Step>)
    ensures After(s, a + b) == After(After(s, a), b)
  {
    if b == [] {
      assert a + b == a;
    } else {
      var n := |b| - 1;
      AfterConcat(s, a, b[..n]);
      SplitLast(b);
      Assoc(a, b[..n], [b[n]]);
      AfterSnoc(s, a + b[..n], b[n]);
    }
  }

  lemma AfterSnoc(s: State, a: seq<Step>, st: Step)
    ensures After(s, a + [st]) == Next(After(s, a), st)
  {
    assert (a + [st])[..|a|] == a;
  }

  lemma {:induction false} RunIsAfter(steps: seq<Step>)
    ensures Run(steps) == After(START, steps)
  {
    if steps != [] { RunIsAfter(steps[..|steps| - 1]); }
  }

  lemma RunContinued(steps: seq<Step>, more: seq<Step>)
    ensures Run(steps + more) == After(Run(steps), more)
  {
    RunIsAfter(steps);
    RunIsAfter(steps + more);
    AfterConcat(START, steps, more);
  }

  lemma AfterOne(s: State, st: Step)
    ensures After(s, [st]) == Next(s, st)
  {
    assert [st][..0] == [];
  }

  /** What a client's own step leaves alone. */
  ghost predicate SameEvents(s: State, s': State) { s'.hist == s.hist && s'.seqNo == s.seqNo && s'.buf == s.buf }

  lemma OwnStep(s: State, id: nat, a: Action)
    requires id in s.clients
    ensures var s' := Next(s, By(id, a));
            SameEvents(s, s') && id in s'.clients && s'.clients[id] == Moved(s, s.clients[id], a)
  {
  }

  /** Copying to the end. */
  lemma {:induction false} CopyAll(s: State, id: nat) returns (more: seq<Step>)
    requires id in s.clients && s.clients[id].pc.Copying?
    ensures OwnSteps(more, id) && SameEvents(s, After(s, more))
    ensures id in After(s, more).clients && After(s, more).clients[id].pc.Copied?
    decreases Min(|s.buf|, TCP_SERVER_BUF - 1) - |s.clients[id].pc.local|
  {
    if |s.clients[id].pc.local| < Min(|s.buf|, TCP_SERVER_BUF - 1) {
      var st := By(id, CopyChar);
      OwnStep(s, id, CopyChar);
      var rest := CopyAll(Next(s, st), id);
      AfterOne(s, st);
      AfterConcat(s, [st], rest);
      more := [st] + rest;
    } else {
      OwnStep(s, id, CopyEnd);
      AfterOne(s, By(id, CopyEnd));
      more := [By(id, CopyEnd)];
    }
  }

  lemma Unlocked(s: State, id: nat)
    requires id in s.clients && s.clients[id].pc.Copied?
    ensures Next(s, By(id, Unlock)).lock.Nobody?
  {
  }

  /** Sending and polling take no lock. */
  lemma Lockless(s: State, id: nat)
    requires id in s.clients
    ensures s.clients[id].pc.Sending? ==>
              var s' := Next(s, By(id, Send(true)));
              s'.lock == s.lock && s'.clients[id] == s.clients[id].(pc := Polling, sent := s'.clients[id].sent)
    ensures s.clients[id].pc.Polling? ==>
              var s' := Next(s, By(id, Poll(false)));
              s'.lock == s.lock && s'.clients[id] == s.clients[id].(pc := Top)
  {
  }

  lemma AfterThree(s: State, x: Step, y: Step, z: Step)
    ensures After(s, [x, y, z]) == Next(Next(Next(s, x), y), z)
  {
    AfterOne(s, x);
    AfterOne(Next(s, x), y);
    AfterOne(Next(Next(s, x), y), z);
    AfterConcat(s, [x], [y]);
    AfterConcat(s, [x] + [y], [z]);
    assert [x] + [y] + [z] == [x, y, z];
  }

  /** Unlocking, sending, and back to the head of the loop. */
  lemma LeaveWithCopy(s: State, id: nat)
    requires id in s.clients && s.clients[id].pc.Copied?
    ensures var s' := After(s, [By(id, Unlock), By(id, Send(true)), By(id, Poll(false))]);
            && SameEvents(s, s') && s'.lock.Nobody? && id in s'.clients
            && s'.clients[id] == s.clients[id].(pc := Top, sent := s'.clients[id].sent)
  {
    AfterThree(s, By(id, Unlock), By(id, Send(true)), By(id, Poll(false)));
    var s1 := Next(s, By(id, Unlock));
    var s2 := Next(s1, By(id, Send(true)));
    OwnStep(s, id, Unlock);
    Unlocked(s, id);
    OwnStep(s1, id, Send(true));
    Lockless(s1, id);
    OwnStep(s2, id, Poll(false));
    Lockless(s2, id);
  }

  lemma {:induction false} AfterKeeps(s: State, more: seq<Step>)
    requires Inv(s)
    ensures Inv(After(s, more))
  {
    if more != [] {
      var n := |more| - 1;
      AfterKeeps(s, more[..n]);
      StepKeeps(After(s, more[..n]), more[n]);
    }
  }

  /** The client holds a copy of the newest event. */
  ghost predicate HoldsNewest(s: State, id: nat) {
    && id in s.clients && s.clients[id].pc.Copied? && s.clients[id].seen == |s.hist|
    && s.hist != [] && s.clients[id].got != []
    && s.clients[id].got[|s.clients[id].got| - 1] == (|s.hist|, s.hist[|s.hist| - 1])
  }

  /** From the sequence test on, with something new to read. */
  lemma CopyOut(s: State, id: nat) returns (more: seq<Step>)
    requires Inv(s) && id in s.clients && s.clients[id].pc.Holding? && s.seqNo != s.clients[id].last
    ensures OwnSteps(more, id) && After(s, more).hist == s.hist && HoldsNewest(After(s, more), id)
  {
    var st := By(id, Test);
    TestSeesNew(s, id);
    var copy := CopyNewest(Next(s, st), id);
    more := [st] + copy;
    AfterOne(s, st);
    AfterConcat(s, [st], copy);
  }

  lemma TestSeesNew(s: State, id: nat)
    requires Inv(s) && id in s.clients && s.clients[id].pc.Holding? && s.seqNo != s.clients[id].last
    ensures var s' := Next(s, By(id, Test));
            Inv(s') && s'.hist == s.hist && id in s'.clients && s'.clients[id].pc.Copying?
  {
    StepKeeps(s, By(id, Test));
    OwnStep(s, id, Test);
  }

  lemma CopyNewest(s: State, id: nat) returns (more: seq<Step>)
    requires Inv(s) && id in s.clients && s.clients[id].pc.Copying?
    ensures OwnSteps(more, id) && After(s, more).hist == s.hist && HoldsNewest(After(s, more), id)
  {
    more := CopyAll(s, id);
    AfterKeeps(s, more);
    CopiedNewest(After(s, more), id);
  }

  lemma SendOut(s: State, id: nat)
    requires HoldsNewest(s, id)
    ensures var s' := After(s, [By(id, Unlock), By(id, Send(true)), By(id, Poll(false))]);
            s'.hist == s.hist && UpToDate(s', id)
  {
    LeaveWithCopy(s, id);
  }

  lemma ReadOut(s: State, id: nat) returns (more: seq<Step>)
    requires Inv(s) && id in s.clients && s.clients[id].pc.Holding? && s.seqNo != s.clients[id].last
    ensures OwnSteps(more, id) && After(s, more).hist == s.hist && UpToDate(After(s, more), id)
  {
    var copy := CopyOut(s, id);
    var leave := [By(id, Unlock), By(id, Send(true)), By(id, Poll(false))];
    SendOut(After(s, copy), id);
    more := copy + leave;
    AfterConcat(s, copy, leave);
  }

  /** The client is at the sequence test, with what it remembered. */
  ghost predicate AtTest(s: State, s': State, id: nat)
    requires id in s.clients
  {
    && SameEvents(s, s') && id in s'.clients
    && s'.clients[id].pc.Holding? && s'.clients[id].last == s.clients[id].last
  }

  lemma LockFromTop(s: State, id: nat)
    requires s.lock.Nobody? && id in s.clients && s.clients[id].pc == Top
    ensures AtTest(s, Next(s, By(id, Lock)), id)
  {
    OwnStep(s, id, Lock);
  }

  lemma LockFromPolling(s: State, id: nat)
    requires s.lock.Nobody? && id in s.clients && s.clients[id].pc.Polling?
    ensures AtTest(s, Next(Next(s, By(id, Poll(false))), By(id, Lock)), id)
  {
    OwnStep(s, id, Poll(false));
    Lockless(s, id);
    LockFromTop(Next(s, By(id, Poll(false))), id);
  }

  lemma LockFromSending(s: State, id: nat)
    requires s.lock.Nobody? && id in s.clients && s.clients[id].pc.Sending?
    ensures AtTest(s, Next(Next(Next(s, By(id, Send(true))), By(id, Poll(false))), By(id, Lock)), id)
  {
    OwnStep(s, id, Send(true));
    Lockless(s, id);
    LockFromPolling(Next(s, By(id, Send(true))), id);
  }

  lemma WakeFromSleep(s: State, id: nat)
    requires s.lock.Nobody? && id in s.clients && s.clients[id].pc.Asleep?
    ensures AtTest(s, Next(s, By(id, Wake(false))), id)
  {
    OwnStep(s, id, Wake(false));
  }

  /** With the lock free the client can always get to its sequence test. */
  lemma ReachTest(s: State, id: nat) returns (more: seq<Step>)
    requires Inv(s) && Listens(s, id) && s.lock.Nobody?
    ensures OwnSteps(more, id) && AtTest(s, After(s, more), id)
  {
    assert !HoldsLock(s.clients[id].pc);
    var pc := s.clients[id].pc;
    if pc.Top? {
      LockFromTop(s, id);
      more := [By(id, Lock)];
      AfterOne(s, more[0]);
    } else if pc.Asleep? {
      WakeFromSleep(s, id);
      more := [By(id, Wake(false))];
      AfterOne(s, more[0]);
    } else if pc.Polling? {
      LockFromPolling(s, id);
      more := [By(id, Poll(false))] + [By(id, Lock)];
      AfterConcat(s, [By(id, Poll(false))], [By(id, Lock)]);
      AfterOne(s, By(id, Poll(false)));
      AfterOne(Next(s, By(id, Poll(false))), By(id, Lock));
    } else {
      LockFromSending(s, id);
      more := [By(id, Send(true)), By(id, Poll(false)), By(id, Lock)];
      AfterThree(s, more[0], more[1], more[2]);
    }
  }

  /**
   * From every state of every run with the lock free, a monitoring client with unread events, not a multiple of 2^64
   * of them, can read the newest one by steps of its own that keep its session going.
   */
  lemma CanCatchUp(steps: seq<Step>, id: nat) returns (more: seq<Step>)
    requires Listens(Run(steps), id) && Run(steps).lock.Nobody?
    requires (|Run(steps).hist| - Run(steps).clients[id].seen) % WRAP != 0
    ensures OwnSteps(more, id) && Run(steps + more).hist == Run(steps).hist && UpToDate(Run(steps + more), id)
  {
    var s := Run(steps);
    RunKeeps(steps);
    TestSeesNothingExactlyWhen(steps, id);
    var reach := ReachTest(s, id);
    AfterKeeps(s, reach);
    var read := ReadOut(After(s, reach), id);
    more := reach + read;
    AfterConcat(s, reach, read);
    RunContinued(steps, more);
  }

  /** A client with nothing to read goes back to sleep when woken early, and gets to poll when its wait timed out. */
  lemma IdleClient(steps: seq<Step>, id: nat)
    requires id in Run(steps).clients && Run(steps).clients[id].pc.Asleep? && Run(steps).lock.Nobody?
    requires (|Run(steps).hist| - Run(steps).clients[id].seen) % WRAP == 0
    ensures var s := Next(Next(Run(steps), By(id, Wake(false))), By(id, Test));
            id in s.clients && s.clients[id].pc == Asleep(false)
    ensures var s := Next(Next(Run(steps), By(id, Wake(true))), By(id, Test));
            id in s.clients && s.clients[id].pc == Polling
  {
    var s := Run(steps);
    TestSeesNothingExactlyWhen(steps, id);
    OwnStep(s, id, Wake(false));
    OwnStep(Next(s, By(id, Wake(false))), id, Test);
    OwnStep(s, id, Wake(true));
    OwnStep(Next(s, By(id, Wake(true))), id, Test);
  }

  /** And it goes to sleep in the first place. */
  lemma IdleSleeps(steps: seq<Step>, id: nat)
    requires id in Run(steps).clients && Run(steps).clients[id].pc == Top && Run(steps).lock.Nobody?
    requires (|Run(steps).hist| - Run(steps).clients[id].seen) % WRAP == 0
    ensures var s := Next(Next(Run(steps), By(id, Lock)), By(id, Test));
            id in s.clients && s.clients[id].pc == Asleep(false)
  {
    var s := Run(steps);
    TestSeesNothingExactlyWhen(steps, id);
    OwnStep(s, id, Lock);
    OwnStep(Next(s, By(id, Lock)), id, Test);
  }

  // ----- a producer at work beside a client that waits at the head of its loop

  /** Client 0 monitors from the start, has read `got`, and has looked when `seen` events had been pushed. */
  ghost predicate AtTop(s: State, hist: seq<string>, seen: nat, got: seq<(nat, string)>) {
    && s.hist == hist && 0 in s.clients && s.clients[0].pc == Top
    && s.clients[0].start == 0 && s.clients[0].seen == seen && s.clients[0].got == got
  }

  ghost predicate Quiet(s: State, hist: seq<string>, seen: nat, got: seq<(nat, string)>) {
    s.lock.Nobody? && s.push.Idle? && AtTop(s, hist, seen, got)
  }

  /** Half-way through the next push. */
  ghost predicate Pushing(s: State, hist: seq<string>, push: Push, seen: nat, got: seq<(nat, string)>) {
    s.lock.Producer? && s.push == push && AtTop(s, hist, seen, got)
  }

  lemma RunSnoc(a: seq<Step>, st: Step)
    ensures Run(a + [st]) == Next(Run(a), st)
  {
    assert (a + [st])[..|a|] == a;
  }

  predicate NobodyQuits(steps: seq<Step>) { forall i :: 0 <= i < |steps| ==> !Quits(steps[i], 0) }

  lemma {:induction false} WriteChars(steps: seq<Step>, hist: seq<string>, text: string, k: nat, seen: nat,
                                      got: seq<(nat, string)>)
    returns (more: seq<Step>)
    requires k <= |text| && Pushing(Run(steps), hist, Writing(text, k), seen, got) && NobodyQuits(steps)
    ensures Pushing(Run(more), hist, Writing(text, |text|), seen, got) && NobodyQuits(more)
    decreases |text| - k
  {
    more := steps;
    if k < |text| {
      RunSnoc(steps, PushChar);
      more := WriteChars(steps + [PushChar], hist, text, k + 1, seen, got);
    }
  }

  lemma FinishPush(steps: seq<Step>, hist: seq<string>, text: string, seen: nat, got: seq<(nat, string)>)
    requires Pushing(Run(steps), hist, Writing(text, |text|), seen, got)
    ensures Quiet(Run(steps + [PushEnd] + [PushCount] + [PushBroadcast] + [PushUnlock]), hist + [text], seen, got)
  {
    var written := steps + [PushEnd];
    var counted := written + [PushCount];
    var announced := counted + [PushBroadcast];
    RunSnoc(steps, PushEnd);
    assert Pushing(Run(written), hist, Written(text), seen, got);
    RunSnoc(written, PushCount);
    assert Pushing(Run(counted), hist + [text], Counted, seen, got);
    RunSnoc(counted, PushBroadcast);
    assert Pushing(Run(announced), hist + [text], Announced, seen, got);
    RunSnoc(announced, PushUnlock);
  }

  /** A whole `tcp_server_push_event`. */
  lemma PushOne(steps: seq<Step>, hist: seq<string>, seen: nat, got: seq<(nat, string)>, arg: string, bssid: string)
    returns (more: seq<Step>)
    requires Quiet(Run(steps), hist, seen, got) && NobodyQuits(steps)
    ensures Quiet(Run(more), hist + [PushText(arg, bssid)], seen, got) && NobodyQuits(more)
  {
    RunSnoc(steps, PushLock(arg, bssid));
    var written := WriteChars(steps + [PushLock(arg, bssid)], hist, PushText(arg, bssid), 0, seen, got);
    FinishPush(written, hist, PushText(arg, bssid), seen, got);
    more := written + [PushEnd] + [PushCount] + [PushBroadcast] + [PushUnlock];
  }

  /** Client 0 connects and starts to monitor. */
  lemma StartMonitoring() returns (steps: seq<Step>)
    ensures Quiet(Run(steps), [], 0, []) && NobodyQuits(steps)
  {
    steps := [By(0, Connect)];
    RunSnoc([], By(0, Connect));
    RunSnoc(steps, By(0, Monitor));
    steps := steps + [By(0, Monitor)];
    RunSnoc(steps, By(0, Remember));
    steps := steps + [By(0, Remember)];
  }

  function PushTexts(events: seq<(string, string)>): seq<string> {
    if events == [] then []
    else PushTexts(events[..|events| - 1]) + [PushText(events[|events| - 1].0, events[|events| - 1].1)]
  }

  /** The client can stay behind any sequence of pushes, each of a verb and a station. */
  lemma {:induction false} CanBeBehind(events: seq<(string, string)>) returns (steps: seq<Step>)
    ensures Quiet(Run(steps), PushTexts(events), 0, []) && NobodyQuits(steps)
  {
    if events == [] {
      steps := StartMonitoring();
    } else {
      var n := |events| - 1;
      steps := CanBeBehind(events[..n]);
      steps := PushOne(steps, PushTexts(events[..n]), 0, [], events[n].0, events[n].1);
    }
  }

  /** Every text, numbered from 1. */
  function Numbered(texts: seq<string>): seq<(nat, string)> {
    if texts == [] then [] else Numbered(texts[..|texts| - 1]) + [(|texts|, texts[|texts| - 1])]
  }

  lemma {:induction false} NumberedLength(texts: seq<string>)
    ensures |Numbered(texts)| == |texts|
    ensures texts != [] ==> Numbered(texts)[|texts| - 1].0 == |texts|
  {
    if texts != [] { NumberedLength(texts[..|texts| - 1]); }
  }

  /** One event read by a client that had read them all. */
  lemma ReadOne(steps: seq<Step>, hist: seq<string>, text: string) returns (more: seq<Step>)
    requires Quiet(Run(steps), hist + [text], |hist|, Numbered(hist)) && NobodyQuits(steps)
    ensures Quiet(Run(more), hist + [text], |hist| + 1, Numbered(hist + [text])) && NobodyQuits(more)
  {
    NumberedLength(hist);
    var own := CanCatchUp(steps, 0);
    more := steps + own;
    SessionGoesOnOverRuns(steps, own, 0);
    IdleProducer(more);
    AtMostAll(more);
    GrewByOne(Numbered(hist), Run(more).clients[0].got, |hist|, text);
    assert (hist + [text])[..|hist|] == hist;
  }

  lemma IdleProducer(steps: seq<Step>)
    requires Run(steps).lock.Nobody?
    ensures Run(steps).push.Idle?
  {
    RunKeeps(steps);
  }

  lemma AtMostAll(steps: seq<Step>)
    requires Listens(Run(steps), 0)
    ensures |Run(steps).clients[0].got| <= |Run(steps).hist| - Run(steps).clients[0].start
  {
    var s, c := ReaderOfRun(steps, 0);
  }

  lemma GrewByOne(got: seq<(nat, string)>, got': seq<(nat, string)>, n: nat, text: string)
    requires got <= got' && |got| == n && |got'| <= n + 1
    requires got' != [] && got'[|got'| - 1] == (n + 1, text) && (n > 0 ==> got[n - 1].0 <= n)
    ensures got' == got + [(n + 1, text)]
  {
  }

  /**
   * And it can follow any sequence of pushes: there is a run in which it never quits and its one session reads
   * every one of them, in order and whole.
   */
  lemma {:induction false} CanFollow(events: seq<(string, string)>) returns (steps: seq<Step>)
    ensures Quiet(Run(steps), PushTexts(events), |events|, Numbered(PushTexts(events))) && NobodyQuits(steps)
  {
    if events == [] {
      steps := StartMonitoring();
    } else {
      var n := |events| - 1;
      var before, text := PushTexts(events[..n]), PushText(events[n].0, events[n].1);
      PushTextsLength(events[..n]);
      steps := CanFollow(events[..n]);
      steps := PushOne(steps, before, n, Numbered(before), events[n].0, events[n].1);
      steps := ReadOne(steps, before, text);
    }
  }

  /** A station that joins and leaves n times over. */
  function Comings(b: string, n: nat): (events: seq<(string, string)>)
    ensures |events| == n
  {
    seq(n, i => (if i % 2 == 0 then "sta_join" else "sta_leave", b))
  }

  lemma {:induction false} PushTextsLength(events: seq<(string, string)>)
    ensures |PushTexts(events)| == |events|
  {
    if events != [] { PushTextsLength(events[..|events| - 1]); }
  }

  /** The sequence test can miss events: here 2^64 of them, the comings and goings of one station. */
  lemma TestCanMiss(b: string) returns (steps: seq<Step>)
    ensures Run(steps).hist == PushTexts(Comings(b, WRAP)) && |Run(steps).hist| == 0x1_0000_0000_0000_0000
    ensures Listens(Run(steps), 0) && Run(steps).clients[0].seen == 0
    ensures Run(steps).seqNo == Run(steps).clients[0].last
  {
    steps := CanBeBehind(Comings(b, WRAP));
    PushTextsLength(Comings(b, WRAP));
    TestSeesNothingExactlyWhen(steps, 0);
  }

  lemma {:induction false} SpreadOut(got: seq<(nat, string)>, start: nat, n: nat)
    requires n <= |got|
    requires forall i :: 0 <= i < |got| ==> start < got[i].0
    requires forall i, j :: 0 <= i < j < |got| ==> got[i].0 < got[j].0
    ensures n > 0 ==> got[n - 1].0 >= start + n
  {
    if n > 1 { SpreadOut(got, start, n - 1); }
  }

  lemma {:induction false} FarApart(got: seq<(nat, string)>, i: nat, j: nat)
    requires i <= j < |got|
    requires forall i, j :: 0 <= i < j < |got| ==> got[i].0 < got[j].0
    ensures got[j].0 - got[i].0 >= j - i
    decreases j - i
  {
    if i < j { FarApart(got, i, j - 1); }
  }
}
