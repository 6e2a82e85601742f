/** Push subscribers of the AF_UNIX server and the ownership of their descriptors (wlinkd/src/ipc.c). */
module Ipc {
  import opened Text

  const MAX_PUSH_CLIENTS := 8

  /** What an accepted connection asked for; no request at all is a failed or empty recv. */
  datatype Request = NoRequest | Subscribe | OtherCommand

  /** The descriptors whose send succeeded, in order; a negative slot is passed over. */
  function Reached(fds: seq<int>, ok: set<int>): seq<int> {
    if fds == [] then []
    else (if fds[0] >= 0 && fds[0] in ok then [fds[0]] else []) + Reached(fds[1..], ok)
  }

  /** The descriptors whose send failed, in order. */
  function Failed(fds: seq<int>, ok: set<int>): seq<int> {
    if fds == [] then []
    else (if fds[0] >= 0 && fds[0] !in ok then [fds[0]] else []) + Failed(fds[1..], ok)
  }

  /** One turn of the compaction loop. */
  lemma PushStep(regs: seq<int>, i: nat, ok: set<int>, kept: seq<int>, closed: seq<int>)
    requires i < |regs|
    ensures var fd, r, f := regs[i], Reached(regs[i + 1..], ok), Failed(regs[i + 1..], ok);
            && kept + Reached(regs[i..], ok) == (if fd >= 0 && fd in ok then kept + [fd] else kept) + r
            && closed + Failed(regs[i..], ok) == (if fd >= 0 && fd !in ok then closed + [fd] else closed) + f
  {
    var fd, r, f := regs[i], Reached(regs[i + 1..], ok), Failed(regs[i + 1..], ok);
    assert regs[i..][0] == fd && regs[i..][1..] == regs[i + 1..];
    Assoc(kept, [fd], r);
    Assoc(closed, [fd], f);
    assert [] + r == r && [] + f == f;
  }

  function NonNegative(fds: seq<int>): seq<int> {
    if fds == [] then [] else (if fds[0] >= 0 then [fds[0]] else []) + NonNegative(fds[1..])
  }

  /**
   * The server as a value. Beside the registered descriptors it carries a history: every descriptor accepted and
   * every one closed, the messages pushed, and for each subscriber the number of messages pushed before it
   * registered and those it was sent since.
   */
  datatype Server = Server(registered: seq<int>, accepted: seq<int>, closed: seq<int>,
                           pushed: seq<string>, since: map<int, nat>, inbox: map<int, seq<string>>)

  const EMPTY := Server([], [], [], [], map[], map[])

  /** One call of `ipc_handler`, `ipc_push_event` (ok: the descriptors whose send succeeds) or `ipc_close`. */
  datatype Step = Accept(fd: nat, req: Request) | PushAll(msg: string, ok: set<int>) | Shutdown

  function Next(s: Server, st: Step): Server {
    match st
    case Accept(fd, req) =>
      if req == Subscribe && |s.registered| < MAX_PUSH_CLIENTS
      then s.(registered := s.registered + [fd], accepted := s.accepted + [fd],
              since := s.since[fd := |s.pushed|], inbox := s.inbox[fd := []])
      else s.(accepted := s.accepted + [fd], closed := s.closed + [fd])
    case PushAll(msg, ok) =>
      s.(registered := Reached(s.registered, ok), closed := s.closed + Failed(s.registered, ok),
         pushed := s.pushed + [msg], inbox := SendAll(s.inbox, s.registered, msg, ok))
    case Shutdown => s.(registered := [], closed := s.closed + NonNegative(s.registered))
  }

  /** A successful send to fd. */
  function SendOne(inbox: map<int, seq<string>>, fd: int, msg: string): map<int, seq<string>> {
    if fd in inbox then inbox[fd := inbox[fd] + [msg]] else inbox[fd := [msg]]
  }

  /** The sends of one push, slot by slot; a descriptor that held two slots would be sent the message twice. */
  function SendAll(inbox: map<int, seq<string>>, fds: seq<int>, msg: string, ok: set<int>): map<int, seq<string>>
    decreases fds
  {
    if fds == [] then inbox
    else if fds[0] >= 0 && fds[0] in ok then SendAll(SendOne(inbox, fds[0], msg), fds[1..], msg, ok)
    else SendAll(inbox, fds[1..], msg, ok)
  }

  lemma SendStep(inbox: map<int, seq<string>>, regs: seq<int>, i: nat, msg: string, ok: set<int>)
    requires i < |regs|
    ensures var fd := regs[i];
            var after := if fd >= 0 && fd in ok then SendOne(inbox, fd, msg) else inbox;
            SendAll(inbox, regs[i..], msg, ok) == SendAll(after, regs[i + 1..], msg, ok)
  {
    assert regs[i..][0] == regs[i] && regs[i..][1..] == regs[i + 1..];
  }

  class PushServer {
    const fds: array<int>
    var count: nat
    ghost var history: Server

    ghost predicate Valid()
      reads this, fds
    {
      fds.Length == MAX_PUSH_CLIENTS && count <= fds.Length && history.registered == fds[..count]
    }

    constructor ()
      ensures Valid() && history == EMPTY && fresh(fds)
    {
      fds, count, history := new int[MAX_PUSH_CLIENTS], 0, EMPTY;
    }

    /** `ipc_push_event`: sends to each slot, closes on failure, compacts in place. */
    method Push(msg: string, ok: set<int>)
      requires Valid()
      modifies this, fds
      ensures Valid() && history == Next(old(history), PushAll(msg, ok))
    {
      ghost var regs, kept: seq<int> := fds[..count], [];
      assert regs[0..] == regs;
      var i, j := 0, 0;
      while i < count
        invariant j <= i <= count == old(count) && j == |kept|
        invariant forall k :: i <= k < count ==> fds[k] == regs[k]
        invariant forall k :: 0 <= k < j ==> fds[k] == kept[k]
        invariant history == old(history).(closed := history.closed, inbox := history.inbox)
        invariant kept + Reached(regs[i..], ok) == Reached(regs, ok)
        invariant history.closed + Failed(regs[i..], ok) == old(history.closed) + Failed(regs, ok)
        invariant SendAll(history.inbox, regs[i..], msg, ok) == SendAll(old(history.inbox), regs, msg, ok)
      {
        var fd := fds[i];
        PushStep(regs, i, ok, kept, history.closed);
        SendStep(history.inbox, regs, i, msg, ok);
        if fd >= 0 {
          if fd !in ok {
            history := history.(closed := history.closed + [fd]);
          } else {
            history := history.(inbox := SendOne(history.inbox, fd, msg));
            fds[j] := fd;
            kept := kept + [fd];
            j := j + 1;
          }
        }
        i := i + 1;
      }
      assert regs[i..] == [] && fds[..j] == kept;
      count := j;
      history := history.(registered := fds[..j], pushed := history.pushed + [msg]);
    }

    /** `ipc_handler` on a connection accept() returned: it is registered, or it is closed. */
    method Handle(fd: nat, req: Request)
      requires Valid()
      modifies this, fds
      ensures Valid() && history == Next(old(history), Accept(fd, req))
    {
      history := history.(accepted := history.accepted + [fd]);
      if req == Subscribe && count < MAX_PUSH_CLIENTS {
        fds[count] := fd;
        count := count + 1;
        history := history.(registered := history.registered + [fd],
                            since := history.since[fd := |history.pushed|], inbox := history.inbox[fd := []]);
        return;
      }
      history := history.(closed := history.closed + [fd]);
    }

    /** `ipc_close`: what it closes is gathered slot by slot. */
    method Close()
      requires Valid()
      modifies this
      ensures Valid() && count == 0 && history == Next(old(history), Shutdown)
    {
      ghost var ahead := fds[..count];
      for i := 0 to count
        invariant count == old(count) && fds[i..count] == ahead
        invariant history == old(history).(closed := history.closed)
        invariant history.closed + NonNegative(ahead) == old(history.closed) + NonNegative(old(history.registered))
      {
        assert fds[i] == ahead[0];
        ahead := ahead[1..];
        if fds[i] >= 0 {
          history := history.(closed := history.closed + [fds[i]]);
        }
      }
      count := 0;
      history := history.(registered := []);
    }
  }

  // ----- conservation over every run

  function Run(steps: seq<Step>): Server {
    if steps == [] then EMPTY else Next(Run(steps[..|steps| - 1]), steps[|steps| - 1])
  }

  /** accept() never returns a descriptor that is still open. */
  ghost predicate KernelFresh(steps: seq<Step>) {
    forall i :: 0 <= i < |steps| && steps[i].Accept? ==> steps[i].fd !in Run(steps[..i]).registered
  }

  lemma FreshPrefix(steps: seq<Step>, n: nat)
    requires n <= |steps| && KernelFresh(steps)
    ensures KernelFresh(steps[..n])
  {
    assert forall i :: 0 <= i < n ==> steps[..n][..i] == steps[..i];
  }

  lemma {:induction false} PushSplits(fds: seq<int>, ok: set<int>)
    requires AllOpen(fds)
    ensures multiset(fds) == multiset(Reached(fds, ok)) + multiset(Failed(fds, ok))
    ensures |Reached(fds, ok)| <= |fds|
  {
    if fds != [] {
      assert multiset(fds) == multiset{fds[0]} + multiset(fds[1..]) by {
        assert fds == [fds[0]] + fds[1..];
      }
      PushSplits(fds[1..], ok);
      assert multiset([fds[0]]) == multiset{fds[0]};
    }
  }

  lemma {:induction false} ShutdownTakesAll(fds: seq<int>)
    requires AllOpen(fds)
    ensures NonNegative(fds) == fds
  {
    if fds != [] { ShutdownTakesAll(fds[1..]); }
  }

  predicate AllOpen(fds: seq<int>) { fds != [] ==> fds[0] >= 0 && AllOpen(fds[1..]) }

  lemma {:induction false} ReachedOpen(fds: seq<int>, ok: set<int>)
    requires AllOpen(fds)
    ensures AllOpen(Reached(fds, ok))
  {
    if fds != [] {
      ReachedOpen(fds[1..], ok);
      assert fds[0] in ok ==> Reached(fds, ok)[1..] == Reached(fds[1..], ok);
      assert fds[0] !in ok ==> Reached(fds, ok) == Reached(fds[1..], ok);
    }
  }

  lemma {:induction false} OpenSnoc(fds: seq<int>, fd: nat)
    requires AllOpen(fds)
    ensures AllOpen(fds + [fd])
  {
    if fds != [] {
      assert (fds + [fd])[1..] == fds[1..] + [fd];
      OpenSnoc(fds[1..], fd);
    }
  }

  /** Each accept is matched by one close or by the one slot that holds the descriptor. */
  ghost predicate Conserved(s: Server) {
    && multiset(s.accepted) == multiset(s.closed) + multiset(s.registered)
    && (forall fd :: multiset(s.registered)[fd] <= 1)
    && AllOpen(s.registered) && |s.registered| <= MAX_PUSH_CLIENTS
  }

  lemma AcceptConserves(s: Server, fd: nat, req: Request)
    requires Conserved(s) && fd !in s.registered
    ensures Conserved(Next(s, Accept(fd, req)))
  {
    MultisetSnoc(s.accepted, fd);
    if req == Subscribe && |s.registered| < MAX_PUSH_CLIENTS {
      OpenSnoc(s.registered, fd);
      MultisetSnoc(s.registered, fd);
      OnceEach(s.registered, fd);
    } else {
      MultisetSnoc(s.closed, fd);
    }
  }

  lemma MultisetSnoc(fds: seq<int>, fd: int)
    ensures multiset(fds + [fd]) == multiset(fds) + multiset{fd}
  {
  }

  lemma OnceEach(fds: seq<int>, fd: int)
    requires fd !in fds && forall x :: multiset(fds)[x] <= 1
    ensures forall x :: multiset(fds + [fd])[x] <= 1
  {
    MultisetSnoc(fds, fd);
    assert multiset(fds)[fd] == 0;
    forall x
      ensures multiset(fds + [fd])[x] <= 1
    {
      assert multiset(fds)[x] <= 1;
    }
  }

  lemma PushConserves(s: Server, msg: string, ok: set<int>)
    requires Conserved(s)
    ensures Conserved(Next(s, PushAll(msg, ok)))
  {
    var r, f := Reached(s.registered, ok), Failed(s.registered, ok);
    PushSplits(s.registered, ok);
    ReachedOpen(s.registered, ok);
    assert multiset(s.closed + f) == multiset(s.closed) + multiset(f);
    forall fd
      ensures multiset(r)[fd] <= 1
    {
      assert multiset(s.registered)[fd] <= 1;
    }
  }

  lemma StepConserves(s: Server, st: Step)
    requires Conserved(s) && (st.Accept? ==> st.fd !in s.registered)
    ensures Conserved(Next(s, st))
  {
    match st {
      case Accept(fd, req) => AcceptConserves(s, fd, req);
      case PushAll(msg, ok) => PushConserves(s, msg, ok);
      case Shutdown =>
        ShutdownTakesAll(s.registered);
        assert multiset(s.closed + s.registered) == multiset(s.closed) + multiset(s.registered);
    }
  }

  /**
   * Over every run each accept is matched by one close or one registration, never both; at most 8 are registered,
   * and after a shutdown none is open.
   */
  lemma {:induction false} DescriptorsConserved(steps: seq<Step>)
    requires KernelFresh(steps)
    ensures Conserved(Run(steps))
    ensures steps != [] && steps[|steps| - 1].Shutdown? ==> multiset(Run(steps).accepted) == multiset(Run(steps).closed)
  {
    if steps != [] {
      var n := |steps| - 1;
      FreshPrefix(steps, n);
      DescriptorsConserved(steps[..n]);
      StepConserves(Run(steps[..n]), steps[n]);
    }
  }

  /** A subscriber was sent exactly the messages pushed since it registered, in order. */
  predicate ServedFd(s: Server, fd: int) {
    && fd in s.inbox && fd in s.since && s.since[fd] <= |s.pushed|
    && s.inbox[fd] == s.pushed[s.since[fd]..]
  }

  predicate Served(s: Server) { forall fd :: fd in s.registered ==> ServedFd(s, fd) }

  lemma {:induction false} ReachedAreOk(fds: seq<int>, ok: set<int>, fd: int)
    ensures fd in Reached(fds, ok) <==> fd in fds && fd >= 0 && fd in ok
  {
    if fds != [] { ReachedAreOk(fds[1..], ok, fd); }
  }

  /** A descriptor in at most one slot is sent the message once, or not at all. */
  lemma {:induction false} SentOnce(inbox: map<int, seq<string>>, fds: seq<int>, msg: string, ok: set<int>, fd: int)
    requires fd in inbox && multiset(fds)[fd] <= 1
    ensures var after := SendAll(inbox, fds, msg, ok);
            fd in after && after[fd] == if fd in fds && fd >= 0 && fd in ok then inbox[fd] + [msg] else inbox[fd]
    decreases fds
  {
    if fds != [] {
      assert fds == [fds[0]] + fds[1..];
      assert multiset(fds) == multiset{fds[0]} + multiset(fds[1..]);
      SentOnce(if fds[0] >= 0 && fds[0] in ok then SendOne(inbox, fds[0], msg) else inbox, fds[1..], msg, ok, fd);
      assert fd == fds[0] ==> fd !in fds[1..];
    }
  }

  lemma PushServes(s: Server, msg: string, ok: set<int>)
    requires Conserved(s) && Served(s)
    ensures Served(Next(s, PushAll(msg, ok)))
  {
    var s' := Next(s, PushAll(msg, ok));
    forall fd | fd in s'.registered
      ensures ServedFd(s', fd)
    {
      ReachedAreOk(s.registered, ok, fd);
      assert ServedFd(s, fd);
      SentOnce(s.inbox, s.registered, msg, ok, fd);
    }
  }

  lemma StepServes(s: Server, st: Step)
    requires Conserved(s) && Served(s)
    ensures Served(Next(s, st))
  {
    match st {
      case PushAll(msg, ok) => PushServes(s, msg, ok);
      case Accept(fd, req) =>
        forall x | x in Next(s, st).registered
          ensures ServedFd(Next(s, st), x)
        {
          assert x in s.registered ==> ServedFd(s, x);
        }
      case Shutdown =>
    }
  }

  /** Over every run a subscriber still registered was sent exactly the messages pushed since it registered. */
  lemma {:induction false} SubscribersServed(steps: seq<Step>)
    requires KernelFresh(steps)
    ensures Served(Run(steps))
  {
    if steps != [] {
      var n := |steps| - 1;
      FreshPrefix(steps, n);
      SubscribersServed(steps[..n]);
      DescriptorsConserved(steps[..n]);
      StepServes(Run(steps[..n]), steps[n]);
    }
  }

  // ----- who is registered

  /** A subscription is registered last while fewer than 8 are, and closed otherwise; nobody else is affected. */
  lemma SubscribeRegisters(s: Server, fd: nat)
    ensures var s' := Next(s, Accept(fd, Subscribe));
            && s'.accepted == s.accepted + [fd] && s'.pushed == s.pushed
            && (|s.registered| < 8 ==> s'.registered == s.registered + [fd] && s'.closed == s.closed)
            && (|s.registered| >= 8 ==> s'.registered == s.registered && s'.closed == s.closed + [fd])
            && (forall x :: x in s.inbox && x != fd ==> x in s'.inbox && s'.inbox[x] == s.inbox[x])
  {
  }

  /** Any other connection is closed. */
  lemma OthersAreClosed(s: Server, fd: nat, req: Request)
    requires req != Subscribe
    ensures Next(s, Accept(fd, req)) == s.(accepted := s.accepted + [fd], closed := s.closed + [fd])
  {
  }

  /** A push keeps those it reached, in order, and closes the others. */
  lemma PushKeepsReached(s: Server, msg: string, ok: set<int>, fd: int)
    requires AllOpen(s.registered)
    ensures var s' := Next(s, PushAll(msg, ok));
            && (fd in s'.registered <==> fd in s.registered && fd in ok)
            && (fd in s.registered && fd !in ok ==> fd in s'.closed)
            && s'.pushed == s.pushed + [msg] && s'.accepted == s.accepted
  {
    ReachedAreOk(s.registered, ok, fd);
    OpenAreNonNegative(s.registered, fd);
    FailedAreNot(s.registered, ok, fd);
  }

  /** In order: the two parts of the array are compacted each on its own. */
  lemma {:induction false} ReachedConcat(a: seq<int>, b: seq<int>, ok: set<int>)
    ensures Reached(a + b, ok) == Reached(a, ok) + Reached(b, ok)
  {
    if a == [] {
      assert a + b == b;
    } else {
      RestOfConcat(a, b);
      ReachedConcat(a[1..], b, ok);
      Assoc(if a[0] >= 0 && a[0] in ok then [a[0]] else [], Reached(a[1..], ok), Reached(b, ok));
    }
  }

  lemma {:induction false} OpenAreNonNegative(fds: seq<int>, fd: int)
    requires AllOpen(fds)
    ensures fd in fds ==> fd >= 0
  {
    if fds != [] { OpenAreNonNegative(fds[1..], fd); }
  }

  lemma {:induction false} FailedAreNot(fds: seq<int>, ok: set<int>, fd: int)
    ensures fd in Failed(fds, ok) <==> fd in fds && fd >= 0 && fd !in ok
  {
    if fds != [] { FailedAreNot(fds[1..], ok, fd); }
  }
}
