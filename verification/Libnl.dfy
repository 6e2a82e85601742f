/** One request and its replies on the request socket (wlinkd/src/wlan_libnl.c). */
module Libnl {
  import opened Text

  const EBADF := 9
  const EAGAIN := 11
  const ENOMEM := 12

  type ErrCode = e: int | e != 0 witness -1

  /** A callback libnl makes while it parses a received buffer. */
  datatype Callback<M> = Valid(msg: M) | Finish | Ack | Error(code: ErrCode)

  datatype Result = Received | Interrupted | Failed

  /** One `nl_recvmsgs` call: what the buffer holds, and the classified return value. */
  datatype Round<M> = Round(callbacks: seq<Callback<M>>, res: Result)

  /** What the outside world answers during one exchange. */
  datatype Exchange<M> = Exchange(socketAndMsg: bool, cbAlloc: bool, sent: bool, rounds: seq<Round<M>>)

  /** `err` and the payloads after one buffer; Ack and Error answer NL_STOP, which abandons the rest of it. */
  function Handle<M>(cbs: seq<Callback<M>>, err: int): (int, seq<M>) {
    if cbs == [] then (err, [])
    else match cbs[0]
      case Valid(m) => var (e, d) := Handle(cbs[1..], err); (e, [m] + d)
      case Finish => Handle(cbs[1..], 0)
      case Ack => (0, [])
      case Error(c) => (c, [])
  }

  function AfterRound<M>(r: Round<M>, err: int): int {
    if r.res == Interrupted then -EAGAIN else Handle(r.callbacks, err).0
  }

  function Receive<M>(rounds: seq<Round<M>>, err: int): (int, seq<M>) {
    if err <= 0 || rounds == [] then (err, [])
    else
      var (e, d) := Receive(rounds[1..], AfterRound(rounds[0], err));
      (e, Handle(rounds[0].callbacks, err).1 + d)
  }

  /** The value returned and the payloads handed to the valid callback; a positive value means still waiting. */
  function Outcome<M>(x: Exchange<M>): (int, seq<M>) {
    if !x.socketAndMsg then (-1, [])
    else if !x.cbAlloc then (-ENOMEM, [])
    else if !x.sent then (-EBADF, [])
    else Receive(x.rounds, 1)
  }

  method HandleBuffer<M>(cbs: seq<Callback<M>>, err0: int) returns (err: int, delivered: seq<M>)
    ensures err == Handle(cbs, err0).0 && delivered == Handle(cbs, err0).1
  {
    err, delivered := err0, [];
    var i := 0;
    assert cbs[0..] == cbs;
    while i < |cbs|
      invariant i <= |cbs|
      invariant Handle(cbs, err0).0 == Handle(cbs[i..], err).0
      invariant Handle(cbs, err0).1 == delivered + Handle(cbs[i..], err).1
    {
      assert cbs[i..][1..] == cbs[i + 1..];
      match cbs[i] {
        case Valid(m) => delivered := delivered + [m];
        case Finish => err := 0;
        case Ack => return 0, delivered;
        case Error(c) => return c, delivered;
      }
      i := i + 1;
    }
  }

  /** One more round. */
  lemma ReceiveStep<M>(rounds: seq<Round<M>>, i: nat, err: int)
    requires i < |rounds| && err > 0
    ensures var (e, d) := Receive(rounds[i + 1..], AfterRound(rounds[i], err));
            Receive(rounds[i..], err) == (e, Handle(rounds[i].callbacks, err).1 + d)
  {
    assert rounds[i..][0] == rounds[i] && rounds[i..][1..] == rounds[i + 1..];
  }

  method SendAndRecv<M>(x: Exchange<M>) returns (err: int, delivered: seq<M>)
    ensures err == Outcome(x).0 && delivered == Outcome(x).1
  {
    if !x.socketAndMsg {
      return -1, [];
    }
    if !x.cbAlloc {
      return -ENOMEM, [];
    }
    if !x.sent {
      return -EBADF, [];
    }
    err, delivered := 1, [];
    var i := 0;
    assert x.rounds[0..] == x.rounds;
    while err > 0 && i < |x.rounds|
      invariant i <= |x.rounds|
      invariant Receive(x.rounds, 1).0 == Receive(x.rounds[i..], err).0
      invariant Receive(x.rounds, 1).1 == delivered + Receive(x.rounds[i..], err).1
      decreases |x.rounds| - i
    {
      ReceiveStep(x.rounds, i, err);
      var e, d := HandleBuffer(x.rounds[i].callbacks, err);
      Assoc(delivered, d, Receive(x.rounds[i + 1..], AfterRound(x.rounds[i], err)).1);
      err, delivered := e, delivered + d;
      if x.rounds[i].res == Interrupted {
        err := -EAGAIN;
      }
      i := i + 1;
    }
  }

  /** The last verdict a buffer carries before libnl stops reading it: 0 for Finish and Ack. */
  function Verdict<M>(cbs: seq<Callback<M>>): Option<int> {
    if cbs == [] then None
    else match cbs[0]
      case Valid(_) => Verdict(cbs[1..])
      case Finish => var v := Verdict(cbs[1..]); if v.Some? then v else Some(0)
      case Ack => Some(0)
      case Error(c) => Some(c)
  }

  predicate Confirms<M>(r: Round<M>) { r.res != Interrupted && Verdict(r.callbacks) == Some(0) }

  predicate SaysNothing<M>(r: Round<M>) {
    r.res != Interrupted && (Verdict(r.callbacks).Some? ==> Verdict(r.callbacks).value > 0)
  }

  /** The exchange ran, and its first round that said anything was a confirmation that was not interrupted. */
  ghost predicate Confirmed<M>(x: Exchange<M>) {
    && x.socketAndMsg && x.cbAlloc && x.sent
    && exists i :: 0 <= i < |x.rounds| && Confirms(x.rounds[i]) && forall j :: 0 <= j < i ==> SaysNothing(x.rounds[j])
  }

  lemma {:induction false} HandleVerdict<M>(cbs: seq<Callback<M>>, err: int)
    ensures Handle(cbs, err).0 == if Verdict(cbs).Some? then Verdict(cbs).value else err
  {
    if cbs != [] {
      match cbs[0] {
        case Valid(_) => HandleVerdict(cbs[1..], err);
        case Finish => HandleVerdict(cbs[1..], 0);
        case Ack =>
        case Error(_) =>
      }
    }
  }

  lemma {:induction false} ReceiveConfirmed<M>(rounds: seq<Round<M>>, err: int)
    requires err > 0
    ensures Receive(rounds, err).0 == 0 <==>
            exists i :: 0 <= i < |rounds| && Confirms(rounds[i]) && forall j :: 0 <= j < i ==> SaysNothing(rounds[j])
  {
    if rounds != [] {
      var r, rest := rounds[0], rounds[1..];
      HandleVerdict(r.callbacks, err);
      var e := AfterRound(r, err);
      if e > 0 {
        ReceiveConfirmed(rest, e);
        assert SaysNothing(r) && !Confirms(r);
        if Receive(rest, e).0 == 0 {
          var i :| 0 <= i < |rest| && Confirms(rest[i]) && forall j :: 0 <= j < i ==> SaysNothing(rest[j]);
          assert Confirms(rounds[i + 1]);
          assert forall j :: 0 <= j < i + 1 ==> SaysNothing(rounds[j]) by {
            assert forall j :: 0 < j < i + 1 ==> rounds[j] == rest[j - 1];
          }
        }
        if i :| 0 <= i < |rounds| && Confirms(rounds[i]) && forall j :: 0 <= j < i ==> SaysNothing(rounds[j]) {
          assert rest[i - 1] == rounds[i];
          assert forall j :: 0 <= j < i - 1 ==> rest[j] == rounds[j + 1];
        }
      } else if e == 0 {
        assert Confirms(rounds[0]);
      } else {
        assert !SaysNothing(rounds[0]) && !Confirms(rounds[0]);
      }
    }
  }

  /** Success is returned exactly for an exchange that FINISH or ACK ended and no interrupted dump spoiled. */
  lemma SuccessMeansConfirmed<M>(x: Exchange<M>)
    ensures Outcome(x).0 == 0 <==> Confirmed(x)
  {
    ReceiveConfirmed(x.rounds, 1);
  }

  // ----- a confirmed dump hands over everything it carried

  /** Every payload in a buffer. */
  function Payloads<M>(cbs: seq<Callback<M>>): seq<M> {
    if cbs == [] then [] else (if cbs[0].Valid? then [cbs[0].msg] else []) + Payloads(cbs[1..])
  }

  function AllPayloads<M>(rounds: seq<Round<M>>): seq<M> {
    if rounds == [] then [] else Payloads(rounds[0].callbacks) + AllPayloads(rounds[1..])
  }

  /** Where libnl stops reading a buffer: at the first ACK or error, else at its end. */
  function StopAt<M>(cbs: seq<Callback<M>>): (i: nat)
    ensures i <= |cbs| && (i < |cbs| ==> cbs[i].Ack? || cbs[i].Error?)
    ensures forall j :: 0 <= j < i ==> cbs[j].Valid? || cbs[j].Finish?
  {
    if cbs == [] || cbs[0].Ack? || cbs[0].Error? then 0 else 1 + StopAt(cbs[1..])
  }

  /** The payloads before that. */
  function Handed<M>(cbs: seq<Callback<M>>): seq<M> { Payloads(cbs[..StopAt(cbs)]) }

  function AllHanded<M>(rounds: seq<Round<M>>): seq<M> {
    if rounds == [] then [] else Handed(rounds[0].callbacks) + AllHanded(rounds[1..])
  }

  lemma {:induction false} HandlesUpToStop<M>(cbs: seq<Callback<M>>, err: int)
    ensures Handle(cbs, err).1 == Handed(cbs)
  {
    if cbs != [] && (cbs[0].Valid? || cbs[0].Finish?) {
      HandlesUpToStop(cbs[1..], if cbs[0].Finish? then 0 else err);
      var k := StopAt(cbs[1..]);
      assert cbs[..k + 1][0] == cbs[0] && cbs[..k + 1][1..] == cbs[1..][..k];
      if cbs[0].Finish? { assert Payloads(cbs[..k + 1]) == Payloads(cbs[1..][..k]); }
    }
  }

  /** A round that ends the exchange, and with which code. */
  predicate Decides<M>(r: Round<M>) { !SaysNothing(r) }

  function Code<M>(r: Round<M>): int
    requires Decides(r)
  {
    if r.res == Interrupted then -11 else Verdict(r.callbacks).value
  }

  /**
   * Whatever the outcome, the payloads handed over are those of the rounds read, in order: the rounds up to the first
   * that decides, whose code is returned, or all of them if none does, and then the exchange is still waiting.
   */
  lemma {:induction false} ReceiveHandsOver<M>(rounds: seq<Round<M>>, err: int) returns (n: nat)
    requires err > 0
    ensures n <= |rounds| && (forall j :: 0 <= j < n - 1 ==> SaysNothing(rounds[j]))
    ensures Receive(rounds, err).1 == AllHanded(rounds[..n])
    ensures if Receive(rounds, err).0 > 0 then n == |rounds| && (n > 0 ==> SaysNothing(rounds[n - 1]))
            else n > 0 && Decides(rounds[n - 1]) && Receive(rounds, err).0 == Code(rounds[n - 1])
  {
    if rounds == [] {
      n := 0;
    } else {
      var r, rest := rounds[0], rounds[1..];
      var e := AfterRound(r, err);
      HandleVerdict(r.callbacks, err);
      HandlesUpToStop(r.callbacks, err);
      if e <= 0 {
        n := 1;
        assert rounds[..1] == [r] && AllHanded([r]) == Handed(r.callbacks) + AllHanded<M>([]);
      } else {
        var k := ReceiveHandsOver(rest, e);
        n := k + 1;
        assert rounds[..n][0] == r && rounds[..n][1..] == rest[..k];
        assert forall j :: 0 < j < n ==> rounds[j] == rest[j - 1];
      }
    }
  }

  /** Replies to a dump end with FINISH; nothing in them makes libnl stop reading. */
  predicate Dump<M>(rounds: seq<Round<M>>) {
    forall i, j :: 0 <= i < |rounds| && 0 <= j < |rounds[i].callbacks| ==>
                     rounds[i].callbacks[j].Valid? || rounds[i].callbacks[j].Finish?
  }

  lemma {:induction false} HandleDelivers<M>(cbs: seq<Callback<M>>, err: int)
    requires forall j :: 0 <= j < |cbs| ==> cbs[j].Valid? || cbs[j].Finish?
    ensures Handle(cbs, err).1 == Payloads(cbs)
    ensures Verdict(cbs) == None || Verdict(cbs) == Some(0)
  {
    if cbs != [] {
      HandleDelivers(cbs[1..], if cbs[0].Finish? then 0 else err);
      if cbs[0].Finish? { assert Payloads(cbs) == Payloads(cbs[1..]); }
    }
  }

  /** A successful dump delivers, in order, every payload of the rounds it read, and it read no further than FINISH. */
  lemma {:induction false} DumpDeliversAll<M>(rounds: seq<Round<M>>, err: int) returns (n: nat)
    requires err > 0 && Dump(rounds) && Receive(rounds, err).0 == 0
    ensures n < |rounds| && Confirms(rounds[n]) && (forall j :: 0 <= j < n ==> SaysNothing(rounds[j]))
    ensures Receive(rounds, err).1 == AllPayloads(rounds[..n + 1])
  {
    var r, rest := rounds[0], rounds[1..];
    HandleDelivers(r.callbacks, err);
    HandleVerdict(r.callbacks, err);
    var e := AfterRound(r, err);
    if e == 0 {
      n := 0;
      assert rounds[..1] == [r] && AllPayloads([r]) == Payloads(r.callbacks) + AllPayloads<M>([]);
    } else {
      assert Dump(rest) by {
        assert forall i :: 0 <= i < |rest| ==> rest[i] == rounds[i + 1];
      }
      n := DumpDeliversAll(rest, e);
      assert forall j :: 0 < j < n + 1 ==> rounds[j] == rest[j - 1];
      n := n + 1;
      assert rounds[..n + 1][0] == r && rounds[..n + 1][1..] == rest[..n];
    }
  }

  /** An exchange that could not be sent fails and hands over nothing. */
  lemma UnsentFails<M>(x: Exchange<M>)
    requires !x.socketAndMsg || !x.cbAlloc || !x.sent
    ensures Outcome(x).0 < 0 && Outcome(x).1 == []
  {
  }
}
