/** The button signal and the thread that answers it with a WPS launch (src/core/worker.c). */
module Wps {

  datatype Event = Signal | Launch

  /** Where `button_watcher_thread` stands. */
  datatype Pc = Test | Clear | Fork | Sleep

  /** The flag, the watcher, and everything that happened, in order. */
  datatype State = State(flag: bool, pc: Pc, log: seq<Event>)

  const START := State(false, Test, [])

  /** A signal delivery, or the watcher's next statement. */
  datatype Step = Deliver | Watch

  function Next(s: State, st: Step): State {
    match st
    case Deliver => s.(flag := true, log := s.log + [Signal])
    case Watch =>
      match s.pc
      case Test => s.(pc := if s.flag then Clear else Sleep)
      case Clear => s.(flag := false, pc := Fork)
      case Fork => s.(pc := Sleep, log := s.log + [Launch])
      case Sleep => s.(pc := Test)
  }

  function Run(steps: seq<Step>): State {
    if steps == [] then START else Next(Run(steps[..|steps| - 1]), steps[|steps| - 1])
  }

  function Count(log: seq<Event>, e: Event): nat {
    if log == [] then 0 else Count(log[..|log| - 1], e) + if log[|log| - 1] == e then 1 else 0
  }

  predicate Unanswered(log: seq<Event>) { log != [] && log[|log| - 1] == Signal }

  ghost predicate Inv(s: State) {
    && (Unanswered(s.log) ==> s.flag || s.pc == Fork)
    && (s.pc == Clear ==> s.flag)
    && Count(s.log, Launch) + (if s.pc == Fork then 1 else 0) + (if s.flag then 1 else 0) <= Count(s.log, Signal)
  }

  lemma StepKeeps(s: State, st: Step)
    requires Inv(s)
    ensures Inv(Next(s, st))
  {
  }

  lemma {:induction false} RunKeeps(steps: seq<Step>)
    ensures Inv(Run(steps))
  {
    if steps != [] {
      RunKeeps(steps[..|steps| - 1]);
      StepKeeps(Run(steps[..|steps| - 1]), steps[|steps| - 1]);
    }
  }

  /**
   * Under every interleaving there are never more launch attempts than signals, and whenever the watcher is about
   * to test a clear flag every signal so far has been followed by a launch attempt.
   */
  lemma EverySignalAnswered(steps: seq<Step>)
    ensures Count(Run(steps).log, Launch) <= Count(Run(steps).log, Signal)
    ensures var s := Run(steps);
            s.pc == Test && !s.flag ==>
              forall i :: 0 <= i < |s.log| && s.log[i] == Signal ==> exists j :: i < j < |s.log| && s.log[j] == Launch
  {
    RunKeeps(steps);
    var s := Run(steps);
    if s.pc == Test && !s.flag && s.log != [] {
      assert s.log[|s.log| - 1] == Launch;
    }
  }

  // ----- progress

  function After(s: State, more: seq<Step>): State
    decreases more
  {
    if more == [] then s else After(Next(s, more[0]), more[1..])
  }

  lemma {:induction false} RunContinued(steps: seq<Step>, more: seq<Step>)
    ensures Run(steps + more) == After(Run(steps), more)
    decreases more
  {
    if more == [] {
      assert steps + more == steps;
    } else {
      var longer := steps + [more[0]];
      assert longer[..|steps|] == steps;
      assert steps + more == longer + more[1..];
      RunContinued(longer, more[1..]);
    }
  }

  function Watches(more: seq<Step>): nat
    decreases more
  {
    if more == [] then 0 else (if more[0] == Watch then 1 else 0) + Watches(more[1..])
  }

  /** How many statements the watcher is from its next launch, once the flag is set. */
  function Distance(pc: Pc): nat { match pc case Sleep => 4 case Test => 3 case Clear => 2 case Fork => 1 }

  lemma {:induction false} LogGrows(s: State, more: seq<Step>)
    ensures s.log <= After(s, more).log
    decreases more
  {
    if more != [] { LogGrows(Next(s, more[0]), more[1..]); }
  }

  lemma {:induction false} LaunchComes(s: State, more: seq<Step>) returns (j: nat)
    requires (s.flag || s.pc == Clear || s.pc == Fork) && Watches(more) >= Distance(s.pc)
    ensures |s.log| <= j < |After(s, more).log| && After(s, more).log[j] == Launch
    decreases more
  {
    if more[0] == Watch && s.pc == Fork {
      j := |s.log|;
      LogGrows(Next(s, Watch), more[1..]);
    } else {
      j := LaunchComes(Next(s, more[0]), more[1..]);
    }
  }

  /** Under every interleaving a signal is followed by a launch before the watcher has made four more statements. */
  lemma SignalLeadsToLaunch(steps: seq<Step>, more: seq<Step>) returns (j: nat)
    requires Watches(more) >= 4
    ensures var before, log := Run(steps + [Deliver]).log, Run(steps + [Deliver] + more).log;
            && before == Run(steps).log + [Signal]
            && |before| <= j < |log| && log[j] == Launch
  {
    assert (steps + [Deliver])[..|steps|] == steps;
    RunContinued(steps + [Deliver], more);
    j := LaunchComes(Run(steps + [Deliver]), more);
  }
}
