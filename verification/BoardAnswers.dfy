// What a get of a board must answer, and when it must read, from the reads so far alone.
module BoardAnswers {
  import opened Basics
  import opened BoardCache
  import opened BoardCalls

  // The latest read that succeeded.
  function LastSuccess(log: seq<Read>): (k: Option<nat>)
    ensures k.None? ==> forall i :: 0 <= i < |log| ==> log[i].outcome != Succeeded
    ensures k.Some? ==> k.value < |log| && log[k.value].outcome == Succeeded
    ensures k.Some? ==> forall i :: k.value < i < |log| ==> log[i].outcome != Succeeded
  {
    if log == [] then None
    else if log[|log| - 1].outcome == Succeeded then Some(|log| - 1)
    else LastSuccess(log[..|log| - 1])
  }

  // There is a copy, read less than so many seconds before.
  predicate HasCopy(log: seq<Read>, now: int, seconds: int) {
    LastSuccess(log).Some? && now - log[LastSuccess(log).value].at < seconds * 1_000_000_000
  }

  function CopyOf(log: seq<Read>): Snapshot
    requires LastSuccess(log).Some?
  {
    Snapshot(LastSuccess(log).value, log[LastSuccess(log).value].at)
  }

  // The copy is under a minute old and its get had counted the invalidations counted now,
  // as a 64-bit counter tells.
  predicate CopyIsCurrent(log: seq<Read>, invalidated: nat, now: int) {
    && HasCopy(log, now, 60)
    && var counted := log[LastSuccess(log).value].counted;
       counted % 0x1_0000_0000_0000_0000 == invalidated % 0x1_0000_0000_0000_0000
  }

  // The latest read failed, less than ten seconds before.
  predicate JustFailed(log: seq<Read>, now: int) {
    log != [] && log[|log| - 1].outcome == Broke && now - log[|log| - 1].at < 10_000_000_000
  }

  // The slot holds the copy of the latest successful read.
  ghost predicate HoldsTheCopy(w: World) {
    w.slot.snapshot == if LastSuccess(Done(w)).Some? then Some(CopyOf(Done(w))) else None
  }

  lemma StepHoldsTheCopy(w: World, s: Step)
    requires Inv(w) && HoldsTheCopy(w)
    ensures HoldsTheCopy(Apply(w, s))
  {
    match s
    case FinishStep(ok) =>
      if w.phase.Reading? && w.log != [] {
        FinishHoldsTheCopy(w, ok);
      }
    case LoadStep =>
      if w.phase.Clocked? {
        hide LastSuccess;
        var after := Load(w).0;
        assert after.phase.Reading? ==> after.log[..|after.log| - 1] == w.log;
      }
    case _ =>
  }

  lemma FinishHoldsTheCopy(w: World, ok: bool)
    requires Inv(w) && HoldsTheCopy(w) && w.phase.Reading? && w.log != []
    ensures HoldsTheCopy(Finish(w, ok).0)
  {
    hide SlotMatches, AllSpaced, Ended;
    EndedLast(w.log, if ok then Succeeded else Broke);
    EndedFront(w.log, if ok then Succeeded else Broke);
  }

  lemma EndedFront(log: seq<Read>, outcome: ReadOutcome)
    requires log != []
    ensures Ended(log, outcome)[..|Ended(log, outcome)| - 1] == log[..|log| - 1]
  {
  }

  lemma {:induction false} RunHoldsTheCopy(steps: seq<Step>)
    ensures HoldsTheCopy(Run(steps))
  {
    hide Inv, HoldsTheCopy, Apply;
    if steps == [] {
      assert HoldsTheCopy(FRESH_WORLD) by { FreshHoldsNothing(); }
    } else {
      RunKeepsInv(steps[..|steps| - 1]);
      RunHoldsTheCopy(steps[..|steps| - 1]);
      StepHoldsTheCopy(Run(steps[..|steps| - 1]), steps[|steps| - 1]);
    }
  }

  lemma FreshHoldsNothing()
    ensures HoldsTheCopy(FRESH_WORLD)
  {
  }

  // In every reachable state, a get that has looked at the clock answers at once if and
  // only if the copy is current or the latest read has just failed. It then answers with
  // the copy, if that is current or under ten minutes old, and else with a backoff error;
  // if it does not answer, it starts a read.
  lemma GetAnswersExactly(steps: seq<Step>)
    requires Run(steps).phase.Clocked?
    ensures var w := Run(steps);
            var ((after, answer), now) := (Load(w), w.phase.now);
            && (answer.Some? <==> CopyIsCurrent(w.log, w.invalidated, now) || JustFailed(w.log, now))
            && (answer.Some? ==>
                  answer.value == if CopyIsCurrent(w.log, w.invalidated, now) || HasCopy(w.log, now, 600)
                                  then Served(CopyOf(w.log)) else Backoff)
            && (answer.Some? ==> after.log == w.log)
            && (answer.None? ==> after.log == w.log + [Read(now, w.invalidated, Pending)])
  {
    RunKeepsInv(steps);
    RunHoldsTheCopy(steps);
    var w := Run(steps);
    assert Done(w) == w.log;
    if w.log != [] {
      assert !w.log[|w.log| - 1].outcome.Pending?;
    }
  }

  // A get whose read comes back answers with what it read, or, when the read failed, with
  // the copy of the latest successful one if that is under ten minutes old; and else with
  // the error.
  lemma ReadAnswersExactly(steps: seq<Step>, ok: bool)
    requires Run(steps).phase.Reading? && Run(steps).log != []
    ensures var w := Run(steps);
            var ((after, answer), now) := (Finish(w, ok), w.phase.started);
            && |after.log| == |w.log|
            && after.log[|w.log| - 1] == Read(now, w.log[|w.log| - 1].counted, if ok then Succeeded else Broke)
            && (ok ==> answer == Served(Snapshot(|w.log| - 1, now)))
            && answer == if HasCopy(after.log, now, 600) then Served(CopyOf(after.log)) else ReadFailed
  {
    RunKeepsInv(steps);
    RunHoldsTheCopy(steps);
    var w := Run(steps);
    EndedLast(w.log, if ok then Succeeded else Broke);
    var ended := Ended(w.log, if ok then Succeeded else Broke);
    assert ended[..|ended| - 1] == Done(w);
    if !ok {
      LastSuccessKept(Done(w), ended);
    }
  }

  lemma LastSuccessKept(front: seq<Read>, log: seq<Read>)
    requires log != [] && log[..|log| - 1] == front && log[|log| - 1].outcome != Succeeded
    ensures LastSuccess(log) == LastSuccess(front)
  {
  }

  // All this holds of each of any number of concurrent gets.
  lemma ConcurrentGetsAnswerExactly(moves: seq<Move>, c: nat, ok: bool)
    requires c in RoomAfter(moves).calls
    ensures var r := RoomAfter(moves);
            && (r.calls[c].Looked? ==>
                  var (answer, now) := (LoadOf(r, c).1, r.calls[c].now);
                  answer == if CopyIsCurrent(r.log, r.invalidated, now) then Some(Served(CopyOf(r.log)))
                            else if !JustFailed(r.log, now) then None
                            else if HasCopy(r.log, now, 600) then Some(Served(CopyOf(r.log)))
                            else Some(Backoff))
            && (r.calls[c].InRead? ==>
                  && r.calls[c].read < |r.log|
                  && var (after, answer) := EndReadOf(r, c, ok);
                     answer == if HasCopy(after.log, r.calls[c].started, 600) then Served(CopyOf(after.log))
                               else ReadFailed)
  {
    hide RoomAfter, HasCopy, CopyIsCurrent, JustFailed;
    var r := RoomAfter(moves);
    var steps := ConcurrentGetsAreOneAtATime(moves);
    if r.calls[c].Looked? {
      GetAnswersExactly(steps);
    }
    if r.calls[c].InRead? {
      ReadAnswersExactly(steps, ok);
      EndIsFinish(r, c, ok);
    }
  }
}
