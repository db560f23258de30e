// What a match_cancel ends, what it takes away, and when it is final.
module MatchCancels {
  import opened MatchLifecycle

  // Some run from here ends the match.
  ghost predicate CanEnd(s: State, id: string) {
    exists steps :: id in Run(s, steps).ended
  }

  ghost predicate NeverRegistered(steps: seq<Step>, id: string) {
    forall step :: step in steps ==> !(step.RegisterServer? && step.id == id)
  }

  // Its record is not there, and none is to come.
  predicate IsLost(s: State, id: string) {
    IsSettled(s, id) && id !in s.world.rows.metadata
  }

  lemma StepKeepsLost(s: State, step: Step, id: string)
    requires IsLost(s, id) && Enabled(s, step)
    ensures IsLost(Apply(s, step), id) && (id in Apply(s, step).ended <==> id in s.ended)
  {
    hide Admit, Recorded, Stale;
  }

  // A record is written once, so a match that has lost its own, or that the allocator gave
  // up, never ends, whatever any caller does next and whatever fails.
  lemma {:induction false} LostMatchNeverEnds(s: State, steps: seq<Step>, id: string)
    requires IsLost(s, id)
    ensures IsLost(Run(s, steps), id) && (id in Run(s, steps).ended <==> id in s.ended)
    decreases |steps|
  {
    hide Apply, Enabled, IsLost;
    if steps != [] {
      LostMatchNeverEnds(s, steps[..|steps| - 1], id);
      if Enabled(Run(s, steps[..|steps| - 1]), steps[|steps| - 1]) {
        StepKeepsLost(Run(s, steps[..|steps| - 1]), steps[|steps| - 1], id);
      }
    }
  }

  lemma StepKeepsUnregistered(s: State, step: Step, id: string)
    requires id !in s.world.rows.registrations && Enabled(s, step) && !(step.RegisterServer? && step.id == id)
    ensures id !in Apply(s, step).world.rows.registrations && (id in Apply(s, step).ended <==> id in s.ended)
  {
    hide Admit, Recorded, Stale;
  }

  lemma {:induction false} UnregisteredNeverEnds(s: State, steps: seq<Step>, id: string)
    requires id !in s.world.rows.registrations && NeverRegistered(steps, id)
    ensures id !in Run(s, steps).world.rows.registrations && (id in Run(s, steps).ended <==> id in s.ended)
    decreases |steps|
  {
    hide Apply, Enabled;
    if steps != [] {
      var front, last := steps[..|steps| - 1], steps[|steps| - 1];
      assert last in steps && forall step :: step in front ==> step in steps;
      UnregisteredNeverEnds(s, front, id);
      if Enabled(Run(s, front), last) {
        StepKeepsUnregistered(Run(s, front), last, id);
      }
    }
  }

  // The shortest way to an end: the server registers, and reports one bot.
  function ShortestEnd(id: string): seq<Step> {
    [RegisterServer("", id, Conn("", 0, ""), false, false)]
    + [MatchEnd("", EndArgs(id, "", [Player("", 0, 0, 0)], ""), NO_FAULTS, 0)]
  }

  // And the shortest way to a record: the server registers, the allocator sees it.
  function ShortestRecord(id: string, meta: Meta): seq<Step> {
    [RegisterServer("", id, Conn("", 0, ""), false, false)] + [SeeRegistration(id)] + [WriteRecord(id, meta, true)]
  }

  lemma RecordedMatchEnds(s: State, id: string)
    requires id != "" && id in s.world.rows.metadata
    ensures id in Run(s, ShortestEnd(id)).ended
  {
    hide Run, Admit;
    var steps := ShortestEnd(id);
    var s1 := StepOn(s, steps[0]);
    RunOfTwo(s, steps[0], steps[1]);
    assert id in s1.world.rows.registrations && id in s1.world.rows.metadata;
    BotReportIsDone(s1.world.rows, steps[1].args);
  }

  lemma BotReportIsDone(rows: Rows, args: EndArgs)
    requires args.id != "" && args.winner == "" && args.players == [Player("", 0, 0, 0)]
    requires args.id in rows.registrations && args.id in rows.metadata
    ensures Judge(rows, "", args, NO_FAULTS, 0).reply == Done
  {
    hide Admit;
    BotsAreAdmitted(args, rows.metadata[args.id]);
  }

  lemma BotsAreAdmitted(args: EndArgs, meta: Meta)
    requires args.winner == "" && args.players == [Player("", 0, 0, 0)]
    ensures Admit(args, meta).Some? && Admit(args, meta).value.players == args.players
  {
    assert Restrict(args.players, meta.userIds) == args.players by {
      assert args.players[..0] == [];
    }
  }

  lemma UnrecordedMatchGetsItsRecord(s: State, id: string, meta: Meta)
    requires id != "" && !IsSettled(s, id)
    ensures id in Run(s, ShortestRecord(id, meta)).world.rows.metadata
  {
    var steps := ShortestRecord(id, meta);
    RunOfThree(s, steps[0], steps[1], steps[2]);
    var s1 := StepOn(s, steps[0]);
    assert id in s1.world.rows.registrations && s1.seen == s.seen && s1.allocations == s.allocations;
    var s2 := StepOn(s1, steps[1]);
    assert id in s2.seen && id !in s2.allocations;
  }

  // A match can still end if and only if its record is there or still due, or it has ended.
  lemma CanEndExactlyWhen(s: State, id: string)
    requires id != ""
    ensures CanEnd(s, id) <==> !IsLost(s, id) || id in s.ended
  {
    if id in s.world.rows.metadata {
      RecordedMatchEnds(s, id);
    } else if !IsSettled(s, id) {
      var meta := Meta("", 0, []);
      UnrecordedMatchGetsItsRecord(s, id, meta);
      RecordedMatchEnds(Run(s, ShortestRecord(id, meta)), id);
      RunJoins(s, ShortestRecord(id, meta), ShortestEnd(id));
    } else if id in s.ended {
      assert Run(s, []) == s;
    } else {
      forall steps ensures id !in Run(s, steps).ended {
        LostMatchNeverEnds(s, steps, id);
      }
    }
  }

  // A cancel that is answered, as done or as a no-op, is final, no run of later calls ever
  // ending the match, if and only if the allocator had already set out to write the
  // match's record or given the id up. Until it does, the cancel holds only as long as no
  // server registers under the id again, and just so long further cancels are no-ops.
  lemma CancelIsFinalExactlyWhen(s: State, caller: string, id: string, syntheticReadFails: bool)
    requires Cancel(s.world.rows, caller, id, false, syntheticReadFails).1 in {Done, Nothing} && id !in s.ended
    ensures var after := Apply(s, MatchCancel(caller, id, false, syntheticReadFails));
            && (!CanEnd(after, id) <==> IsSettled(s, id))
            && forall steps :: NeverRegistered(steps, id) ==>
                 && id !in Run(after, steps).ended
                 && forall again :: Cancel(Run(after, steps).world.rows, again, id, false, false).1 == Nothing
  {
    var after := Apply(s, MatchCancel(caller, id, false, syntheticReadFails));
    CanEndExactlyWhen(after, id);
    CancelTouchesOneMatch(s.world.rows, caller, caller, id, syntheticReadFails);
    assert after.ended == s.ended && after.allocations == s.allocations;
    hide Apply, Run;
    assert CanEnd(after, id) <==> !IsSettled(s, id);
    forall steps | NeverRegistered(steps, id)
      ensures id !in Run(after, steps).ended
      ensures forall again :: Cancel(Run(after, steps).world.rows, again, id, false, false).1 == Nothing
    {
      UnregisteredNeverEnds(after, steps, id);
    }
  }

  // What a cancel is answered: a client's is refused for a registered match that is not seen
  // to be synthetic, and without a registration nothing is left to cancel.
  lemma CancelAnswersExactly(rows: Rows, caller: string, id: string, readFails: bool, syntheticReadFails: bool)
    ensures var r := Cancel(rows, caller, id, readFails, syntheticReadFails).1;
            var found := id != "" && !readFails && id in rows.registrations;
            && (r == Refused(3) <==> id == "")
            && (r == StorageFailed <==> id != "" && readFails)
            && (r == Nothing <==> id != "" && !readFails && id !in rows.registrations)
            && (r == Refused(7) <==> found && caller != "" && (syntheticReadFails || id !in rows.synthetic))
            && (r == Done <==> found && (caller == "" || (!syntheticReadFails && id in rows.synthetic)))
  {
  }

  // A cancel clears its own match's rows, the marker unless it could not be read, and no
  // other's; a second one changes nothing more.
  lemma CancelTouchesOneMatch(rows: Rows, caller: string, again: string, id: string, syntheticReadFails: bool)
    requires Cancel(rows, caller, id, false, syntheticReadFails).1 in {Done, Nothing}
    ensures var (after, reply) := Cancel(rows, caller, id, false, syntheticReadFails);
            && id !in after.registrations && id !in after.metadata
            && (!syntheticReadFails || reply == Nothing ==>
                  id !in after.synthetic && Cancel(after, again, id, false, false) == (after, Nothing))
            && (reply == Done && caller != "" ==> id in rows.synthetic)
            && forall other :: other != id ==>
                 && (other in after.registrations <==> other in rows.registrations)
                 && (other in after.metadata <==> other in rows.metadata)
                 && (other in after.synthetic <==> other in rows.synthetic)
  {
    var after := Cancel(rows, caller, id, false, syntheticReadFails).0;
    assert after.metadata - {id} == after.metadata;
    assert id !in after.synthetic ==> after.synthetic - {id} == after.synthetic;
  }

  // A record without a registration is what a cancel leaves that came between the
  // allocator's look at the registration and its write.
  ghost predicate GateKept(s: State) {
    && (forall id :: id in s.allocations ==> id in s.seen)
    && (forall id :: id in s.seen && id !in s.world.rows.registrations && !IsLost(s, id) ==> id in s.cancelled)
  }

  lemma StepKeepsGate(s: State, step: Step)
    requires GateKept(s) && EndedOnce(s) && Enabled(s, step)
    ensures GateKept(Apply(s, step))
  {
    hide Admit, Recorded, IsStale;
  }

  lemma {:induction false} RunKeepsGate(steps: seq<Step>)
    ensures GateKept(Run(START, steps))
  {
    hide GateKept, Apply, Enabled, WritesAllowed, HistoryAllowed;
    if steps == [] {
      assert GateKept(START) by { StartKeepsGate(); }
    } else {
      RunKeepsGate(steps[..|steps| - 1]);
      RunKeepsInv(steps[..|steps| - 1]);
      var before := Run(START, steps[..|steps| - 1]);
      if Enabled(before, steps[|steps| - 1]) {
        StepKeepsGate(before, steps[|steps| - 1]);
      }
    }
  }

  lemma StartKeepsGate()
    ensures GateKept(START)
  {
  }

  // A cancel answered as a no-op, no registration being there, leaves everything in place
  // if and only if the match has neither record nor marker. It takes away an end the
  // match could have had if and only if the match has its record, and then an earlier
  // cancel had taken the registration before the record was written.
  lemma NoOpCancelForfeitsExactlyWhen(s: State, caller: string, id: string, syntheticReadFails: bool)
    requires Reachable(s) && Cancel(s.world.rows, caller, id, false, syntheticReadFails).1 == Nothing
    ensures var s' := Apply(s, MatchCancel(caller, id, false, syntheticReadFails));
            && (s' == s <==> id !in s.world.rows.metadata && id !in s.world.rows.synthetic)
            && (CanEnd(s, id) && !CanEnd(s', id) <==> id in s.world.rows.metadata)
            && (id in s.world.rows.metadata ==> id in s.cancelled)
  {
    var steps :| s == Run(START, steps);
    RunKeepsInv(steps);
    RunKeepsGate(steps);
    var s' := Apply(s, MatchCancel(caller, id, false, syntheticReadFails));
    CanEndExactlyWhen(s, id);
    CanEndExactlyWhen(s', id);
    assert id !in s.world.rows.metadata ==> s.world.rows.metadata - {id} == s.world.rows.metadata;
    assert id !in s.world.rows.synthetic ==> s.world.rows.synthetic - {id} == s.world.rows.synthetic;
    assert forall i :: 0 <= i < |s.ended| ==> s.ended[i] !in s.world.rows.metadata;
  }

  // A client's cancel of a match that is not marked synthetic takes away its end if and
  // only if the match has its record and no registration: only there the check of the
  // marker is passed over.
  lemma ClientCancelForfeitsExactlyWhen(s: State, caller: string, id: string, readFails: bool, syntheticReadFails: bool)
    requires Reachable(s) && caller != "" && id != "" && id !in s.world.rows.synthetic
    ensures var s' := Apply(s, MatchCancel(caller, id, readFails, syntheticReadFails));
            CanEnd(s, id) && !CanEnd(s', id) <==>
            !readFails && id in s.world.rows.metadata && id !in s.world.rows.registrations
  {
    var s' := Apply(s, MatchCancel(caller, id, readFails, syntheticReadFails));
    if !readFails && id !in s.world.rows.registrations {
      NoOpCancelForfeitsExactlyWhen(s, caller, id, syntheticReadFails);
    } else {
      assert s' == s;
    }
  }

  // The cancel comes between the allocator's look at the registration and its write.
  const RACE := [RegisterServer("", "m", Conn("10.0.0.1", 7000, ""), false, false)] + [SeeRegistration("m")]
                + [MatchCancel("", "m", false, false)]
  const RACED_RECORD := WriteRecord("m", Meta("g", 1, ["u"]), true)

  // One such run: the cancel is answered as done, the record is written after it, and the
  // match ends when a server registers again. But any caller's cancel before that, a
  // client's too, is answered as a no-op and loses the match for good.
  lemma CancelRacesTheRecord(caller: string, steps: seq<Step>)
    ensures var cancelled := Run(START, RACE);
            var recorded := Run(START, RACE + [RACED_RECORD]);
            var lost := Apply(recorded, MatchCancel(caller, "m", false, false));
            && cancelled.cancelled == {"m"} && Enabled(cancelled, RACED_RECORD)
            && "m" in Run(recorded, ShortestEnd("m")).ended
            && "m" !in recorded.world.rows.synthetic
            && Cancel(recorded.world.rows, caller, "m", false, false).1 == Nothing
            && "m" !in Run(lost, steps).ended
  {
    var cancelled := Cancelled();
    RunJoins(START, RACE, [RACED_RECORD]);
    RunOfOne(cancelled, RACED_RECORD);
    var recorded := Run(START, RACE + [RACED_RECORD]);
    assert recorded == Apply(cancelled, RACED_RECORD);
    RecordedMatchEnds(recorded, "m");
    var lost := Apply(recorded, MatchCancel(caller, "m", false, false));
    LostMatchNeverEnds(lost, steps, "m");
  }

  lemma Cancelled() returns (s: State)
    ensures s == Run(START, RACE) && s == START.(seen := {"m"}, cancelled := {"m"})
  {
    RunOfThree(START, RACE[0], RACE[1], RACE[2]);
    s := Run(START, RACE);
    var s1 := StepOn(START, RACE[0]);
    assert s1.world.rows.registrations == map["m" := Conn("10.0.0.1", 7000, "")];
    assert s.world.rows.registrations == map[];
  }
}
