// A match_end call that failed part of the way and is tried again: what the boards and
// the history show, beside what one clean call would have left.
module MatchRetries {
  import opened Basics
  import opened MatchLifecycle

  datatype Operator = Best(descending: bool) | Set | Incr

  function Combine(op: Operator, old_: Option<int>, score: int): int {
    if old_.None? then score
    else
      match op
      case Best(descending) => if descending == (score > old_.value) then score else old_.value
      case Set => score
      case Incr => old_.value + score
  }

  // The user's record on a board after these writes.
  function Score(op: Operator, writes: seq<BoardWrite>, board: string, user: string): Option<int> {
    if writes == [] then None
    else
      var n := |writes| - 1;
      var before := Score(op, writes[..n], board, user);
      if writes[n].board == board && writes[n].user == user then Some(Combine(op, before, writes[n].score)) else before
  }

  predicate Concerns(x: BoardWrite, board: string, user: string) { x.board == board && x.user == user }

  lemma ScoreAppend(op: Operator, a: seq<BoardWrite>, x: BoardWrite, board: string, user: string)
    ensures Score(op, a + [x], board, user) ==
            if Concerns(x, board, user) then Some(Combine(op, Score(op, a, board, user), x.score))
            else Score(op, a, board, user)
  {
    assert (a + [x])[..|a|] == a;
  }

  predicate AtLeastAsGood(descending: bool, a: int, b: int) { if descending then a >= b else a <= b }

  // A best board shows one of its user's scores, and none of them beats it.
  lemma {:induction false} BestIsTheBest(descending: bool, writes: seq<BoardWrite>, board: string, user: string)
    ensures var s := Score(Best(descending), writes, board, user);
            && (s.None? <==> forall x :: x in writes ==> !Concerns(x, board, user))
            && (s.Some? ==>
                  && (exists x :: x in writes && Concerns(x, board, user) && x.score == s.value)
                  && (forall x :: x in writes && Concerns(x, board, user) ==>
                      AtLeastAsGood(descending, s.value, x.score)))
  {
    if writes != [] {
      var n := |writes| - 1;
      BestIsTheBest(descending, writes[..n], board, user);
      assert writes == writes[..n] + [writes[n]];
      assert writes[n] in writes;
      var s, before := Score(Best(descending), writes, board, user), Score(Best(descending), writes[..n], board, user);
      if s.Some? {
        assert exists x :: x in writes && Concerns(x, board, user) && x.score == s.value by {
          if s == before {
            var x :| x in writes[..n] && Concerns(x, board, user) && x.score == s.value;
            assert x in writes;
          }
        }
      }
    }
  }

  lemma {:induction false} SetShowsTheLast(front: seq<BoardWrite>, back: seq<BoardWrite>, board: string, user: string)
    ensures Score(Set, front + back, board, user) ==
            if Score(Set, back, board, user).Some? then Score(Set, back, board, user)
            else Score(Set, front, board, user)
  {
    if back == [] {
      assert front + back == front;
    } else {
      var n := |back| - 1;
      SetShowsTheLast(front, back[..n], board, user);
      assert front + back == (front + back[..n]) + [back[n]];
      ScoreAppend(Set, front + back[..n], back[n], board, user);
    }
  }

  lemma {:induction false} SetIsSilentExactlyWhen(writes: seq<BoardWrite>, board: string, user: string)
    ensures Score(Set, writes, board, user).None? <==> forall x :: x in writes ==> !Concerns(x, board, user)
  {
    if writes != [] {
      var n := |writes| - 1;
      SetIsSilentExactlyWhen(writes[..n], board, user);
      assert writes == writes[..n] + [writes[n]] && writes[n] in writes;
    }
  }

  function Total(writes: seq<BoardWrite>, board: string, user: string): int {
    if writes == [] then 0
    else
      var n := |writes| - 1;
      Total(writes[..n], board, user) + (if Concerns(writes[n], board, user) then writes[n].score else 0)
  }

  lemma {:induction false} IncrAddsUp(writes: seq<BoardWrite>, board: string, user: string)
    ensures Score(Incr, writes, board, user).Some? ==>
              Score(Incr, writes, board, user).value == Total(writes, board, user)
    ensures Score(Incr, writes, board, user).None? ==> Total(writes, board, user) == 0
    ensures Score(Incr, writes, board, user).None? <==> forall x :: x in writes ==> !Concerns(x, board, user)
  {
    if writes != [] {
      var n := |writes| - 1;
      IncrAddsUp(writes[..n], board, user);
      assert writes == writes[..n] + [writes[n]];
    }
  }

  lemma {:induction false} TotalConcat(a: seq<BoardWrite>, b: seq<BoardWrite>, board: string, user: string)
    ensures Total(a + b, board, user) == Total(a, board, user) + Total(b, board, user)
  {
    if b == [] {
      assert a + b == a;
    } else {
      var n := |b| - 1;
      TotalConcat(a, b[..n], board, user);
      assert (a + b)[..|a| + n] == a + b[..n];
    }
  }

  // The writes an attempt got through, of all the writes a clean call makes.
  lemma {:induction false} AttemptIsPart(args: EndArgs, board: string, failing: set<nat>, n: nat)
    requires n <= |args.players|
    ensures forall x :: x in BoardWrites(args, board, failing, n) ==> x in BoardWrites(args, board, {}, n)
  {
    if n > 0 {
      AttemptIsPart(args, board, failing, n - 1);
    }
  }

  lemma {:induction false} SameKeys(args: EndArgs, now: int, now': int, n: nat)
    requires n <= |args.players|
    ensures HistoryRows(args, now, n).Keys == HistoryRows(args, now', n).Keys
  {
    if n > 0 {
      SameKeys(args, now, now', n - 1);
    }
  }

  // The attempt's writes make no difference to what the board shows for this user: a
  // write as good stands beside each of them, or a later one replaces them, or they add
  // nothing to a total that is there anyway.
  ghost predicate ShowsNothing(op: Operator, before: seq<BoardWrite>, attempt: seq<BoardWrite>, after: seq<BoardWrite>,
                               board: string, user: string)
  {
    match op
    case Best(descending) =>
      forall x :: x in attempt && Concerns(x, board, user) ==>
        exists y :: y in before + after && Concerns(y, board, user) && AtLeastAsGood(descending, y.score, x.score)
    case Set =>
      || (exists y :: y in after && Concerns(y, board, user))
      || (forall x :: x in attempt ==> !Concerns(x, board, user))
      || Score(Set, attempt, board, user) == Score(Set, before, board, user)
    case Incr =>
      && Total(attempt, board, user) == 0
      && ((exists y :: y in before + after && Concerns(y, board, user))
          || forall x :: x in attempt ==> !Concerns(x, board, user))
  }

  lemma AttemptShowsExactlyWhen(op: Operator, before: seq<BoardWrite>, attempt: seq<BoardWrite>, after: seq<BoardWrite>,
                                board: string, user: string)
    ensures Score(op, before + attempt + after, board, user) == Score(op, before + after, board, user) <==>
            ShowsNothing(op, before, attempt, after, board, user)
  {
    match op
    case Best(descending) => BestShowsExactlyWhen(descending, before, attempt, after, board, user);
    case Set =>
      SetShowsTheLast(before + attempt, after, board, user);
      SetShowsTheLast(before, after, board, user);
      SetShowsTheLast(before, attempt, board, user);
      SetIsSilentExactlyWhen(after, board, user);
      SetIsSilentExactlyWhen(attempt, board, user);
    case Incr =>
      var long, short := before + attempt + after, before + after;
      IncrAddsUp(long, board, user);
      IncrAddsUp(short, board, user);
      TotalConcat(before + attempt, after, board, user);
      TotalConcat(before, attempt, board, user);
      TotalConcat(before, after, board, user);
      assert forall x :: x in long <==> x in short || x in attempt;
  }

  lemma BestShowsExactlyWhen(descending: bool, before: seq<BoardWrite>, attempt: seq<BoardWrite>,
                             after: seq<BoardWrite>,
                             board: string, user: string)
    ensures Score(Best(descending), before + attempt + after, board, user) ==
            Score(Best(descending), before + after, board, user) <==>
            ShowsNothing(Best(descending), before, attempt, after, board, user)
  {
    hide Score;
    var long, short := before + attempt + after, before + after;
    assert forall x :: x in long <==> x in short || x in attempt;
    BestIsTheBest(descending, long, board, user);
    BestIsTheBest(descending, short, board, user);
  }

  // A clean call's own writes outweigh those of its failed attempt, but for a total.
  lemma RepeatsShowNothing(op: Operator, before: seq<BoardWrite>, attempt: seq<BoardWrite>, between: seq<BoardWrite>,
                           clean: seq<BoardWrite>, board: string, user: string)
    requires forall x :: x in attempt ==> x in clean
    ensures var shows := !ShowsNothing(op, before, attempt, between + clean, board, user);
            if op.Incr? then shows <==> Total(attempt, board, user) != 0 else !shows
  {
    assert forall x :: x in attempt ==> x in between + clean && x in before + (between + clean);
  }

  ghost predicate SameButRecords(s: State, t: State) {
    t == s.(world := s.world.(writes := t.world.writes, history := t.world.history))
  }

  // What a step adds depends on the match rows only, never on what was recorded.
  lemma StepIgnoresRecords(s: State, t: State, step: Step)
    requires SameButRecords(s, t) && Enabled(s, step)
    ensures Enabled(t, step)
    ensures var s', t' := Apply(s, step), Apply(t, step);
            && SameButRecords(s', t')
            && exists writes, history ::
                 && Adds(s.world, s'.world, writes, history) && Adds(t.world, t'.world, writes, history)
  {
    hide Judge, Sweep, Register, Cancel, Cleaned;
    var s', t' := Apply(s, step), Apply(t, step);
    if step.MatchEnd? {
      var o := Judge(s.world.rows, step.caller, step.args, step.faults, step.now);
      assert Adds(s.world, s'.world, o.writes, o.history) && Adds(t.world, t'.world, o.writes, o.history);
    } else {
      AddsNothing(s.world, s'.world);
      AddsNothing(t.world, t'.world);
    }
  }

  ghost predicate Adds(w: World, w': World, writes: seq<BoardWrite>, history: map<(string, string), HistoryRow>) {
    w'.writes == w.writes + writes && w'.history == w.history + history
  }

  lemma AddsNothing(w: World, w': World)
    requires w'.writes == w.writes && w'.history == w.history
    ensures Adds(w, w', [], map[])
  {
  }

  lemma {:induction false} RunIgnoresRecords(s: State, t: State, steps: seq<Step>)
    returns (writes: seq<BoardWrite>, history: map<(string, string), HistoryRow>)
    requires SameButRecords(s, t)
    ensures SameButRecords(Run(s, steps), Run(t, steps))
    ensures Adds(s.world, Run(s, steps).world, writes, history)
    ensures Adds(t.world, Run(t, steps).world, writes, history)
  {
    hide Apply;
    if steps == [] {
      AddsNothing(s.world, s.world);
      AddsNothing(t.world, t.world);
      return [], map[];
    }
    var front, last := steps[..|steps| - 1], steps[|steps| - 1];
    writes, history := RunIgnoresRecords(s, t, front);
    var s1, t1 := Run(s, front), Run(t, front);
    if Enabled(s1, last) {
      StepIgnoresRecords(s1, t1, last);
      var more, rows :| Adds(s1.world, Apply(s1, last).world, more, rows)
                        && Adds(t1.world, Apply(t1, last).world, more, rows);
      AddsTwice(s.world, s1.world, Apply(s1, last).world, writes, history, more, rows);
      AddsTwice(t.world, t1.world, Apply(t1, last).world, writes, history, more, rows);
      writes, history := writes + more, history + rows;
    }
  }

  lemma AddsTwice(a: World, b: World, c: World, writes: seq<BoardWrite>, history: map<(string, string), HistoryRow>,
                  writes': seq<BoardWrite>, history': map<(string, string), HistoryRow>)
    requires Adds(a, b, writes, history) && Adds(b, c, writes', history')
    ensures Adds(a, c, writes + writes', history + history')
  {
    assert (a.writes + writes) + writes' == a.writes + (writes + writes');
    assert (a.history + history) + history' == a.history + (history + history');
  }

  // The same call, tried when some writes failed and tried again later, after any other
  // calls that added between and rows: it ends in the history and the scores of one clean
  // call if and only if the attempt's own records make no difference. Unless the retry
  // finds the synthetic marker they make none, but for a user's running total that the
  // attempt had added to; and it finds one only when the attempt could not read it.
  lemma RetryLeavesOneCleanCall(s: State, caller: string, args: EndArgs, faults: EndFaults, tried: int,
                                others: seq<Step>, now: int, op: Operator, board: string, user: string)
    returns (between: seq<BoardWrite>, rows: map<(string, string), HistoryRow>)
    requires End(s.world, caller, args, faults, tried).1 == Refused(14) && args.id in s.allocations
    requires var failed := s.(world := End(s.world, caller, args, faults, tried).0);
             var later := Run(failed, others);
             && args.id in later.world.rows.metadata && args.id in s.world.rows.metadata
             && later.world.rows.metadata[args.id] == s.world.rows.metadata[args.id]
             && End(later.world, caller, args, NO_FAULTS, now).1.Done?
    ensures Adds(s.world, Run(s, others).world, between, rows)
    ensures var attempt := Judge(s.world.rows, caller, args, faults, tried);
            var failed := s.(world := End(s.world, caller, args, faults, tried).0);
            var retried := End(Run(failed, others).world, caller, args, NO_FAULTS, now).0;
            var once := End(Run(s, others).world, caller, args, NO_FAULTS, now).0;
            var clean := Judge(Run(s, others).world.rows, caller, args, NO_FAULTS, now);
            var marked := args.id in Run(s, others).world.rows.synthetic;
            var sameScore := Score(op, retried.writes, board, user) == Score(op, once.writes, board, user);
            && retried.rows == once.rows
            && (sameScore <==> ShowsNothing(op, s.world.writes, attempt.writes, between + clean.writes, board, user))
            && (retried.history == once.history <==>
                Overwritten(s.world.history, attempt.history, rows + clean.history))
            && (marked ==> faults.syntheticRead && clean.writes == [] && clean.history == map[])
            && (!marked ==> retried.history == once.history)
            && (!marked ==> (sameScore <==> !op.Incr? || Total(attempt.writes, board, user) == 0))
  {
    hide Run, Admit, Score, Total, BoardWrites, HistoryRows, SomeWriteFails, Cleaned, ShowsNothing, Overwritten;
    var failed := s.(world := End(s.world, caller, args, faults, tried).0);
    between, rows := RunIgnoresRecords(s, failed, others);
    var attempt := Judge(s.world.rows, caller, args, faults, tried);
    var later := Run(s, others).world.rows;
    var clean := Judge(later, caller, args, NO_FAULTS, now);
    if args.id !in s.world.rows.synthetic {
      NoNewMarker(s, others, args.id);
    }
    assert s.world.writes + attempt.writes + between + clean.writes ==
           s.world.writes + attempt.writes + (between + clean.writes);
    assert s.world.writes + between + clean.writes == s.world.writes + (between + clean.writes);
    AttemptShowsExactlyWhen(op, s.world.writes, attempt.writes, between + clean.writes, board, user);
    OverwrittenExactlyWhen(s.world.history, attempt.history, rows, clean.history);
    if args.id !in later.synthetic {
      var admitted := Admit(args, s.world.rows.metadata[args.id]).value;
      var at := BoardId(s.world.rows.metadata[args.id].gameId, "ffa");
      assert attempt == Recorded(admitted, at, faults, tried) && clean == Recorded(admitted, at, NO_FAULTS, now);
      AttemptIsPart(admitted, at, faults.board, |admitted.players|);
      SameKeys(admitted, tried, now, |admitted.players|);
      RepeatsShowNothing(op, s.world.writes, attempt.writes, between, clean.writes, board, user);
      assert attempt.history.Keys <= clean.history.Keys;
      AllOverwritten(s.world.history, attempt.history, rows, clean.history);
    }
  }

  // Each of these rows is written over later, or was there already.
  ghost predicate Overwritten<K(!new), V>(before: map<K, V>, attempt: map<K, V>, after: map<K, V>) {
    forall key :: key in attempt ==> key in after || (key in before && before[key] == attempt[key])
  }

  lemma OverwrittenExactlyWhen<K(!new), V>(a: map<K, V>, attempt: map<K, V>, between: map<K, V>, clean: map<K, V>)
    ensures a + attempt + between + clean == a + between + clean <==> Overwritten(a, attempt, between + clean)
  {
    var long, short := a + attempt + between + clean, a + between + clean;
    if long == short {
      forall key | key in attempt ensures key in between + clean || (key in a && a[key] == attempt[key]) {
        assert key in long && key in short && long[key] == short[key];
      }
    }
  }

  lemma AllOverwritten<K(!new), V>(a: map<K, V>, attempt: map<K, V>, between: map<K, V>, clean: map<K, V>)
    requires attempt.Keys <= clean.Keys
    ensures Overwritten(a, attempt, between + clean)
  {
    forall key | key in attempt ensures key in between + clean {
      assert key in clean.Keys;
    }
  }

  // A match is marked, if at all, before its record is written.
  lemma {:induction false} NoNewMarker(s: State, steps: seq<Step>, id: string)
    requires id in s.allocations && id !in s.world.rows.synthetic
    ensures id in Run(s, steps).allocations && id !in Run(s, steps).world.rows.synthetic
    decreases |steps|
  {
    hide Apply;
    if steps != [] {
      NoNewMarker(s, steps[..|steps| - 1], id);
      NoNewMarkerInStep(Run(s, steps[..|steps| - 1]), steps[|steps| - 1], id);
    }
  }

  lemma NoNewMarkerInStep(s: State, step: Step, id: string)
    requires id in s.allocations && id !in s.world.rows.synthetic
    ensures Enabled(s, step) ==> id in Apply(s, step).allocations && id !in Apply(s, step).world.rows.synthetic
  {
    hide Judge, Stale;
  }

  // A match of u and v, opened by the usual steps.
  const OPENED := [RegisterServer("", "m", Conn("10.0.0.1", 7000, ""), false, false)] + [SeeRegistration("m")]
  const PAIR := Meta("", 1, ["u", "v"])
  const RESULT := EndArgs("m", "", [Player("u", 5, 0, 0)] + [Player("v", 1, 0, 0)], "")

  function Opened(marked: bool): seq<Step> {
    OPENED + [if marked then MarkSynthetic("m") else SeeRegistration("m")] + [WriteRecord("m", PAIR, true)]
  }

  // The board refuses v's score; and the marker cannot be read when that is so.
  function OneFails(unread: bool): EndFaults { EndFaults(false, false, unread, {1}, false) }

  lemma OpenedRows(marked: bool)
    ensures Run(START, Opened(marked)).world ==
            World(Rows(map["m" := Conn("10.0.0.1", 7000, "")], map["m" := PAIR],
                  if marked then {"m"} else {}), [], map[])
  {
    var third := if marked then MarkSynthetic("m") else SeeRegistration("m");
    RunOfThree(START, OPENED[0], OPENED[1], third);
    RunOfOne(Run(START, OPENED + [third]), WriteRecord("m", PAIR, true));
    RunJoins(START, OPENED + [third], [WriteRecord("m", PAIR, true)]);
  }

  lemma PairIsAdmitted()
    ensures Admit(RESULT, PAIR) == Some(RESULT)
  {
    var players := RESULT.players;
    assert players[..1] == [players[0]] && players[..1][..0] == [];
    assert Restrict([players[0]], PAIR.userIds) == [] + [players[0]] == [players[0]];
    assert Restrict(players, PAIR.userIds) == [players[0]] + [players[1]] == players;
    assert ClampedAll(players) == players;
  }

  lemma PairWrites(failing: set<nat>)
    requires 0 !in failing
    ensures BoardWrites(RESULT, "ffa", failing, 2) ==
            [BoardWrite("m", "ffa", "u", 5)] + (if 1 in failing then [] else [BoardWrite("m", "ffa", "v", 1)])
  {
    assert BoardWrites(RESULT, "ffa", failing, 1) == [] + [BoardWrite("m", "ffa", "u", 5)];
  }

  // How the report is judged, whole or with v's score refused.
  lemma PairIsJudged(rows: Rows, unread: bool, now: int)
    requires "m" in rows.registrations && "m" in rows.metadata && rows.metadata["m"] == PAIR
    ensures "m" !in rows.synthetic || unread ==>
              var o := Judge(rows, "", RESULT, OneFails(unread), now);
              o.reply == Refused(14) && o.writes == [BoardWrite("m", "ffa", "u", 5)]
    ensures var o := Judge(rows, "", RESULT, NO_FAULTS, now);
            && o.reply == Done
            && o.writes == if "m" in rows.synthetic then []
                           else [BoardWrite("m", "ffa", "u", 5)] + [BoardWrite("m", "ffa", "v", 1)]
  {
    hide Admit, BoardWrites, HistoryRows;
    PairIsAdmitted();
    PairWrites({});
    PairWrites({1});
    assert RESULT.players[1].userId != "";
  }

  // One such run: on a running total, u's five points count twice.
  lemma RetryCountsTwice(tried: int, now: int)
    ensures var w := Run(START, Opened(false)).world;
            var (failed, refused) := End(w, "", RESULT, OneFails(false), tried);
            var (retried, done) := End(failed, "", RESULT, NO_FAULTS, now);
            && refused == Refused(14) && done == Done
            && Score(Incr, retried.writes, "ffa", "u") == Some(10)
            && Score(Incr, End(w, "", RESULT, NO_FAULTS, now).0.writes, "ffa", "u") == Some(5)
  {
    hide Judge, Run, Score, Cleaned;
    OpenedRows(false);
    var w := Run(START, Opened(false)).world;
    PairIsJudged(w.rows, false, tried);
    PairIsJudged(w.rows, false, now);
    var u, v := BoardWrite("m", "ffa", "u", 5), BoardWrite("m", "ffa", "v", 1);
    NothingScored();
    ScoreAppend(Incr, [], u, "ffa", "u");
    ScoreAppend(Incr, [u], u, "ffa", "u");
    ScoreAppend(Incr, [u], v, "ffa", "u");
    ScoreAppend(Incr, [u] + [u], v, "ffa", "u");
    assert [] + [u] == [u] && [u] + ([u] + [v]) == [u] + [u] + [v] && [] + ([u] + [v]) == [u] + [v];
  }

  lemma NothingScored()
    ensures forall op, board, user :: Score(op, [], board, user) == None
  {
  }

  // Another: the first try of a synthetic match's report cannot read the marker and
  // records u's score; the retry reads it, is done, and leaves the score on the board.
  lemma UnreadMarkerLeavesRecords(tried: int, now: int)
    ensures var w := Run(START, Opened(true)).world;
            var (failed, refused) := End(w, "", RESULT, OneFails(true), tried);
            var (retried, done) := End(failed, "", RESULT, NO_FAULTS, now);
            && refused == Refused(14) && done == Done
            && retried.writes == [BoardWrite("m", "ffa", "u", 5)]
            && End(w, "", RESULT, NO_FAULTS, now).0.writes == []
  {
    hide Judge, Run, Cleaned;
    OpenedRows(true);
    var w := Run(START, Opened(true)).world;
    PairIsJudged(w.rows, true, tried);
    PairIsJudged(w.rows, false, now);
    var u := BoardWrite("m", "ffa", "u", 5);
    assert [] + [u] == [u] && [u] + [] == [u];
  }
}
