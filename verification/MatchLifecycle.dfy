// A match's life after allocation: register_server, match_end, match_cancel and the
// stale sweep, over storage whose leaderboard and history writes may fail.
module MatchLifecycle {
  import opened Basics

  const MAX_SCORE: int := 100_000
  const MAX_KILLS: int := 1_000
  const MAX_BUMPS: int := 1_000
  const STALE_AFTER: int := 86_400
  const SWEEP_BATCH: nat := 100
  const SWEEP_PAGES: nat := 10

  datatype Player = Player(userId: string, score: int, kills: int, bumps: int)

  // A stored registration; one that no longer decodes counts as absent.
  datatype Conn = Conn(ip: string, port: int, fqdn: string) | Unreadable

  // An allocation record; userIds is empty on records from before it existed.
  datatype Meta = Meta(gameId: string, allocatedAt: int, userIds: seq<string>)

  datatype BoardWrite = BoardWrite(requestId: string, board: string, user: string, score: int)

  datatype HistoryRow = HistoryRow(endedAt: int, isWinner: bool, score: int, kills: int, bumps: int, levelId: string)

  // The rows a match is identified by, and what matches have recorded: the
  // leaderboard writes in order, and one history row per user and match.
  datatype Rows = Rows(registrations: map<string, Conn>, metadata: map<string, Meta>, synthetic: set<string>)

  datatype World = World(rows: Rows, writes: seq<BoardWrite>, history: map<(string, string), HistoryRow>)

  datatype Reply = Done | Repeated | Nothing | Refused(code: int) | StorageFailed

  // ----- register_server -----

  function Register(rows: Rows, caller: string, id: string, conn: Conn, readFails: bool, writeFails: bool)
    : (Rows, Reply)
  {
    if caller != "" then (rows, Refused(7))
    else if id == "" then (rows, Refused(3))
    else if readFails then (rows, StorageFailed)
    else if id in rows.registrations && rows.registrations[id].Conn? then
      (rows, if rows.registrations[id] == conn then Repeated else Refused(6))
    else if writeFails then (rows, StorageFailed)
    else (rows.(registrations := rows.registrations[id := conn]), Done)
  }

  // ----- match_end -----

  function Clamp(v: int, max: int): int { if v < 0 then 0 else if v > max then max else v }

  function Clamped(p: Player): Player {
    p.(score := Clamp(p.score, MAX_SCORE), kills := Clamp(p.kills, MAX_KILLS), bumps := Clamp(p.bumps, MAX_BUMPS))
  }

  function ClampedAll(players: seq<Player>): (r: seq<Player>)
    ensures |r| == |players| && forall i :: 0 <= i < |r| ==> r[i] == Clamped(players[i])
  {
    seq(|players|, i requires 0 <= i < |players| => Clamped(players[i]))
  }

  predicate IsMatched(p: Player, matched: seq<string>) { p.userId == "" || p.userId in matched }

  function Restrict(players: seq<Player>, matched: seq<string>): (kept: seq<Player>)
    ensures |kept| <= |players|
  {
    if players == [] then []
    else
      var n := |players| - 1;
      Restrict(players[..n], matched) + (if IsMatched(players[n], matched) then [players[n]] else [])
  }

  predicate HasReportedUser(players: seq<Player>) {
    exists i :: 0 <= i < |players| && players[i].userId != ""
  }

  predicate IncludesUser(players: seq<Player>, user: string) {
    exists i :: 0 <= i < |players| && players[i].userId == user
  }

  datatype EndArgs = EndArgs(id: string, winner: string, players: seq<Player>, levelId: string)

  // The players a call may record and its winner, or nothing when it is refused.
  function Admit(args: EndArgs, meta: Meta): Option<EndArgs> {
    if args.winner != "" && !IncludesUser(args.players, args.winner) then None
    else
      var kept := if meta.userIds == [] then args.players else Restrict(args.players, meta.userIds);
      if |kept| < |args.players| && !HasReportedUser(kept) then None
      else
        Some(args.(players := ClampedAll(kept),
                   winner := if |kept| < |args.players| && !IncludesUser(kept, args.winner) then "" else args.winner))
  }

  // Which of a call's storage operations fail; board names failing players by index.
  datatype EndFaults =
    EndFaults(registrationRead: bool, metadataRead: bool, syntheticRead: bool, board: set<nat>, history: bool)

  const NO_FAULTS := EndFaults(false, false, false, {}, false)

  function BoardId(gameId: string, board: string): string {
    if gameId == "" then board else gameId + "_" + board
  }

  // The leaderboard writes of the first n players that go through.
  function BoardWrites(args: EndArgs, board: string, failing: set<nat>, n: nat): seq<BoardWrite>
    requires n <= |args.players|
  {
    if n == 0 then []
    else
      var p := args.players[n - 1];
      BoardWrites(args, board, failing, n - 1)
      + (if p.userId == "" || (n - 1) in failing then [] else [BoardWrite(args.id, board, p.userId, p.score)])
  }

  function RowOf(args: EndArgs, p: Player, now: int): HistoryRow {
    HistoryRow(now, p.userId == args.winner, p.score, p.kills, p.bumps, args.levelId)
  }

  function HistoryRows(args: EndArgs, now: int, n: nat): map<(string, string), HistoryRow>
    requires n <= |args.players|
  {
    if n == 0 then map[]
    else
      var p := args.players[n - 1];
      if p.userId == "" then HistoryRows(args, now, n - 1)
      else HistoryRows(args, now, n - 1)[(p.userId, args.id) := RowOf(args, p, now)]
  }

  predicate SomeWriteFails(args: EndArgs, faults: EndFaults) {
    || (exists i :: 0 <= i < |args.players| && args.players[i].userId != "" && i in faults.board)
    || (faults.history && HasReportedUser(args.players))
  }

  // What one match_end call records and whether it cleans up; it depends on the
  // match's rows alone.
  datatype EndOutcome =
    EndOutcome(reply: Reply, writes: seq<BoardWrite>, history: map<(string, string), HistoryRow>)

  function Unrecorded(reply: Reply): EndOutcome { EndOutcome(reply, [], map[]) }

  function Recorded(args: EndArgs, board: string, faults: EndFaults, now: int): EndOutcome {
    EndOutcome(if SomeWriteFails(args, faults) then Refused(14) else Done,
               BoardWrites(args, board, faults.board, |args.players|),
               if faults.history then map[] else HistoryRows(args, now, |args.players|))
  }

  function Judge(rows: Rows, caller: string, args: EndArgs, faults: EndFaults, now: int): EndOutcome {
    if caller != "" then Unrecorded(Refused(7))
    else if args.id == "" || args.players == [] then Unrecorded(Refused(3))
    else if faults.registrationRead then Unrecorded(StorageFailed)
    else if args.id !in rows.registrations then Unrecorded(Refused(5))
    else if faults.metadataRead then Unrecorded(Refused(13))
    else if args.id !in rows.metadata then Unrecorded(Refused(5))
    else
      var meta := rows.metadata[args.id];
      match Admit(args, meta)
      case None => Unrecorded(Refused(3))
      case Some(admitted) =>
        if !faults.syntheticRead && args.id in rows.synthetic then Unrecorded(Done)
        else Recorded(admitted, BoardId(meta.gameId, "ffa"), faults, now)
  }

  // The rows a finished call leaves: its registration and metadata are gone, and
  // the synthetic marker if it was seen.
  function Cleaned(rows: Rows, id: string, synthetic: bool): Rows {
    Rows(rows.registrations - {id}, rows.metadata - {id}, if synthetic then rows.synthetic - {id} else rows.synthetic)
  }

  function End(w: World, caller: string, args: EndArgs, faults: EndFaults, now: int): (World, Reply) {
    var o := Judge(w.rows, caller, args, faults, now);
    var rows := if o.reply.Done? then Cleaned(w.rows, args.id, !faults.syntheticRead) else w.rows;
    (World(rows, w.writes + o.writes, w.history + o.history), o.reply)
  }

  // ----- match_cancel -----

  function Cancel(rows: Rows, caller: string, id: string, readFails: bool, syntheticReadFails: bool): (Rows, Reply) {
    if id == "" then (rows, Refused(3))
    else if readFails then (rows, StorageFailed)
    else if id !in rows.registrations then
      (rows.(metadata := rows.metadata - {id}, synthetic := rows.synthetic - {id}), Nothing)
    else
      var synthetic := !syntheticReadFails && id in rows.synthetic;
      if caller != "" && !synthetic then (rows, Refused(7))
      else (Cleaned(rows, id, synthetic), Done)
  }

  // ----- The stale sweep -----

  predicate IsStale(meta: Meta, now: int) { meta.allocatedAt != 0 && meta.allocatedAt <= now - STALE_AFTER }

  // The ids one sweep removes of the metadata rows listed, given how many of its
  // pages storage serves.
  function Stale(rows: Rows, listing: seq<string>, now: int): set<string> {
    set id | id in listing && id in rows.metadata && IsStale(rows.metadata[id], now)
  }

  function Reach(listing: seq<string>, healthyPages: nat): nat {
    Min(|listing|, Min(healthyPages, SWEEP_PAGES) * SWEEP_BATCH)
  }

  function Drop(rows: Rows, ids: set<string>): Rows {
    Rows(rows.registrations - ids, rows.metadata - ids, rows.synthetic - ids)
  }

  function Sweep(rows: Rows, listing: seq<string>, now: int, healthyPages: nat): Rows {
    Drop(rows, Stale(rows, listing[..Reach(listing, healthyPages)], now))
  }

  // ----- Runs -----

  // The allocator's part comes in three steps: its wait for the server to register ends,
  // it marks a probe's match synthetic, and it writes the allocation record. Before that
  // it may give the id up: the wait runs out, or a cancel of the allocation stops it.
  datatype Step =
    | SeeRegistration(id: string)
    | MarkSynthetic(id: string)
    | WriteRecord(id: string, meta: Meta, written: bool)
    | GiveUp(id: string)
    | RegisterServer(caller: string, id: string, conn: Conn, readFails: bool, writeFails: bool)
    | MatchEnd(caller: string, args: EndArgs, faults: EndFaults, now: int)
    | MatchCancel(caller: string, id: string, readFails: bool, syntheticReadFails: bool)
    | StaleSweep(listing: seq<string>, now: int, healthyPages: nat)

  // A run's state: the world, the ids whose registration the allocator has seen, every
  // record it set out to write, the ids it gave up, those that ended ok, and those some
  // cancel took down.
  datatype State = State(
    world: World,
    seen: set<string>,
    allocations: map<string, Meta>,
    givenUp: set<string>,
    ended: seq<string>,
    cancelled: set<string>)

  const START := State(World(Rows(map[], map[], {}), [], map[]), {}, map[], {}, [], {})

  // The allocator has done with the id: it set out to write its record, or gave it up.
  predicate IsSettled(s: State, id: string) { id in s.allocations || id in s.givenUp }

  // The allocator waits once for each request id, and marks and records a match only
  // when it has seen the registration.
  predicate Enabled(s: State, step: Step) {
    match step
    case SeeRegistration(id) => id in s.world.rows.registrations && id !in s.seen && !IsSettled(s, id)
    case MarkSynthetic(id) => id in s.seen && !IsSettled(s, id)
    case WriteRecord(id, _, _) => id in s.seen && !IsSettled(s, id)
    case GiveUp(id) => !IsSettled(s, id)
    case _ => true
  }

  function Apply(s: State, step: Step): State
    requires Enabled(s, step)
  {
    var rows := s.world.rows;
    match step
    case SeeRegistration(id) => s.(seen := s.seen + {id})
    case MarkSynthetic(id) => s.(world := s.world.(rows := rows.(synthetic := rows.synthetic + {id})))
    case WriteRecord(id, meta, written) =>
      s.(world := s.world.(rows := rows.(metadata := if written then rows.metadata[id := meta] else rows.metadata)),
         allocations := s.allocations[id := meta])
    case GiveUp(id) => s.(givenUp := s.givenUp + {id})
    case RegisterServer(caller, id, conn, readFails, writeFails) =>
      s.(world := s.world.(rows := Register(rows, caller, id, conn, readFails, writeFails).0))
    case MatchEnd(caller, args, faults, now) =>
      var (world, reply) := End(s.world, caller, args, faults, now);
      s.(world := world, ended := if reply.Done? then s.ended + [args.id] else s.ended)
    case MatchCancel(caller, id, readFails, syntheticReadFails) =>
      var (rows', reply) := Cancel(rows, caller, id, readFails, syntheticReadFails);
      s.(world := s.world.(rows := rows'), cancelled := if reply.Done? then s.cancelled + {id} else s.cancelled)
    case StaleSweep(listing, now, healthyPages) =>
      s.(world := s.world.(rows := Sweep(rows, listing, now, healthyPages)))
  }

  function Run(s: State, steps: seq<Step>): State {
    if steps == [] then s
    else
      var before, last := Run(s, steps[..|steps| - 1]), steps[|steps| - 1];
      if Enabled(before, last) then Apply(before, last) else before
  }

  ghost predicate Reachable(s: State) {
    exists steps :: s == Run(START, steps)
  }

  function StepOn(s: State, step: Step): State {
    if Enabled(s, step) then Apply(s, step) else s
  }

  lemma {:induction false} RunJoins(s: State, a: seq<Step>, b: seq<Step>)
    ensures Run(s, a + b) == Run(Run(s, a), b)
    decreases |b|
  {
    hide Apply, Enabled;
    if b == [] {
      assert a + b == a;
    } else {
      RunJoins(s, a, b[..|b| - 1]);
      assert (a + b)[..|a + b| - 1] == a + b[..|b| - 1];
    }
  }

  lemma RunOfOne(s: State, step: Step)
    ensures Run(s, [step]) == StepOn(s, step)
  {
    hide Apply, Enabled;
    assert [step][..0] == [];
  }

  lemma RunOfTwo(s: State, first: Step, second: Step)
    ensures Run(s, [first] + [second]) == StepOn(StepOn(s, first), second)
  {
    RunOfOne(s, first);
    RunOfOne(StepOn(s, first), second);
    RunJoins(s, [first], [second]);
  }

  lemma RunOfThree(s: State, first: Step, second: Step, third: Step)
    ensures Run(s, [first] + [second] + [third]) == StepOn(StepOn(StepOn(s, first), second), third)
  {
    RunOfTwo(s, first, second);
    RunOfOne(Run(s, [first] + [second]), third);
    RunJoins(s, [first] + [second], [third]);
  }

  // ----- What every run keeps -----

  predicate InBounds(score: int) { 0 <= score <= MAX_SCORE }

  predicate MayRecord(allocations: map<string, Meta>, id: string, user: string) {
    user != "" && id in allocations && (allocations[id].userIds != [] ==> user in allocations[id].userIds)
  }

  // Each allocated match is open, with its record, or over; none is both.
  ghost predicate EndedOnce(s: State) {
    && (forall id :: id in s.world.rows.metadata ==>
          id in s.allocations && s.world.rows.metadata[id] == s.allocations[id])
    && (forall i :: 0 <= i < |s.ended| ==> s.ended[i] in s.allocations && s.ended[i] !in s.world.rows.metadata)
    && (forall i, j :: 0 <= i < j < |s.ended| ==> s.ended[i] != s.ended[j])
  }

  ghost predicate WritesAllowed(writes: seq<BoardWrite>, allocations: map<string, Meta>) {
    forall i :: 0 <= i < |writes| ==>
      InBounds(writes[i].score) && MayRecord(allocations, writes[i].requestId, writes[i].user)
  }

  ghost predicate HistoryAllowed(history: map<(string, string), HistoryRow>, allocations: map<string, Meta>) {
    forall key :: key in history ==>
      && InBounds(history[key].score) && MayRecord(allocations, key.1, key.0)
      && 0 <= history[key].kills <= MAX_KILLS && 0 <= history[key].bumps <= MAX_BUMPS
  }

  ghost predicate Inv(s: State) {
    EndedOnce(s) && WritesAllowed(s.world.writes, s.allocations) && HistoryAllowed(s.world.history, s.allocations)
  }

  lemma {:induction false} RestrictKeepsMatched(players: seq<Player>, matched: seq<string>)
    ensures forall p :: p in Restrict(players, matched) <==> p in players && IsMatched(p, matched)
    ensures |Restrict(players, matched)| == |players| ==> Restrict(players, matched) == players
  {
    hide IsMatched;
    if players != [] {
      var n := |players| - 1;
      RestrictKeepsMatched(players[..n], matched);
      assert players == players[..n] + [players[n]];
    }
  }

  // Whoever is admitted was matched, and their numbers are in bounds.
  lemma AdmittedAreMatched(args: EndArgs, meta: Meta, i: nat)
    requires Admit(args, meta).Some? && i < |Admit(args, meta).value.players|
    ensures var p := Admit(args, meta).value.players[i];
            && InBounds(p.score) && 0 <= p.kills <= MAX_KILLS && 0 <= p.bumps <= MAX_BUMPS
            && (p.userId != "" && meta.userIds != [] ==> p.userId in meta.userIds)
  {
    RestrictKeepsMatched(args.players, meta.userIds);
    var kept := if meta.userIds == [] then args.players else Restrict(args.players, meta.userIds);
    assert kept[i] in kept;
  }

  lemma {:induction false} WritesAreOfPlayers(args: EndArgs, board: string, failing: set<nat>, n: nat)
    requires n <= |args.players|
    ensures forall x :: x in BoardWrites(args, board, failing, n) ==>
              x.user != "" && x.requestId == args.id && x.board == board
              && exists i :: 0 <= i < n && args.players[i].userId == x.user && args.players[i].score == x.score
  {
    if n > 0 {
      WritesAreOfPlayers(args, board, failing, n - 1);
    }
  }

  lemma {:induction false} RowsAreOfPlayers(args: EndArgs, now: int, n: nat)
    requires n <= |args.players|
    ensures forall key :: key in HistoryRows(args, now, n) ==>
              key.0 != "" && key.1 == args.id
              && exists i :: 0 <= i < n && args.players[i].userId == key.0
                             && HistoryRows(args, now, n)[key] == RowOf(args, args.players[i], now)
  {
    if n > 0 {
      RowsAreOfPlayers(args, now, n - 1);
    }
  }

  lemma RecordedIsAllowed(args: EndArgs, board: string, faults: EndFaults, now: int, matches: map<string, Meta>)
    requires forall i :: 0 <= i < |args.players| ==>
               var p := args.players[i];
               && InBounds(p.score) && 0 <= p.kills <= MAX_KILLS && 0 <= p.bumps <= MAX_BUMPS
               && (p.userId != "" ==> MayRecord(matches, args.id, p.userId))
    ensures WritesAllowed(Recorded(args, board, faults, now).writes, matches)
    ensures HistoryAllowed(Recorded(args, board, faults, now).history, matches)
  {
    hide BoardWrites, HistoryRows, SomeWriteFails, MayRecord, InBounds;
    WritesAreOfPlayers(args, board, faults.board, |args.players|);
    RowsAreOfPlayers(args, now, |args.players|);
    var writes := Recorded(args, board, faults, now).writes;
    forall i | 0 <= i < |writes|
      ensures InBounds(writes[i].score) && MayRecord(matches, writes[i].requestId, writes[i].user) {
      assert writes[i] in writes;
    }
  }

  lemma EndKeepsWrites(s: State, caller: string, args: EndArgs, faults: EndFaults, now: int)
    requires Inv(s)
    ensures var w := End(s.world, caller, args, faults, now).0;
            WritesAllowed(w.writes, s.allocations) && HistoryAllowed(w.history, s.allocations)
  {
    hide Admit, Recorded, MayRecord, InBounds;
    var rows := s.world.rows;
    if args.id in rows.metadata && Admit(args, rows.metadata[args.id]).Some? {
      var meta := rows.metadata[args.id];
      var admitted := Admit(args, meta).value;
      AdmitKeepsId(args, meta);
      forall i | 0 <= i < |admitted.players|
        ensures var p := admitted.players[i];
                && InBounds(p.score) && 0 <= p.kills <= MAX_KILLS && 0 <= p.bumps <= MAX_BUMPS
                && (p.userId != "" ==> MayRecord(s.allocations, args.id, p.userId))
      {
        AdmittedMayRecord(s.allocations, args, meta, i);
      }
      RecordedIsAllowed(admitted, BoardId(meta.gameId, "ffa"), faults, now, s.allocations);
    }
  }

  lemma AdmittedMayRecord(matches: map<string, Meta>, args: EndArgs, meta: Meta, i: nat)
    requires args.id in matches && matches[args.id] == meta
    requires Admit(args, meta).Some? && i < |Admit(args, meta).value.players|
    ensures var p := Admit(args, meta).value.players[i];
            && InBounds(p.score) && 0 <= p.kills <= MAX_KILLS && 0 <= p.bumps <= MAX_BUMPS
            && (p.userId != "" ==> MayRecord(matches, args.id, p.userId))
  {
    hide Admit;
    AdmittedAreMatched(args, meta, i);
  }

  lemma AdmitKeepsId(args: EndArgs, meta: Meta)
    requires Admit(args, meta).Some?
    ensures Admit(args, meta).value.id == args.id && Admit(args, meta).value.levelId == args.levelId
  {
  }

  lemma StepKeepsInv(s: State, step: Step)
    requires Inv(s) && Enabled(s, step)
    ensures Inv(Apply(s, step))
  {
    hide Judge, Stale;
    match step
    case SeeRegistration(_) =>
    case MarkSynthetic(_) =>
    case WriteRecord(_, _, _) =>
    case GiveUp(_) =>
    case RegisterServer(_, _, _, _, _) =>
    case MatchEnd(caller, args, faults, now) =>
      EndKeepsWrites(s, caller, args, faults, now);
      if Judge(s.world.rows, caller, args, faults, now).reply.Done? {
        DoneNeedsItsRows(s.world.rows, caller, args, faults, now);
      }
    case MatchCancel(_, _, _, _) =>
    case StaleSweep(_, _, _) =>
  }

  lemma DoneNeedsItsRows(rows: Rows, caller: string, args: EndArgs, faults: EndFaults, now: int)
    requires Judge(rows, caller, args, faults, now).reply.Done?
    ensures args.id in rows.registrations && args.id in rows.metadata && caller == ""
  {
  }

  lemma {:induction false} RunKeepsInv(steps: seq<Step>)
    ensures Inv(Run(START, steps))
  {
    hide Inv, Apply;
    if steps == [] {
      StartIsFine();
    } else {
      RunKeepsInv(steps[..|steps| - 1]);
      var before := Run(START, steps[..|steps| - 1]);
      if Enabled(before, steps[|steps| - 1]) {
        StepKeepsInv(before, steps[|steps| - 1]);
      }
    }
  }

  lemma StartIsFine()
    ensures Inv(START)
  {
  }

  // Over any run, whatever fails and however often servers register again, a
  // request id's match_end succeeds at most once, and only if it was allocated.
  lemma MatchEndsAtMostOnce(steps: seq<Step>)
    ensures var s := Run(START, steps);
            && (forall i, j :: 0 <= i < j < |s.ended| ==> s.ended[i] != s.ended[j])
            && (forall i :: 0 <= i < |s.ended| ==> s.ended[i] in s.allocations)
  {
    RunKeepsInv(steps);
  }

  // Over any run only matched users have rows, and every recorded score is in bounds.
  lemma OnlyMatchedUsersAreRecorded(steps: seq<Step>)
    ensures var s := Run(START, steps);
            && WritesAllowed(s.world.writes, s.allocations) && HistoryAllowed(s.world.history, s.allocations)
  {
    RunKeepsInv(steps);
  }

  // ----- Registering, refusing and sweeping -----

  // A registration is taken if and only if a server makes it, names a match, storage works
  // and no readable registration is there; then it is there, and nothing else changes.
  lemma RegistrationIsTakenExactlyWhen(rows: Rows, caller: string, id: string, conn: Conn,
                                       readFails: bool, writeFails: bool)
    ensures var (after, reply) := Register(rows, caller, id, conn, readFails, writeFails);
            && (reply == Done <==>
                  && caller == "" && id != "" && !readFails && !writeFails
                  && !(id in rows.registrations && rows.registrations[id] != Unreadable))
            && (reply == Refused(7) <==> caller != "")
            && (reply == Refused(3) <==> caller == "" && id == "")
            && (reply == StorageFailed <==>
                  && caller == "" && id != ""
                  && (readFails || (writeFails && !(id in rows.registrations && rows.registrations[id] != Unreadable))))
            && (reply == Repeated <==>
                  && caller == "" && id != "" && !readFails
                  && id in rows.registrations && rows.registrations[id] != Unreadable && rows.registrations[id] == conn)
            && (reply == Refused(6) <==>
                  && caller == "" && id != "" && !readFails
                  && id in rows.registrations && rows.registrations[id] != Unreadable && rows.registrations[id] != conn)
            && after == if reply == Done then rows.(registrations := rows.registrations[id := conn]) else rows
  {
  }

  // Once a server has registered, nothing but the end of the match changes its entry.
  lemma RegistrationSticks(rows: Rows, id: string, caller: string, other: string, conn: Conn,
                           readFails: bool, writeFails: bool)
    requires id in rows.registrations && rows.registrations[id].Conn?
    ensures var (after, reply) := Register(rows, caller, other, conn, readFails, writeFails);
            && id in after.registrations && after.registrations[id] == rows.registrations[id]
            && (other == id && caller == "" && id != "" && !readFails ==>
                  after == rows && reply == if conn == rows.registrations[id] then Repeated else Refused(6))
  {
  }

  // A call that names only outsiders changes nothing, so the match can still end.
  lemma OutsidersChangeNothing(w: World, args: EndArgs, faults: EndFaults, now: int)
    requires args.id in w.rows.metadata && w.rows.metadata[args.id].userIds != [] && args.players != []
    requires forall p :: p in args.players ==> p.userId != "" && p.userId !in w.rows.metadata[args.id].userIds
    ensures End(w, "", args, faults, now).0 == w && !End(w, "", args, faults, now).1.Done?
  {
    hide Recorded, Restrict, ClampedAll;
    var meta := w.rows.metadata[args.id];
    var kept := Restrict(args.players, meta.userIds);
    RestrictKeepsMatched(args.players, meta.userIds);
    assert args.players[0] in args.players;
    assert w.writes + [] == w.writes && w.history + map[] == w.history;
  }

  // With storage healthy the sweep removes, of the first thousand records listed,
  // exactly those at least a day old, with all three rows, and no other row.
  lemma SweepIsExact(rows: Rows, listing: seq<string>, now: int, id: string)
    ensures var after := Sweep(rows, listing, now, SWEEP_PAGES);
            var swept := && id in listing[..Min(|listing|, 1000)] && id in rows.metadata
                         && rows.metadata[id].allocatedAt != 0
                         && now - rows.metadata[id].allocatedAt >= 24 * 60 * 60;
            && (id in after.metadata <==> id in rows.metadata && !swept)
            && (id in after.registrations <==> id in rows.registrations && !swept)
            && (id in after.synthetic <==> id in rows.synthetic && !swept)
  {
  }
}
