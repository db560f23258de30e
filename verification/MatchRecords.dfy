// What a match_end call that gets to recording leaves in the history and on the board,
// in terms of the call's own arguments.
module MatchRecords {
  import opened Basics
  import opened MatchLifecycle

  // The players a call may record: bots, and those the match was made for.
  predicate IsAdmitted(args: EndArgs, meta: Meta, i: nat)
    requires i < |args.players|
  {
    var user := args.players[i].userId;
    user == "" || meta.userIds == [] || user in meta.userIds
  }

  // A named player the call may record, at the last place the call names them.
  ghost predicate IsLastEntry(args: EndArgs, meta: Meta, i: nat)
    requires i < |args.players|
  {
    && IsAdmitted(args, meta, i) && args.players[i].userId != ""
    && forall j :: i < j < |args.players| ==> args.players[j].userId != args.players[i].userId
  }

  // The number as reported, or the bound it is past.
  predicate IsBounded(stored: int, reported: int, max: int) {
    && 0 <= stored <= max
    && (0 <= reported <= max ==> stored == reported)
    && (reported < 0 ==> stored == 0)
    && (reported > max ==> stored == max)
  }

  // The row tells this player's part of the reported match.
  predicate TellsOf(row: HistoryRow, args: EndArgs, p: Player, now: int) {
    && (row.isWinner <==> p.userId == args.winner)
    && IsBounded(row.score, p.score, 100_000)
    && IsBounded(row.kills, p.kills, 1_000)
    && IsBounded(row.bumps, p.bumps, 1_000)
    && row.levelId == args.levelId && row.endedAt == now
  }

  lemma OneMorePlace(front: seq<nat>, n: nat, keep: bool) returns (at: seq<nat>)
    requires forall j, k :: 0 <= j < k < |front| ==> front[j] < front[k]
    requires forall j :: 0 <= j < |front| ==> front[j] < n
    ensures at == if keep then front + [n] else front
    ensures forall j, k :: 0 <= j < k < |at| ==> at[j] < at[k]
    ensures forall i :: i in at <==> i in front || (keep && i == n)
    ensures n !in front
  {
    at := if keep then front + [n] else front;
  }

  // Where the players a filter keeps stood before.
  lemma {:induction false} RestrictAt(players: seq<Player>, matched: seq<string>) returns (at: seq<nat>)
    ensures |at| == |Restrict(players, matched)|
    ensures forall j :: 0 <= j < |at| ==> at[j] < |players| && Restrict(players, matched)[j] == players[at[j]]
    ensures forall j, k :: 0 <= j < k < |at| ==> at[j] < at[k]
    ensures forall i :: 0 <= i < |players| ==> (i in at <==> players[i].userId == "" || players[i].userId in matched)
  {
    at := [];
    if players != [] {
      var n := |players| - 1;
      var front := RestrictAt(players[..n], matched);
      at := OneMorePlace(front, n, IsMatched(players[n], matched));
      var kept, all := Restrict(players[..n], matched), Restrict(players, matched);
      assert all == if IsMatched(players[n], matched) then kept + [players[n]] else kept;
      hide Restrict;
      forall j | 0 <= j < |at| ensures at[j] < |players| && all[j] == players[at[j]] {
        assert j < |front| ==> kept[j] == players[..n][front[j]];
      }
      forall i | 0 <= i < |players| ensures i in at <==> IsMatched(players[i], matched) {
        assert i < n ==> players[..n][i] == players[i];
      }
    }
  }

  // a is what may be recorded of the call, and at says where its players stood in it.
  ghost predicate ComesFrom(a: EndArgs, args: EndArgs, meta: Meta, at: seq<nat>) {
    && |at| == |a.players| && a.id == args.id && a.levelId == args.levelId
    && (forall j :: 0 <= j < |at| ==> at[j] < |args.players| && a.players[j] == Clamped(args.players[at[j]]))
    && (forall j, k :: 0 <= j < k < |at| ==> at[j] < at[k])
    && (forall i :: 0 <= i < |args.players| ==> (i in at <==> IsAdmitted(args, meta, i)))
    && (forall j :: 0 <= j < |at| && args.players[at[j]].userId != "" ==>
          (args.players[at[j]].userId == a.winner <==> args.players[at[j]].userId == args.winner))
  }

  lemma AdmittedAt(args: EndArgs, meta: Meta) returns (at: seq<nat>)
    requires Admit(args, meta).Some?
    ensures ComesFrom(Admit(args, meta).value, args, meta, at)
  {
    hide Restrict, IsMatched;
    if meta.userIds == [] {
      at := seq(|args.players|, i => i);
      forall i | 0 <= i < |args.players| ensures i in at {
        assert at[i] == i;
      }
    } else {
      at := RestrictAt(args.players, meta.userIds);
      var kept := Restrict(args.players, meta.userIds);
      forall j | 0 <= j < |at| && args.players[at[j]].userId == args.winner ensures IncludesUser(kept, args.winner) {
        assert kept[j].userId == args.winner;
      }
    }
  }

  // The rows of a recording hold, for each user, their last entry.
  lemma {:induction false} LastRowStays(args: EndArgs, now: int, n: nat, j: nat)
    requires j < n <= |args.players| && args.players[j].userId != ""
    requires forall k :: j < k < n ==> args.players[k].userId != args.players[j].userId
    ensures var key := (args.players[j].userId, args.id);
            key in HistoryRows(args, now, n) && HistoryRows(args, now, n)[key] == RowOf(args, args.players[j], now)
  {
    if j < n - 1 {
      LastRowStays(args, now, n - 1, j);
    }
  }

  lemma LastEntryHasItsRow(a: EndArgs, args: EndArgs, meta: Meta, at: seq<nat>, i: nat, now: int) returns (j: nat)
    requires ComesFrom(a, args, meta, at) && i < |args.players| && IsLastEntry(args, meta, i)
    ensures var key, rows := (args.players[i].userId, args.id), HistoryRows(a, now, |a.players|);
            key in rows && TellsOf(rows[key], args, args.players[i], now)
    ensures j < |a.players| && a.players[j].userId != ""
  {
    hide IsAdmitted, HistoryRows;
    assert i in at;
    j :| 0 <= j < |at| && at[j] == i;
    forall k | j < k < |a.players| ensures a.players[k].userId != a.players[j].userId {
      assert at[j] < at[k];
    }
    LastRowStays(a, now, |a.players|, j);
  }

  lemma RowHasItsEntry(a: EndArgs, args: EndArgs, meta: Meta, at: seq<nat>, key: (string, string), now: int)
    requires ComesFrom(a, args, meta, at) && key in HistoryRows(a, now, |a.players|)
    ensures IsKeyOf(args, meta, key)
  {
    hide IsAdmitted, HistoryRows;
    RowsAreOfPlayers(a, now, |a.players|);
    var j :| 0 <= j < |a.players| && a.players[j].userId == key.0;
    assert at[j] in at && args.players[at[j]].userId == key.0;
  }

  // The history key of a named player whom the call may record.
  ghost predicate IsKeyOf(args: EndArgs, meta: Meta, key: (string, string)) {
    && key.1 == args.id && key.0 != ""
    && exists i :: 0 <= i < |args.players| && IsAdmitted(args, meta, i) && args.players[i].userId == key.0
  }

  // The call got to recording: it is answered ok, or with the status of a failed write.
  predicate Records(w: World, args: EndArgs, faults: EndFaults, now: int) {
    && End(w, "", args, faults, now).1 in {Done, Refused(14)}
    && (faults.syntheticRead || args.id !in w.rows.synthetic)
  }

  lemma RecordingIs(w: World, args: EndArgs, faults: EndFaults, now: int)
    requires Records(w, args, faults, now)
    ensures args.id in w.rows.metadata && Admit(args, w.rows.metadata[args.id]).Some?
    ensures var meta := w.rows.metadata[args.id];
            var o := Recorded(Admit(args, meta).value, BoardId(meta.gameId, "ffa"), faults, now);
            && End(w, "", args, faults, now).0.writes == w.writes + o.writes
            && End(w, "", args, faults, now).0.history == w.history + o.history
            && End(w, "", args, faults, now).1 == o.reply
  {
    hide Admit, Recorded;
  }

  // After a call that got to recording, its history write not failing: each named player
  // it may record has a row for this match that tells of their last entry, the winner's
  // and nobody else's saying so; and no other key of the history changes.
  lemma HistoryTellsTheMatch(w: World, args: EndArgs, faults: EndFaults, now: int)
    requires Records(w, args, faults, now) && (End(w, "", args, faults, now).1 == Done || !faults.history)
    ensures args.id in w.rows.metadata
    ensures var (after, meta) := (End(w, "", args, faults, now).0.history, w.rows.metadata[args.id]);
            && (forall i :: 0 <= i < |args.players| && IsLastEntry(args, meta, i) ==>
                  var key := (args.players[i].userId, args.id);
                  key in after && TellsOf(after[key], args, args.players[i], now))
            && (forall key :: !IsKeyOf(args, meta, key) ==>
                  (key in after <==> key in w.history) && (key in after ==> after[key] == w.history[key]))
  {
    RecordingIs(w, args, faults, now);
    var meta := w.rows.metadata[args.id];
    var a := Admit(args, meta).value;
    var at := AdmittedAt(args, meta);
    hide Admit, HistoryRows, BoardWrites, SomeWriteFails, End, Judge, IsLastEntry, IsKeyOf, TellsOf, ComesFrom;
    var rows := HistoryRows(a, now, |a.players|);
    forall i | 0 <= i < |args.players| && IsLastEntry(args, meta, i)
      ensures !faults.history
      ensures (args.players[i].userId, args.id) in rows
      ensures TellsOf(rows[(args.players[i].userId, args.id)], args, args.players[i], now)
    {
      var j := LastEntryHasItsRow(a, args, meta, at, i, now);
      NamedNeedsHistory(a, faults, j, BoardId(meta.gameId, "ffa"), now);
    }
    forall key | key in rows ensures IsKeyOf(args, meta, key) {
      RowHasItsEntry(a, args, meta, at, key, now);
    }
  }

  lemma NamedNeedsHistory(a: EndArgs, faults: EndFaults, j: nat, board: string, now: int)
    requires j < |a.players| && a.players[j].userId != ""
    ensures faults.history ==> Recorded(a, board, faults, now).reply == Refused(14)
  {
    hide BoardWrites, HistoryRows;
  }

  // The write gives this player's bounded score to the game's own board, by name.
  predicate ScoresFor(x: BoardWrite, args: EndArgs, meta: Meta, p: Player) {
    && x.requestId == args.id && x.user == p.userId && IsBounded(x.score, p.score, 100_000)
    && x.board == if meta.gameId == "" then "ffa" else meta.gameId + "_ffa"
  }

  // A call answered ok adds one such write for each named player it may record, in the
  // order it names them.
  lemma BoardGetsTheScores(w: World, args: EndArgs, faults: EndFaults, now: int) returns (at: seq<nat>)
    requires Records(w, args, faults, now) && End(w, "", args, faults, now).1 == Done
    ensures args.id in w.rows.metadata
    ensures var (after, meta) := (End(w, "", args, faults, now).0.writes, w.rows.metadata[args.id]);
            && |after| == |w.writes| + |at| && after[..|w.writes|] == w.writes
            && (forall k :: 0 <= k < |at| ==>
                  at[k] < |args.players| && ScoresFor(after[|w.writes| + k], args, meta, args.players[at[k]]))
            && (forall i :: 0 <= i < |args.players| ==>
                  (i in at <==> IsAdmitted(args, meta, i) && args.players[i].userId != ""))
    ensures forall j, k :: 0 <= j < k < |at| ==> at[j] < at[k]
  {
    RecordingIs(w, args, faults, now);
    var meta := w.rows.metadata[args.id];
    var a := Admit(args, meta).value;
    var kept := AdmittedAt(args, meta);
    var board := BoardId(meta.gameId, "ffa");
    NamedDoNotFail(a, faults, board, now);
    hide Admit, HistoryRows, SomeWriteFails, End, Judge, Records, BoardId;
    UnderscoreBoard(meta.gameId);
    at := NamedWritesAt(a, args, meta, kept, board, faults.board);
  }

  lemma NamedWritesAt(a: EndArgs, args: EndArgs, meta: Meta, kept: seq<nat>, board: string, failing: set<nat>)
    returns (at: seq<nat>)
    requires ComesFrom(a, args, meta, kept) && board == if meta.gameId == "" then "ffa" else meta.gameId + "_ffa"
    requires forall i :: 0 <= i < |a.players| && a.players[i].userId != "" ==> i !in failing
    ensures |at| == |BoardWrites(a, board, failing, |a.players|)|
    ensures forall k :: 0 <= k < |at| ==>
              && at[k] < |args.players|
              && ScoresFor(BoardWrites(a, board, failing, |a.players|)[k], args, meta, args.players[at[k]])
    ensures forall i :: 0 <= i < |args.players| ==>
              (i in at <==> IsAdmitted(args, meta, i) && args.players[i].userId != "")
    ensures forall j, k :: 0 <= j < k < |at| ==> at[j] < at[k]
  {
    hide IsAdmitted, BoardWrites, ScoresFor;
    var named := WritesAt(a, board, failing, |a.players|);
    at := seq(|named|, k requires 0 <= k < |named| => kept[named[k]]);
    forall k | 0 <= k < |at|
      ensures ScoresFor(BoardWrites(a, board, failing, |a.players|)[k], args, meta, args.players[at[k]])
    {
      WriteScores(a, args, meta, board, args.players[at[k]], a.players[named[k]]);
    }
    forall i | 0 <= i < |args.players|
      ensures i in at <==> IsAdmitted(args, meta, i) && args.players[i].userId != ""
    {
      InComposed(kept, named, at, i);
      NamedAmongKept(a, args, meta, kept, named, i);
    }
  }

  lemma WriteScores(a: EndArgs, args: EndArgs, meta: Meta, board: string, p: Player, q: Player)
    requires q == Clamped(p) && a.id == args.id && board == if meta.gameId == "" then "ffa" else meta.gameId + "_ffa"
    ensures ScoresFor(BoardWrite(a.id, board, q.userId, q.score), args, meta, p)
  {
  }

  lemma InComposed(kept: seq<nat>, named: seq<nat>, at: seq<nat>, i: nat)
    requires |at| == |named| && forall k :: 0 <= k < |named| ==> named[k] < |kept| && at[k] == kept[named[k]]
    ensures i in at <==> exists j :: j in named && 0 <= j < |kept| && kept[j] == i
  {
    if j :| j in named && 0 <= j < |kept| && kept[j] == i {
      var k :| 0 <= k < |named| && named[k] == j;
      assert at[k] == i;
    }
    if i in at {
      var k :| 0 <= k < |at| && at[k] == i;
      assert named[k] in named;
    }
  }

  lemma NamedAmongKept(a: EndArgs, args: EndArgs, meta: Meta, kept: seq<nat>, named: seq<nat>, i: nat)
    requires ComesFrom(a, args, meta, kept) && i < |args.players|
    requires forall j :: 0 <= j < |a.players| ==> (j in named <==> a.players[j].userId != "")
    requires forall j :: j in named ==> j < |a.players|
    ensures (exists j :: j in named && 0 <= j < |kept| && kept[j] == i) <==>
            IsAdmitted(args, meta, i) && args.players[i].userId != ""
  {
    hide IsAdmitted;
    if i in kept && args.players[i].userId != "" {
      var j :| 0 <= j < |kept| && kept[j] == i;
      assert j in named;
    }
    if j :| j in named && 0 <= j < |kept| && kept[j] == i {
      assert kept[j] in kept && a.players[j].userId == args.players[i].userId;
    }
  }

  lemma UnderscoreBoard(gameId: string)
    ensures BoardId(gameId, "ffa") == if gameId == "" then "ffa" else gameId + "_ffa"
  {
    assert "_" + "ffa" == "_ffa";
    assert gameId + "_" + "ffa" == gameId + ("_" + "ffa");
  }

  lemma NamedDoNotFail(a: EndArgs, faults: EndFaults, board: string, now: int)
    requires Recorded(a, board, faults, now).reply == Done
    ensures forall i :: 0 <= i < |a.players| && a.players[i].userId != "" ==> i !in faults.board
  {
    hide BoardWrites, HistoryRows;
  }

  lemma {:induction false} WritesAt(a: EndArgs, board: string, failing: set<nat>, n: nat) returns (at: seq<nat>)
    requires n <= |a.players|
    ensures |at| == |BoardWrites(a, board, failing, n)|
    ensures forall k :: 0 <= k < |at| ==>
              && at[k] < n
              && BoardWrites(a, board, failing, n)[k] ==
                 BoardWrite(a.id, board, a.players[at[k]].userId, a.players[at[k]].score)
    ensures forall i :: 0 <= i < n ==> (i in at <==> a.players[i].userId != "" && i !in failing)
    ensures forall j, k :: 0 <= j < k < |at| ==> at[j] < at[k]
  {
    at := [];
    if n > 0 {
      at := WritesAt(a, board, failing, n - 1);
      forall i | i in at ensures i < n - 1 {
      }
      if a.players[n - 1].userId != "" && n - 1 !in failing {
        at := at + [n - 1];
      }
    }
  }

  // With no write failing, a report is answered ok if and only if a server makes it for a
  // match that has its registration and its record, both readable, it names some player,
  // its winner, if any, is among them, and it names somebody the match was made for unless
  // it names nobody else.
  lemma ReportIsTakenExactlyWhen(w: World, caller: string, args: EndArgs, faults: EndFaults, now: int)
    requires faults.board == {} && !faults.history
    ensures End(w, caller, args, faults, now).1 == Done <==>
            && caller == "" && args.id != "" && args.players != []
            && !faults.registrationRead && args.id in w.rows.registrations
            && !faults.metadataRead && args.id in w.rows.metadata
            && (args.winner == "" || exists i :: 0 <= i < |args.players| && args.players[i].userId == args.winner)
            && ((forall i :: 0 <= i < |args.players| ==> IsAdmitted(args, w.rows.metadata[args.id], i))
                || exists i :: 0 <= i < |args.players| && IsAdmitted(args, w.rows.metadata[args.id], i)
                               && args.players[i].userId != "")
    ensures End(w, caller, args, faults, now).1 == Refused(7) <==> caller != ""
  {
    hide Recorded, Admit;
    if args.id in w.rows.metadata {
      var meta := w.rows.metadata[args.id];
      AdmittedExactlyWhen(args, meta);
      if Admit(args, meta).Some? {
        HealthyRecordingIsDone(Admit(args, meta).value, BoardId(meta.gameId, "ffa"), faults, now);
      }
    }
  }

  // Which refusal a report meets first, and that one admitted is done or told of a failed
  // write; a report for a match whose synthetic marker is seen writes nothing and is done.
  lemma EndAnswersExactly(w: World, caller: string, args: EndArgs, faults: EndFaults, now: int)
    ensures var r := End(w, caller, args, faults, now).1;
            var asked := caller == "" && args.id != "" && args.players != [];
            var registered := asked && !faults.registrationRead && args.id in w.rows.registrations;
            var known := registered && !faults.metadataRead && args.id in w.rows.metadata;
            && (r == Refused(7) <==> caller != "")
            && (r == StorageFailed <==> asked && faults.registrationRead)
            && (r == Refused(13) <==> registered && faults.metadataRead)
            && (r == Refused(5) <==> asked && !faults.registrationRead
                                     && (args.id !in w.rows.registrations || (!faults.metadataRead && !known)))
            && (r == Refused(3) <==> caller == "" && (!asked || (known && Admit(args, w.rows.metadata[args.id]).None?)))
            && (known && Admit(args, w.rows.metadata[args.id]).Some? ==>
                  && (r == Done || r == Refused(14))
                  && (!faults.syntheticRead && args.id in w.rows.synthetic ==>
                        && r == Done
                        && var after := End(w, caller, args, faults, now).0;
                           after.writes == w.writes && after.history == w.history)
                  && (faults.board == {} && !faults.history ==> r == Done))
  {
    hide Recorded, Admit;
    if args.id in w.rows.metadata && Admit(args, w.rows.metadata[args.id]).Some? {
      var meta := w.rows.metadata[args.id];
      var a, board := Admit(args, meta).value, BoardId(meta.gameId, "ffa");
      RecordingEnds(a, board, faults, now);
    }
  }

  lemma RecordingEnds(a: EndArgs, board: string, faults: EndFaults, now: int)
    ensures var r := Recorded(a, board, faults, now).reply;
            (r == Done || r == Refused(14)) && (faults.board == {} && !faults.history ==> r == Done)
  {
    hide BoardWrites, HistoryRows;
  }

  lemma HealthyRecordingIsDone(a: EndArgs, board: string, faults: EndFaults, now: int)
    requires faults.board == {} && !faults.history
    ensures Recorded(a, board, faults, now).reply == Done
  {
    hide BoardWrites, HistoryRows;
  }

  lemma AdmittedExactlyWhen(args: EndArgs, meta: Meta)
    ensures Admit(args, meta).Some? <==>
            && (args.winner == "" || exists i :: 0 <= i < |args.players| && args.players[i].userId == args.winner)
            && ((forall i :: 0 <= i < |args.players| ==> IsAdmitted(args, meta, i))
                || exists i :: 0 <= i < |args.players| && IsAdmitted(args, meta, i) && args.players[i].userId != "")
  {
    hide Restrict, IsMatched;
    if meta.userIds != [] {
      DroppedExactlyWhen(args, meta);
      ReportedExactlyWhen(args, meta);
    }
  }

  lemma DroppedExactlyWhen(args: EndArgs, meta: Meta)
    requires meta.userIds != []
    ensures |Restrict(args.players, meta.userIds)| == |args.players| <==>
            forall i :: 0 <= i < |args.players| ==> IsAdmitted(args, meta, i)
  {
    if forall i :: 0 <= i < |args.players| ==> IsAdmitted(args, meta, i) {
      forall i | 0 <= i < |args.players|
        ensures args.players[i].userId == "" || args.players[i].userId in meta.userIds
      {
        assert IsAdmitted(args, meta, i);
      }
      AllAreKept(args.players, meta.userIds);
    } else {
      var i :| 0 <= i < |args.players| && !IsAdmitted(args, meta, i);
      SomeoneIsDropped(args.players, meta.userIds, i);
    }
  }

  lemma ReportedExactlyWhen(args: EndArgs, meta: Meta)
    requires meta.userIds != []
    ensures HasReportedUser(Restrict(args.players, meta.userIds)) <==>
            exists i :: 0 <= i < |args.players| && IsAdmitted(args, meta, i) && args.players[i].userId != ""
  {
    var at := RestrictAt(args.players, meta.userIds);
    hide Restrict;
    var kept := Restrict(args.players, meta.userIds);
    if i :| 0 <= i < |args.players| && IsAdmitted(args, meta, i) && args.players[i].userId != "" {
      assert i in at;
      var j :| 0 <= j < |at| && at[j] == i;
      assert kept[j].userId != "";
    }
    if HasReportedUser(kept) {
      var j :| 0 <= j < |kept| && kept[j].userId != "";
      assert at[j] in at && IsAdmitted(args, meta, at[j]);
    }
  }

  lemma SomeoneIsDropped(players: seq<Player>, matched: seq<string>, i: nat)
    requires i < |players| && players[i].userId != "" && players[i].userId !in matched
    ensures |Restrict(players, matched)| < |players|
  {
    RestrictKeepsMatched(players, matched);
    assert players[i] in players && players[i] !in Restrict(players, matched);
  }

  lemma {:induction false} AllAreKept(players: seq<Player>, matched: seq<string>)
    requires forall i :: 0 <= i < |players| ==> players[i].userId == "" || players[i].userId in matched
    ensures Restrict(players, matched) == players
  {
    if players != [] {
      AllAreKept(players[..|players| - 1], matched);
    }
  }
}
