// The match lifecycle RPCs and the stale sweep, over storage rows they change.
module MatchServer {
  import opened Basics
  import opened MatchLifecycle

  method ClampPlayerStats(players: array<Player>)
    modifies players
    ensures players[..] == ClampedAll(old(players[..]))
  {
    for i := 0 to players.Length
      invariant forall k :: 0 <= k < i ==> players[k] == Clamped(old(players[k]))
      invariant forall k :: i <= k < players.Length ==> players[k] == old(players[k])
    {
      var p := players[i];
      if p.score < 0 {
        p := p.(score := 0);
      } else if p.score > MAX_SCORE {
        p := p.(score := MAX_SCORE);
      }
      if p.kills < 0 {
        p := p.(kills := 0);
      } else if p.kills > MAX_KILLS {
        p := p.(kills := MAX_KILLS);
      }
      if p.bumps < 0 {
        p := p.(bumps := 0);
      } else if p.bumps > MAX_BUMPS {
        p := p.(bumps := MAX_BUMPS);
      }
      players[i] := p;
    }
  }

  method RestrictToMatchedPlayers(players: seq<Player>, matched: seq<string>)
    returns (kept: seq<Player>, dropped: seq<string>)
    ensures kept == Restrict(players, matched) && |kept| + |dropped| == |players|
    ensures forall u :: u in dropped ==> u != "" && u !in matched
  {
    kept, dropped := [], [];
    for i := 0 to |players|
      invariant kept == Restrict(players[..i], matched) && |kept| + |dropped| == i
      invariant forall u :: u in dropped ==> u != "" && u !in matched
    {
      assert players[..i + 1][..i] == players[..i];
      if players[i].userId == "" || players[i].userId in matched {
        kept := kept + [players[i]];
        continue;
      }
      dropped := dropped + [players[i].userId];
    }
    assert players[..|players|] == players;
  }

  method FindReportedUser(players: seq<Player>) returns (found: bool)
    ensures found == HasReportedUser(players)
  {
    for i := 0 to |players|
      invariant forall k :: 0 <= k < i ==> players[k].userId == ""
    {
      if players[i].userId != "" {
        return true;
      }
    }
    return false;
  }

  method FindUser(players: seq<Player>, user: string) returns (found: bool)
    ensures found == IncludesUser(players, user)
  {
    for i := 0 to |players|
      invariant forall k :: 0 <= k < i ==> players[k].userId != user
    {
      if players[i].userId == user {
        return true;
      }
    }
    return false;
  }

  // Validates the winner, drops the players not matched, and bounds the rest.
  method AdmitPlayers(args: EndArgs, meta: Meta) returns (admitted: Option<EndArgs>)
    ensures admitted == Admit(args, meta)
  {
    var players, winner := args.players, args.winner;
    var named := FindUser(players, winner);
    if winner != "" && !named {
      return None;
    }
    if |meta.userIds| > 0 {
      var kept, dropped := RestrictToMatchedPlayers(players, meta.userIds);
      if |dropped| > 0 {
        var some := FindReportedUser(kept);
        if !some {
          return None;
        }
        players := kept;
        var stays := FindUser(kept, winner);
        if winner != "" && !stays {
          winner := "";
        }
      } else {
        RestrictKeepsMatched(players, meta.userIds);
      }
    }
    var bounded := new Player[|players|](i requires 0 <= i < |players| => players[i]);
    assert bounded[..] == players;
    ClampPlayerStats(bounded);
    return Some(args.(players := bounded[..], winner := winner));
  }

  lemma SweepStep(rows: Rows, front: seq<string>, page: seq<string>, now: int)
    ensures var swept := Drop(rows, Stale(rows, front, now));
            Drop(swept, Stale(swept, page, now)) == Drop(rows, Stale(rows, front + page, now))
  {
    var swept := Drop(rows, Stale(rows, front, now));
    assert Stale(rows, front, now) + Stale(swept, page, now) == Stale(rows, front + page, now);
    var a, b := Stale(rows, front, now), Stale(swept, page, now);
    assert rows.registrations - a - b == rows.registrations - (a + b);
    assert rows.metadata - a - b == rows.metadata - (a + b);
    assert rows.synthetic - a - b == rows.synthetic - (a + b);
  }

  class MatchStore {
    var registrations: map<string, Conn>
    var metadata: map<string, Meta>
    var synthetic: set<string>
    var writes: seq<BoardWrite>
    var history: map<(string, string), HistoryRow>

    ghost function State(): World
      reads this
    {
      World(Rows(registrations, metadata, synthetic), writes, history)
    }

    constructor ()
      ensures State() == World(Rows(map[], map[], {}), [], map[])
    {
      registrations, metadata, synthetic, writes, history := map[], map[], {}, [], map[];
    }

    method RegisterServerRpc(caller: string, id: string, conn: Conn, readFails: bool, writeFails: bool)
      returns (reply: Reply)
      modifies this
      ensures State() == old(State()).(rows := Register(old(State()).rows, caller, id, conn, readFails, writeFails).0)
      ensures reply == Register(old(State()).rows, caller, id, conn, readFails, writeFails).1
    {
      if caller != "" {
        return Refused(7);
      }
      if id == "" {
        return Refused(3);
      }
      if readFails {
        return StorageFailed;
      }
      if id in registrations {
        var prev := registrations[id];
        if prev.Conn? {
          return if prev != conn then Refused(6) else Repeated;
        }
      }
      if writeFails {
        return StorageFailed;
      }
      registrations := registrations[id := conn];
      return Done;
    }

    // One leaderboard write per named player, then their history rows in one batch.
    method RecordResults(args: EndArgs, board: string, faults: EndFaults, now: int) returns (failed: bool)
      modifies this`writes, this`history
      ensures var o := Recorded(args, board, faults, now);
              && writes == old(writes) + o.writes && history == old(history) + o.history
              && (failed <==> !o.reply.Done?)
    {
      failed := false;
      var rows := map[];
      var reported := false;
      for i := 0 to |args.players|
        invariant writes == old(writes) + BoardWrites(args, board, faults.board, i)
        invariant history == old(history)
        invariant rows == HistoryRows(args, now, i)
        invariant failed <==> exists k :: 0 <= k < i && args.players[k].userId != "" && k in faults.board
        invariant reported <==> exists k :: 0 <= k < i && args.players[k].userId != ""
      {
        var p := args.players[i];
        if p.userId == "" {
          continue;
        }
        if i in faults.board {
          failed := true;
        } else {
          writes := writes + [BoardWrite(args.id, board, p.userId, p.score)];
        }
        rows := rows[(p.userId, args.id) :=
          HistoryRow(now, p.userId == args.winner, p.score, p.kills, p.bumps, args.levelId)];
        reported := true;
      }
      if faults.history {
        failed := failed || reported;
        assert history + map[] == history;
      } else {
        history := history + rows;
      }
    }

    method MatchEndRpc(caller: string, args: EndArgs, faults: EndFaults, now: int) returns (reply: Reply)
      modifies this
      ensures (State(), reply) == End(old(State()), caller, args, faults, now)
    {
      hide Admit, Recorded;
      NothingAdded(State());
      if caller != "" {
        return Refused(7);
      }
      if args.id == "" || |args.players| == 0 {
        return Refused(3);
      }
      if faults.registrationRead {
        return StorageFailed;
      }
      if args.id !in registrations {
        return Refused(5);
      }
      if faults.metadataRead {
        return Refused(13);
      }
      if args.id !in metadata {
        return Refused(5);
      }
      var meta := metadata[args.id];
      var admitted := AdmitPlayers(args, meta);
      if admitted.None? {
        return Refused(3);
      }
      var isSynthetic := !faults.syntheticRead && args.id in synthetic;
      if !isSynthetic {
        var failed := RecordResults(admitted.value, BoardId(meta.gameId, "ffa"), faults, now);
        RecordedReply(admitted.value, BoardId(meta.gameId, "ffa"), faults, now);
        if failed {
          return Refused(14);
        }
      }
      registrations, metadata := registrations - {args.id}, metadata - {args.id};
      if isSynthetic {
        synthetic := synthetic - {args.id};
      } else {
        assert !faults.syntheticRead ==> synthetic - {args.id} == synthetic;
      }
      return Done;
    }

    method MatchCancelRpc(caller: string, id: string, readFails: bool, syntheticReadFails: bool) returns (reply: Reply)
      modifies this
      ensures State() == old(State()).(rows := Cancel(old(State()).rows, caller, id, readFails, syntheticReadFails).0)
      ensures reply == Cancel(old(State()).rows, caller, id, readFails, syntheticReadFails).1
    {
      if id == "" {
        return Refused(3);
      }
      if readFails {
        return StorageFailed;
      }
      if id !in registrations {
        metadata, synthetic := metadata - {id}, synthetic - {id};
        return Nothing;
      }
      var isSynthetic := !syntheticReadFails && id in synthetic;
      if caller != "" && !isSynthetic {
        return Refused(7);
      }
      registrations, metadata := registrations - {id}, metadata - {id};
      if isSynthetic {
        synthetic := synthetic - {id};
      }
      return Done;
    }

    // The listing is the metadata collection in storage order; the sweep reads it a
    // page at a time and gives up at the first page storage fails on.
    method SweepStaleMatchRows(listing: seq<string>, now: int, healthyPages: nat)
      modifies this
      ensures State() == old(State()).(rows := Sweep(old(State()).rows, listing, now, healthyPages))
    {
      hide Stale, Drop;
      ghost var rows := State().rows;
      var cutoff := now - STALE_AFTER;
      var page, at := 0, 0;
      NothingStale(rows, now);
      assert listing[..0] == [];
      while page < SWEEP_PAGES
        invariant page <= SWEEP_PAGES && page <= healthyPages && at == page * SWEEP_BATCH <= |listing|
        invariant State().rows == Drop(rows, Stale(rows, listing[..at], now))
        invariant writes == old(writes) && history == old(history)
      {
        if page >= healthyPages {
          assert at == Reach(listing, healthyPages);
          return;
        }
        var next := Min(at + SWEEP_BATCH, |listing|);
        SweepPage(listing[at..next], now, cutoff);
        SweepStep(rows, listing[..at], listing[at..next], now);
        assert listing[..at] + listing[at..next] == listing[..next];
        if next == |listing| {
          assert next == Reach(listing, healthyPages);
          return;
        }
        at, page := next, page + 1;
      }
    }

    method SweepPage(ids: seq<string>, now: int, cutoff: int)
      requires cutoff == now - STALE_AFTER
      modifies this`registrations, this`metadata, this`synthetic
      ensures State().rows == Drop(old(State()).rows, Stale(old(State()).rows, ids, now))
    {
      var deletes := {};
      for i := 0 to |ids|
        invariant deletes == Stale(State().rows, ids[..i], now)
        invariant State() == old(State())
      {
        assert ids[..i + 1] == ids[..i] + [ids[i]];
        if ids[i] !in metadata {
          continue;
        }
        var meta := metadata[ids[i]];
        if meta.allocatedAt == 0 || meta.allocatedAt > cutoff {
          continue;
        }
        deletes := deletes + {ids[i]};
      }
      assert ids[..|ids|] == ids;
      registrations, metadata, synthetic := registrations - deletes, metadata - deletes, synthetic - deletes;
    }
  }

  lemma NothingAdded(w: World)
    ensures w.writes + [] == w.writes && w.history + map[] == w.history
  {
  }

  lemma RecordedReply(args: EndArgs, board: string, faults: EndFaults, now: int)
    ensures Recorded(args, board, faults, now).reply in {Done, Refused(14)}
  {
  }

  lemma NothingStale(rows: Rows, now: int)
    ensures Drop(rows, Stale(rows, [], now)) == rows
  {
    assert Stale(rows, [], now) == {};
  }
}
