// Any number of concurrent gets of one board, of which the board's mutex lets one at a
// time past the lock: what they do to the slot is what one get at a time would do.
module BoardCalls {
  import opened Basics
  import opened BoardCache

  // Where a get stands: before the lock, behind it with the clock still to be read,
  // with the clock read, or in its own read of the board.
  datatype Call = Waiting | Locked | Looked(now: int) | InRead(started: int, generation: int, read: nat)

  // Each get knows its own state, the slot and the generation; it sees no other get.
  datatype Room =
    Room(slot: Slot, mutex: Option<nat>, calls: map<nat, Call>, log: seq<Read>, invalidated: nat)

  const EMPTY_ROOM := Room(EMPTY_SLOT, None, map[], [], 0)

  datatype Move =
    | Arrive(c: nat)
    | Acquire(c: nat)
    | Look(c: nat, now: int)
    | LoadAndServe(c: nat)
    | EndRead(c: nat, ok: bool)
    | InvalidateBoards

  // The get returns, and its deferred unlock runs.
  function Return(r: Room, c: nat): Room { r.(mutex := None, calls := r.calls - {c}) }

  function LoadOf(r: Room, c: nat): (Room, Option<Result>)
    requires c in r.calls && r.calls[c].Looked?
  {
    var now, generation := r.calls[c].now, r.invalidated % TWO_64;
    if IsHit(r.slot, generation, now) then (Return(r, c), Some(Served(r.slot.snapshot.value)))
    else if MayRead(r.slot, now) then
      (r.(calls := r.calls[c := InRead(now, generation, |r.log|)], log := r.log + [Read(now, r.invalidated, Pending)]),
       None)
    else (Return(r, c), Some(Fallback(r.slot, now, Backoff)))
  }

  function EndReadOf(r: Room, c: nat, ok: bool): (Room, Result)
    requires c in r.calls && r.calls[c].InRead? && r.calls[c].read < |r.log|
  {
    var (now, read) := (r.calls[c].started, r.calls[c].read);
    var log := r.log[read := r.log[read].(outcome := if ok then Succeeded else Broke)];
    if ok then
      var copy := Snapshot(read, now);
      (Return(r.(slot := Slot(Some(copy), r.calls[c].generation, None), log := log), c), Served(copy))
    else
      var slot := r.slot.(lastFailure := Some(now));
      (Return(r.(slot := slot, log := log), c), Fallback(slot, now, ReadFailed))
  }

  // One move of one get. Only taking the mutex waits for another get.
  function MoveOn(r: Room, m: Move): Room {
    match m
    case Arrive(c) => if c in r.calls then r else r.(calls := r.calls[c := Waiting])
    case Acquire(c) =>
      if c in r.calls && r.calls[c].Waiting? && r.mutex.None? then
        r.(mutex := Some(c), calls := r.calls[c := Locked])
      else r
    case Look(c, now) =>
      if c in r.calls && r.calls[c].Locked? then r.(calls := r.calls[c := Looked(now)]) else r
    case LoadAndServe(c) => if c in r.calls && r.calls[c].Looked? then LoadOf(r, c).0 else r
    case EndRead(c, ok) =>
      if c in r.calls && r.calls[c].InRead? && r.calls[c].read < |r.log| then EndReadOf(r, c, ok).0 else r
    case InvalidateBoards => r.(invalidated := r.invalidated + 1)
  }

  function RoomAfter(moves: seq<Move>): Room {
    if moves == [] then EMPTY_ROOM else MoveOn(RoomAfter(moves[..|moves| - 1]), moves[|moves| - 1])
  }

  // Whoever is past the lock holds the mutex, and a get in its read is the latest to read.
  ghost predicate Exclusive(r: Room) {
    && (r.mutex.Some? ==> r.mutex.value in r.calls && !r.calls[r.mutex.value].Waiting?)
    && (forall c :: c in r.calls && !r.calls[c].Waiting? ==> r.mutex == Some(c))
    && (forall c :: c in r.calls && r.calls[c].InRead? ==> r.calls[c].read == |r.log| - 1)
  }

  // The same board with the mutex's holder as its one get.
  function AsBoard(r: Room): World {
    World(r.slot, if r.mutex.Some? && r.mutex.value in r.calls then PhaseOf(r.calls[r.mutex.value]) else Idle,
          r.log, r.invalidated)
  }

  function PhaseOf(call: Call): Phase {
    match call
    case Waiting => Idle
    case Locked => Idle
    case Looked(now) => Clocked(now)
    case InRead(started, generation, _) => Reading(started, generation)
  }

  // The board's own step that a move amounts to; arriving and locking are none.
  function StepsOf(r: Room, m: Move): seq<Step> {
    match m
    case Arrive(_) => []
    case Acquire(_) => []
    case Look(c, now) => if c in r.calls && r.calls[c].Locked? then [LockAt(now)] else []
    case LoadAndServe(c) => if c in r.calls && r.calls[c].Looked? then [LoadStep] else []
    case EndRead(c, ok) => if c in r.calls && r.calls[c].InRead? then [FinishStep(ok)] else []
    case InvalidateBoards => [InvalidateStep]
  }

  lemma MoveKeepsExclusive(r: Room, m: Move)
    requires Exclusive(r)
    ensures Exclusive(MoveOn(r, m))
  {
  }

  lemma MoveIsStep(r: Room, m: Move)
    requires Exclusive(r)
    ensures var steps := StepsOf(r, m);
            AsBoard(MoveOn(r, m)) == if steps == [] then AsBoard(r) else Apply(AsBoard(r), steps[0])
  {
    match m
    case EndRead(c, ok) =>
      if c in r.calls && r.calls[c].InRead? {
        EndIsFinish(r, c, ok);
      }
    case _ =>
  }

  lemma EndIsFinish(r: Room, c: nat, ok: bool)
    requires Exclusive(r) && c in r.calls && r.calls[c].InRead?
    ensures (AsBoard(EndReadOf(r, c, ok).0), EndReadOf(r, c, ok).1) == Finish(AsBoard(r), ok)
  {
    var last := |r.log| - 1;
    assert r.log[last := r.log[last].(outcome := if ok then Succeeded else Broke)] ==
           Ended(r.log, if ok then Succeeded else Broke);
  }

  // However the gets interleave, the board goes through some run of one get at a time,
  // so everything shown of those runs holds with any number of concurrent gets.
  lemma {:induction false} ConcurrentGetsAreOneAtATime(moves: seq<Move>) returns (steps: seq<Step>)
    ensures Exclusive(RoomAfter(moves)) && Run(steps) == AsBoard(RoomAfter(moves))
  {
    hide MoveOn, AsBoard, Apply, StepsOf;
    if moves == [] {
      assert AsBoard(EMPTY_ROOM) == FRESH_WORLD by { EmptyIsFresh(); }
      return [];
    }
    var front, last := moves[..|moves| - 1], moves[|moves| - 1];
    var before := ConcurrentGetsAreOneAtATime(front);
    var more := StepsOf(RoomAfter(front), last);
    MoveKeepsExclusive(RoomAfter(front), last);
    MoveIsStep(RoomAfter(front), last);
    if more == [] {
      return before;
    }
    steps := before + [more[0]];
    assert steps[..|before|] == before;
  }

  lemma EmptyIsFresh()
    ensures AsBoard(EMPTY_ROOM) == FRESH_WORLD
  {
  }

  // Reads of one board never overlap, whatever gets are in flight: no two of them are
  // in a read at once, and each read is over before the next begins.
  lemma ReadsNeverOverlap(moves: seq<Move>)
    ensures var r := RoomAfter(moves);
            && (forall c, d :: c in r.calls && d in r.calls && r.calls[c].InRead? && r.calls[d].InRead? ==> c == d)
            && (forall i :: 0 <= i < |r.log| - 1 ==> !r.log[i].outcome.Pending?)
            && (forall i :: 0 <= i < |r.log| && r.log[i].outcome.Pending? ==>
                  exists c :: c in r.calls && r.calls[c].InRead? && r.calls[c].read == i)
  {
    var steps := ConcurrentGetsAreOneAtATime(moves);
    var r := RoomAfter(moves);
    RunKeepsInv(steps);
    forall i | 0 <= i < |r.log| - 1 ensures !r.log[i].outcome.Pending? {
      EarlierReadsAreOver(steps, i);
    }
    if r.log != [] && r.log[|r.log| - 1].outcome.Pending? {
      PendingIsInRead(r);
    }
  }

  lemma PendingIsInRead(r: Room)
    requires Exclusive(r) && Inv(AsBoard(r)) && r.log != [] && r.log[|r.log| - 1].outcome.Pending?
    ensures exists c :: c in r.calls && r.calls[c].InRead? && r.calls[c].read == |r.log| - 1
  {
    assert AsBoard(r).phase.Reading?;
  }

  // What any of the concurrent gets serves, without a read and after one, is as fresh
  // as a get of its own would have it.
  lemma ConcurrentGetsServeFresh(moves: seq<Move>, c: nat, ok: bool)
    requires c in RoomAfter(moves).calls
    ensures var r := RoomAfter(moves);
            && (r.calls[c].Looked? && LoadOf(r, c).1.Some? && LoadOf(r, c).1.value.Served? ==>
                  MayServe(LoadOf(r, c).1.value.snapshot, r.log, r.invalidated, r.calls[c].now))
            && (r.calls[c].InRead? ==>
                  && r.calls[c].read < |r.log|
                  && var (after, answer) := EndReadOf(r, c, ok);
                     && (ok ==> answer.Served?)
                     && (answer.Served? ==>
                           MayServe(answer.snapshot, after.log, r.log[r.calls[c].read].counted, r.calls[c].started)))
  {
    hide MayServe, RoomAfter;
    var r := RoomAfter(moves);
    var steps := ConcurrentGetsAreOneAtATime(moves);
    if r.calls[c].Looked? {
      ServedOnLoad(steps);
    }
    if r.calls[c].InRead? {
      ServedOnFinish(steps, ok);
      EndIsFinish(r, c, ok);
    }
  }

  // ----- Every get can be answered -----

  lemma {:induction false} RoomAfterMore(moves: seq<Move>, m: Move)
    ensures RoomAfter(moves + [m]) == MoveOn(RoomAfter(moves), m)
  {
    assert (moves + [m])[..|moves|] == moves;
  }

  // What a get behind the lock does from there on, if its read takes the given outcome.
  function ToTheEnd(c: nat, now: int, ok: bool): seq<Move> { [Look(c, now)] + [LoadAndServe(c)] + [EndRead(c, ok)] }

  lemma FinishesFrom(moves: seq<Move>, c: nat, now: int, ok: bool)
    requires c in RoomAfter(moves).calls && !RoomAfter(moves).calls[c].Waiting?
    ensures var r, after := RoomAfter(moves), RoomAfter(moves + ToTheEnd(c, now, ok));
            after.mutex.None? && after.calls == r.calls - {c}
  {
    var _ := ConcurrentGetsAreOneAtATime(moves);
    var looked := moves + [Look(c, now)];
    RoomAfterMore(moves, Look(c, now));
    RoomAfterMore(looked, LoadAndServe(c));
    RoomAfterMore(looked + [LoadAndServe(c)], EndRead(c, ok));
    assert moves + ToTheEnd(c, now, ok) == looked + [LoadAndServe(c)] + [EndRead(c, ok)];
    hide RoomAfter, IsHit, MayRead, Fallback;
    FinishesInThree(RoomAfter(moves), c, now, ok);
  }

  lemma FinishesInThree(r: Room, c: nat, now: int, ok: bool)
    requires Exclusive(r) && c in r.calls && !r.calls[c].Waiting?
    ensures var after := MoveOn(MoveOn(MoveOn(r, Look(c, now)), LoadAndServe(c)), EndRead(c, ok));
            after.mutex.None? && after.calls == r.calls - {c}
  {
    hide IsHit, MayRead, Fallback;
    var looked := MoveOn(r, Look(c, now));
    assert looked.calls - {c} == r.calls - {c};
    var loaded := MoveOn(looked, LoadAndServe(c));
    assert loaded.calls - {c} == r.calls - {c};
  }

  // No get is ever stuck: from every room, a get that arrives has its answer once the get
  // behind the lock, if there is one, and it itself have taken their own next moves.
  lemma EveryGetCanBeAnswered(moves: seq<Move>, c: nat, now: int, ok: bool) returns (more: seq<Move>)
    ensures c in RoomAfter(moves + [Arrive(c)]).calls
    ensures |more| <= 7 && forall m :: m in more ==> !m.Arrive? && !m.InvalidateBoards?
    ensures var r := RoomAfter(moves + [Arrive(c)] + more); c !in r.calls && r.mutex.None?
  {
    hide RoomAfter, ToTheEnd;
    var arrived := moves + [Arrive(c)];
    RoomAfterMore(moves, Arrive(c));
    var r := RoomAfter(arrived);
    var _ := ConcurrentGetsAreOneAtATime(arrived);
    var waited := [];
    if r.mutex.Some? && r.mutex.value != c {
      FinishesFrom(arrived, r.mutex.value, now, ok);
      waited := ToTheEnd(r.mutex.value, now, ok);
    }
    assert arrived + [] == arrived;
    var free := arrived + waited;
    RoomAfterMore(free, Acquire(c));
    more := waited + [Acquire(c)] + ToTheEnd(c, now, ok);
    FinishesFrom(free + [Acquire(c)], c, now, ok);
    assert arrived + more == free + [Acquire(c)] + ToTheEnd(c, now, ok);
    OwnMoves(c, now, ok);
    if r.mutex.Some? {
      OwnMoves(r.mutex.value, now, ok);
    }
  }

  lemma OwnMoves(c: nat, now: int, ok: bool)
    ensures |ToTheEnd(c, now, ok)| == 3
    ensures forall m :: m in ToTheEnd(c, now, ok) ==> !m.Arrive? && !m.InvalidateBoards?
  {
  }
}
