// The public leaderboard cache: one board's slot under interleaved gets and
// invalidations, and the cache that holds the slots.
module BoardCache {
  import opened Basics

  const SECOND: int := 1_000_000_000
  const TTL: int := 60 * SECOND
  const STALE_TTL: int := 600 * SECOND
  const RETRY_INTERVAL: int := 10 * SECOND
  const TWO_64: int := 0x1_0000_0000_0000_0000

  // A cached copy: which read made it, and when that read's get looked at the clock.
  datatype Snapshot = Snapshot(read: nat, generatedAt: int)

  datatype Slot = Slot(snapshot: Option<Snapshot>, snapshotGeneration: int, lastFailure: Option<int>)

  // How far the get that holds the slot's mutex has come.
  datatype Phase = Idle | Clocked(now: int) | Reading(started: int, generation: int)

  // One read of the board: its time, the invalidations counted when its get loaded
  // the generation, and how it ended.
  datatype Read = Read(at: int, counted: nat, outcome: ReadOutcome)
  datatype ReadOutcome = Pending | Succeeded | Broke

  datatype World = World(slot: Slot, phase: Phase, log: seq<Read>, invalidated: nat)

  datatype Result = Served(snapshot: Snapshot) | Backoff | ReadFailed

  const EMPTY_SLOT := Slot(None, 0, None)
  const FRESH_WORLD := World(EMPTY_SLOT, Idle, [], 0)

  function Generation(w: World): int { w.invalidated % TWO_64 }

  predicate IsHit(slot: Slot, generation: int, now: int) {
    slot.snapshot.Some? && slot.snapshotGeneration == generation && now - slot.snapshot.value.generatedAt < TTL
  }

  predicate MayRead(slot: Slot, now: int) {
    slot.lastFailure.None? || now - slot.lastFailure.value >= RETRY_INTERVAL
  }

  // What a get that cannot read or whose read failed answers.
  function Fallback(slot: Slot, now: int, error: Result): Result {
    if slot.snapshot.Some? && now - slot.snapshot.value.generatedAt < STALE_TTL then Served(slot.snapshot.value)
    else error
  }

  // The get takes the mutex and looks at the clock.
  function Lock(w: World, now: int): World { w.(phase := Clocked(now)) }

  // It loads the generation: a hit, a backoff answer, or the start of a read.
  function Load(w: World): (World, Option<Result>)
    requires w.phase.Clocked?
  {
    var now := w.phase.now;
    if IsHit(w.slot, Generation(w), now) then (w.(phase := Idle), Some(Served(w.slot.snapshot.value)))
    else if MayRead(w.slot, now) then
      (w.(phase := Reading(now, Generation(w)), log := w.log + [Read(now, w.invalidated, Pending)]), None)
    else (w.(phase := Idle), Some(Fallback(w.slot, now, Backoff)))
  }

  function Ended(log: seq<Read>, outcome: ReadOutcome): seq<Read> {
    if log == [] then [] else log[..|log| - 1] + [log[|log| - 1].(outcome := outcome)]
  }

  function Finish(w: World, ok: bool): (World, Result)
    requires w.phase.Reading? && w.log != []
  {
    var now := w.phase.started;
    var log := Ended(w.log, if ok then Succeeded else Broke);
    if ok then
      var copy := Snapshot(|log| - 1, now);
      (World(Slot(Some(copy), w.phase.generation, None), Idle, log, w.invalidated), Served(copy))
    else
      var slot := w.slot.(lastFailure := Some(now));
      (World(slot, Idle, log, w.invalidated), Fallback(slot, now, ReadFailed))
  }

  function Invalidate(w: World): World { w.(invalidated := w.invalidated + 1) }

  // ----- What every reachable state keeps -----

  // The slot remembers the last finished read: it holds its copy if it succeeded,
  // its time if it failed.
  ghost predicate SlotMatches(slot: Slot, log: seq<Read>) {
    && (forall i :: 0 <= i < |log| ==> !log[i].outcome.Pending?)
    && (slot.snapshot.Some? ==>
          && slot.snapshot.value.read < |log|
          && var r := log[slot.snapshot.value.read];
             r.outcome.Succeeded? && r.at == slot.snapshot.value.generatedAt
             && slot.snapshotGeneration == r.counted % TWO_64)
    && (log == [] ==> slot == EMPTY_SLOT)
    && (log != [] && log[|log| - 1].outcome.Broke? ==> slot.lastFailure == Some(log[|log| - 1].at))
    && (log != [] && log[|log| - 1].outcome.Succeeded? ==>
          slot.lastFailure.None? && slot.snapshot.Some? && slot.snapshot.value.read == |log| - 1)
  }

  // Whatever order the clock runs in, a read is never started without the retry
  // interval, the ttl or an invalidation behind it.
  ghost predicate Spaced(a: Read, b: Read) {
    b.at - a.at >= RETRY_INTERVAL || (a.outcome.Succeeded? && a.counted < b.counted)
  }

  ghost predicate AllSpaced(log: seq<Read>) {
    && (forall i :: 0 <= i < |log| - 1 ==> Spaced(log[i], log[i + 1]))
    && (forall i, j :: 0 <= i <= j < |log| ==> log[i].counted <= log[j].counted)
  }

  function Done(w: World): seq<Read> {
    if w.phase.Reading? && w.log != [] then w.log[..|w.log| - 1] else w.log
  }

  ghost predicate Inv(w: World) {
    && SlotMatches(w.slot, Done(w))
    && AllSpaced(w.log)
    && (w.log != [] ==> w.log[|w.log| - 1].counted <= w.invalidated)
    && (w.phase.Reading? ==>
          && w.log != []
          && w.log[|w.log| - 1] == Read(w.phase.started, w.log[|w.log| - 1].counted, Pending)
          && w.phase.generation == w.log[|w.log| - 1].counted % TWO_64)
  }

  lemma LoadKeepsInv(w: World)
    requires Inv(w) && w.phase.Clocked?
    ensures Inv(Load(w).0)
  {
    var now, w' := w.phase.now, Load(w).0;
    if w'.phase.Reading? {
      assert Done(w') == w.log;
      if w.log != [] {
        var last := w.log[|w.log| - 1];
        assert !last.outcome.Pending?;
        assert Spaced(last, Read(now, w.invalidated, Pending));
      }
    }
  }

  lemma EndedKeepsSpacing(log: seq<Read>, outcome: ReadOutcome)
    requires AllSpaced(log)
    ensures |Ended(log, outcome)| == |log| && AllSpaced(Ended(log, outcome))
    ensures forall i :: 0 <= i < |log| ==>
              Ended(log, outcome)[i].counted == log[i].counted && Ended(log, outcome)[i].at == log[i].at
    ensures forall i :: 0 <= i < |log| - 1 ==> Ended(log, outcome)[i] == log[i]
  {
    var ended := Ended(log, outcome);
    forall i | 0 <= i < |log| ensures ended[i].counted == log[i].counted && ended[i].at == log[i].at {
    }
    forall i | 0 <= i < |log| - 1 ensures Spaced(ended[i], ended[i + 1]) {
      assert Spaced(log[i], log[i + 1]);
    }
  }

  lemma FinishKeepsInv(w: World, ok: bool)
    requires Inv(w) && w.phase.Reading? && w.log != []
    ensures Inv(Finish(w, ok).0)
  {
    hide AllSpaced, Ended;
    var outcome := if ok then Succeeded else Broke;
    EndedKeepsSpacing(w.log, outcome);
    var ended, last := Ended(w.log, outcome), |w.log| - 1;
    assert ended[last] == w.log[last].(outcome := outcome) by {
      EndedLast(w.log, outcome);
    }
    forall i | 0 <= i < last ensures ended[i] == Done(w)[i] {
    }
    assert SlotMatches(Finish(w, ok).0.slot, ended);
  }

  lemma EndedLast(log: seq<Read>, outcome: ReadOutcome)
    requires log != []
    ensures |Ended(log, outcome)| == |log| && Ended(log, outcome)[|log| - 1] == log[|log| - 1].(outcome := outcome)
  {
  }

  datatype Step = LockAt(now: int) | LoadStep | FinishStep(ok: bool) | InvalidateStep

  // One step; a step the mutex or the get's own order forbids does not happen.
  function Apply(w: World, s: Step): World {
    match s
    case LockAt(now) => if w.phase.Idle? then Lock(w, now) else w
    case LoadStep => if w.phase.Clocked? then Load(w).0 else w
    case FinishStep(ok) => if w.phase.Reading? && w.log != [] then Finish(w, ok).0 else w
    case InvalidateStep => Invalidate(w)
  }

  function Run(steps: seq<Step>): World {
    if steps == [] then FRESH_WORLD else Apply(Run(steps[..|steps| - 1]), steps[|steps| - 1])
  }

  lemma {:induction false} RunKeepsInv(steps: seq<Step>)
    ensures Inv(Run(steps))
  {
    if steps != [] {
      RunKeepsInv(steps[..|steps| - 1]);
      var w := Run(steps[..|steps| - 1]);
      match steps[|steps| - 1]
      case LockAt(_) =>
      case LoadStep => if w.phase.Clocked? { LoadKeepsInv(w); }
      case FinishStep(ok) => if w.phase.Reading? { FinishKeepsInv(w, ok); }
      case InvalidateStep =>
    }
  }

  // ----- Freshness -----

  // The copy's own get loaded the generation after all but a full wrap of the
  // invalidations counted here, and the copy is younger than the ttl.
  ghost predicate UpToDate(s: Snapshot, log: seq<Read>, counted: nat, now: int)
    requires s.read < |log|
  {
    && now - s.generatedAt < TTL
    && (log[s.read].counted >= counted || counted - log[s.read].counted >= TWO_64)
  }

  ghost predicate LatestReadFailed(log: seq<Read>) {
    log != [] && log[|log| - 1].outcome.Broke?
  }

  // What one get may serve, judged by the clock and the invalidations it saw.
  ghost predicate MayServe(s: Snapshot, log: seq<Read>, counted: nat, now: int) {
    && s.read < |log| && log[s.read].outcome.Succeeded? && log[s.read].at == s.generatedAt
    && (UpToDate(s, log, counted, now) || (LatestReadFailed(log) && now - s.generatedAt < STALE_TTL))
  }

  lemma SameGeneration(a: nat, b: nat)
    requires a <= b && a % TWO_64 == b % TWO_64
    ensures a == b || b - a >= TWO_64
  {
  }

  // For every interleaving of gets with each other and with invalidations: what a
  // get serves was read after every invalidation counted when it loaded the
  // generation and is younger than the ttl, unless the latest read failed, and then
  // it is younger than the stale ttl.
  lemma ServedOnLoad(steps: seq<Step>)
    requires Run(steps).phase.Clocked?
    ensures var w := Run(steps);
            var answer := Load(w).1;
            answer.Some? && answer.value.Served? ==>
              MayServe(answer.value.snapshot, w.log, w.invalidated, w.phase.now)
  {
    RunKeepsInv(steps);
    var w := Run(steps);
    if IsHit(w.slot, Generation(w), w.phase.now) {
      var read := w.slot.snapshot.value.read;
      assert w.log[read].counted <= w.log[|w.log| - 1].counted;
      SameGeneration(w.log[read].counted, w.invalidated);
    }
  }

  lemma ServedOnFinish(steps: seq<Step>, ok: bool)
    requires Run(steps).phase.Reading? && Run(steps).log != []
    ensures var w := Run(steps);
            var (after, answer) := Finish(w, ok);
            var counted := w.log[|w.log| - 1].counted;
            && (ok ==> answer.Served?)
            && (answer.Served? ==> MayServe(answer.snapshot, after.log, counted, w.phase.started))
  {
    RunKeepsInv(steps);
    var w := Run(steps);
    FinishKeepsInv(w, ok);
  }

  // ----- How often the board is read -----

  // When a read starts, every earlier one is over.
  lemma EarlierReadsAreOver(steps: seq<Step>, i: nat)
    requires i < |Run(steps).log| - 1
    ensures !Run(steps).log[i].outcome.Pending?
  {
    RunKeepsInv(steps);
    var w := Run(steps);
    assert i < |Done(w)| && Done(w)[i] == w.log[i];
  }

  // After a failed read the full retry interval passes before the next, however
  // many invalidations come in between.
  lemma BackoffIsNeverCutShort(steps: seq<Step>, i: nat)
    requires i < |Run(steps).log| - 1 && Run(steps).log[i].outcome.Broke?
    ensures Run(steps).log[i + 1].at - Run(steps).log[i].at >= RETRY_INTERVAL
  {
    RunKeepsInv(steps);
    var log := Run(steps).log;
    assert Spaced(log[i], log[i + 1]);
  }

  lemma {:induction false} SpacedReadsAreFew(log: seq<Read>, i: nat, j: nat)
    requires AllSpaced(log) && i <= j < |log|
    requires forall k :: 0 <= k < |log| - 1 ==> log[k].at <= log[k + 1].at
    ensures log[i].at <= log[j].at
    ensures j - i <= (log[j].counted - log[i].counted) + (log[j].at - log[i].at) / RETRY_INTERVAL
    decreases j
  {
    if i < j {
      SpacedReadsAreFew(log, i, j - 1);
      assert Spaced(log[j - 1], log[j]) && log[j - 1].at <= log[j].at;
      assert log[j - 1].counted <= log[j].counted;
      if log[j].at - log[j - 1].at >= RETRY_INTERVAL {
        OneIntervalMore(log[j - 1].at - log[i].at, log[j].at - log[i].at);
      } else {
        Longer(log[j - 1].at - log[i].at, log[j].at - log[i].at);
      }
    }
  }

  lemma OneIntervalMore(a: int, b: int)
    requires b - a >= RETRY_INTERVAL
    ensures a / RETRY_INTERVAL + 1 <= b / RETRY_INTERVAL
  {
  }

  lemma Longer(a: int, b: int)
    requires a <= b
    ensures a / RETRY_INTERVAL <= b / RETRY_INTERVAL
  {
  }

  // On a clock that never runs back, the reads from the i-th to the j-th number at
  // most one, and one per invalidation between them, and one per full retry
  // interval between them.
  lemma ReadsAreBounded(steps: seq<Step>, i: nat, j: nat)
    requires i <= j < |Run(steps).log|
    requires forall k :: 0 <= k < |Run(steps).log| - 1 ==> Run(steps).log[k].at <= Run(steps).log[k + 1].at
    ensures var log := Run(steps).log;
            j - i + 1 <= 1 + (log[j].counted - log[i].counted) + (log[j].at - log[i].at) / RETRY_INTERVAL
  {
    RunKeepsInv(steps);
    SpacedReadsAreFew(Run(steps).log, i, j);
  }

  // ----- The cache -----

  class PublicLeaderboardCache {
    var generation: int
    var entries: map<string, Slot>
    // The get that holds each board's mutex: what it has on its stack.
    var gets: map<string, Phase>
    ghost var trace: map<string, seq<Read>>
    ghost var invalidated: nat

    // One board's share of the cache.
    ghost function Board(key: string): World
      reads this
    {
      World(if key in entries then entries[key] else EMPTY_SLOT, if key in gets then gets[key] else Idle,
            if key in trace then trace[key] else [], invalidated)
    }

    ghost predicate Valid()
      reads this
    {
      generation == invalidated % TWO_64 && forall key :: Inv(Board(key))
    }

    constructor ()
      ensures Valid() && forall key :: Board(key) == FRESH_WORLD
    {
      generation, entries, gets, trace, invalidated := 0, map[], map[], map[], 0;
    }

    // The first part of a get: the board's mutex and the clock.
    method LockBoard(key: string, now: int)
      requires Valid() && Board(key).phase.Idle?
      modifies this
      ensures Valid() && Board(key) == Apply(old(Board(key)), LockAt(now))
      ensures forall other :: other != key ==> Board(other) == old(Board(other))
    {
      hide Inv;
      ghost var before := Board(key);
      LockKeepsInv(before, now);
      if key !in entries {
        entries := entries[key := EMPTY_SLOT];
      }
      gets := gets[key := Clocked(now)];
      forall other | other != key ensures Board(other) == old(Board(other)) {
      }
      assert Board(key) == Apply(before, LockAt(now));
    }

    // The second: load the generation, and serve or start the read.
    method LoadGeneration(key: string) returns (answer: Option<Result>)
      requires Valid() && Board(key).phase.Clocked?
      modifies this
      ensures Valid() && (Board(key), answer) == Load(old(Board(key)))
      ensures forall other :: other != key ==> Board(other) == old(Board(other))
    {
      hide Inv;
      ghost var before := Board(key);
      LoadKeepsInv(before);
      var entry := if key in entries then entries[key] else EMPTY_SLOT;
      var now := gets[key].now;
      var loaded := generation;
      if entry.snapshot.Some? && entry.snapshotGeneration == loaded
         && now - entry.snapshot.value.generatedAt < TTL {
        answer := Some(Served(entry.snapshot.value));
        gets := gets[key := Idle];
      } else if entry.lastFailure.None? || now - entry.lastFailure.value >= RETRY_INTERVAL {
        answer := None;
        gets := gets[key := Reading(now, loaded)];
        trace := trace[key := before.log + [Read(now, invalidated, Pending)]];
      } else {
        answer := Some(Fallback(entry, now, Backoff));
        gets := gets[key := Idle];
      }
      forall other | other != key ensures Board(other) == old(Board(other)) {
      }
    }

    // The third: the read comes back.
    method FinishRead(key: string, ok: bool, read: nat) returns (answer: Result)
      requires Valid() && Board(key).phase.Reading? && Board(key).log != []
      requires read == |Board(key).log| - 1
      modifies this
      ensures Valid() && (Board(key), answer) == Finish(old(Board(key)), ok)
      ensures forall other :: other != key ==> Board(other) == old(Board(other))
    {
      hide Inv;
      ghost var before := Board(key);
      FinishKeepsInv(before, ok);
      var entry := if key in entries then entries[key] else EMPTY_SLOT;
      var now, loaded := gets[key].started, gets[key].generation;
      if ok {
        var copy := Snapshot(read, now);
        entries := entries[key := Slot(Some(copy), loaded, None)];
        answer := Served(copy);
      } else {
        entry := entry.(lastFailure := Some(now));
        entries := entries[key := entry];
        answer := Fallback(entry, now, ReadFailed);
      }
      gets := gets[key := Idle];
      trace := trace[key := Ended(before.log, if ok then Succeeded else Broke)];
      forall other | other != key ensures Board(other) == old(Board(other)) {
      }
    }

    method InvalidateAll()
      requires Valid()
      modifies this
      ensures Valid() && forall key :: Board(key) == Invalidate(old(Board(key)))
    {
      generation := (generation + 1) % TWO_64;
      invalidated := invalidated + 1;
      forall key ensures Inv(Board(key)) && Board(key) == Invalidate(old(Board(key))) {
        assert old(Inv(Board(key)));
      }
    }
  }

  lemma LockKeepsInv(w: World, now: int)
    requires Inv(w) && w.phase.Idle?
    ensures Inv(Lock(w, now))
  {
  }
}
