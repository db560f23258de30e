// The crash-report limiter against a full ledger: what it admits over a run of
// reserves and releases, and what counting every live reservation would admit.
module CrashLedger {
  import opened Basics
  import opened Windows
  import opened CrashLimits

  function Weight(c: Call, session: bool, day: int): nat {
    if IsSession(c.user) == session && DayOf(c.at) == day then 1 else 0
  }

  // Live reservations of one kind on one UTC day.
  function OnDay(live: seq<Call>, session: bool, day: int): nat {
    if live == [] then 0
    else OnDay(live[..|live| - 1], session, day) + Weight(live[|live| - 1], session, day)
  }

  // The decision the full ledger of live reservations calls for.
  function Judge(live: seq<Call>, user: string, now: int): Verdict {
    if !IsSession(user) then
      if OnDay(live, false, DayOf(now)) >= SERVER_DAILY_CAP then ServerFull else Accepted
    else if OnDay(live, true, DayOf(now)) >= GLOBAL_DAILY_CAP then GlobalFull
    else if Count(live, user, now - HOUR, now) >= USER_LIMIT then UserFull
    else Accepted
  }

  // Takes one live reservation back off the ledger.
  function Remove(live: seq<Call>, c: Call): seq<Call> {
    if live == [] then []
    else if live[|live| - 1] == c then live[..|live| - 1]
    else Remove(live[..|live| - 1], c) + [live[|live| - 1]]
  }

  // c is its user's most recent live reservation.
  ghost predicate Newest(live: seq<Call>, c: Call) {
    live != [] && (if live[|live| - 1].user == c.user then live[|live| - 1] == c else Newest(live[..|live| - 1], c))
  }

  ghost predicate WithinCaps(live: seq<Call>, day: int, user: string, start: int) {
    && OnDay(live, true, day) <= 500
    && OnDay(live, false, day) <= 200
    && (IsSession(user) ==> Count(live, user, start, start + 3_600_000_000_000) <= 5)
  }

  // ----- Runs -----

  // The limiter, the reservations it has admitted and not taken back, and the time
  // of the last reserve.
  datatype System = System(limiter: Limiter, live: seq<Call>, clock: int)

  datatype Step = Reserve(user: string, now: int) | Release(reservation: Call)

  function Start(at: int): System { System(FRESH, [], at) }

  // One call of the limiter. It is told only whose reservation comes back.
  function Next(s: System, step: Step): System {
    match step
    case Reserve(user, now) =>
      var (limiter, verdict, _) := ReserveOn(s.limiter, user, now);
      System(limiter, if verdict.Accepted? then s.live + [Call(user, now)] else s.live, now)
    case Release(c) => System(ReleaseOn(s.limiter, c.user), Remove(s.live, c), s.clock)
  }

  // The clock never runs back, and only what was admitted is given back, once.
  predicate Possible(s: System, step: Step) {
    match step
    case Reserve(_, now) => s.clock <= now
    case Release(c) => c in s.live
  }

  // A release that comes before its user's next reservation and before the limiter
  // has moved on to another UTC day.
  ghost predicate InTime(s: System, step: Step) {
    step.Release? ==>
      && (IsSession(step.reservation.user) ==> Newest(s.live, step.reservation))
      && s.limiter.day == Some(DayOf(step.reservation.at))
  }

  function Run(s: System, steps: seq<Step>): System
    decreases |steps|
  {
    if steps == [] then s else Run(Next(s, steps[0]), steps[1..])
  }

  ghost predicate CanRun(s: System, steps: seq<Step>)
    decreases |steps|
  {
    steps == [] || (Possible(s, steps[0]) && CanRun(Next(s, steps[0]), steps[1..]))
  }

  ghost predicate Disciplined(s: System, steps: seq<Step>)
    decreases |steps|
  {
    steps == [] || (Possible(s, steps[0]) && InTime(s, steps[0]) && Disciplined(Next(s, steps[0]), steps[1..]))
  }

  // The run the full ledger would make of the same calls.
  function LedgerRun(live: seq<Call>, steps: seq<Step>): seq<Call>
    decreases |steps|
  {
    if steps == [] then live
    else
      match steps[0]
      case Reserve(user, now) =>
        LedgerRun(if Judge(live, user, now).Accepted? then live + [Call(user, now)] else live, steps[1..])
      case Release(c) => LedgerRun(Remove(live, c), steps[1..])
  }

  // ----- The ledger -----

  lemma {:induction false} RemoveShape(live: seq<Call>, c: Call, latest: int)
    requires InOrder(live, latest)
    ensures var r := Remove(live, c);
            && InOrder(r, latest)
            && |r| == |live| - (if c in live then 1 else 0)
            && forall i :: 0 <= i < |r| ==> r[i] in live
  {
    if live != [] && live[|live| - 1] != c {
      RemoveShape(live[..|live| - 1], c, live[|live| - 1].at);
    }
  }

  lemma {:induction false} RemoveCounts(live: seq<Call>, c: Call, session: bool, day: int)
    ensures OnDay(live, session, day) ==
            OnDay(Remove(live, c), session, day) + (if c in live then Weight(c, session, day) else 0)
  {
    hide Weight;
    if live != [] {
      var front, last := live[..|live| - 1], live[|live| - 1];
      if last != c {
        RemoveCounts(front, c, session, day);
        OnDayAppend(Remove(front, c), last, session, day);
        assert c in live <==> c in front;
      } else {
        assert c in live;
      }
    }
  }

  lemma OnDayAppend(live: seq<Call>, c: Call, session: bool, day: int)
    ensures OnDay(live + [c], session, day) == OnDay(live, session, day) + Weight(c, session, day)
  {
    assert (live + [c])[..|live|] == live;
  }

  lemma CountAppend(live: seq<Call>, c: Call, user: string, lo: int, hi: int)
    ensures Count(live + [c], user, lo, hi) ==
            Count(live, user, lo, hi) + (if c.user == user && lo <= c.at <= hi then 1 else 0)
  {
    assert (live + [c])[..|live|] == live;
  }

  lemma {:induction false} RemoveFromWindow(live: seq<Call>, c: Call, user: string, lo: int, hi: int)
    ensures Count(live, user, lo, hi) ==
            Count(Remove(live, c), user, lo, hi)
            + (if c in live && c.user == user && lo <= c.at <= hi then 1 else 0)
  {
    if live != [] {
      var front, last := live[..|live| - 1], live[|live| - 1];
      if last != c {
        RemoveFromWindow(front, c, user, lo, hi);
        CountAppend(Remove(front, c), last, user, lo, hi);
        assert c in live <==> c in front;
      } else {
        assert c in live;
      }
    }
  }

  // No reservation is dated after the last one's day.
  lemma {:induction false} NothingLater(live: seq<Call>, latest: int, session: bool, day: int)
    requires InOrder(live, latest) && (live == [] || DayOf(latest) < day)
    ensures OnDay(live, session, day) == 0
  {
    if live != [] {
      DaysInOrder(live[|live| - 1].at, latest);
      NothingLater(live[..|live| - 1], latest, session, day);
    }
  }

  lemma {:induction false} StampsOfRemoved(live: seq<Call>, c: Call, user: string)
    requires c in live && (c.user == user ==> Newest(live, c))
    ensures c.user == user ==> Stamps(live, user) != [] && Stamps(live, user)[|Stamps(live, user)| - 1] == c.at
    ensures Stamps(Remove(live, c), user) ==
            if c.user == user then Stamps(live, user)[..|Stamps(live, user)| - 1] else Stamps(live, user)
  {
    var front, last := live[..|live| - 1], live[|live| - 1];
    if last != c {
      assert c in front;
      assert c.user == user ==> Newest(front, c) && last.user != user;
      StampsOfRemoved(front, c, user);
      StampsAppend(Remove(front, c), last, user);
    }
  }

  // The user's most recent live reservation, no older than any of theirs.
  lemma {:induction false} FindNewest(live: seq<Call>, c: Call, latest: int) returns (newest: Call)
    requires c in live && InOrder(live, latest)
    ensures newest in live && newest.user == c.user && Newest(live, newest) && c.at <= newest.at <= latest
    ensures forall i :: 0 <= i < |live| && live[i].user == c.user ==> live[i].at <= newest.at
  {
    var front, last := live[..|live| - 1], live[|live| - 1];
    if last.user == c.user {
      return last;
    }
    newest := FindNewest(front, c, last.at);
  }

  // ----- When the limiter reads what the ledger holds -----

  // Every count a decision can read from here on is the ledger's: the counters of the
  // day, and each session user's stamps of the last hour.
  ghost predicate RecentExact(s: System, user: string) {
    Recent(s.limiter, user, s.clock - HOUR) == Pruned(Stamps(s.live, user), s.clock - HOUR)
  }

  ghost predicate CountersExact(s: System) {
    if s.limiter.day.None? then s.live == [] && s.limiter.totalToday == 0 == s.limiter.serverToday
    else
      && s.limiter.day.value == DayOf(s.clock)
      && s.limiter.totalToday == OnDay(s.live, true, s.limiter.day.value)
      && s.limiter.serverToday == OnDay(s.live, false, s.limiter.day.value)
  }

  // What every possible run keeps, however releases fall.
  ghost predicate Sound(s: System) {
    && InOrder(s.live, s.clock) && Tidy(s.limiter, s.clock)
    && s.limiter.totalToday >= 0 && s.limiter.serverToday >= 0
    && (s.limiter.day.Some? ==> s.limiter.day.value == DayOf(s.clock))
    && (s.limiter.day.None? ==> s.live == [] && s.limiter.totalToday == 0 == s.limiter.serverToday)
  }

  ghost predicate Exact(s: System) {
    Sound(s) && CountersExact(s) && forall u :: IsSession(u) ==> RecentExact(s, u)
  }

  lemma StartIsExact(at: int)
    ensures Exact(Start(at))
  {
  }

  lemma NextIsSound(s: System, step: Step)
    requires Sound(s) && Possible(s, step)
    ensures Sound(Next(s, step))
  {
    hide ReserveOn, ReleaseOn, DayOf, InOrder, Tidy;
    match step
    case Reserve(user, now) =>
      TidyLater(s.limiter, s.clock, now);
      ReserveLeaves(s.limiter, user, now, user);
      AdmitInOrder(s.live, s.clock, Call(user, now));
    case Release(c) =>
      ReleaseLeaves(s.limiter, c.user, c.user, 0, s.clock);
      RemoveShape(s.live, c, s.clock);
  }

  lemma AdmitInOrder(live: seq<Call>, latest: int, c: Call)
    requires InOrder(live, latest) && latest <= c.at
    ensures InOrder(live, c.at) && InOrder(live + [c], c.at)
  {
  }

  lemma {:induction false} RunIsSound(s: System, steps: seq<Step>)
    requires Sound(s) && CanRun(s, steps)
    ensures Sound(Run(s, steps))
    decreases |steps|
  {
    hide Sound, Possible, Next;
    if steps != [] {
      NextIsSound(s, steps[0]);
      RunIsSound(Next(s, steps[0]), steps[1..]);
    }
  }

  // Exact counts decide as the ledger does.
  lemma ExactDecidesAsLedger(s: System, user: string, now: int)
    requires Exact(s) && s.clock <= now
    ensures VerdictOf(s.limiter, user, now) == Judge(s.live, user, now)
  {
    hide Pruned, ReserveOn, Stamps, Count;
    TidyLater(s.limiter, s.clock, now);
    VerdictReads(s.limiter, user, now);
    CountersDecide(s, now);
    if IsSession(user) {
      assert RecentExact(s, user);
      InOrderLater(s.live, s.clock, now);
      CountIsPrunedLength(s.live, user, now - HOUR, now);
      PrunedTwice(KeptOf(s.limiter, user), s.clock - HOUR, now - HOUR);
      PrunedTwice(Stamps(s.live, user), s.clock - HOUR, now - HOUR);
    }
  }

  lemma InOrderLater(live: seq<Call>, latest: int, later: int)
    requires InOrder(live, latest) && latest <= later
    ensures InOrder(live, later)
  {
  }

  lemma CountersDecide(s: System, now: int)
    requires Sound(s) && CountersExact(s) && s.clock <= now
    ensures Total(s.limiter, DayOf(now)) == OnDay(s.live, true, DayOf(now))
    ensures ServerTotal(s.limiter, DayOf(now)) == OnDay(s.live, false, DayOf(now))
  {
    hide OnDay, DayOf;
    DaysInOrder(s.clock, now);
    if s.limiter.day != Some(DayOf(now)) {
      NothingLater(s.live, s.clock, true, DayOf(now));
      NothingLater(s.live, s.clock, false, DayOf(now));
    }
  }

  lemma ReserveKeepsExact(s: System, user: string, now: int)
    requires Exact(s) && s.clock <= now
    ensures Exact(Next(s, Reserve(user, now)))
  {
    hide Pruned, ReserveOn, Stamps, OnDay, DayOf, InOrder;
    var s' := Next(s, Reserve(user, now));
    NextIsSound(s, Reserve(user, now));
    TidyLater(s.limiter, s.clock, now);
    CountersDecide(s, now);
    OnDayAppend(s.live, Call(user, now), true, DayOf(now));
    OnDayAppend(s.live, Call(user, now), false, DayOf(now));
    ReserveLeaves(s.limiter, user, now, user);
    forall u | IsSession(u) ensures RecentExact(s', u) {
      ReserveLeaves(s.limiter, user, now, u);
      assert RecentExact(s, u);
      PrunedTwice(KeptOf(s.limiter, u), s.clock - HOUR, now - HOUR);
      PrunedTwice(Stamps(s.live, u), s.clock - HOUR, now - HOUR);
      StampsAppend(s.live, Call(user, now), u);
      PrunedAppend(Stamps(s.live, u), now, now - HOUR);
      assert Recent(s.limiter, u, now - HOUR) + [] == Recent(s.limiter, u, now - HOUR);
    }
  }

  lemma ReleaseKeepsExact(s: System, c: Call)
    requires Exact(s) && c in s.live && InTime(s, Release(c))
    ensures Exact(Next(s, Release(c)))
  {
    hide Pruned, ReleaseOn, Stamps, OnDay, DayOf, InOrder, Newest, Remove;
    var s' := Next(s, Release(c));
    NextIsSound(s, Release(c));
    RemoveCounts(s.live, c, true, DayOf(s.clock));
    RemoveCounts(s.live, c, false, DayOf(s.clock));
    ReleaseLeaves(s.limiter, c.user, c.user, s.clock - HOUR, s.clock);
    forall u | IsSession(u) ensures RecentExact(s', u) {
      assert RecentExact(s, u);
      ReleaseLeaves(s.limiter, c.user, u, s.clock - HOUR, s.clock);
      StampsOfRemoved(s.live, c, u);
      if u == c.user {
        PrunedPop(Stamps(s.live, u), s.clock - HOUR);
      }
    }
  }

  lemma NextKeepsExact(s: System, step: Step)
    requires Exact(s) && Possible(s, step) && InTime(s, step)
    ensures Exact(Next(s, step))
  {
    match step
    case Reserve(user, now) => ReserveKeepsExact(s, user, now);
    case Release(c) => ReleaseKeepsExact(s, c);
  }

  lemma {:induction false} DisciplineKeepsExact(s: System, steps: seq<Step>)
    requires Exact(s) && Disciplined(s, steps)
    ensures Exact(Run(s, steps))
    decreases |steps|
  {
    hide Exact, Possible, InTime, Next;
    if steps != [] {
      NextKeepsExact(s, steps[0]);
      DisciplineKeepsExact(Next(s, steps[0]), steps[1..]);
    }
  }

  // ----- The main results -----

  // On every run with a forward clock whose releases come in time, each verdict is
  // the one the full ledger gives, and what the limiter has admitted is the ledger.
  lemma LimiterIsTheLedger(at: int, steps: seq<Step>, user: string, now: int)
    requires Disciplined(Start(at), steps) && Run(Start(at), steps).clock <= now
    ensures Run(Start(at), steps).live == LedgerRun([], steps)
    ensures VerdictOf(Run(Start(at), steps).limiter, user, now) == Judge(LedgerRun([], steps), user, now)
  {
    StartIsExact(at);
    DisciplineKeepsExact(Start(at), steps);
    LedgerFollows(Start(at), steps);
    ExactDecidesAsLedger(Run(Start(at), steps), user, now);
  }

  lemma {:induction false} LedgerFollows(s: System, steps: seq<Step>)
    requires Exact(s) && Disciplined(s, steps)
    ensures Run(s, steps).live == LedgerRun(s.live, steps)
    decreases |steps|
  {
    hide Exact, InTime, ReserveOn, ReleaseOn, Judge, Remove;
    if steps != [] {
      NextKeepsExact(s, steps[0]);
      if steps[0].Reserve? {
        ExactDecidesAsLedger(s, steps[0].user, steps[0].now);
      }
      LedgerFollows(Next(s, steps[0]), steps[1..]);
    }
  }

  // Conservation: on every such run the limiter never has more than 500 session
  // reservations admitted and not taken back on a UTC day, 200 server ones, or five
  // of one user in any closed hour.
  lemma {:induction false} CapsHold(s: System, steps: seq<Step>, day: int, user: string, start: int)
    requires Exact(s) && Disciplined(s, steps) && WithinCaps(s.live, day, user, start)
    ensures WithinCaps(Run(s, steps).live, day, user, start)
    decreases |steps|
  {
    hide Exact, InTime, ReserveOn, ReleaseOn, Judge, Remove, WithinCaps;
    if steps != [] {
      NextKeepsExact(s, steps[0]);
      NextKeepsCaps(s, steps[0], day, user, start);
      CapsHold(Next(s, steps[0]), steps[1..], day, user, start);
    }
  }

  lemma NextKeepsCaps(s: System, step: Step, day: int, user: string, start: int)
    requires Exact(s) && Possible(s, step) && WithinCaps(s.live, day, user, start)
    ensures WithinCaps(Next(s, step).live, day, user, start)
  {
    hide ReserveOn, ReleaseOn;
    match step
    case Reserve(u, now) =>
      ExactDecidesAsLedger(s, u, now);
      InOrderLater(s.live, s.clock, now);
      AdmittingKeepsCaps(s.live, u, now, day, user, start);
    case Release(c) =>
      RemoveCounts(s.live, c, true, day);
      RemoveCounts(s.live, c, false, day);
      RemoveFromWindow(s.live, c, user, start, start + HOUR);
  }

  lemma AdmittingKeepsCaps(live: seq<Call>, u: string, now: int, day: int, user: string, start: int)
    requires InOrder(live, now) && WithinCaps(live, day, user, start)
    ensures Judge(live, u, now).Accepted? ==> WithinCaps(live + [Call(u, now)], day, user, start)
  {
    OnDayAppend(live, Call(u, now), true, day);
    OnDayAppend(live, Call(u, now), false, day);
    CountAppend(live, Call(u, now), user, start, start + HOUR);
    if Judge(live, u, now).Accepted? && IsSession(u) && IsSession(user) {
      WindowAfterAccept(live, Call(u, now), user, HOUR, USER_LIMIT, start);
    }
  }

  lemma LimiterKeepsCaps(at: int, steps: seq<Step>, day: int, user: string, start: int)
    requires Disciplined(Start(at), steps)
    ensures WithinCaps(Run(Start(at), steps).live, day, user, start)
  {
    StartIsExact(at);
    CapsHold(Start(at), steps, day, user, start);
  }

  // ----- Naming a full cap -----

  // The days on which a reserve of the run got this verdict.
  function DaysOf(s: System, steps: seq<Step>, verdict: Verdict): set<int>
    decreases |steps|
  {
    if steps == [] then {}
    else
      (if steps[0].Reserve? && VerdictOf(s.limiter, steps[0].user, steps[0].now) == verdict
       then {DayOf(steps[0].now)} else {})
      + DaysOf(Next(s, steps[0]), steps[1..], verdict)
  }

  // The flags know the rejections of the limiter's own day, and none is dated later.
  ghost predicate FlagsKnow(s: System, global: set<int>, server: set<int>) {
    && (forall d :: d in global ==> s.limiter.day.Some? && d <= s.limiter.day.value)
    && (forall d :: d in server ==> s.limiter.day.Some? && d <= s.limiter.day.value)
    && (s.limiter.day.Some? ==>
          && (s.limiter.globalCapHit <==> s.limiter.day.value in global)
          && (s.limiter.serverCapHit <==> s.limiter.day.value in server))
  }

  lemma ReserveFlags(l: Limiter, user: string, now: int)
    ensures var (after, verdict, _) := ReserveOn(l, user, now);
            && after.day == Some(DayOf(now))
            && (after.globalCapHit <==> (l.day == Some(DayOf(now)) && l.globalCapHit) || verdict.GlobalFull?)
            && (after.serverCapHit <==> (l.day == Some(DayOf(now)) && l.serverCapHit) || verdict.ServerFull?)
  {
    hide WindowOn, DayOf;
  }

  lemma NextKeepsFlags(s: System, step: Step, global: set<int>, server: set<int>)
    requires Sound(s) && Possible(s, step) && FlagsKnow(s, global, server)
    ensures FlagsKnow(Next(s, step), global + DaysOf(s, [step], GlobalFull), server + DaysOf(s, [step], ServerFull))
  {
    hide ReserveOn, DayOf;
    assert [step][1..] == [];
    assert DaysOf(Next(s, step), [], GlobalFull) == {} == DaysOf(Next(s, step), [], ServerFull);
    var g, h := DaysOf(s, [step], GlobalFull), DaysOf(s, [step], ServerFull);
    if step.Reserve? {
      var today := DayOf(step.now);
      DaysInOrder(s.clock, step.now);
      ReserveFlags(s.limiter, step.user, step.now);
      assert g == if VerdictOf(s.limiter, step.user, step.now).GlobalFull? then {today} else {};
      assert h == if VerdictOf(s.limiter, step.user, step.now).ServerFull? then {today} else {};
      assert today in global ==> s.limiter.day == Some(today);
      assert today in server ==> s.limiter.day == Some(today);
    } else {
      assert g == {} == h;
    }
  }

  lemma {:induction false} RunKeepsFlags(s: System, steps: seq<Step>, global: set<int>, server: set<int>)
    requires Sound(s) && CanRun(s, steps) && FlagsKnow(s, global, server)
    ensures FlagsKnow(Run(s, steps), global + DaysOf(s, steps, GlobalFull), server + DaysOf(s, steps, ServerFull))
    decreases |steps|
  {
    hide Sound, Possible, FlagsKnow, VerdictOf, DayOf;
    if steps == [] {
      assert global + {} == global && server + {} == server;
    } else {
      var step, rest, next := steps[0], steps[1..], Next(s, steps[0]);
      assert [step][1..] == [];
      NextIsSound(s, step);
      NextKeepsFlags(s, step, global, server);
      var g, h := DaysOf(s, [step], GlobalFull), DaysOf(s, [step], ServerFull);
      RunKeepsFlags(next, rest, global + g, server + h);
      assert (global + g) + DaysOf(next, rest, GlobalFull) == global + DaysOf(s, steps, GlobalFull);
      assert (server + h) + DaysOf(next, rest, ServerFull) == server + DaysOf(s, steps, ServerFull);
    }
  }

  // On every possible run, disciplined or not, a daily cap is named on its first
  // rejection of a UTC day and on no other call.
  lemma CapIsNamedOncePerDay(at: int, steps: seq<Step>, user: string, now: int)
    requires CanRun(Start(at), steps) && Run(Start(at), steps).clock <= now
    ensures var (_, verdict, named) := ReserveOn(Run(Start(at), steps).limiter, user, now);
            && (named == "global" <==> verdict.GlobalFull? && DayOf(now) !in DaysOf(Start(at), steps, GlobalFull))
            && (named == "server" <==> verdict.ServerFull? && DayOf(now) !in DaysOf(Start(at), steps, ServerFull))
  {
    hide WindowOn, DayOf, DaysOf, Run, CanRun;
    var s := Run(Start(at), steps);
    RunIsSound(Start(at), steps);
    RunKeepsFlags(Start(at), steps, {}, {});
    assert {} + DaysOf(Start(at), steps, GlobalFull) == DaysOf(Start(at), steps, GlobalFull);
    assert {} + DaysOf(Start(at), steps, ServerFull) == DaysOf(Start(at), steps, ServerFull);
    DaysInOrder(s.clock, now);
  }
}
