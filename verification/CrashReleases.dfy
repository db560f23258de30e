// Which releases of the crash-report limiter are harmless, and what the others let in.
module CrashReleases {
  import opened Basics
  import opened Windows
  import opened CrashLimits
  import opened CrashLedger

  ghost predicate Capped(live: seq<Call>) {
    forall day, user, start :: WithinCaps(live, day, user, start)
  }

  // From here on, in any run whose own releases come in time, every decision is the
  // full ledger's.
  ghost predicate DecidesAsLedger(s: System) {
    forall steps, user, now :: Disciplined(s, steps) && Run(s, steps).clock <= now ==>
      VerdictOf(Run(s, steps).limiter, user, now) == Judge(Run(s, steps).live, user, now)
  }

  // And no cap is ever exceeded.
  ghost predicate StaysWithinCaps(s: System) {
    forall steps :: Disciplined(s, steps) ==> Capped(Run(s, steps).live)
  }

  // The reservation was made on the day the counters count, or there is nothing left
  // to take off them.
  predicate CounterHarmless(s: System, c: Call) {
    || s.limiter.day == Some(DayOf(c.at))
    || (if IsSession(c.user) then s.limiter.totalToday == 0 else s.limiter.serverToday == 0)
  }

  // It is its user's newest, or all of theirs have left the window anyway.
  ghost predicate StampHarmless(s: System, c: Call) {
    || !IsSession(c.user)
    || Newest(s.live, c)
    || forall i :: 0 <= i < |s.live| && s.live[i].user == c.user ==> s.live[i].at < s.clock - HOUR
  }

  ghost predicate Harmless(s: System, c: Call) {
    CounterHarmless(s, c) && StampHarmless(s, c)
  }

  // ----- Harmless releases -----

  lemma {:induction false} StampsBelow(live: seq<Call>, user: string, bound: int)
    requires forall i :: 0 <= i < |live| && live[i].user == user ==> live[i].at < bound
    ensures Pruned(Stamps(live, user), bound) == []
    ensures forall i :: 0 <= i < |Stamps(live, user)| ==> Stamps(live, user)[i] < bound
  {
    if live != [] {
      StampsBelow(live[..|live| - 1], user, bound);
    }
    PrunedFrom(Stamps(live, user), bound, |Stamps(live, user)|);
  }

  lemma HarmlessStamps(s: System, c: Call, u: string)
    requires Exact(s) && c in s.live && StampHarmless(s, c) && IsSession(u)
    ensures RecentExact(Next(s, Release(c)), u)
  {
    hide Pruned, ReleaseOn, Stamps, OnDay, DayOf, Newest, Remove;
    assert RecentExact(s, u);
    var bound := s.clock - HOUR;
    ReleaseLeaves(s.limiter, c.user, u, bound, s.clock);
    if c.user != u || Newest(s.live, c) {
      StampsOfRemoved(s.live, c, u);
      if u == c.user {
        PrunedPop(Stamps(s.live, u), bound);
      }
    } else {
      RemoveShape(s.live, c, s.clock);
      StampsBelow(s.live, u, bound);
      forall i | 0 <= i < |Remove(s.live, c)| && Remove(s.live, c)[i].user == u
        ensures Remove(s.live, c)[i].at < bound {
        assert Remove(s.live, c)[i] in s.live;
      }
      StampsBelow(Remove(s.live, c), u, bound);
    }
  }

  lemma HarmlessKeepsExact(s: System, c: Call)
    requires Exact(s) && c in s.live && Harmless(s, c)
    ensures Exact(Next(s, Release(c)))
  {
    hide Pruned, ReleaseOn, Stamps, OnDay, DayOf, InOrder, Newest, Remove, RecentExact, StampHarmless;
    var s' := Next(s, Release(c));
    NextIsSound(s, Release(c));
    RemoveCounts(s.live, c, true, DayOf(s.clock));
    RemoveCounts(s.live, c, false, DayOf(s.clock));
    ReleaseLeaves(s.limiter, c.user, c.user, s.clock - HOUR, s.clock);
    forall u | IsSession(u) ensures RecentExact(s', u) {
      HarmlessStamps(s, c, u);
    }
  }

  lemma RemoveKeepsCapped(live: seq<Call>, c: Call)
    requires Capped(live)
    ensures Capped(Remove(live, c))
  {
    hide OnDay, Count, Remove;
    forall day, user, start ensures WithinCaps(Remove(live, c), day, user, start) {
      assert WithinCaps(live, day, user, start);
      RemoveCounts(live, c, true, day);
      RemoveCounts(live, c, false, day);
      RemoveFromWindow(live, c, user, start, start + HOUR);
    }
  }

  lemma ExactGoesOn(s: System)
    requires Exact(s) && Capped(s.live)
    ensures DecidesAsLedger(s) && StaysWithinCaps(s)
  {
    hide Exact, VerdictOf, Judge, Disciplined, Run, WithinCaps;
    forall steps, user, now | Disciplined(s, steps) && Run(s, steps).clock <= now
      ensures VerdictOf(Run(s, steps).limiter, user, now) == Judge(Run(s, steps).live, user, now)
    {
      DisciplineKeepsExact(s, steps);
      ExactDecidesAsLedger(Run(s, steps), user, now);
    }
    forall steps | Disciplined(s, steps) ensures Capped(Run(s, steps).live) {
      forall day, user, start ensures WithinCaps(Run(s, steps).live, day, user, start) {
        CapsHold(s, steps, day, user, start);
      }
    }
  }

  // ----- What the others let in -----

  // After these calls the limiter admits one the ledger would turn away.
  ghost predicate Overruns(s: System, steps: seq<Step>, user: string, now: int) {
    && Disciplined(s, steps) && Run(s, steps).clock <= now
    && VerdictOf(Run(s, steps).limiter, user, now).Accepted?
    && !Judge(Run(s, steps).live, user, now).Accepted?
  }

  lemma {:induction false} RunsJoin(s: System, a: seq<Step>, b: seq<Step>)
    ensures Run(s, a + b) == Run(Run(s, a), b)
    ensures Disciplined(s, a) && Disciplined(Run(s, a), b) ==> Disciplined(s, a + b)
    ensures CanRun(s, a) && CanRun(Run(s, a), b) ==> CanRun(s, a + b)
    decreases |a|
  {
    hide Next, Possible, InTime;
    if a == [] {
      assert a + b == b;
    } else {
      RunsJoin(Next(s, a[0]), a[1..], b);
      assert (a + b)[0] == a[0] && (a + b)[1..] == a[1..] + b;
    }
  }

  lemma OverrunLater(s: System, step: Step, rest: seq<Step>, user: string, now: int)
    requires Possible(s, step) && InTime(s, step) && Overruns(Next(s, step), rest, user, now)
    ensures Overruns(s, [step] + rest, user, now)
  {
    hide Next, Possible, InTime, VerdictOf, Judge;
    assert ([step] + rest)[1..] == rest;
  }

  lemma OverrunBreaksACap(s: System, steps: seq<Step>, user: string, now: int)
    requires Overruns(s, steps, user, now)
    ensures !StaysWithinCaps(s) && !DecidesAsLedger(s)
  {
    hide Run, Disciplined;
    var before, step := Run(s, steps), Reserve(user, now);
    RunsJoin(s, steps, [step]);
    assert Disciplined(before, [step]) && Run(before, [step]) == Next(before, step) by {
      OneStep(before, step);
    }
    var live := before.live + [Call(user, now)];
    OnDayAppend(before.live, Call(user, now), true, DayOf(now));
    OnDayAppend(before.live, Call(user, now), false, DayOf(now));
    CountAppend(before.live, Call(user, now), user, now - HOUR, now);
    assert !WithinCaps(live, DayOf(now), user, now - HOUR);
    assert !Capped(live);
    assert Run(s, steps + [step]).live == live;
  }

  lemma OneStep(s: System, step: Step)
    requires Possible(s, step) && InTime(s, step)
    ensures Disciplined(s, [step]) && Run(s, [step]) == Next(s, step)
  {
    hide Next, Possible, InTime;
    assert [step][1..] == [];
  }

  // The server counter is one behind: calls at this moment fill it past the cap.
  lemma {:induction false} OverfillServers(s: System) returns (steps: seq<Step>)
    requires Sound(s) && s.limiter.day == Some(DayOf(s.clock))
    requires s.limiter.serverToday + 1 == OnDay(s.live, false, DayOf(s.clock)) <= SERVER_DAILY_CAP
    ensures Overruns(s, steps, "", s.clock)
    decreases SERVER_DAILY_CAP - OnDay(s.live, false, DayOf(s.clock))
  {
    hide ReserveOn, OnDay, DayOf;
    VerdictReads(s.limiter, "", s.clock);
    if OnDay(s.live, false, DayOf(s.clock)) == SERVER_DAILY_CAP {
      return [];
    }
    var step := Reserve("", s.clock);
    ReserveLeaves(s.limiter, "", s.clock, "");
    NextIsSound(s, step);
    OnDayAppend(s.live, Call("", s.clock), false, DayOf(s.clock));
    var rest := OverfillServers(Next(s, step));
    OverrunLater(s, step, rest, "", s.clock);
    return [step] + rest;
  }

  lemma {:induction false} LongestName(names: set<string>) returns (n: nat)
    ensures forall x :: x in names ==> |x| <= n
    decreases names
  {
    if names == {} {
      return 0;
    }
    var x :| x in names;
    n := LongestName(names - {x});
    n := if |x| > n then |x| else n;
  }

  // A user the limiter has never heard of.
  lemma Newcomer(l: Limiter) returns (user: string)
    ensures IsSession(user) && KeptOf(l, user) == []
  {
    var n := LongestName(l.perUser.Keys);
    user := seq(n + 1, _ => 'x');
    assert |user| == n + 1;
  }

  // The session counter is one behind: newcomers at this moment fill it past the cap.
  lemma {:induction false} OverfillDay(s: System) returns (steps: seq<Step>, user: string)
    requires Sound(s) && s.limiter.day == Some(DayOf(s.clock))
    requires s.limiter.totalToday + 1 == OnDay(s.live, true, DayOf(s.clock)) <= GLOBAL_DAILY_CAP
    ensures Overruns(s, steps, user, s.clock) && IsSession(user)
    ensures Run(s, steps).clock == s.clock && OnDay(Run(s, steps).live, true, DayOf(s.clock)) == GLOBAL_DAILY_CAP
    decreases GLOBAL_DAILY_CAP - OnDay(s.live, true, DayOf(s.clock))
  {
    hide ReserveOn, OnDay, DayOf, Judge;
    user := Newcomer(s.limiter);
    PrunedFrom([], s.clock - HOUR, 0);
    VerdictReads(s.limiter, user, s.clock);
    if OnDay(s.live, true, DayOf(s.clock)) == GLOBAL_DAILY_CAP {
      FullDayIsFull(s.live, user, s.clock);
      return [], user;
    }
    var step := Reserve(user, s.clock);
    ReserveLeaves(s.limiter, user, s.clock, user);
    NextIsSound(s, step);
    OnDayAppend(s.live, Call(user, s.clock), true, DayOf(s.clock));
    var rest;
    rest, user := OverfillDay(Next(s, step));
    OverrunLater(s, step, rest, user, s.clock);
    assert ([step] + rest)[1..] == rest;
    steps := [step] + rest;
  }

  lemma FullDayIsFull(live: seq<Call>, user: string, now: int)
    requires IsSession(user) && OnDay(live, true, DayOf(now)) >= GLOBAL_DAILY_CAP
    ensures !Judge(live, user, now).Accepted?
  {
  }

  // The user's window is one behind: their calls at this moment fill it past the limit.
  lemma {:induction false} OverfillWindow(s: System, user: string, now: int) returns (steps: seq<Step>)
    requires Sound(s) && IsSession(user) && s.clock <= now
    requires |Recent(s.limiter, user, now - HOUR)| + 1 == Count(s.live, user, now - HOUR, now) <= USER_LIMIT
    requires Total(s.limiter, DayOf(now)) + USER_LIMIT - Count(s.live, user, now - HOUR, now) < GLOBAL_DAILY_CAP
    ensures Overruns(s, steps, user, now)
    decreases USER_LIMIT - Count(s.live, user, now - HOUR, now)
  {
    hide ReserveOn, OnDay, DayOf, Pruned, Count, Tidy;
    TidyLater(s.limiter, s.clock, now);
    VerdictReads(s.limiter, user, now);
    if Count(s.live, user, now - HOUR, now) == USER_LIMIT {
      return [];
    }
    var step := Reserve(user, now);
    ReserveLeaves(s.limiter, user, now, user);
    NextIsSound(s, step);
    CountAppend(s.live, Call(user, now), user, now - HOUR, now);
    var rest := OverfillWindow(Next(s, step), user, now);
    OverrunLater(s, step, rest, user, now);
    return [step] + rest;
  }

  // ----- Making room on a full day -----

  lemma DayBounds(at: int, day: int)
    ensures DayOf(at) == day <==> day * 86_400_000_000_000 <= at < (day + 1) * 86_400_000_000_000
  {
  }

  // Within the caps a user has at most five live reservations for each hour.
  lemma {:induction false} HoursAddUp(live: seq<Call>, user: string, start: int, hours: nat)
    requires Capped(live) && IsSession(user)
    ensures Count(live, user, start, start + hours * HOUR) <= 5 * hours + 5
    decreases hours
  {
    hide Count;
    assert WithinCaps(live, 0, user, start + (hours - 1) * HOUR);
    if hours > 0 {
      HoursAddUp(live, user, start, hours - 1);
      CountSplits(live, user, start, start + (hours - 1) * HOUR, start + hours * HOUR);
    } else {
      assert WithinCaps(live, 0, user, start);
      CountWithin(live, user, start, start, start + HOUR);
    }
  }

  lemma {:induction false} CountSplits(live: seq<Call>, user: string, lo: int, mid: int, hi: int)
    ensures Count(live, user, lo, hi) <= Count(live, user, lo, mid) + Count(live, user, mid, hi)
  {
    if live != [] {
      CountSplits(live[..|live| - 1], user, lo, mid, hi);
    }
  }

  lemma {:induction false} CountWithin(live: seq<Call>, user: string, lo: int, hi: int, hi': int)
    requires hi <= hi'
    ensures Count(live, user, lo, hi) <= Count(live, user, lo, hi')
  {
    if live != [] {
      CountWithin(live[..|live| - 1], user, lo, hi, hi');
    }
  }

  // More session reservations on a day than the user's own: one is somebody else's.
  lemma {:induction false} SomeoneElse(live: seq<Call>, user: string, day: int) returns (c: Call)
    requires OnDay(live, true, day) > Count(live, user, day * DAY, (day + 1) * DAY - 1)
    ensures c in live && IsSession(c.user) && c.user != user && DayOf(c.at) == day
  {
    hide DayOf;
    var front, last := live[..|live| - 1], live[|live| - 1];
    DayBounds(last.at, day);
    if IsSession(last.user) && last.user != user && DayOf(last.at) == day {
      return last;
    }
    c := SomeoneElse(front, user, day);
  }

  // Others giving back their newest of the day, in time, makes room on a full day
  // without touching the user's own.
  lemma {:induction false} MakeRoom(s: System, user: string, cutoff: int, now: int) returns (steps: seq<Step>)
    requires Sound(s) && CountersExact(s) && s.limiter.day == Some(DayOf(s.clock)) && IsSession(user)
    requires var day := DayOf(s.clock); Count(s.live, user, day * DAY, (day + 1) * DAY - 1) <= 125
    ensures Disciplined(s, steps)
    ensures var r := Run(s, steps);
            && Sound(r) && r.clock == s.clock && r.limiter.day == s.limiter.day && r.limiter.totalToday <= 490
            && Recent(r.limiter, user, cutoff) == Recent(s.limiter, user, cutoff)
            && Count(r.live, user, cutoff, now) == Count(s.live, user, cutoff, now)
    decreases s.limiter.totalToday
  {
    hide ReleaseOn, OnDay, DayOf, Pruned, Count, Tidy, Remove, Newest, InOrder;
    if s.limiter.totalToday <= 490 {
      return [];
    }
    var day := DayOf(s.clock);
    var c := SomeoneElse(s.live, user, day);
    var newest := FindNewest(s.live, c, s.clock);
    DaysInOrder(c.at, newest.at);
    DaysInOrder(newest.at, s.clock);
    var step := Release(newest);
    NextIsSound(s, step);
    ReleaseLeaves(s.limiter, newest.user, user, cutoff, s.clock);
    RemoveCounts(s.live, newest, true, day);
    RemoveCounts(s.live, newest, false, day);
    RemoveFromWindow(s.live, newest, user, day * DAY, (day + 1) * DAY - 1);
    RemoveFromWindow(s.live, newest, user, cutoff, now);
    var rest := MakeRoom(Next(s, step), user, cutoff, now);
    assert ([step] + rest)[1..] == rest;
    return [step] + rest;
  }

  // ----- The main result -----

  // A counter that loses a reservation of another day falls one behind.
  lemma WrongDayOverruns(s: System, c: Call) returns (steps: seq<Step>, user: string, now: int)
    requires Exact(s) && Capped(s.live) && c in s.live && !CounterHarmless(s, c)
    ensures Overruns(Next(s, Release(c)), steps, user, now)
  {
    hide ReleaseOn, OnDay, DayOf, Tidy, Remove, Newest, InOrder;
    var after, day := Next(s, Release(c)), DayOf(s.clock);
    NextIsSound(s, Release(c));
    ReleaseLeaves(s.limiter, c.user, c.user, 0, s.clock);
    RemoveCounts(s.live, c, true, day);
    RemoveCounts(s.live, c, false, day);
    assert WithinCaps(s.live, day, c.user, 0);
    now := s.clock;
    if IsSession(c.user) {
      steps, user := OverfillDay(after);
    } else {
      user := "";
      steps := OverfillServers(after);
    }
  }

  // A user whose newest stamp went for an older one is a stamp short in the hour
  // that begins with the newest.
  lemma WrongStampOverruns(s: System, c: Call) returns (steps: seq<Step>, user: string, now: int)
    requires Exact(s) && Capped(s.live) && c in s.live && CounterHarmless(s, c) && !StampHarmless(s, c)
    ensures Overruns(Next(s, Release(c)), steps, user, now)
  {
    hide ReleaseOn, OnDay, DayOf, Tidy, Remove, InOrder, Pruned, Count, Stamps;
    user := c.user;
    var after := Next(s, Release(c));
    var newest := FindNewest(s.live, c, s.clock);
    assert c.at < newest.at && newest.at >= s.clock - HOUR by {
      var i :| 0 <= i < |s.live| && s.live[i].user == user && s.live[i].at >= s.clock - HOUR;
      assert s.live[i].at <= newest.at;
      assert newest != c;
    }
    now := newest.at + HOUR;
    NextIsSound(s, Release(c));
    WindowFallsBehind(s, c, newest);
    var day := DayOf(s.clock);
    var room := [];
    ReleaseLeaves(s.limiter, user, user, 0, s.clock);
    if s.limiter.day == Some(DayOf(now)) {
      HarmlessCounters(s, c);
      UserDayBound(s.live, user, day);
      RemoveFromWindow(s.live, c, user, day * DAY, (day + 1) * DAY - 1);
      room := MakeRoom(after, user, now - HOUR, now);
    }
    var rest := OverfillWindow(Run(after, room), user, now);
    RunsJoin(after, room, rest);
    steps := room + rest;
  }

  lemma UserDayBound(live: seq<Call>, user: string, day: int)
    requires Capped(live) && IsSession(user)
    ensures Count(live, user, day * DAY, (day + 1) * DAY - 1) <= 125
  {
    HoursAddUp(live, user, day * DAY, 24);
    CountWithin(live, user, day * DAY, (day + 1) * DAY - 1, day * DAY + 24 * HOUR);
  }

  lemma HarmlessCounters(s: System, c: Call)
    requires Exact(s) && c in s.live && CounterHarmless(s, c)
    ensures CountersExact(Next(s, Release(c)))
  {
    hide ReleaseOn, OnDay, DayOf, Remove;
    RemoveCounts(s.live, c, true, DayOf(s.clock));
    RemoveCounts(s.live, c, false, DayOf(s.clock));
    ReleaseLeaves(s.limiter, c.user, c.user, 0, s.clock);
  }

  lemma WindowFallsBehind(s: System, c: Call, newest: Call)
    requires Exact(s) && Capped(s.live) && c in s.live && newest in s.live && IsSession(c.user)
    requires newest.user == c.user && c.at < newest.at && s.clock - HOUR <= newest.at
    ensures var after := Next(s, Release(c));
            |Recent(after.limiter, c.user, newest.at)| + 1
            == Count(after.live, c.user, newest.at, newest.at + HOUR) <= USER_LIMIT
  {
    hide ReleaseOn, OnDay, DayOf, Tidy, Remove, Pruned, Count, Stamps, InOrder;
    var user, now := c.user, newest.at + HOUR;
    assert RecentExact(s, user);
    PrunedTwice(KeptOf(s.limiter, user), s.clock - HOUR, newest.at);
    PrunedTwice(Stamps(s.live, user), s.clock - HOUR, newest.at);
    InOrderLater(s.live, s.clock, now);
    CountIsPrunedLength(s.live, user, newest.at, now);
    ReleaseLeaves(s.limiter, user, user, newest.at, s.clock);
    RemoveFromWindow(s.live, c, user, newest.at, now);
    RemoveFromWindow(s.live, newest, user, newest.at, now);
    assert WithinCaps(s.live, 0, user, newest.at);
  }

  lemma OtherwiseOverruns(s: System, c: Call) returns (steps: seq<Step>, user: string, now: int)
    requires Exact(s) && Capped(s.live) && c in s.live && !Harmless(s, c)
    ensures Overruns(Next(s, Release(c)), steps, user, now)
  {
    hide Exact, Capped, CounterHarmless, StampHarmless;
    if CounterHarmless(s, c) {
      steps, user, now := WrongStampOverruns(s, c);
    } else {
      steps, user, now := WrongDayOverruns(s, c);
    }
  }

  // After any release, however late: every later decision is the ledger's, every cap
  // holds from then on, and every count a decision reads is right, each if and only
  // if the reservation was made on the counted day (or its counter is at zero) and
  // was its user's newest (or all of theirs have left the window).
  lemma ReleaseIsHarmlessExactlyWhen(s: System, c: Call)
    requires Exact(s) && Capped(s.live) && c in s.live
    ensures var after := Next(s, Release(c));
            && (Exact(after) <==> Harmless(s, c))
            && (DecidesAsLedger(after) <==> Harmless(s, c))
            && (StaysWithinCaps(after) <==> Harmless(s, c))
  {
    hide Exact, Capped, Harmless, DecidesAsLedger, StaysWithinCaps, Overruns;
    var after := Next(s, Release(c));
    RemoveKeepsCapped(s.live, c);
    if Harmless(s, c) {
      HarmlessKeepsExact(s, c);
      ExactGoesOn(after);
    } else {
      var steps, user, now := OtherwiseOverruns(s, c);
      OverrunBreaksACap(after, steps, user, now);
      if Exact(after) {
        ExactGoesOn(after);
      }
    }
  }

  // Every disciplined run is in such a state, so a release is what first goes wrong.
  lemma DisciplinedRunsAreExact(at: int, steps: seq<Step>)
    requires Disciplined(Start(at), steps)
    ensures Exact(Run(Start(at), steps)) && Capped(Run(Start(at), steps).live)
  {
    hide WithinCaps;
    StartIsExact(at);
    DisciplineKeepsExact(Start(at), steps);
    forall day, user, start ensures WithinCaps(Run(Start(at), steps).live, day, user, start) {
      LimiterKeepsCaps(at, steps, day, user, start);
    }
  }

  // ----- Two such runs -----

  const MINUTE: int := 60_000_000_000

  // The limiter with one known user, on the first day.
  function Kept(user: string, stamps: seq<int>, total: int): Limiter {
    Limiter(map[user := stamps], Some(0), 0, total, false, false)
  }

  // One more report of the only user gets in.
  lemma OneMore(s: System, user: string, stamps: seq<int>, total: int, now: int)
    requires IsSession(user) && 0 <= s.clock <= now < DAY && 0 <= total < GLOBAL_DAILY_CAP
    requires s.limiter == Kept(user, stamps, total) || (s.limiter == FRESH && stamps == [] && total == 0)
    requires |Pruned(stamps, now - HOUR)| < USER_LIMIT
    ensures Possible(s, Reserve(user, now))
    ensures Next(s, Reserve(user, now)) ==
            System(Kept(user, Pruned(stamps, now - HOUR) + [now], total + 1), s.live + [Call(user, now)], now)
  {
    hide Pruned;
    var limiter := ReserveOn(s.limiter, user, now).0;
    assert limiter.perUser == map[user := Pruned(stamps, now - HOUR) + [now]];
  }

  lemma OneRun(s: System, step: Step)
    requires Possible(s, step)
    ensures CanRun(s, [step]) && Run(s, [step]) == Next(s, step)
  {
    hide Next, Possible;
    assert [step][1..] == [];
  }

  lemma OneMoreStep(start: System, steps: seq<Step>, step: Step)
    requires CanRun(start, steps) && Possible(Run(start, steps), step)
    ensures CanRun(start, steps + [step]) && Run(start, steps + [step]) == Next(Run(start, steps), step)
  {
    hide Next, Possible, Run, CanRun;
    OneRun(Run(start, steps), step);
    RunsJoin(start, steps, [step]);
  }

  // Five reports, the first at the start of the hour and four near its end.
  lemma FiveReports(user: string) returns (s: System)
    requires IsSession(user)
    ensures var late := Reserve(user, 59 * MINUTE);
            var steps := [Reserve(user, 0), late, late, late, late];
            CanRun(Start(0), steps) && Run(Start(0), steps) == s
    ensures var b, m := Call(user, 59 * MINUTE), 59 * MINUTE;
            s == System(Kept(user, [0, m, m, m, m], 5), [Call(user, 0), b, b, b, b], m)
  {
    hide Next, Pruned, Possible, Run, CanRun;
    var m, late, a, b := 59 * MINUTE, Reserve(user, 59 * MINUTE), Call(user, 0), Call(user, 59 * MINUTE);
    var steps: seq<Step> := [];
    s := Start(0);
    var stamps: seq<int> := [];
    PrunedFrom(stamps, 0 - HOUR, 0);
    assert Pruned(stamps, 0 - HOUR) == stamps && stamps + [0] == [0] && s.live + [a] == [a];
    OneMore(s, user, [], 0, 0);
    OneRun(s, Reserve(user, 0));
    s, steps, stamps := Next(s, Reserve(user, 0)), [Reserve(user, 0)], [0];
    assert s == System(Kept(user, [0], 1), [a], 0);
    for i := 0 to 4
      invariant CanRun(Start(0), steps) && Run(Start(0), steps) == s
      invariant |steps| == |stamps| == |s.live| == i + 1 && 0 <= s.clock <= m
      invariant s == System(Kept(user, stamps, i + 1), s.live, s.clock) && (i > 0 ==> s.clock == m)
      invariant steps[0] == Reserve(user, 0) && stamps[0] == 0 && s.live[0] == a
      invariant forall k :: 1 <= k <= i ==> steps[k] == late && stamps[k] == m && s.live[k] == b
    {
      PrunedFrom(stamps, m - HOUR, 0);
      OneMore(s, user, stamps, i + 1, m);
      OneMoreStep(Start(0), steps, late);
      s, steps, stamps := Next(s, late), steps + [late], stamps + [m];
    }
    assert steps == [Reserve(user, 0), late, late, late, late];
    assert stamps == [0, m, m, m, m] && s.live == [a, b, b, b, b];
  }

  // The first is not stored, and its release takes one of the late stamps.
  lemma FirstIsTakenBack(user: string, s: System)
    requires IsSession(user)
    requires var b, m := Call(user, 59 * MINUTE), 59 * MINUTE;
             s == System(Kept(user, [0, m, m, m, m], 5), [Call(user, 0), b, b, b, b], m)
    ensures var b, m := Call(user, 59 * MINUTE), 59 * MINUTE;
            Next(s, Release(Call(user, 0))) == System(Kept(user, [0, m, m, m], 4), [b, b, b, b], m)
    ensures Possible(s, Release(Call(user, 0)))
  {
    var a, b, m := Call(user, 0), Call(user, 59 * MINUTE), 59 * MINUTE;
    assert [0, m, m, m, m][..4] == [0, m, m, m];
    assert [a, b, b, b, b][..4] == [a, b, b, b] && [a, b, b, b][..3] == [a, b, b];
    assert [a, b, b][..2] == [a, b] && [a, b][..1] == [a];
    assert Remove([a], a) == [] && Remove([a, b], a) == [b] && Remove([a, b, b], a) == [b, b];
    assert Remove([a, b, b, b], a) == [b, b, b];
    assert a in s.live;
    assert ReleaseOn(s.limiter, user).perUser == map[user := [0, m, m, m]];
  }

  // So two minutes later two more get in.
  lemma TwoMoreGetIn(user: string, s: System)
    requires IsSession(user)
    requires var b, m := Call(user, 59 * MINUTE), 59 * MINUTE;
             s == System(Kept(user, [0, m, m, m], 4), [b, b, b, b], m)
    ensures var next, f := Reserve(user, 61 * MINUTE), Call(user, 61 * MINUTE);
            && CanRun(s, [next, next]) && Run(s, [next, next]).live == s.live + [f, f]
  {
    hide Next, Pruned, Possible, Run, CanRun;
    var m, n, next, f := 59 * MINUTE, 61 * MINUTE, Reserve(user, 61 * MINUTE), Call(user, 61 * MINUTE);
    PrunedFrom([0, m, m, m], n - HOUR, 1);
    PrunedFrom([m, m, m, n], n - HOUR, 0);
    assert [0, m, m, m][1..] == [m, m, m] && [m, m, m] + [n] == [m, m, m, n];
    OneMore(s, user, [0, m, m, m], 4, n);
    var s1 := System(Kept(user, [m, m, m, n], 5), s.live + [f], n);
    OneMore(s1, user, [m, m, m, n], 5, n);
    OneRun(s, next);
    OneMoreStep(s, [next], next);
    assert [next] + [next] == [next, next];
    assert s.live + [f] + [f] == s.live + [f, f];
  }

  lemma SixCounted(b: Call, f: Call, user: string)
    requires b == Call(user, 59 * MINUTE) && f == Call(user, 61 * MINUTE)
    ensures Count([b, b, b, b] + [f, f], user, 59 * MINUTE, 119 * MINUTE) == 6
  {
    hide Count;
    var lo, hi := 59 * MINUTE, 119 * MINUTE;
    NoneCounted(user, lo, hi);
    CountAppend([], b, user, lo, hi);
    CountAppend([b], b, user, lo, hi);
    CountAppend([b, b], b, user, lo, hi);
    CountAppend([b, b, b], b, user, lo, hi);
    CountAppend([b, b, b, b], f, user, lo, hi);
    CountAppend([b, b, b, b, f], f, user, lo, hi);
    assert [] + [b] == [b] && [b] + [b] == [b, b] && [b, b] + [b] == [b, b, b] && [b, b, b] + [b] == [b, b, b, b];
    assert [b, b, b, b] + [f] == [b, b, b, b, f] && [b, b, b, b, f] + [f] == [b, b, b, b] + [f, f];
  }

  lemma NoneCounted(user: string, lo: int, hi: int)
    ensures Count([], user, lo, hi) == 0
  {
  }

  // Six live reports of one user within an hour: a release that comes after its
  // user's next reservations takes the wrong stamp.
  lemma SixInAnHour(user: string)
    requires IsSession(user)
    ensures var late, next := Reserve(user, 59 * MINUTE), Reserve(user, 61 * MINUTE);
            var steps := [Reserve(user, 0), late, late, late, late] + ([Release(Call(user, 0))] + [next, next]);
            && CanRun(Start(0), steps)
            && Count(Run(Start(0), steps).live, user, 59 * MINUTE, 119 * MINUTE) == 6
  {
    hide Next, Possible, Count, Run, CanRun;
    var late, next, back := Reserve(user, 59 * MINUTE), Reserve(user, 61 * MINUTE), Release(Call(user, 0));
    var five := [Reserve(user, 0), late, late, late, late];
    var s5 := FiveReports(user);
    FirstIsTakenBack(user, s5);
    var s6 := Next(s5, back);
    TwoMoreGetIn(user, s6);
    OneRun(s5, back);
    RunsJoin(s5, [back], [next, next]);
    RunsJoin(Start(0), five, [back] + [next, next]);
    SixCounted(Call(user, 59 * MINUTE), Call(user, 61 * MINUTE), user);
  }

  lemma OneDay() returns (s: System)
    ensures Sound(s) && s == System(Kept("a", [0], 1), [Call("a", 0)], 0)
    ensures CanRun(Start(0), [Reserve("a", 0)]) && Run(Start(0), [Reserve("a", 0)]) == s
  {
    hide Pruned, ReserveOn, Run, CanRun;
    PrunedFrom([], 0 - HOUR, 0);
    StartIsExact(0);
    OneMore(Start(0), "a", [], 0, 0);
    NextIsSound(Start(0), Reserve("a", 0));
    OneRun(Start(0), Reserve("a", 0));
    s := Next(Start(0), Reserve("a", 0));
    assert [] + [Call("a", 0)] == [Call("a", 0)] && Pruned([], 0 - HOUR) + [0] == [0];
  }

  lemma TwoDays() returns (s: System)
    ensures Sound(s) && s.live == [Call("a", 0), Call("b", DAY)] && s.clock == DAY
    ensures s.limiter.day == Some(1) && s.limiter.totalToday == 1
    ensures CanRun(Start(0), [Reserve("a", 0), Reserve("b", DAY)])
    ensures Run(Start(0), [Reserve("a", 0), Reserve("b", DAY)]) == s
  {
    hide Pruned, ReserveOn, Run, CanRun, Tidy, Kept;
    var s1 := OneDay();
    var second := Reserve("b", DAY);
    NextDayIsAccepted(s1);
    NextIsSound(s1, second);
    s := Next(s1, second);
    OneMoreStep(Start(0), [Reserve("a", 0)], second);
    assert [Reserve("a", 0)] + [second] == [Reserve("a", 0), second];
    assert [Call("a", 0)] + [Call("b", DAY)] == [Call("a", 0), Call("b", DAY)];
  }

  lemma NextDayIsAccepted(s: System)
    requires Sound(s) && s == System(Kept("a", [0], 1), [Call("a", 0)], 0)
    ensures var (after, verdict, _) := ReserveOn(s.limiter, "b", DAY);
            verdict == Accepted && after.day == Some(1) && after.totalToday == 1
  {
    hide Pruned, ReserveOn, Tidy;
    assert Tidy(s.limiter, 0);
    TidyLater(s.limiter, 0, DAY);
    VerdictReads(s.limiter, "b", DAY);
    ReserveLeaves(s.limiter, "b", DAY, "b");
    PrunedFrom([], DAY - HOUR, 0);
  }

  // A report of one day given back once the limiter counts the next: its counter is
  // one behind what is live.
  lemma AfterMidnight() returns (steps: seq<Step>)
    ensures CanRun(Start(0), steps)
    ensures var s := Run(Start(0), steps);
            && Sound(s) && s.clock == DAY && s.limiter.day == Some(1)
            && s.limiter.totalToday + 1 == OnDay(s.live, true, 1) == 1
  {
    hide ReleaseOn, Run, CanRun, Tidy, InOrder;
    var a, b := Call("a", 0), Call("b", DAY);
    var s := TwoDays();
    NextIsSound(s, Release(a));
    ReleaseLeaves(s.limiter, "a", "a", 0, DAY);
    assert [a, b][..1] == [a] && Remove([a], a) == [] && Remove([a, b], a) == [b];
    OnDayAppend([], b, true, 1);
    assert [] + [b] == [b];
    OneMoreStep(Start(0), [Reserve("a", 0), Reserve("b", DAY)], Release(a));
    return [Reserve("a", 0), Reserve("b", DAY)] + [Release(a)];
  }

  // So 501 live reports fit on that day.
  lemma FiveHundredAndOneOnADay() returns (steps: seq<Step>)
    ensures CanRun(Start(0), steps) && OnDay(Run(Start(0), steps).live, true, 1) == GLOBAL_DAILY_CAP + 1
  {
    hide Next, Possible, Run, CanRun, OnDay, Sound;
    var first := AfterMidnight();
    var s := Run(Start(0), first);
    var fill, user := OverfillDay(s);
    var full, last := Run(s, fill), Reserve(user, DAY);
    DisciplinedCanRun(s, fill);
    LastGetsIn(full, user, DAY);
    OneRun(full, last);
    RunsJoin(s, fill, [last]);
    RunsJoin(Start(0), first, fill + [last]);
    OnDayAppend(full.live, Call(user, DAY), true, 1);
    return first + (fill + [last]);
  }

  lemma LastGetsIn(s: System, user: string, now: int)
    requires VerdictOf(s.limiter, user, now).Accepted? && s.clock <= now
    ensures Possible(s, Reserve(user, now)) && Next(s, Reserve(user, now)).live == s.live + [Call(user, now)]
  {
    hide ReserveOn;
  }

  lemma {:induction false} DisciplinedCanRun(s: System, steps: seq<Step>)
    requires Disciplined(s, steps)
    ensures CanRun(s, steps)
    decreases |steps|
  {
    hide Next, Possible, InTime;
    if steps != [] {
      DisciplinedCanRun(Next(s, steps[0]), steps[1..]);
    }
  }
}
