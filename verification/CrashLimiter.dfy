// The crash-report limiter: five reports an hour per session user, 500 a UTC day
// for all of them, and a separate 200 a day for server callers.
module CrashLimits {
  import opened Basics
  import opened Windows

  const DAY: int := 86_400_000_000_000
  const HOUR: int := 3_600_000_000_000
  const USER_LIMIT: nat := 5
  const SERVER_DAILY_CAP: nat := 200
  const GLOBAL_DAILY_CAP: nat := 500
  const SWEEP_SIZE: nat := 10_000

  datatype Verdict = Accepted | GlobalFull | ServerFull | UserFull

  function DayOf(at: int): int { at / DAY }

  predicate IsSession(user: string) { user != "" }

  // What the limiter keeps: each user's stamps, and the counters and cap flags of
  // the UTC day they belong to.
  datatype Limiter = Limiter(
    perUser: map<string, seq<int>>,
    day: Option<int>,
    serverToday: int,
    totalToday: int,
    serverCapHit: bool,
    globalCapHit: bool)

  const FRESH := Limiter(map[], None, 0, 0, false, false)

  function KeptOf(l: Limiter, user: string): seq<int> {
    if user in l.perUser then l.perUser[user] else []
  }

  // Resets the daily counters when the UTC date changes.
  function RollOn(l: Limiter, now: int): Limiter {
    if l.day == Some(DayOf(now)) then l
    else Limiter(l.perUser, Some(DayOf(now)), 0, 0, false, false)
  }

  predicate HasEmptied(stamps: seq<int>, cutoff: int) {
    stamps == [] || stamps[|stamps| - 1] < cutoff
  }

  // Past the size limit, drops every user whose window has emptied.
  function SweepOn(l: Limiter, cutoff: int): Limiter {
    if |l.perUser| <= SWEEP_SIZE then l
    else l.(perUser := (map u | u in l.perUser && !HasEmptied(l.perUser[u], cutoff) :: l.perUser[u]))
  }

  // Sweeps, then prunes the user's stamps; what is left of them is the window.
  function WindowOn(l: Limiter, user: string, now: int): (r: Limiter)
    ensures r == l.(perUser := r.perUser)
  {
    var swept := SweepOn(l, now - HOUR);
    var stamps := Pruned(KeptOf(swept, user), now - HOUR);
    swept.(perUser := if stamps == [] then swept.perUser - {user} else swept.perUser[user := stamps])
  }

  // Counts one report against every cap that applies, or turns it away and counts
  // nothing; names a daily cap on its first rejection of the day.
  function ReserveOn(l: Limiter, user: string, now: int): (Limiter, Verdict, string) {
    var today := RollOn(l, now);
    if IsSession(user) && today.totalToday >= GLOBAL_DAILY_CAP then
      (today.(globalCapHit := true), GlobalFull, if today.globalCapHit then "" else "global")
    else if !IsSession(user) then
      if today.serverToday >= SERVER_DAILY_CAP then
        (today.(serverCapHit := true), ServerFull, if today.serverCapHit then "" else "server")
      else (today.(serverToday := today.serverToday + 1), Accepted, "")
    else
      var windowed := WindowOn(today, user, now);
      var stamps := KeptOf(windowed, user);
      if |stamps| >= USER_LIMIT then (windowed, UserFull, "")
      else
        (windowed.(perUser := windowed.perUser[user := stamps + [now]], totalToday := windowed.totalToday + 1),
         Accepted, "")
  }

  // Gives back a reservation whose report was not stored: a count, and for a session
  // user their newest stamp.
  function ReleaseOn(l: Limiter, user: string): Limiter {
    if !IsSession(user) then l.(serverToday := if l.serverToday > 0 then l.serverToday - 1 else l.serverToday)
    else
      var stamps := KeptOf(l, user);
      l.(totalToday := if l.totalToday > 0 then l.totalToday - 1 else l.totalToday,
         perUser := if |stamps| > 1 then l.perUser[user := stamps[..|stamps| - 1]]
                    else if |stamps| == 1 then l.perUser - {user}
                    else l.perUser)
  }

  // No user is kept with an empty window: what would be one is dropped.
  lemma NoWindowIsEmpty(l: Limiter, user: string, now: int)
    requires forall u :: u in l.perUser ==> l.perUser[u] != []
    ensures forall u :: u in ReserveOn(l, user, now).0.perUser ==> ReserveOn(l, user, now).0.perUser[u] != []
    ensures forall u :: u in ReleaseOn(l, user).perUser ==> ReleaseOn(l, user).perUser[u] != []
  {
    hide Pruned, HasEmptied;
  }

  function VerdictOf(l: Limiter, user: string, now: int): Verdict { ReserveOn(l, user, now).1 }

  // ----- What a decision reads -----

  function Total(l: Limiter, day: int): int { if l.day == Some(day) then l.totalToday else 0 }

  function ServerTotal(l: Limiter, day: int): int { if l.day == Some(day) then l.serverToday else 0 }

  function Recent(l: Limiter, user: string, cutoff: int): seq<int> { Pruned(KeptOf(l, user), cutoff) }

  // Every user's stamps are in time order, none later than the latest reserve.
  ghost predicate Tidy(l: Limiter, latest: int) {
    forall u :: Sorted(KeptOf(l, u)) && forall i :: 0 <= i < |KeptOf(l, u)| ==> KeptOf(l, u)[i] <= latest
  }

  lemma PrunedEmptied(s: seq<int>, cutoff: int)
    requires Sorted(s)
    ensures Pruned(s, cutoff) == [] <==> HasEmptied(s, cutoff)
  {
    PrunedShape(s, cutoff);
    var r := Pruned(s, cutoff);
    if r != [] {
      assert r[0] == s[|s| - |r|];
    }
  }

  lemma PrunedTwice(s: seq<int>, a: int, b: int)
    requires a <= b
    ensures Pruned(Pruned(s, a), b) == Pruned(s, b)
  {
    PrunedShape(s, a);
    PrunedOfKept(Pruned(s, a), s, a, b);
  }

  // A sweep loses nothing any decision from then on reads.
  lemma SweepKeepsRecent(l: Limiter, cutoff: int, user: string, later: int)
    requires Sorted(KeptOf(l, user)) && cutoff <= later
    ensures Recent(SweepOn(l, cutoff), user, later) == Recent(l, user, later)
  {
    if KeptOf(SweepOn(l, cutoff), user) != KeptOf(l, user) {
      PrunedEmptied(KeptOf(l, user), later);
    }
  }

  lemma WindowKeepsRecent(l: Limiter, user: string, now: int, v: string, later: int)
    requires Tidy(l, now) && now - HOUR <= later
    ensures Recent(WindowOn(l, user, now), v, later) == Recent(l, v, later)
    ensures KeptOf(WindowOn(l, user, now), user) == Recent(l, user, now - HOUR)
  {
    hide Pruned;
    var swept := SweepOn(l, now - HOUR);
    SweepKeepsRecent(l, now - HOUR, v, later);
    SweepKeepsRecent(l, now - HOUR, user, now - HOUR);
    if v == user {
      PrunedTwice(KeptOf(swept, user), now - HOUR, later);
    }
  }

  lemma WindowStaysTidy(l: Limiter, user: string, now: int)
    requires Tidy(l, now)
    ensures Tidy(WindowOn(l, user, now), now)
  {
    var w, swept := WindowOn(l, user, now), SweepOn(l, now - HOUR);
    PrunedShape(KeptOf(swept, user), now - HOUR);
    forall u ensures Sorted(KeptOf(w, u)) && forall i :: 0 <= i < |KeptOf(w, u)| ==> KeptOf(w, u)[i] <= now {
      assert KeptOf(swept, u) == KeptOf(l, u) || KeptOf(swept, u) == [];
    }
  }

  // The verdict in terms of the counts alone.
  lemma VerdictReads(l: Limiter, user: string, now: int)
    requires Tidy(l, now)
    ensures VerdictOf(l, user, now) ==
            if !IsSession(user) then
              (if ServerTotal(l, DayOf(now)) >= SERVER_DAILY_CAP then ServerFull else Accepted)
            else if Total(l, DayOf(now)) >= GLOBAL_DAILY_CAP then GlobalFull
            else if |Recent(l, user, now - HOUR)| >= USER_LIMIT then UserFull
            else Accepted
  {
    hide WindowOn, DayOf;
    var today := RollOn(l, now);
    assert Tidy(today, now) by {
      forall u ensures KeptOf(today, u) == KeptOf(l, u) {
      }
    }
    WindowKeepsRecent(today, user, now, user, now - HOUR);
  }

  // What a reserve leaves: the counts of its day, one up for an accepted caller of
  // that kind, and everyone's recent stamps, with the new one behind the caller's.
  lemma ReserveLeaves(l: Limiter, user: string, now: int, v: string)
    requires Tidy(l, now)
    ensures var (after, verdict, _) := ReserveOn(l, user, now);
            && after.day == Some(DayOf(now)) && Tidy(after, now)
            && after.totalToday == Total(l, DayOf(now)) + (if verdict.Accepted? && IsSession(user) then 1 else 0)
            && after.serverToday == ServerTotal(l, DayOf(now)) +
               (if verdict.Accepted? && !IsSession(user) then 1 else 0)
            && Recent(after, v, now - HOUR) ==
               Recent(l, v, now - HOUR) + (if verdict.Accepted? && IsSession(user) && v == user then [now] else [])
  {
    hide WindowOn, DayOf, Pruned;
    var today := RollOn(l, now);
    forall u ensures KeptOf(today, u) == KeptOf(l, u) {
    }
    var (after, verdict, _) := ReserveOn(l, user, now);
    assert Recent(l, v, now - HOUR) + [] == Recent(l, v, now - HOUR);
    if IsSession(user) && !verdict.GlobalFull? {
      var windowed := WindowOn(today, user, now);
      WindowKeepsRecent(today, user, now, v, now - HOUR);
      WindowStaysTidy(today, user, now);
      if verdict.Accepted? {
        StampedStaysTidy(windowed, after, user, now);
        if v == user {
          PrunedAppend(KeptOf(windowed, user), now, now - HOUR);
        }
      }
    } else {
      forall u ensures KeptOf(after, u) == KeptOf(l, u) {
      }
    }
  }

  lemma StampedStaysTidy(l: Limiter, l': Limiter, user: string, now: int)
    requires Tidy(l, now) && l'.perUser == l.perUser[user := KeptOf(l, user) + [now]]
    ensures Tidy(l', now)
  {
    forall u ensures Sorted(KeptOf(l', u)) && forall i :: 0 <= i < |KeptOf(l', u)| ==> KeptOf(l', u)[i] <= now {
      assert Sorted(KeptOf(l, u)) && Sorted(KeptOf(l, user));
    }
  }

  lemma PrunedPop(s: seq<int>, cutoff: int)
    requires s != []
    ensures var r := Pruned(s, cutoff);
            Pruned(s[..|s| - 1], cutoff) == if r == [] then [] else r[..|r| - 1]
  {
    var front, last := s[..|s| - 1], s[|s| - 1];
    assert s == front + [last];
    PrunedAppend(front, last, cutoff);
  }

  // What a release leaves: one count less where there was one, and the newest stamp
  // gone from the session caller's, no one else's touched.
  lemma ReleaseLeaves(l: Limiter, user: string, v: string, cutoff: int, latest: int)
    requires Tidy(l, latest)
    ensures var after, r := ReleaseOn(l, user), Recent(l, v, cutoff);
            && Tidy(after, latest) && after.day == l.day
            && after.totalToday == (if IsSession(user) && l.totalToday > 0 then l.totalToday - 1 else l.totalToday)
            && after.serverToday == (if !IsSession(user) && l.serverToday > 0 then l.serverToday - 1 else l.serverToday)
            && Recent(after, v, cutoff) == (if IsSession(user) && v == user && r != [] then r[..|r| - 1] else r)
  {
    hide Pruned;
    var after, stamps := ReleaseOn(l, user), KeptOf(l, user);
    var popped := if stamps == [] then [] else stamps[..|stamps| - 1];
    assert IsSession(user) ==> KeptOf(after, user) == popped;
    assert Sorted(stamps);
    forall u ensures KeptOf(after, u) == if IsSession(user) && u == user then popped else KeptOf(l, u) {
    }
    assert Tidy(after, latest) by {
      forall u ensures Sorted(KeptOf(after, u))
                       && forall i :: 0 <= i < |KeptOf(after, u)| ==> KeptOf(after, u)[i] <= latest {
        assert Sorted(KeptOf(l, u));
      }
    }
    if stamps != [] {
      PrunedPop(stamps, cutoff);
    } else {
      PrunedEmptied([], cutoff);
    }
  }

  // ----- The limiter's own laws -----

  // The sweep changes no decision.
  lemma SweepChangesNoDecision(l: Limiter, cutoff: int, user: string, now: int)
    requires Tidy(l, now) && cutoff <= now - HOUR
    ensures VerdictOf(SweepOn(l, cutoff), user, now) == VerdictOf(l, user, now)
  {
    hide ReserveOn, Pruned;
    var swept := SweepOn(l, cutoff);
    forall u ensures KeptOf(swept, u) == KeptOf(l, u) || KeptOf(swept, u) == [] {
    }
    assert Tidy(swept, now);
    SweepKeepsRecent(l, cutoff, user, now - HOUR);
    VerdictReads(l, user, now);
    VerdictReads(swept, user, now);
  }

  // Server callers and session users never spend each other's budget: whatever one
  // kind reserves or gives back, no decision about the other kind changes.
  lemma BudgetsAreSeparate(l: Limiter, spender: string, at: int, user: string, now: int)
    requires Tidy(l, at) && at <= now && IsSession(spender) != IsSession(user)
    requires l.day.Some? ==> l.day.value <= DayOf(at)
    ensures VerdictOf(ReserveOn(l, spender, at).0, user, now) == VerdictOf(l, user, now)
    ensures VerdictOf(ReleaseOn(l, spender), user, now) == VerdictOf(l, user, now)
  {
    hide ReserveOn, ReleaseOn, Pruned;
    var reserved, released := ReserveOn(l, spender, at).0, ReleaseOn(l, spender);
    ReserveLeaves(l, spender, at, user);
    ReleaseLeaves(l, spender, user, now - HOUR, at);
    DaysInOrder(at, now);
    TidyLater(l, at, now);
    TidyLater(reserved, at, now);
    TidyLater(released, at, now);
    assert Recent(l, user, at - HOUR) + [] == Recent(l, user, at - HOUR);
    PrunedTwice(KeptOf(l, user), at - HOUR, now - HOUR);
    PrunedTwice(KeptOf(reserved, user), at - HOUR, now - HOUR);
    VerdictReads(l, user, now);
    VerdictReads(reserved, user, now);
    VerdictReads(released, user, now);
  }

  lemma DaysInOrder(earlier: int, later: int)
    requires earlier <= later
    ensures DayOf(earlier) <= DayOf(later)
  {
  }

  lemma TidyLater(l: Limiter, latest: int, later: int)
    requires Tidy(l, latest) && latest <= later
    ensures Tidy(l, later)
  {
  }

  // A report that is not stored after all has cost nobody anything: with its
  // reservation given back, every later decision is as if it had never been made.
  lemma ReleaseUndoesReserve(l: Limiter, spender: string, at: int, user: string, now: int)
    requires Tidy(l, at) && at <= now && VerdictOf(l, spender, at).Accepted?
    requires l.day.Some? ==> l.day.value <= DayOf(at)
    requires l.totalToday >= 0 && l.serverToday >= 0
    ensures VerdictOf(ReleaseOn(ReserveOn(l, spender, at).0, spender), user, now) == VerdictOf(l, user, now)
  {
    hide ReserveOn, ReleaseOn, Pruned;
    var reserved := ReserveOn(l, spender, at).0;
    var released := ReleaseOn(reserved, spender);
    ReserveLeaves(l, spender, at, user);
    ReleaseLeaves(reserved, spender, user, at - HOUR, at);
    DaysInOrder(at, now);
    TidyLater(l, at, now);
    TidyLater(released, at, now);
    assert Recent(released, user, at - HOUR) == Recent(l, user, at - HOUR);
    PrunedTwice(KeptOf(l, user), at - HOUR, now - HOUR);
    PrunedTwice(KeptOf(released, user), at - HOUR, now - HOUR);
    VerdictReads(l, user, now);
    VerdictReads(released, user, now);
  }

  // ----- The limiter in memory -----

  class CrashReportLimiter {
    var perUser: map<string, seq<int>>
    // The UTC day the daily counters belong to; none before the first call.
    var day: Option<int>
    var serverToday: int
    var totalToday: int
    var serverCapHit: bool
    var globalCapHit: bool

    ghost function State(): Limiter
      reads this
    {
      Limiter(perUser, day, serverToday, totalToday, serverCapHit, globalCapHit)
    }

    constructor ()
      ensures State() == FRESH
    {
      perUser, day, serverToday, totalToday, serverCapHit, globalCapHit := map[], None, 0, 0, false, false;
    }

    method RollDay(now: int)
      modifies this
      ensures State() == RollOn(old(State()), now)
    {
      if day == Some(DayOf(now)) {
        return;
      }
      day := Some(DayOf(now));
      serverToday, totalToday, serverCapHit, globalCapHit := 0, 0, false, false;
    }

    method Sweep(cutoff: int)
      modifies this`perUser
      ensures State() == SweepOn(old(State()), cutoff)
      ensures forall u :: u in perUser <==>
                u in old(perUser)
                && (|old(perUser)| <= 10_000
                    || (old(perUser)[u] != [] && old(perUser)[u][|old(perUser)[u]| - 1] >= cutoff))
    {
      if |perUser| <= SWEEP_SIZE {
        return;
      }
      var ids := perUser.Keys;
      while ids != {}
        invariant ids <= perUser.Keys <= old(perUser).Keys
        invariant forall u :: u in perUser ==> perUser[u] == old(perUser)[u]
        invariant forall u :: u in old(perUser) && u !in ids ==>
                    (u in perUser <==> !HasEmptied(old(perUser)[u], cutoff))
        decreases ids
      {
        var id :| id in ids;
        ids := ids - {id};
        var stamps := perUser[id];
        if |stamps| == 0 || stamps[|stamps| - 1] < cutoff {
          perUser := perUser - {id};
        }
      }
    }

    method WindowFor(user: string, now: int) returns (stamps: seq<int>)
      modifies this`perUser
      ensures State() == WindowOn(old(State()), user, now) && stamps == KeptOf(State(), user)
    {
      hide Pruned;
      var cutoff := now - HOUR;
      Sweep(cutoff);
      stamps := if user in perUser then perUser[user] else [];
      var first := 0;
      while first < |stamps| && stamps[first] < cutoff
        invariant first <= |stamps|
        invariant forall i :: 0 <= i < first ==> stamps[i] < cutoff
      {
        first := first + 1;
      }
      PrunedFrom(stamps, cutoff, first);
      stamps := stamps[first..];
      perUser := if |stamps| == 0 then perUser - {user} else perUser[user := stamps];
    }

    method Reserve(user: string, now: int) returns (verdict: Verdict, firstCapHit: string)
      modifies this
      ensures (State(), verdict, firstCapHit) == ReserveOn(old(State()), user, now)
    {
      hide WindowOn, DayOf;
      firstCapHit := "";
      RollDay(now);
      if user != "" && totalToday >= GLOBAL_DAILY_CAP {
        if !globalCapHit {
          globalCapHit := true;
          firstCapHit := "global";
        }
        return GlobalFull, firstCapHit;
      }
      if user == "" {
        if serverToday >= SERVER_DAILY_CAP {
          if !serverCapHit {
            serverCapHit := true;
            firstCapHit := "server";
          }
          return ServerFull, firstCapHit;
        }
        serverToday := serverToday + 1;
      } else {
        var stamps := WindowFor(user, now);
        if |stamps| >= USER_LIMIT {
          return UserFull, "";
        }
        perUser := perUser[user := stamps + [now]];
      }
      if user != "" {
        totalToday := totalToday + 1;
      }
      return Accepted, "";
    }

    method Release(user: string)
      modifies this
      ensures State() == ReleaseOn(old(State()), user)
    {
      if user == "" {
        if serverToday > 0 {
          serverToday := serverToday - 1;
        }
        return;
      }
      if totalToday > 0 {
        totalToday := totalToday - 1;
      }
      var stamps := if user in perUser then perUser[user] else [];
      if |stamps| > 1 {
        perUser := perUser[user := stamps[..|stamps| - 1]];
      } else if |stamps| == 1 {
        perUser := perUser - {user};
      }
    }
  }
}
