// One match's allocation on the Edgegap path: retries, cancellation and what the
// matched players are told.
module FleetAllocation {
  import opened Basics

  const MAX_ATTEMPTS: nat := 3

  // What one status poll answers.
  datatype Poll = NotReady | PollFails | Ready(hasIp: bool, hasTcpPort: bool)

  // How Edgegap and the game server behave in one attempt: whether the deploy call
  // works and its request id; the answers to the polls that fit before their deadline;
  // and whether the registration row shows in each of the reads that fit before theirs,
  // the first of which is always made. Nothing here depends on the cancel.
  datatype Trial = Trial(deploys: bool, id: string, polls: seq<Poll>, shows: seq<bool>)

  datatype Reason = MintFailed | ProtocolMismatch | BlockedPair | AllocationFailed | Cancelled

  // A stop call carries the moment it is made and whether its context is live.
  datatype Event =
    | Deployed(id: string)
    | StopTried(id: string, at: nat, live: bool)
    | MatchReady(user: string, id: string)
    | MatchFailed(user: string, reason: Reason)

  // The moment the allocation context is cancelled, counted in blocking steps.
  type Cancel = Option<nat>

  predicate IsCancelled(cancel: Cancel, tick: nat) { cancel.Some? && cancel.value <= tick }

  // Polls until ready, the deadline or a cancelled sleep; each round is a call and a sleep.
  // A call that starts under a dead context fails, here as elsewhere.
  function PollUntilReady(polls: seq<Poll>, tick: nat, cancel: Cancel): (r: (Option<Poll>, nat))
    ensures r.0.Some? ==> r.0.value.Ready?
    ensures r.1 >= tick
  {
    if polls == [] then (None, tick)
    else if polls[0].Ready? && !IsCancelled(cancel, tick) then (Some(polls[0]), tick + 1)
    else if IsCancelled(cancel, tick + 2) then (None, tick + 2)
    else PollUntilReady(polls[1..], tick + 2, cancel)
  }

  // Reads until the registration shows, the deadline or a cancelled wait; each round is a
  // read and a wait, and the deadline is looked at between them.
  function WaitForServer(shows: seq<bool>, tick: nat, cancel: Cancel): (r: (bool, nat))
    ensures r.1 > tick
  {
    if shows != [] && shows[0] && !IsCancelled(cancel, tick) then (true, tick + 1)
    else if |shows| <= 1 then (false, tick + 1)
    else if IsCancelled(cancel, tick + 2) then (false, tick + 2)
    else WaitForServer(shows[1..], tick + 2, cancel)
  }

  datatype Attempt = Attempt(log: seq<Event>, id: Option<string>, tick: nat)

  function StopDeploy(id: string, tick: nat, cancel: Cancel): Event { StopTried(id, tick, !IsCancelled(cancel, tick)) }

  // One attempt: deploy, poll, check the status, wait for the server to register.
  function TryAllocate(t: Trial, tick: nat, cancel: Cancel): Attempt {
    if !t.deploys || IsCancelled(cancel, tick) then Attempt([], None, tick + 1)
    else
      var (status, polled) := PollUntilReady(t.polls, tick + 1, cancel);
      if status.None? || !status.value.hasIp || !status.value.hasTcpPort then
        Attempt([Deployed(t.id), StopDeploy(t.id, polled, cancel)], None, polled + 1)
      else
        var (registered, waited) := WaitForServer(t.shows, polled, cancel);
        if !registered then Attempt([Deployed(t.id), StopDeploy(t.id, waited, cancel)], None, waited + 1)
        else Attempt([Deployed(t.id)], Some(t.id), waited)
  }

  // The retry loop from this attempt on.
  function Retry(trials: nat -> Trial, attempt: nat, tick: nat, cancel: Cancel): Attempt
    decreases MAX_ATTEMPTS - attempt
  {
    if attempt >= MAX_ATTEMPTS then Attempt([], None, tick)
    else
      var start := if attempt > 0 then tick + 1 else tick;
      if attempt > 0 && IsCancelled(cancel, start) then Attempt([], None, start)
      else
        var r := TryAllocate(trials(attempt), start, cancel);
        if r.id.Some? || IsCancelled(cancel, r.tick) then r
        else
          var rest := Retry(trials, attempt + 1, r.tick, cancel);
          Attempt(r.log + rest.log, rest.id, rest.tick)
  }

  lemma RetryStep(trials: nat -> Trial, attempt: nat, tick: nat, cancel: Cancel)
    ensures Retry(trials, attempt, tick, cancel) ==
            if attempt >= MAX_ATTEMPTS then Attempt([], None, tick)
            else if attempt > 0 && IsCancelled(cancel, tick + 1) then Attempt([], None, tick + 1)
            else
              var r := TryAllocate(trials(attempt), if attempt > 0 then tick + 1 else tick, cancel);
              var rest := Retry(trials, attempt + 1, r.tick, cancel);
              if r.id.Some? || IsCancelled(cancel, r.tick) then r else Attempt(r.log + rest.log, rest.id, rest.tick)
  {
    hide TryAllocate;
  }

  // The checks made before any deploy, each with its own notice.
  datatype Precheck = Clear | Abort(reason: Reason)

  function AllFailed(users: seq<string>, reason: Reason): seq<Event> {
    seq(|users|, i requires 0 <= i < |users| => MatchFailed(users[i], reason))
  }

  function AllReady(users: seq<string>, id: string): seq<Event> {
    seq(|users|, i requires 0 <= i < |users| => MatchReady(users[i], id))
  }

  // Everything one allocation does, in order.
  function Allocation(users: seq<string>, check: Precheck, trials: nat -> Trial, cancel: Cancel): seq<Event> {
    if check.Abort? then AllFailed(users, check.reason)
    else
      var r := Retry(trials, 0, 0, cancel);
      var cancelled := IsCancelled(cancel, r.tick + 1);
      if r.id.None? then r.log + AllFailed(users, if cancelled then Cancelled else AllocationFailed)
      else if cancelled then r.log + [StopTried(r.id.value, r.tick + 1, true)] + AllFailed(users, Cancelled)
      else r.log + AllReady(users, r.id.value)
  }

  // ----- What the attempts leave behind -----

  predicate IsNotice(e: Event) { e.MatchReady? || e.MatchFailed? }

  function Notices(log: seq<Event>): seq<Event> {
    if log == [] then [] else (if IsNotice(log[0]) then [log[0]] else []) + Notices(log[1..])
  }

  function Deploys(log: seq<Event>): nat {
    if log == [] then 0 else (if log[0].Deployed? then 1 else 0) + Deploys(log[1..])
  }

  lemma NoticesConcat(a: seq<Event>, b: seq<Event>)
    ensures Notices(a + b) == Notices(a) + Notices(b) && Deploys(a + b) == Deploys(a) + Deploys(b)
  {
    NoticesJoin(a, b);
    DeploysAdd(a, b);
  }

  lemma {:induction false} NoticesJoin(a: seq<Event>, b: seq<Event>)
    ensures Notices(a + b) == Notices(a) + Notices(b)
  {
    hide IsNotice;
    if a == [] {
      assert a + b == b;
    } else {
      NoticesJoin(a[1..], b);
      assert (a + b)[1..] == a[1..] + b && (a + b)[0] == a[0];
      var head := if IsNotice(a[0]) then [a[0]] else [];
      assert head + (Notices(a[1..]) + Notices(b)) == (head + Notices(a[1..])) + Notices(b);
    }
  }

  lemma {:induction false} DeploysAdd(a: seq<Event>, b: seq<Event>)
    ensures Deploys(a + b) == Deploys(a) + Deploys(b)
  {
    if a == [] {
      assert a + b == b;
    } else {
      DeploysAdd(a[1..], b);
      assert (a + b)[1..] == a[1..] + b && (a + b)[0] == a[0];
    }
  }

  lemma {:induction false} NoticesOfNotices(log: seq<Event>)
    requires forall e :: e in log ==> IsNotice(e)
    ensures Notices(log) == log && Deploys(log) == 0
  {
    if log != [] {
      NoticesOfNotices(log[1..]);
    }
  }

  // A deploy is accounted for when it is the one handed over or is stopped later on.
  ghost predicate AccountedFor(log: seq<Event>, handedOver: Option<string>) {
    forall i :: 0 <= i < |log| && log[i].Deployed? ==>
      handedOver == Some(log[i].id) || exists j :: i < j < |log| && log[j].StopTried? && log[j].id == log[i].id
  }

  lemma AccountedConcat(a: seq<Event>, b: seq<Event>, handedOver: Option<string>)
    requires AccountedFor(a, None) && AccountedFor(b, handedOver)
    ensures AccountedFor(a + b, handedOver)
  {
    var log := a + b;
    forall i | 0 <= i < |log| && log[i].Deployed?
      ensures handedOver == Some(log[i].id) || exists j :: i < j < |log| && log[j].StopTried? && log[j].id == log[i].id
    {
      if i < |a| {
        assert log[i] == a[i];
        var j :| i < j < |a| && a[j].StopTried? && a[j].id == a[i].id;
        assert log[j] == a[j];
      } else {
        var k := i - |a|;
        assert log[i] == b[k];
        if handedOver != Some(b[k].id) {
          var j :| k < j < |b| && b[j].StopTried? && b[j].id == b[k].id;
          assert log[|a| + j] == b[j];
        }
      }
    }
  }

  lemma TryIsAccountedFor(t: Trial, tick: nat, cancel: Cancel)
    ensures var r := TryAllocate(t, tick, cancel);
            && AccountedFor(r.log, r.id) && Deploys(r.log) <= 1 && Notices(r.log) == []
            && (r.id.Some? ==> r.log == [Deployed(r.id.value)])
  {
    hide PollUntilReady, WaitForServer, Notices, Deploys;
    var r := TryAllocate(t, tick, cancel);
    NothingYet();
    DeployAlone(t.id);
    if |r.log| == 2 {
      var stop := r.log[1];
      StopIsNoNotice(stop.id, stop.at, stop.live);
      NoticesConcat([Deployed(t.id)], [stop]);
      assert r.log == [Deployed(t.id)] + [stop];
      assert r.log[1].StopTried? && r.log[1].id == r.log[0].id;
    }
  }

  lemma DeployAlone(id: string)
    ensures Notices([Deployed(id)]) == [] && Deploys([Deployed(id)]) == 1
  {
    assert [Deployed(id)][1..] == [];
  }

  lemma {:induction false} RetryIsAccountedFor(trials: nat -> Trial, attempt: nat, tick: nat, cancel: Cancel)
    ensures var r := Retry(trials, attempt, tick, cancel);
            && AccountedFor(r.log, r.id) && Notices(r.log) == []
            && (attempt <= MAX_ATTEMPTS ==> Deploys(r.log) <= MAX_ATTEMPTS - attempt)
    decreases MAX_ATTEMPTS - attempt
  {
    hide TryAllocate, Notices, Deploys, AccountedFor;
    NothingYet();
    if attempt < MAX_ATTEMPTS {
      var start := if attempt > 0 then tick + 1 else tick;
      var r := TryAllocate(trials(attempt), start, cancel);
      TryIsAccountedFor(trials(attempt), start, cancel);
      if r.id.None? {
        RetryIsAccountedFor(trials, attempt + 1, r.tick, cancel);
        var rest := Retry(trials, attempt + 1, r.tick, cancel);
        NoticesConcat(r.log, rest.log);
        AccountedConcat(r.log, rest.log, rest.id);
        assert Notices(r.log) + Notices(rest.log) == [];
      }
    }
  }

  lemma NothingYet()
    ensures Notices([]) == [] && Deploys([]) == 0 && AccountedFor([], None)
  {
  }

  lemma NoticesAreAccountedFor(log: seq<Event>)
    requires forall e :: e in log ==> IsNotice(e)
    ensures AccountedFor(log, None)
  {
    forall i | 0 <= i < |log| ensures !log[i].Deployed? {
      assert log[i] in log;
    }
  }

  // ----- The main results -----

  // What the players hear, in terms of where the attempts ended.
  lemma NoticesSent(users: seq<string>, trials: nat -> Trial, cancel: Cancel)
    ensures var r := Retry(trials, 0, 0, cancel);
            Notices(Allocation(users, Clear, trials, cancel)) ==
            if IsCancelled(cancel, r.tick + 1) then AllFailed(users, Cancelled)
            else if r.id.None? then AllFailed(users, AllocationFailed)
            else AllReady(users, r.id.value)
  {
    hide Retry, Notices, Deploys;
    var r := Retry(trials, 0, 0, cancel);
    RetryIsAccountedFor(trials, 0, 0, cancel);
    if r.id.None? || IsCancelled(cancel, r.tick + 1) {
      var failed := AllFailed(users, if IsCancelled(cancel, r.tick + 1) then Cancelled else AllocationFailed);
      NoticesOfNotices(failed);
      NoticesConcat(r.log, failed);
      assert [] + failed == failed;
      if r.id.Some? {
        var stop := [StopTried(r.id.value, r.tick + 1, true)];
        NoticesConcat(r.log, stop);
        NoticesConcat(r.log + stop, failed);
        StopIsNoNotice(r.id.value, r.tick + 1, true);
      }
    } else {
      NoticesOfNotices(AllReady(users, r.id.value));
      NoticesConcat(r.log, AllReady(users, r.id.value));
      assert [] + AllReady(users, r.id.value) == AllReady(users, r.id.value);
    }
  }

  predicate HearReady(users: seq<string>, id: string, notices: seq<Event>) {
    |notices| == |users| && forall i :: 0 <= i < |users| ==> notices[i] == MatchReady(users[i], id)
  }

  predicate HearFailed(users: seq<string>, reason: Reason, notices: seq<Event>) {
    |notices| == |users| && forall i :: 0 <= i < |users| ==> notices[i] == MatchFailed(users[i], reason)
  }

  lemma AllHear(users: seq<string>)
    ensures forall id :: HearReady(users, id, AllReady(users, id))
    ensures forall reason :: HearFailed(users, reason, AllFailed(users, reason))
  {
  }

  // For every outcome of deploy, status and registration and every moment of
  // cancellation, each matched entry is told exactly once how it ends: all that the
  // match is ready on the same deploy, or all that it failed for the same reason. An abort
  // before any deploy tells its own reason, and nothing else happens.
  lemma EachEntryHearsOnce(users: seq<string>, check: Precheck, trials: nat -> Trial, cancel: Cancel)
    ensures var log := Allocation(users, check, trials, cancel);
            var notices := Notices(log);
            && ((exists id :: HearReady(users, id, notices)) || (exists reason :: HearFailed(users, reason, notices)))
            && (check.Abort? ==> log == notices && HearFailed(users, check.reason, notices))
  {
    hide Retry, Notices, Deploys;
    forall reason ensures Notices(AllFailed(users, reason)) == AllFailed(users, reason) {
      NoticesOfNotices(AllFailed(users, reason));
    }
    AllHear(users);
    hide AllReady, AllFailed, HearReady, HearFailed;
    if check.Clear? {
      NoticesSent(users, trials, cancel);
      var r := Retry(trials, 0, 0, cancel);
      if IsCancelled(cancel, r.tick + 1) || r.id.None? {
        assert HearFailed(users, Cancelled, AllFailed(users, Cancelled));
        assert HearFailed(users, AllocationFailed, AllFailed(users, AllocationFailed));
      } else {
        assert HearReady(users, r.id.value, AllReady(users, r.id.value));
      }
    } else {
      var log := Allocation(users, check, trials, cancel);
      assert log == AllFailed(users, check.reason) == Notices(log);
      assert HearFailed(users, check.reason, Notices(log));
    }
  }

  lemma StopIsNoNotice(id: string, at: nat, live: bool)
    ensures Notices([StopTried(id, at, live)]) == [] && Deploys([StopTried(id, at, live)]) == 0
  {
    assert [StopTried(id, at, live)][1..] == [];
  }

  lemma AtMostThreeDeploys(users: seq<string>, check: Precheck, trials: nat -> Trial, cancel: Cancel)
    ensures Deploys(Allocation(users, check, trials, cancel)) <= 3
  {
    hide Retry, Notices, Deploys;
    forall reason ensures Deploys(AllFailed(users, reason)) == 0 {
      NoticesOfNotices(AllFailed(users, reason));
    }
    if check.Clear? {
      var r := Retry(trials, 0, 0, cancel);
      RetryIsAccountedFor(trials, 0, 0, cancel);
      if r.id.None? {
        NoticesConcat(r.log, AllFailed(users, if IsCancelled(cancel, r.tick + 1) then Cancelled else AllocationFailed));
      } else {
        var stop := [StopTried(r.id.value, r.tick + 1, true)];
        NoticesConcat(r.log, stop);
        NoticesConcat(r.log + stop, AllFailed(users, Cancelled));
        StopIsNoNotice(r.id.value, r.tick + 1, true);
        NoticesOfNotices(AllReady(users, r.id.value));
        NoticesConcat(r.log, AllReady(users, r.id.value));
      }
    }
  }

  // The deploy a ready notice names, when there is one to name.
  function HandedOver(check: Precheck, trials: nat -> Trial, cancel: Cancel): Option<string> {
    if check.Abort? then None
    else
      var r := Retry(trials, 0, 0, cancel);
      if IsCancelled(cancel, r.tick + 1) then None else r.id
  }

  // Every deploy that was created is the one the players are sent to, or a stop was
  // tried on it afterwards.
  lemma NoDeployIsForgotten(users: seq<string>, check: Precheck, trials: nat -> Trial, cancel: Cancel)
    ensures var log := Allocation(users, check, trials, cancel);
            && AccountedFor(log, HandedOver(check, trials, cancel))
            && (HandedOver(check, trials, cancel).Some? ==>
                  Notices(log) == AllReady(users, HandedOver(check, trials, cancel).value))
  {
    hide Retry, Notices, Deploys, AccountedFor;
    EachEntryHearsOnce(users, check, trials, cancel);
    forall reason ensures AccountedFor(AllFailed(users, reason), None) {
      NoticesAreAccountedFor(AllFailed(users, reason));
    }
    if check.Clear? {
      var r := Retry(trials, 0, 0, cancel);
      RetryIsAccountedFor(trials, 0, 0, cancel);
      if r.id.None? {
        var reason := if IsCancelled(cancel, r.tick + 1) then Cancelled else AllocationFailed;
        AccountedConcat(r.log, AllFailed(users, reason), None);
      } else if IsCancelled(cancel, r.tick + 1) {
        StoppingAccounts(r.log, r.id.value, r.tick + 1);
        AccountedConcat(r.log + [StopTried(r.id.value, r.tick + 1, true)], AllFailed(users, Cancelled), None);
      } else {
        NoticesAreAccountedFor(AllReady(users, r.id.value));
        ReadyAfter(r.log, AllReady(users, r.id.value), r.id);
        NoticesOfNotices(AllReady(users, r.id.value));
        NoticesConcat(r.log, AllReady(users, r.id.value));
        assert [] + AllReady(users, r.id.value) == AllReady(users, r.id.value);
      }
    }
  }

  lemma StoppingAccounts(log: seq<Event>, id: string, at: nat)
    requires AccountedFor(log, Some(id))
    ensures AccountedFor(log + [StopTried(id, at, true)], None)
  {
    var all := log + [StopTried(id, at, true)];
    forall i | 0 <= i < |all| && all[i].Deployed?
      ensures exists j :: i < j < |all| && all[j].StopTried? && all[j].id == all[i].id
    {
      if log[i].id == id {
        assert all[|log|].id == id;
      } else {
        var j :| i < j < |log| && log[j].StopTried? && log[j].id == log[i].id;
        assert all[j] == log[j];
      }
    }
  }

  lemma ReadyAfter(log: seq<Event>, notices: seq<Event>, handedOver: Option<string>)
    requires AccountedFor(log, handedOver) && forall e :: e in notices ==> IsNotice(e)
    ensures AccountedFor(log + notices, handedOver)
  {
    var all := log + notices;
    forall k | 0 <= k < |notices| ensures !notices[k].Deployed? {
      assert notices[k] in notices;
    }
    forall i | 0 <= i < |all| && all[i].Deployed?
      ensures handedOver == Some(all[i].id) || exists j :: i < j < |all| && all[j].StopTried? && all[j].id == all[i].id
    {
      if i < |log| && handedOver != Some(log[i].id) {
        var j :| i < j < |log| && log[j].StopTried? && log[j].id == log[i].id;
        assert all[j] == log[j];
      }
    }
  }

  // The attempt deployed, came up with an address and a TCP port, and registered.
  predicate Usable(t: Trial) {
    t.deploys && Ready(true, true) in t.polls && true in t.shows
  }

  lemma {:induction false} PollFindsReady(polls: seq<Poll>, tick: nat, cancel: Cancel)
    ensures PollUntilReady(polls, tick, cancel).0.Some? ==> PollUntilReady(polls, tick, cancel).0.value in polls
  {
    if polls != [] && !IsCancelled(cancel, tick + 2) {
      PollFindsReady(polls[1..], tick + 2, cancel);
    }
  }

  lemma {:induction false} WaitFindsServer(shows: seq<bool>, tick: nat, cancel: Cancel)
    ensures WaitForServer(shows, tick, cancel).0 ==> true in shows
  {
    if |shows| > 1 && !IsCancelled(cancel, tick + 2) {
      WaitFindsServer(shows[1..], tick + 2, cancel);
    }
  }

  lemma AttemptIsUsable(t: Trial, tick: nat, cancel: Cancel)
    ensures var r := TryAllocate(t, tick, cancel);
            && (r.id.Some? ==> Usable(t) && r.id.value == t.id && r.log == [Deployed(t.id)])
            && forall i :: 0 <= i < |r.log| && r.log[i].StopTried? ==> r.log[i].id == t.id
  {
    hide PollUntilReady, WaitForServer;
    PollFindsReady(t.polls, tick + 1, cancel);
    WaitFindsServer(t.shows, PollUntilReady(t.polls, tick + 1, cancel).1, cancel);
  }

  lemma {:induction false} HandedOverIsUsable(trials: nat -> Trial, attempt: nat, tick: nat, cancel: Cancel)
    returns (k: nat)
    requires Retry(trials, attempt, tick, cancel).id.Some?
    ensures var r := Retry(trials, attempt, tick, cancel);
            && attempt <= k < MAX_ATTEMPTS && Usable(trials(k)) && trials(k).id == r.id.value
            && forall i :: 0 <= i < |r.log| && r.log[i].StopTried? ==>
                 exists m :: attempt <= m < k && trials(m).id == r.log[i].id
    decreases MAX_ATTEMPTS - attempt
  {
    var start := if attempt > 0 then tick + 1 else tick;
    var r := TryAllocate(trials(attempt), start, cancel);
    AttemptIsUsable(trials(attempt), start, cancel);
    if r.id.Some? {
      return attempt;
    }
    k := HandedOverIsUsable(trials, attempt + 1, r.tick, cancel);
    var rest, all := Retry(trials, attempt + 1, r.tick, cancel).log, Retry(trials, attempt, tick, cancel).log;
    forall i | 0 <= i < |all| && all[i].StopTried?
      ensures exists m :: attempt <= m < k && trials(m).id == all[i].id
    {
      if i < |r.log| {
        assert trials(attempt).id == all[i].id;
      } else {
        assert all[i] == rest[i - |r.log|];
        var m :| attempt + 1 <= m < k && trials(m).id == rest[i - |r.log|].id;
        assert trials(m).id == all[i].id;
      }
    }
  }

  // The deploy the players are sent to answered with an address and a TCP port and
  // its server registered; and, request ids being distinct, no stop was tried on it.
  lemma ReadyDeployIsUsableAndLeftRunning(users: seq<string>, trials: nat -> Trial, cancel: Cancel, i: nat)
    requires HandedOver(Clear, trials, cancel).Some?
    requires forall k, m :: 0 <= m < k < MAX_ATTEMPTS ==> trials(m).id != trials(k).id
    requires i < |Allocation(users, Clear, trials, cancel)|
    ensures exists k :: 0 <= k < MAX_ATTEMPTS && Usable(trials(k))
              && trials(k).id == HandedOver(Clear, trials, cancel).value
    ensures var e := Allocation(users, Clear, trials, cancel)[i];
            e.StopTried? ==> e.id != HandedOver(Clear, trials, cancel).value
  {
    hide Retry, Usable;
    var k := HandedOverIsUsable(trials, 0, 0, cancel);
  }

  // ----- Deploys left running -----

  // A deploy is orphaned when nobody is sent to it and no later stop of it is made
  // under a live context, so that none reaches Edgegap.
  ghost predicate IsOrphan(log: seq<Event>, handedOver: Option<string>, i: nat)
    requires i < |log|
  {
    && log[i].Deployed? && handedOver != Some(log[i].id)
    && forall j :: i < j < |log| && log[j].StopTried? && log[j].id == log[i].id ==> !log[j].live
  }

  ghost predicate LeavesOrphan(log: seq<Event>, handedOver: Option<string>) {
    exists i :: 0 <= i < |log| && IsOrphan(log, handedOver, i)
  }

  // The polls answered not-ready, or not at all, before the first ready one.
  function Waits(polls: seq<Poll>): (n: nat)
    ensures n <= |polls| && forall i :: 0 <= i < n ==> !polls[i].Ready?
    ensures n < |polls| ==> polls[n].Ready?
  {
    if polls == [] || polls[0].Ready? then 0 else 1 + Waits(polls[1..])
  }

  // The reads before the one that finds the server registered.
  function Misses(shows: seq<bool>): (n: nat)
    ensures n <= |shows| && forall i :: 0 <= i < n ==> !shows[i]
    ensures n < |shows| ==> shows[n]
  {
    if shows == [] || shows[0] then 0 else 1 + Misses(shows[1..])
  }

  predicate Succeeds(t: Trial) {
    && t.deploys && Waits(t.polls) < |t.polls| && t.polls[Waits(t.polls)] == Ready(true, true)
    && Misses(t.shows) < |t.shows|
  }

  // The blocking steps an attempt takes when no cancel cuts it short: the deploy; two for
  // each poll that does not find the deploy ready, one for the poll that does; two for each
  // read that does not find the server registered, one for the read that does or that is
  // the last; and the stop of a deploy that is given up.
  function Length(t: Trial): (n: nat)
    ensures n >= 1
  {
    if !t.deploys then 1
    else
      var n := Waits(t.polls);
      if n == |t.polls| then 2 * n + 2
      else if t.polls[n] != Ready(true, true) then 2 * n + 3
      else if Misses(t.shows) < |t.shows| then 2 * n + 2 * Misses(t.shows) + 3
      else 2 * n + 2 * (if t.shows == [] then 1 else |t.shows|) + 2
  }

  // When an attempt starts, the earlier ones having failed with no cancel.
  function StartOf(trials: nat -> Trial, k: nat): nat {
    if k == 0 then 0 else StartOf(trials, k - 1) + Length(trials(k - 1)) + 1
  }

  // The attempt deploys, and the cancel comes between its beginning and its last step: the
  // read that finds its server registered, or the stop of a deploy it gives up.
  predicate CaughtIn(t: Trial, start: nat, cancel: nat) {
    t.deploys && start < cancel < start + Length(t)
  }

  // The cancel catches this attempt, the ones before it having failed.
  predicate CatchesAt(trials: nat -> Trial, cancel: nat, from: nat, k: nat) {
    && (forall m :: from <= m < k ==> !Succeeds(trials(m)))
    && CaughtIn(trials(k), StartOf(trials, k), cancel)
  }

  predicate CancelCatches(trials: nat -> Trial, cancel: Cancel, from: nat) {
    cancel.Some? && exists k :: from <= k < MAX_ATTEMPTS && CatchesAt(trials, cancel.value, from, k)
  }

  // Polling up to the first ready answer, or up to the first sleep a cancel cuts.
  lemma {:induction false} PollsInTime(polls: seq<Poll>, tick: nat, cancel: Cancel)
    ensures var n := Waits(polls);
            var r := PollUntilReady(polls, tick, cancel);
            if n < |polls| then
              if IsCancelled(cancel, tick + 2 * n) then r.0.None? && IsCancelled(cancel, r.1)
              else r == (Some(polls[n]), tick + 2 * n + 1)
            else
              && r.0.None?
              && if IsCancelled(cancel, tick + 2 * n) then IsCancelled(cancel, r.1) else r.1 == tick + 2 * n
  {
    if polls != [] && !polls[0].Ready? && !IsCancelled(cancel, tick + 2) {
      PollsInTime(polls[1..], tick + 2, cancel);
    }
  }

  // Reading up to the one that finds the row, the last one, or the first wait a cancel cuts.
  lemma {:induction false} ReadsInTime(shows: seq<bool>, tick: nat, cancel: Cancel)
    ensures var n := Misses(shows);
            var last := tick + 2 * (if n < |shows| then n else if n == 0 then 0 else n - 1);
            var r := WaitForServer(shows, tick, cancel);
            if n < |shows| then
              if IsCancelled(cancel, last) then !r.0 && IsCancelled(cancel, r.1) else r == (true, last + 1)
            else !r.0 && if IsCancelled(cancel, last + 1) then IsCancelled(cancel, r.1) else r.1 == last + 1
  {
    if |shows| > 1 && !shows[0] && !IsCancelled(cancel, tick + 2) {
      ReadsInTime(shows[1..], tick + 2, cancel);
    }
  }

  // An attempt the cancel does not catch runs its course and stops its deploy live; one
  // it catches is cut short, its deploy stopped under the dead context; and one that
  // begins under the dead context deploys nothing.
  lemma AttemptCaughtOrNot(t: Trial, start: nat, cancel: Cancel)
    ensures var r := TryAllocate(t, start, cancel);
            var stop := start + Length(t) - 1;
            if IsCancelled(cancel, start) then r == Attempt([], None, start + 1)
            else if cancel.Some? && CaughtIn(t, start, cancel.value) then
              && r.id.None? && IsCancelled(cancel, r.tick)
              && |r.log| == 2 && r.log[0] == Deployed(t.id) && r.log[1].StopTried? && !r.log[1].live
            else
              && r.id == (if Succeeds(t) then Some(t.id) else None) && r.tick == start + Length(t)
              && r.log == if Succeeds(t) then [Deployed(t.id)] else if !t.deploys then []
                          else [Deployed(t.id), StopTried(t.id, stop, true)]
  {
    hide PollUntilReady, Waits, WaitForServer, Misses;
    PollsInTime(t.polls, start + 1, cancel);
    ReadsInTime(t.shows, start + 2 + 2 * Waits(t.polls), cancel);
  }

  // Events that leave no orphan of their own leave what follows them to decide.
  lemma OrphansBehind(a: seq<Event>, b: seq<Event>, handedOver: Option<string>)
    requires !LeavesOrphan(a, None)
    ensures LeavesOrphan(a + b, handedOver) <==> LeavesOrphan(b, handedOver)
  {
    var log := a + b;
    forall i | 0 <= i < |a| && log[i].Deployed? ensures !IsOrphan(log, handedOver, i) {
      assert !IsOrphan(a, None, i);
      var j :| i < j < |a| && a[j].StopTried? && a[j].id == a[i].id && a[j].live;
      assert log[j] == a[j];
    }
    forall i | 0 <= i < |b| ensures IsOrphan(log, handedOver, |a| + i) <==> IsOrphan(b, handedOver, i) {
      assert forall j :: i < j < |b| ==> b[j] == log[|a| + j];
      assert forall j :: |a| + i < j < |log| ==> log[j] == b[j - |a|];
    }
    if LeavesOrphan(b, handedOver) {
      var i :| 0 <= i < |b| && IsOrphan(b, handedOver, i);
      assert IsOrphan(log, handedOver, |a| + i);
    }
    if LeavesOrphan(log, handedOver) {
      var i :| 0 <= i < |log| && IsOrphan(log, handedOver, i);
      assert i >= |a| ==> IsOrphan(b, handedOver, i - |a|);
    }
  }

  // Notices settle nothing about a deploy.
  lemma OrphansBeforeNotices(log: seq<Event>, notices: seq<Event>, handedOver: Option<string>)
    requires forall e :: e in notices ==> IsNotice(e)
    ensures LeavesOrphan(log + notices, handedOver) <==> LeavesOrphan(log, handedOver)
  {
    var all := log + notices;
    forall i | |log| <= i < |all| ensures !all[i].Deployed? && !all[i].StopTried? {
      assert all[i] in notices;
    }
    forall i | 0 <= i < |log| ensures IsOrphan(all, handedOver, i) <==> IsOrphan(log, handedOver, i) {
      assert forall j :: 0 <= j < |log| ==> all[j] == log[j];
    }
    if LeavesOrphan(log, handedOver) {
      var i :| 0 <= i < |log| && IsOrphan(log, handedOver, i);
      assert IsOrphan(all, handedOver, i);
    }
  }

  // A live stop settles the deploys of one id as sending the players there would.
  lemma OrphansBeforeStop(log: seq<Event>, id: string, at: nat)
    ensures LeavesOrphan(log + [StopTried(id, at, true)], None) <==> LeavesOrphan(log, Some(id))
  {
    var all := log + [StopTried(id, at, true)];
    forall i | 0 <= i < |log| ensures IsOrphan(all, None, i) <==> IsOrphan(log, Some(id), i) {
      assert forall j :: 0 <= j < |log| ==> all[j] == log[j];
      assert all[|log|].live && all[|log|].id == id;
    }
    if LeavesOrphan(log, Some(id)) {
      var i :| 0 <= i < |log| && IsOrphan(log, Some(id), i);
      assert IsOrphan(all, None, i);
    }
  }

  lemma NothingLeft(id: string, at: nat)
    ensures !LeavesOrphan([], None) && !LeavesOrphan([Deployed(id)], Some(id))
    ensures !LeavesOrphan([Deployed(id), StopTried(id, at, true)], None)
  {
    var log := [Deployed(id), StopTried(id, at, true)];
    assert log[1].live && log[1].id == log[0].id;
  }

  lemma StoppedInVain(log: seq<Event>, id: string)
    requires |log| == 2 && log[0] == Deployed(id) && log[1].StopTried? && !log[1].live
    ensures LeavesOrphan(log, None)
  {
    assert IsOrphan(log, None, 0);
  }

  // Which attempt is caught, if this one is or is not.
  lemma CatchesNextOrLater(trials: nat -> Trial, cancel: nat, from: nat)
    requires from < MAX_ATTEMPTS && !CatchesAt(trials, cancel, from, from)
    ensures CancelCatches(trials, Some(cancel), from) <==>
            !Succeeds(trials(from)) && CancelCatches(trials, Some(cancel), from + 1)
  {
    hide CaughtIn, Succeeds, StartOf;
    if CancelCatches(trials, Some(cancel), from) {
      var k :| from <= k < MAX_ATTEMPTS && CatchesAt(trials, cancel, from, k);
      assert !Succeeds(trials(from)) && CatchesAt(trials, cancel, from + 1, k);
    }
    if !Succeeds(trials(from)) && CancelCatches(trials, Some(cancel), from + 1) {
      var k :| from + 1 <= k < MAX_ATTEMPTS && CatchesAt(trials, cancel, from + 1, k);
      assert CatchesAt(trials, cancel, from, k);
    }
  }

  // An attempt not yet begun when the cancel comes is never begun.
  lemma CatchesNoneTooLate(trials: nat -> Trial, cancel: nat, from: nat)
    requires cancel <= StartOf(trials, from)
    ensures !CancelCatches(trials, Some(cancel), from)
  {
    forall k | from <= k < MAX_ATTEMPTS ensures StartOf(trials, k) >= StartOf(trials, from) {
      StartsInOrder(trials, from, k);
    }
  }

  lemma {:induction false} StartsInOrder(trials: nat -> Trial, j: nat, k: nat)
    requires j <= k
    ensures StartOf(trials, j) <= StartOf(trials, k)
  {
    if j < k {
      StartsInOrder(trials, j, k - 1);
    }
  }

  // The tick at which the loop turns to an attempt, before the pause ahead of it.
  function TurnOf(trials: nat -> Trial, k: nat): nat {
    if k == 0 then 0 else StartOf(trials, k) - 1
  }

  lemma {:induction false} AttemptsLeaveOrphansExactlyWhen(trials: nat -> Trial, attempt: nat, cancel: Cancel)
    ensures var r := Retry(trials, attempt, TurnOf(trials, attempt), cancel);
            LeavesOrphan(r.log, r.id) <==> CancelCatches(trials, cancel, attempt)
    decreases MAX_ATTEMPTS - attempt
  {
    hide TryAllocate, Succeeds, Length, IsOrphan, LeavesOrphan;
    var start := StartOf(trials, attempt);
    NothingLeft("", 0);
    RetryStep(trials, attempt, TurnOf(trials, attempt), cancel);
    if attempt >= MAX_ATTEMPTS {
    } else if attempt > 0 && IsCancelled(cancel, start) {
      CatchesNoneTooLate(trials, cancel.value, attempt);
    } else {
      var t, r := trials(attempt), TryAllocate(trials(attempt), start, cancel);
      AttemptCaughtOrNot(t, start, cancel);
      if cancel.Some? && CaughtIn(t, start, cancel.value) {
        StoppedInVain(r.log, t.id);
        assert CatchesAt(trials, cancel.value, attempt, attempt);
      } else {
        AttemptsGoOn(trials, attempt, cancel, r);
      }
    }
  }

  // The case of an attempt that runs its course.
  lemma {:induction false} AttemptsGoOn(trials: nat -> Trial, attempt: nat, cancel: Cancel, r: Attempt)
    requires attempt < MAX_ATTEMPTS && (attempt > 0 ==> !IsCancelled(cancel, StartOf(trials, attempt)))
    requires !(cancel.Some? && CaughtIn(trials(attempt), StartOf(trials, attempt), cancel.value))
    requires r == TryAllocate(trials(attempt), StartOf(trials, attempt), cancel)
    ensures var all := Retry(trials, attempt, TurnOf(trials, attempt), cancel);
            LeavesOrphan(all.log, all.id) <==> CancelCatches(trials, cancel, attempt)
    decreases MAX_ATTEMPTS - attempt, 0
  {
    hide TryAllocate, CaughtIn, Succeeds, Length, IsOrphan, LeavesOrphan;
    var t, start := trials(attempt), StartOf(trials, attempt);
    AttemptCaughtOrNot(t, start, cancel);
    RetryStep(trials, attempt, TurnOf(trials, attempt), cancel);
    NothingLeft(t.id, start + Length(t) - 1);
    if cancel.Some? {
      CatchesNextOrLater(trials, cancel.value, attempt);
    }
    if r.id.None? {
      if IsCancelled(cancel, r.tick) {
        CatchesNoneTooLate(trials, cancel.value, attempt + 1);
      } else {
        AttemptsLeaveOrphansExactlyWhen(trials, attempt + 1, cancel);
        var rest := Retry(trials, attempt + 1, r.tick, cancel);
        OrphansBehind(r.log, rest.log, rest.id);
      }
    }
  }

  // A deploy is created that nobody is sent to and no live stop reaches if and only if
  // the cancel comes inside some attempt: after it began, and before the read that would
  // find its server registered, or the stop of the deploy it would give up.
  lemma OrphanIsLeftExactlyWhen(users: seq<string>, trials: nat -> Trial, cancel: Cancel)
    ensures LeavesOrphan(Allocation(users, Clear, trials, cancel), HandedOver(Clear, trials, cancel)) <==>
            CancelCatches(trials, cancel, 0)
  {
    hide Retry, IsOrphan, LeavesOrphan, CancelCatches;
    var r := Retry(trials, 0, 0, cancel);
    AttemptsLeaveOrphansExactlyWhen(trials, 0, cancel);
    if r.id.None? {
      var reason := if IsCancelled(cancel, r.tick + 1) then Cancelled else AllocationFailed;
      OrphansBeforeNotices(r.log, AllFailed(users, reason), None);
    } else if IsCancelled(cancel, r.tick + 1) {
      OrphansBeforeStop(r.log, r.id.value, r.tick + 1);
      OrphansBeforeNotices(r.log + [StopTried(r.id.value, r.tick + 1, true)], AllFailed(users, Cancelled), None);
    } else {
      OrphansBeforeNotices(r.log, AllReady(users, r.id.value), r.id);
    }
  }

  // So a cancel while the first deploy is still starting has it stopped in vain.
  lemma CancelWhilePollingStopsInVain(user: string, id: string, shows: seq<bool>, trials: nat -> Trial)
    requires trials(0) == Trial(true, id, [NotReady], shows)
    ensures Allocation([user], Clear, trials, Some(3)) ==
            [Deployed(id), StopTried(id, 3, false), MatchFailed(user, Cancelled)]
    ensures LeavesOrphan(Allocation([user], Clear, trials, Some(3)), HandedOver(Clear, trials, Some(3)))
  {
    assert Retry(trials, 0, 0, Some(3)) == Attempt([Deployed(id), StopTried(id, 3, false)], None, 4);
    assert AllFailed([user], Cancelled) == [MatchFailed(user, Cancelled)];
    OrphanIsLeftExactlyWhen([user], trials, Some(3));
    assert CatchesAt(trials, 3, 0, 0);
  }

  // And so does one that comes while a deploy that is up waits for its server, although
  // the server was about to register.
  lemma CancelWhileRegisteringStopsInVain(user: string, id: string, trials: nat -> Trial)
    requires trials(0) == Trial(true, id, [Ready(true, true)], [false, true])
    ensures Usable(trials(0)) && Succeeds(trials(0))
    ensures Allocation([user], Clear, trials, Some(4)) ==
            [Deployed(id), StopTried(id, 4, false), MatchFailed(user, Cancelled)]
    ensures LeavesOrphan(Allocation([user], Clear, trials, Some(4)), HandedOver(Clear, trials, Some(4)))
  {
    assert [false, true][1] && [false, true][1..] == [true] && Ready(true, true) in [Ready(true, true)];
    assert Misses([true]) == 0 && Misses([false, true]) == 1;
    assert PollUntilReady([Ready(true, true)], 1, Some(4)) == (Some(Ready(true, true)), 2);
    assert WaitForServer([false, true], 2, Some(4)) == (false, 4);
    assert Retry(trials, 0, 0, Some(4)) == Attempt([Deployed(id), StopTried(id, 4, false)], None, 5);
    assert AllFailed([user], Cancelled) == [MatchFailed(user, Cancelled)];
    OrphanIsLeftExactlyWhen([user], trials, Some(4));
    assert CatchesAt(trials, 4, 0, 0);
  }

  // The moment of the last look for a cancel in an allocation that none interrupts.
  function LastLook(trials: nat -> Trial): nat { Retry(trials, 0, 0, None).tick + 1 }

  // A cancel that cuts an allocation short comes before its uninterrupted end, and is
  // there to be seen at the end it makes; any other changes nothing.
  lemma {:induction false} CancelCutsOrChangesNothing(trials: nat -> Trial, attempt: nat, cancel: Cancel)
    ensures var turn := TurnOf(trials, attempt);
            var r, free := Retry(trials, attempt, turn, cancel), Retry(trials, attempt, turn, None);
            && (r == free || (cancel.Some? && cancel.value <= r.tick && cancel.value <= free.tick))
            && (attempt < MAX_ATTEMPTS ==> StartOf(trials, attempt) + Length(trials(attempt)) <= free.tick)
    decreases MAX_ATTEMPTS - attempt
  {
    hide TryAllocate, Succeeds, Length;
    var turn := TurnOf(trials, attempt);
    RetryStep(trials, attempt, turn, cancel);
    RetryStep(trials, attempt, turn, None);
    if attempt < MAX_ATTEMPTS {
      var t, start := trials(attempt), StartOf(trials, attempt);
      AttemptCaughtOrNot(t, start, cancel);
      AttemptCaughtOrNot(t, start, None);
      CancelCutsOrChangesNothing(trials, attempt + 1, cancel);
      RetryTakesTime(trials, attempt + 1, TryAllocate(t, start, None).tick);
    }
  }

  lemma {:induction false} RetryTakesTime(trials: nat -> Trial, attempt: nat, tick: nat)
    ensures tick <= Retry(trials, attempt, tick, None).tick
    decreases MAX_ATTEMPTS - attempt
  {
    hide TryAllocate;
    RetryStep(trials, attempt, tick, None);
    if attempt < MAX_ATTEMPTS {
      var start := if attempt > 0 then tick + 1 else tick;
      AttemptCaughtOrNot(trials(attempt), start, None);
      RetryTakesTime(trials, attempt + 1, TryAllocate(trials(attempt), start, None).tick);
    }
  }

  // The players are told of a cancel if and only if it comes by the last look that the
  // allocation would take if left alone; a later one is not heard.
  lemma CancelIsHeardExactlyWhen(users: seq<string>, trials: nat -> Trial, cancel: Cancel)
    requires users != []
    ensures Notices(Allocation(users, Clear, trials, cancel)) == AllFailed(users, Cancelled) <==>
            IsCancelled(cancel, LastLook(trials))
    ensures !IsCancelled(cancel, LastLook(trials)) ==>
              Allocation(users, Clear, trials, cancel) == Allocation(users, Clear, trials, None)
  {
    hide Retry, Notices;
    var r := Retry(trials, 0, 0, cancel);
    CancelCutsOrChangesNothing(trials, 0, cancel);
    NoticesSent(users, trials, cancel);
    assert AllFailed(users, Cancelled)[0] == MatchFailed(users[0], Cancelled);
    assert AllFailed(users, AllocationFailed)[0] == MatchFailed(users[0], AllocationFailed);
    assert r.id.Some? ==> AllReady(users, r.id.value)[0] == MatchReady(users[0], r.id.value);
  }

  // ----- The imperative allocation -----

  class FleetAllocator {
    // Everything done for the match, in order, and the blocking steps taken.
    var log: seq<Event>
    var tick: nat

    constructor ()
      ensures log == [] && tick == 0
    {
      log, tick := [], 0;
    }

    method Deploy(t: Trial, cancel: Cancel) returns (id: Option<string>)
      modifies this
      ensures tick == old(tick) + 1
      ensures id == if t.deploys && !IsCancelled(cancel, old(tick)) then Some(t.id) else None
      ensures log == if id.Some? then old(log) + [Deployed(t.id)] else old(log)
    {
      var dead := IsCancelled(cancel, tick);
      tick := tick + 1;
      if !t.deploys || dead {
        return None;
      }
      log := log + [Deployed(t.id)];
      return Some(t.id);
    }

    method PollDeploy(polls: seq<Poll>, cancel: Cancel) returns (status: Option<Poll>)
      modifies this`tick
      ensures (status, tick) == PollUntilReady(polls, old(tick), cancel)
    {
      for i := 0 to |polls|
        invariant PollUntilReady(polls, old(tick), cancel) == PollUntilReady(polls[i..], tick, cancel)
      {
        var dead := IsCancelled(cancel, tick);
        tick := tick + 1;
        if polls[i].Ready? && !dead {
          return Some(polls[i]);
        }
        tick := tick + 1;
        if IsCancelled(cancel, tick) {
          return None;
        }
        assert polls[i..][1..] == polls[i + 1..];
      }
      return None;
    }

    // The read loop: a row ends it, then the deadline, then a cancelled wait.
    method WaitForServerRegistered(shows: seq<bool>, cancel: Cancel) returns (registered: bool)
      modifies this`tick
      ensures (registered, tick) == WaitForServer(shows, old(tick), cancel)
    {
      var i := 0;
      while true
        invariant i <= |shows| && (i > 0 ==> i < |shows|)
        invariant WaitForServer(shows, old(tick), cancel) == WaitForServer(shows[i..], tick, cancel)
        decreases |shows| - i
      {
        var dead := IsCancelled(cancel, tick);
        tick := tick + 1;
        if i < |shows| && shows[i] && !dead {
          return true;
        }
        if i + 1 >= |shows| {
          return false;
        }
        tick := tick + 1;
        if IsCancelled(cancel, tick) {
          return false;
        }
        assert shows[i..][1..] == shows[i + 1..];
        i := i + 1;
      }
    }

    method TryAllocateOnce(t: Trial, cancel: Cancel) returns (id: Option<string>)
      modifies this
      ensures var r := TryAllocate(t, old(tick), cancel);
              id == r.id && log == old(log) + r.log && tick == r.tick
    {
      ghost var before := log;
      var deploy := Deploy(t, cancel);
      if deploy.None? {
        assert before + [] == log;
        return None;
      }
      var status := PollDeploy(t.polls, cancel);
      if status.None? || !status.value.hasIp || !status.value.hasTcpPort {
        Stop(t.id, !IsCancelled(cancel, tick));
        assert log == before + [Deployed(t.id), StopDeploy(t.id, tick - 1, cancel)];
        return None;
      }
      var registered := WaitForServerRegistered(t.shows, cancel);
      if !registered {
        Stop(t.id, !IsCancelled(cancel, tick));
        assert log == before + [Deployed(t.id), StopDeploy(t.id, tick - 1, cancel)];
        return None;
      }
      return Some(t.id);
    }

    method Stop(id: string, live: bool)
      modifies this
      ensures log == old(log) + [StopTried(id, old(tick), live)] && tick == old(tick) + 1
    {
      log := log + [StopTried(id, tick, live)];
      tick := tick + 1;
    }

    // The retry loop: stops at the first success, and gives up once cancelled.
    method RetryAllocation(trials: nat -> Trial, cancel: Cancel) returns (deploy: Option<string>)
      requires log == [] && tick == 0
      modifies this
      ensures Retry(trials, 0, 0, cancel) == Attempt(log, deploy, tick)
    {
      hide TryAllocate, Retry;
      ghost var whole := Retry(trials, 0, 0, cancel);
      assert [] + whole.log == whole.log;
      for attempt := 0 to MAX_ATTEMPTS
        invariant var rest := Retry(trials, attempt, tick, cancel);
                  whole == Attempt(log + rest.log, rest.id, rest.tick)
      {
        ghost var before := log;
        RetryStep(trials, attempt, tick, cancel);
        if attempt > 0 {
          tick := tick + 1;
          if IsCancelled(cancel, tick) {
            assert log + [] == log;
            return None;
          }
        }
        deploy := TryAllocateOnce(trials(attempt), cancel);
        if deploy.Some? {
          return;
        }
        if IsCancelled(cancel, tick) {
          return None;
        }
        ghost var tried, more := log[|before|..], Retry(trials, attempt + 1, tick, cancel).log;
        assert log == before + tried;
        assert before + (tried + more) == (before + tried) + more;
      }
      RetryStep(trials, MAX_ATTEMPTS, tick, cancel);
      assert log + [] == log;
      return None;
    }

    method RunAllocation(users: seq<string>, check: Precheck, trials: nat -> Trial, cancel: Cancel)
      requires log == [] && tick == 0
      modifies this
      ensures log == Allocation(users, check, trials, cancel)
    {
      hide Retry;
      if check.Abort? {
        SendFailed(users, check.reason);
        return;
      }
      var deploy := RetryAllocation(trials, cancel);
      tick := tick + 1;
      if deploy.None? {
        if IsCancelled(cancel, tick) {
          SendFailed(users, Cancelled);
          return;
        }
        SendFailed(users, AllocationFailed);
        return;
      }
      if IsCancelled(cancel, tick) {
        Stop(deploy.value, true);
        SendFailed(users, Cancelled);
        return;
      }
      ghost var before := log;
      for i := 0 to |users|
        invariant log == before + AllReady(users[..i], deploy.value)
      {
        log := log + [MatchReady(users[i], deploy.value)];
        assert AllReady(users[..i + 1], deploy.value) ==
               AllReady(users[..i], deploy.value) + [MatchReady(users[i], deploy.value)];
      }
      assert users[..|users|] == users;
    }

    method SendFailed(users: seq<string>, reason: Reason)
      modifies this`log
      ensures log == old(log) + AllFailed(users, reason)
    {
      ghost var before := log;
      for i := 0 to |users|
        invariant log == before + AllFailed(users[..i], reason)
      {
        log := log + [MatchFailed(users[i], reason)];
        assert AllFailed(users[..i + 1], reason) == AllFailed(users[..i], reason) + [MatchFailed(users[i], reason)];
      }
      assert users[..|users|] == users;
    }
  }
}
