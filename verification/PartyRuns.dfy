// Readiness and starts told by the calls of a run and their answers alone.
module PartyRuns {
  import opened CodeTable
  import opened Party
  import opened PartyInvariants
  import opened PartyAuthority
  import opened PartyTheorems

  // The user's own call has set them ready in p.
  predicate SetsReady(w: World, op: Op, p: PartyId, u: UserId) {
    op == OpSetReady(u, p, true) && Step(w, op).1 == Done
  }

  // The call has withdrawn or spent the readiness of u in p.
  predicate Unreadies(w: World, op: Op, p: PartyId, u: UserId) {
    var answer := Step(w, op).1;
    match op
    case OpSetReady(v, q, ready) => answer == Done && q == p && v == u && !ready
    case OpInvite(_, q, t) => answer == Done && q == p && t == u
    case OpJoin(_, q) => answer == Done && q == p
    case OpJoinByCode(v, _) =>
      answer == InParty(p) && p in w.groups && v !in w.groups[p].active && v !in w.groups[p].pending
    case OpLeave(v, q) => answer == Done && q == p && v == u
    case OpKick(_, q, ts) => answer == Done && q == p && u in ts
    case OpDeleteAccount(_, listed) => p in FirstPages(listed)
    case OpStart(_, q, _) => answer == Done && q == p
    case _ => false
  }

  predicate StartsAt(w: World, op: Op, p: PartyId, at: int) {
    op.OpStart? && op.p == p && op.now == at && Step(w, op).1 == Done
  }

  predicate Aborts(w: World, op: Op, p: PartyId) {
    op.OpAbort? && op.p == p && Step(w, op).1 == Done
  }

  // The world the call of that index finds.
  function At(ops: seq<Op>, i: nat): World
    requires i <= |ops|
  {
    Run(EMPTY_WORLD, ops[..i])
  }

  // In the run u was answered ok to set ready in p, and nothing has unreadied them since.
  ghost predicate ReadyInRun(ops: seq<Op>, p: PartyId, u: UserId) {
    exists i :: 0 <= i < |ops| && SetsReady(At(ops, i), ops[i], p, u) &&
                forall j :: i < j < |ops| ==> !Unreadies(At(ops, j), ops[j], p, u)
  }

  // In the run p started at that time, and no abort for p was answered ok since.
  ghost predicate UnabortedInRun(ops: seq<Op>, p: PartyId, at: int) {
    exists i :: 0 <= i < |ops| && StartsAt(At(ops, i), ops[i], p, at) &&
                forall j :: i < j < |ops| ==> !Aborts(At(ops, j), ops[j], p)
  }

  // ----- One call more -----

  lemma Prefixes(ops: seq<Op>, op: Op)
    ensures forall i :: 0 <= i <= |ops| ==> At(ops + [op], i) == At(ops, i)
    ensures At(ops, |ops|) == Run(EMPTY_WORLD, ops)
  {
    forall i | 0 <= i <= |ops| ensures At(ops + [op], i) == At(ops, i) {
      assert (ops + [op])[..i] == ops[..i];
    }
    assert ops[..|ops|] == ops;
  }

  lemma ReadyExtends(ops: seq<Op>, op: Op, p: PartyId, u: UserId)
    ensures var w := Run(EMPTY_WORLD, ops);
            ReadyInRun(ops + [op], p, u) <==>
            SetsReady(w, op, p, u) || (ReadyInRun(ops, p, u) && !Unreadies(w, op, p, u))
  {
    var w := Run(EMPTY_WORLD, ops);
    if SetsReady(w, op, p, u) || (ReadyInRun(ops, p, u) && !Unreadies(w, op, p, u)) {
      ReadyStays(ops, op, p, u);
    }
    if ReadyInRun(ops + [op], p, u) {
      ReadyWas(ops, op, p, u);
    }
  }

  lemma ReadyStays(ops: seq<Op>, op: Op, p: PartyId, u: UserId)
    requires var w := Run(EMPTY_WORLD, ops);
             SetsReady(w, op, p, u) || (ReadyInRun(ops, p, u) && !Unreadies(w, op, p, u))
    ensures ReadyInRun(ops + [op], p, u)
  {
    hide SetsReady, Unreadies, At, Run;
    Prefixes(ops, op);
    var w, more := Run(EMPTY_WORLD, ops), ops + [op];
    if SetsReady(w, op, p, u) {
      assert SetsReady(At(more, |ops|), more[|ops|], p, u);
    } else {
      var i :| 0 <= i < |ops| && SetsReady(At(ops, i), ops[i], p, u) &&
               forall j :: i < j < |ops| ==> !Unreadies(At(ops, j), ops[j], p, u);
      assert SetsReady(At(more, i), more[i], p, u);
      forall j | i < j < |more| ensures !Unreadies(At(more, j), more[j], p, u) {
        assert j < |ops| ==> !Unreadies(At(ops, j), ops[j], p, u);
      }
    }
  }

  lemma ReadyWas(ops: seq<Op>, op: Op, p: PartyId, u: UserId)
    requires ReadyInRun(ops + [op], p, u)
    ensures var w := Run(EMPTY_WORLD, ops);
            SetsReady(w, op, p, u) || (ReadyInRun(ops, p, u) && !Unreadies(w, op, p, u))
  {
    hide SetsReady, Unreadies, At, Run;
    Prefixes(ops, op);
    var more := ops + [op];
    var i :| 0 <= i < |more| && SetsReady(At(more, i), more[i], p, u) &&
             forall j :: i < j < |more| ==> !Unreadies(At(more, j), more[j], p, u);
    if i < |ops| {
      assert SetsReady(At(ops, i), ops[i], p, u);
      assert !Unreadies(At(more, |ops|), more[|ops|], p, u);
      forall j | i < j < |ops| ensures !Unreadies(At(ops, j), ops[j], p, u) {
        assert !Unreadies(At(more, j), more[j], p, u);
      }
    }
  }

  lemma UnabortedExtends(ops: seq<Op>, op: Op, p: PartyId, at: int)
    ensures var w := Run(EMPTY_WORLD, ops);
            UnabortedInRun(ops + [op], p, at) <==>
            StartsAt(w, op, p, at) || (UnabortedInRun(ops, p, at) && !Aborts(w, op, p))
  {
    var w := Run(EMPTY_WORLD, ops);
    if StartsAt(w, op, p, at) || (UnabortedInRun(ops, p, at) && !Aborts(w, op, p)) {
      UnabortedStays(ops, op, p, at);
    }
    if UnabortedInRun(ops + [op], p, at) {
      UnabortedWas(ops, op, p, at);
    }
  }

  lemma UnabortedStays(ops: seq<Op>, op: Op, p: PartyId, at: int)
    requires var w := Run(EMPTY_WORLD, ops);
             StartsAt(w, op, p, at) || (UnabortedInRun(ops, p, at) && !Aborts(w, op, p))
    ensures UnabortedInRun(ops + [op], p, at)
  {
    hide StartsAt, Aborts, At, Run;
    Prefixes(ops, op);
    var w, more := Run(EMPTY_WORLD, ops), ops + [op];
    if StartsAt(w, op, p, at) {
      assert StartsAt(At(more, |ops|), more[|ops|], p, at);
    } else {
      var i :| 0 <= i < |ops| && StartsAt(At(ops, i), ops[i], p, at) &&
               forall j :: i < j < |ops| ==> !Aborts(At(ops, j), ops[j], p);
      assert StartsAt(At(more, i), more[i], p, at);
      forall j | i < j < |more| ensures !Aborts(At(more, j), more[j], p) {
        assert j < |ops| ==> !Aborts(At(ops, j), ops[j], p);
      }
    }
  }

  lemma UnabortedWas(ops: seq<Op>, op: Op, p: PartyId, at: int)
    requires UnabortedInRun(ops + [op], p, at)
    ensures var w := Run(EMPTY_WORLD, ops);
            StartsAt(w, op, p, at) || (UnabortedInRun(ops, p, at) && !Aborts(w, op, p))
  {
    hide StartsAt, Aborts, At, Run;
    Prefixes(ops, op);
    var more := ops + [op];
    var i :| 0 <= i < |more| && StartsAt(At(more, i), more[i], p, at) &&
             forall j :: i < j < |more| ==> !Aborts(At(more, j), more[j], p);
    if i < |ops| {
      assert StartsAt(At(ops, i), ops[i], p, at);
      assert !Aborts(At(more, |ops|), more[|ops|], p);
      forall j | i < j < |ops| ensures !Aborts(At(ops, j), ops[j], p) {
        assert !Aborts(At(more, j), more[j], p);
      }
    }
  }

  // ----- What one call does to the rows of a party that lives on -----

  ghost predicate SameTimes(w: World, w': World) {
    w'.starts == w.starts && w'.clock == w.clock && w'.issued == w.issued
  }

  lemma {:induction false} InvitesLeaveRows(w: World, p: PartyId, us: seq<UserId>)
    ensures SameTimes(w, AddInvites(w, p, us)) && AddInvites(w, p, us).ready == w.ready
    decreases |us|
  {
    if us != [] {
      InvitesLeaveRows(w, p, us[..|us| - 1]);
    }
  }

  lemma {:induction false} RemovalsLeaveRows(w: World, p: PartyId, us: seq<UserId>)
    ensures SameTimes(w, RemoveEdges(w, p, us)) && RemoveEdges(w, p, us).ready == w.ready
    decreases |us|
  {
    if us != [] {
      RemovalsLeaveRows(w, p, us[..|us| - 1]);
    }
  }

  lemma {:induction false} TransfersLeaveRows(w: World, p: PartyId, us: seq<UserId>)
    ensures SameTimes(w, AutoTransfers(w, p, us)) && AutoTransfers(w, p, us).ready == w.ready
    decreases |us|
  {
    if us != [] {
      TransfersLeaveRows(w, p, us[..|us| - 1]);
    }
  }

  ghost predicate RowFollows(w: World, op: Op, p: PartyId, u: UserId) {
    (p, u) in Step(w, op).0.ready <==> SetsReady(w, op, p, u) || ((p, u) in w.ready && !Unreadies(w, op, p, u))
  }

  lemma CreateRow(w: World, op: Op, p: PartyId, u: UserId)
    requires op.OpCreate? && w.groups.Keys <= w.issued && p in w.groups && p in Step(w, op).0.groups
    ensures RowFollows(w, op, p, u)
  {
    hide Memberships, Shared, Solo, DropOwners;
  }

  lemma JoinRow(w: World, v: UserId, q: PartyId, p: PartyId, u: UserId)
    requires p in w.groups && ReadyAreMembers(w, p) && p in Join(w, v, q).0.groups
    ensures RowFollows(w, OpJoin(v, q), p, u)
  {
    hide Shared, Solo, DropOwners;
    if Join(w, v, q).1 == Done {
      var w1 := JoinWrite(w, v, q);
      var w2 := ClearReady(Note(w1, JoinCalled(q, v)), q, {});
      if q == p {
        assert (p, u) in w.ready ==> Listed(w1.groups[p], u);
        assert (p, u) !in w2.ready;
      } else {
        assert (p, u) in w2.ready <==> (p, u) in w.ready;
      }
    }
  }

  lemma CodeRow(w: World, v: UserId, typed: string, p: PartyId, u: UserId)
    requires p in w.groups && ReadyAreMembers(w, p) && p in JoinByCode(w, v, typed).0.groups
    ensures RowFollows(w, OpJoinByCode(v, typed), p, u)
  {
    hide Normalize, WellFormedCode, Shared, Solo, DropOwners, Blocked;
    var code := Normalize(typed);
    if WellFormedCode(code) && code in w.codes.forward && w.codes.forward[code] in w.groups {
      var q := w.codes.forward[code];
      var w1 := AddActive(w, q, v);
      assert (p, u) in w.ready ==> Listed(w1.groups[p], u);
    }
  }

  lemma KickRow(w: World, op: Op, p: PartyId, u: UserId)
    requires op.OpKick? && p in w.groups
    ensures RowFollows(w, op, p, u)
  {
    hide RemoveEdges, AutoTransfers, KickRefusal;
    RemovalsLeaveRows(w, op.p, op.targets);
    TransfersLeaveRows(RemoveEdges(w, op.p, op.targets), op.p, op.targets);
  }

  lemma DeleteRow(w: World, v: UserId, listed: seq<PartyId>, p: PartyId, u: UserId)
    requires Enabled(w, OpDeleteAccount(v, listed)) && p in w.groups && ReadyAreMembers(w, p)
    requires p in DeleteAccount(w, v, listed).0.groups
    ensures RowFollows(w, OpDeleteAccount(v, listed), p, u)
  {
    hide ExitEach;
    ExitEachAt(w, v, FirstPages(listed), p);
    if p in FirstPages(listed) && w.groups[p].creator != v {
      hide ExitForDeletion;
      ExitAt(w, v, p);
    }
  }

  lemma RestRow(w: World, op: Op, p: PartyId, u: UserId)
    requires op.OpInvite? || op.OpTransfer? || op.OpDisband? || op.OpSetReady? || op.OpStart? || op.OpAbort?
             || op.OpGetCode? || op.OpSetSetting? || op.OpBlock?
    requires p in w.groups && ReadyAreMembers(w, p) && p in Step(w, op).0.groups
    ensures RowFollows(w, op, p, u)
  {
    hide Memberships, Shared, Blocked, Issue, PruneStarts, AllReady, Leader, DropOwners;
  }

  lemma StepRow(w: World, op: Op, p: PartyId, u: UserId)
    requires Inv(w) && Enabled(w, op) && p in w.groups && p in Step(w, op).0.groups
    ensures RowFollows(w, op, p, u)
  {
    hide Inv, RowFollows, ReadyAreMembers;
    OnlyMembersReady(w, p);
    match op
    case OpCreate(_, _, _) =>
      IssuedCoversGroups(w);
      CreateRow(w, op, p, u);
    case OpRawAdd(_, q, ts) => RawAddRow(w, op, p, u);
    case OpJoin(v, q) => JoinRow(w, v, q, p, u);
    case OpJoinByCode(v, typed) => CodeRow(w, v, typed, p, u);
    case OpLeave(v, q) => LeaveRow(w, op, p, u);
    case OpKick(_, _, _) => KickRow(w, op, p, u);
    case OpDeleteAccount(v, listed) => DeleteRow(w, v, listed, p, u);
    case _ => RestRow(w, op, p, u);
  }

  lemma RawAddRow(w: World, op: Op, p: PartyId, u: UserId)
    requires op.OpRawAdd?
    ensures RowFollows(w, op, p, u)
  {
    hide AddInvites, AddRefusal;
    InvitesLeaveRows(w, op.p, op.targets);
  }

  lemma LeaveRow(w: World, op: Op, p: PartyId, u: UserId)
    requires op.OpLeave?
    ensures RowFollows(w, op, p, u)
  {
    if HasEdge(w, op.p, op.caller) {
      LeaveShape(w, op.caller, op.p);
    }
  }

  // A party that begins was never issued before, so nobody is ready in it.
  lemma NewPartyHasNoRows(w: World, op: Op, p: PartyId)
    requires Inv(w) && p !in w.groups && p in Step(w, op).0.groups
    ensures p !in w.issued && forall u :: (p, u) !in Step(w, op).0.ready && !SetsReady(w, op, p, u)
  {
    hide MembersOk, ReadyExact, CodesHeld, StartsTracked, Lawful, LawfulAt, Memberships, Shared, Solo, DropOwners;
    StepIsLawful(w, op);
    BeginsByCreation(w, Step(w, op).0, op, p);
  }

  lemma BeginsByCreation(w: World, w': World, op: Op, p: PartyId)
    requires Lawful(w, w', op) && p !in w.groups && p in w'.groups
    ensures op.OpCreate? && op.p == p && p !in w.issued
  {
    assert LawfulAt(w, w', op, p);
  }

  // ----- Starts, aborts and the clock -----

  lemma {:induction false} ExitsLeaveTimes(w: World, u: UserId, listed: seq<PartyId>)
    ensures SameTimes(w, ExitEach(w, u, listed))
    decreases |listed|
  {
    if listed != [] {
      ExitsLeaveTimes(w, u, listed[..|listed| - 1]);
    }
  }

  // Only creations issue, and only starts and aborts touch the guard.
  lemma StepTimes(w: World, op: Op)
    ensures var w' := Step(w, op).0;
            && w.issued <= w'.issued
            && (!op.OpStart? && !op.OpAbort? ==> w'.starts == w.starts && w'.clock == w.clock)
  {
    hide Memberships, Shared, Solo, Normalize, Disband, Issue, AutoTransfer, JoinWrite, PruneStarts;
    match op
    case OpCreate(u, p, _) => DisbandTimes(w, Solo(Memberships(w, u, {})));
    case OpRawAdd(_, p, ts) =>
      hide AddInvites;
      InvitesLeaveRows(w, p, ts);
    case OpJoin(u, p) => JoinTimes(w, u, p);
    case OpJoinByCode(u, typed) => CodeTimes(w, u, typed);
    case OpLeave(u, p) => LeaveTimes(w, u, p);
    case OpKick(_, p, ts) =>
      hide RemoveEdges, AutoTransfers;
      RemovalsLeaveRows(w, p, ts);
      TransfersLeaveRows(RemoveEdges(w, p, ts), p, ts);
    case OpDisband(_, p) => DisbandTimes(w, {p});
    case OpDeleteAccount(u, listed) =>
      hide ExitEach;
      ExitsLeaveTimes(w, u, FirstPages(listed));
    case _ =>
  }

  lemma DisbandTimes(w: World, ended: set<PartyId>)
    ensures SameTimes(w, Disband(w, ended))
  {
  }

  lemma JoinTimes(w: World, u: UserId, p: PartyId)
    ensures SameTimes(w, Join(w, u, p).0)
  {
    hide Memberships, Shared, Solo, DropOwners;
  }

  lemma CodeTimes(w: World, u: UserId, typed: string)
    ensures SameTimes(w, JoinByCode(w, u, typed).0)
  {
    hide Memberships, Shared, Solo, DropOwners, Normalize, WellFormedCode;
  }

  lemma LeaveTimes(w: World, u: UserId, p: PartyId)
    ensures SameTimes(w, Leave(w, u, p).0)
  {
    if HasEdge(w, p, u) {
      LeaveShape(w, u, p);
    }
  }

  // The guard remembers one un-aborted start, and every other is no later or too old to count.
  ghost predicate GuardKnows(ops: seq<Op>, starts: map<PartyId, int>, clock: int, p: PartyId) {
    && (p in starts ==> UnabortedInRun(ops, p, starts[p]))
    && (forall at :: UnabortedInRun(ops, p, at) ==>
          && at <= clock
          && ((p in starts && at <= starts[p]) || clock - at >= START_WINDOW))
  }

  // What a call makes of what the run knows of p's starts.
  ghost predicate Extended(ops: seq<Op>, op: Op, p: PartyId) {
    forall at :: UnabortedInRun(ops + [op], p, at) <==>
                 StartsAt(Run(EMPTY_WORLD, ops), op, p, at) ||
                 (UnabortedInRun(ops, p, at) && !Aborts(Run(EMPTY_WORLD, ops), op, p))
  }

  lemma StartKeepsGuard(ops: seq<Op>, op: Op, p: PartyId)
    requires var w := Run(EMPTY_WORLD, ops); GuardKnows(ops, w.starts, w.clock, p) && Enabled(w, op)
    requires op.OpStart? && Extended(ops, op, p)
    ensures var w' := Step(Run(EMPTY_WORLD, ops), op).0; GuardKnows(ops + [op], w'.starts, w'.clock, p)
  {
    hide UnabortedInRun, AllReady, Run;
    var w := Run(EMPTY_WORLD, ops);
    var (w', r) := StartMatchmaking(w, op.caller, op.p, op.now);
    if r == Done && op.p == p {
      assert StartsAt(w, op, p, op.now) && w'.starts[p] == op.now == w'.clock;
    }
  }

  lemma AbortKeepsGuard(ops: seq<Op>, op: Op, p: PartyId)
    requires var w := Run(EMPTY_WORLD, ops); GuardKnows(ops, w.starts, w.clock, p)
    requires op.OpAbort? && Extended(ops, op, p)
    ensures var w' := Step(Run(EMPTY_WORLD, ops), op).0; GuardKnows(ops + [op], w'.starts, w'.clock, p)
  {
    hide UnabortedInRun, Run;
  }

  lemma StepKeepsGuard(ops: seq<Op>, op: Op, p: PartyId)
    requires var w := Run(EMPTY_WORLD, ops); GuardKnows(ops, w.starts, w.clock, p) && Enabled(w, op)
    ensures var w' := Step(Run(EMPTY_WORLD, ops), op).0; GuardKnows(ops + [op], w'.starts, w'.clock, p)
  {
    hide UnabortedInRun, Run, Step;
    assert Extended(ops, op, p) by {
      forall at ensures UnabortedInRun(ops + [op], p, at) <==>
                        StartsAt(Run(EMPTY_WORLD, ops), op, p, at) ||
                        (UnabortedInRun(ops, p, at) && !Aborts(Run(EMPTY_WORLD, ops), op, p))
      {
        UnabortedExtends(ops, op, p, at);
      }
    }
    if op.OpStart? {
      hide GuardKnows, Extended;
      StartKeepsGuard(ops, op, p);
    } else if op.OpAbort? {
      hide GuardKnows, Extended;
      AbortKeepsGuard(ops, op, p);
    } else {
      StepTimes(Run(EMPTY_WORLD, ops), op);
    }
  }

  // ----- Every run -----

  ghost predicate RowsFollow(ops: seq<Op>, w: World) {
    forall p, u ::
      && (p in w.groups ==> ((p, u) in w.ready <==> ReadyInRun(ops, p, u)))
      && (ReadyInRun(ops, p, u) ==> p in w.issued)
  }

  lemma StepKeepsRows(ops: seq<Op>, op: Op)
    requires var w := Run(EMPTY_WORLD, ops); Inv(w) && RowsFollow(ops, w) && Enabled(w, op)
    ensures RowsFollow(ops + [op], Step(Run(EMPTY_WORLD, ops), op).0)
  {
    hide Inv, Unreadies, ReadyInRun, Enabled;
    var w := Run(EMPTY_WORLD, ops);
    var w' := Step(w, op).0;
    StepTimes(w, op);
    forall p, u ensures p in w'.groups ==> ((p, u) in w'.ready <==> ReadyInRun(ops + [op], p, u))
      ensures ReadyInRun(ops + [op], p, u) ==> p in w'.issued
    {
      ReadyExtends(ops, op, p, u);
      if SetsReady(w, op, p, u) {
        SettersAreIssued(w, op, p, u);
      }
      hide Step, SetsReady;
      if p in w.groups && p in w'.groups {
        StepRow(w, op, p, u);
      } else if p in w'.groups {
        NewPartyHasNoRows(w, op, p);
      }
    }
  }

  lemma SettersAreIssued(w: World, op: Op, p: PartyId, u: UserId)
    requires Inv(w) && SetsReady(w, op, p, u)
    ensures p in w.issued
  {
    IssuedCoversGroups(w);
  }

  lemma {:induction false} RunIsKnown(ops: seq<Op>, p: PartyId)
    requires EnabledRun(EMPTY_WORLD, ops)
    ensures var w := Run(EMPTY_WORLD, ops);
            Inv(w) && RowsFollow(ops, w) && GuardKnows(ops, w.starts, w.clock, p)
    decreases |ops|
  {
    hide Inv, RowsFollow, GuardKnows, Step, Enabled;
    if ops == [] {
      EmptyIsKnown(p);
    } else {
      var front, op := ops[..|ops| - 1], ops[|ops| - 1];
      assert ops == front + [op];
      RunSplits(EMPTY_WORLD, front, op);
      RunIsKnown(front, p);
      StepKeepsInv(Run(EMPTY_WORLD, front), op);
      StepKeepsRows(front, op);
      StepKeepsGuard(front, op, p);
    }
  }

  lemma EmptyIsKnown(p: PartyId)
    ensures Inv(EMPTY_WORLD) && RowsFollow([], EMPTY_WORLD)
    ensures GuardKnows([], EMPTY_WORLD.starts, EMPTY_WORLD.clock, p)
  {
    hide Inv;
    NothingHeld();
  }

  lemma {:induction false} RunSplits(w: World, ops: seq<Op>, op: Op)
    requires EnabledRun(w, ops + [op])
    ensures EnabledRun(w, ops) && Enabled(Run(w, ops), op)
    ensures Run(w, ops + [op]) == Step(Run(w, ops), op).0
    decreases |ops|
  {
    hide Step, Enabled;
    if ops == [] {
      assert [op][1..] == [] && [] + [op] == [op];
    } else {
      assert (ops + [op])[1..] == ops[1..] + [op];
      RunSplits(Step(w, ops[0]).0, ops[1..], op);
    }
  }

  // In every run, a start is answered ok if and only if an active member of a live party
  // calls it; for each active member there is a set_ready(true) answered ok, and after it
  // no set_ready(false) or invite of theirs, no join, start or account's exit in the party,
  // and no exit of their own; and every start of the party not aborted since is at least
  // twenty seconds old.
  lemma StartIsAnsweredOkExactlyWhen(ops: seq<Op>, caller: UserId, p: PartyId, now: int)
    requires EnabledRun(EMPTY_WORLD, ops + [OpStart(caller, p, now)])
    ensures var w := Run(EMPTY_WORLD, ops);
            Step(w, OpStart(caller, p, now)).1 == Done <==>
            && p != "" && p in w.groups && caller in w.groups[p].active
            && (forall u :: u in w.groups[p].active ==> ReadyInRun(ops, p, u))
            && (forall at :: UnabortedInRun(ops, p, at) ==> now - at >= 20_000_000_000)
  {
    var w := Run(EMPTY_WORLD, ops);
    RunSplits(EMPTY_WORLD, ops, OpStart(caller, p, now));
    RunIsKnown(ops, p);
    hide Inv, ReadyInRun, UnabortedInRun, ClearReady;
    assert w.clock <= now;
    assert p in PruneStarts(w.starts, now) <==> p in w.starts && now - w.starts[p] < START_WINDOW;
  }

  // A ready row of a live party stands for a set_ready(true) answered ok that nothing has
  // undone since, and there is one wherever such a call was answered.
  lemma RowsAreTheRuns(ops: seq<Op>, p: PartyId, u: UserId)
    requires EnabledRun(EMPTY_WORLD, ops) && p in Run(EMPTY_WORLD, ops).groups
    ensures (p, u) in Run(EMPTY_WORLD, ops).ready <==> ReadyInRun(ops, p, u)
  {
    hide Inv, ReadyInRun;
    RunIsKnown(ops, p);
  }

  // ----- Codes told by the run -----

  // Some call of the run was answered with that code for p.
  ghost predicate GivenInRun(ops: seq<Op>, p: PartyId, code: Code) {
    exists i :: 0 <= i < |ops| && ops[i].OpGetCode? && ops[i].p == p && Step(At(ops, i), ops[i]).1 == WithCode(code)
  }

  // What was handed out before still was.
  ghost predicate Remembers(h: History, h': History) {
    forall p, code :: HandedOutSo(h, p, code) ==> HandedOutSo(h', p, code)
  }

  lemma {:induction false} InvitesRemember(w: World, p: PartyId, us: seq<UserId>)
    ensures Remembers(w.history, AddInvites(w, p, us).history)
    decreases |us|
  {
    if us != [] {
      InvitesRemember(w, p, us[..|us| - 1]);
    }
  }

  lemma {:induction false} RemovalsRemember(w: World, p: PartyId, us: seq<UserId>)
    ensures Remembers(w.history, RemoveEdges(w, p, us).history)
    decreases |us|
  {
    if us != [] {
      RemovalsRemember(w, p, us[..|us| - 1]);
    }
  }

  lemma {:induction false} TransfersRemember(w: World, p: PartyId, us: seq<UserId>)
    ensures AutoTransfers(w, p, us).history == w.history
    decreases |us|
  {
    if us != [] {
      TransfersRemember(w, p, us[..|us| - 1]);
    }
  }

  lemma {:induction false} ExitsRemember(w: World, u: UserId, listed: seq<PartyId>)
    ensures Remembers(w.history, ExitEach(w, u, listed).history)
    decreases |listed|
  {
    if listed != [] {
      ExitsRemember(w, u, listed[..|listed| - 1]);
    }
  }

  lemma StepRemembers(w: World, op: Op)
    ensures Remembers(w.history, Step(w, op).0.history)
  {
    hide Memberships, Shared, Solo, Normalize, Issue, LeavesHalf, DropOwners, PruneStarts, AllReady;
    match op
    case OpRawAdd(_, p, ts) =>
      hide AddInvites;
      InvitesRemember(w, p, ts);
    case OpJoin(u, p) => JoinRemembers(w, u, p);
    case OpKick(_, p, ts) =>
      hide RemoveEdges, AutoTransfers;
      RemovalsRemember(w, p, ts);
      TransfersRemember(RemoveEdges(w, p, ts), p, ts);
    case OpLeave(u, p) =>
      if HasEdge(w, p, u) {
        LeaveShape(w, u, p);
      }
    case OpDeleteAccount(u, listed) =>
      hide ExitEach;
      ExitsRemember(w, u, FirstPages(listed));
    case _ =>
  }

  lemma JoinRemembers(w: World, u: UserId, p: PartyId)
    ensures Remembers(w.history, Join(w, u, p).0.history)
  {
    hide Memberships, Shared, Solo, DropOwners;
    if p in w.groups {
      assert Remembers(w.history, JoinWrite(w, u, p).history);
    }
  }

  lemma AnswerIsRemembered(w: World, op: Op, code: Code)
    requires op.OpGetCode? && Step(w, op).1 == WithCode(code)
    ensures HandedOutSo(Step(w, op).0.history, op.p, code)
  {
    hide Issue, LeavesHalf;
  }

  lemma {:induction false} GivenIsHandedOut(ops: seq<Op>, p: PartyId, code: Code)
    requires EnabledRun(EMPTY_WORLD, ops) && GivenInRun(ops, p, code)
    ensures HandedOutSo(Run(EMPTY_WORLD, ops).history, p, code)
    decreases |ops|
  {
    hide Step, Enabled;
    var i :| 0 <= i < |ops| && ops[i].OpGetCode? && ops[i].p == p && Step(At(ops, i), ops[i]).1 == WithCode(code);
    var front, op := ops[..|ops| - 1], ops[|ops| - 1];
    assert ops == front + [op];
    RunSplits(EMPTY_WORLD, front, op);
    Prefixes(front, op);
    hide At, Run;
    if i < |front| {
      assert front[i] == ops[i] && At(front, i) == At(ops, i);
      GivenIsHandedOut(front, p, code);
      StepRemembers(Run(EMPTY_WORLD, front), op);
    } else {
      AnswerIsRemembered(Run(EMPTY_WORLD, front), op, code);
    }
  }

  // In every run, whatever comes between, a code once answered for a party still alive
  // reaches that party and no other; and no other live party was ever answered it.
  lemma AnsweredCodeReachesItsParty(ops: seq<Op>, p: PartyId, code: Code, caller: UserId)
    requires EnabledRun(EMPTY_WORLD, ops) && p in Run(EMPTY_WORLD, ops).groups && GivenInRun(ops, p, code)
    ensures var w := Run(EMPTY_WORLD, ops);
            var (w', r) := JoinByCode(w, caller, code);
            && (r.InParty? ==> r.p == p && HasEdge(w', p, caller))
            && r != Refused(3) && r != Refused(5)
            && (MayJoin(w, p, caller) ==> r == InParty(p))
            && forall q :: q in w.groups && GivenInRun(ops, q, code) ==> q == p
  {
    hide GivenInRun, MayJoin, JoinByCode;
    var w := Run(EMPTY_WORLD, ops);
    GivenIsHandedOut(ops, p, code);
    assert Reachable(w);
    HandedOutCodeReachesItsParty(w, p, code, caller);
    forall q | q in w.groups && GivenInRun(ops, q, code) ensures q == p {
      GivenIsHandedOut(ops, q, code);
      LivePartiesShareNoCode(w, p, q, code);
    }
  }
}
