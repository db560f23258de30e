// When each party call is answered ok, and what it has then done: in terms of rosters,
// blocks and rows alone.
module PartyCalls {
  import opened CodeTable
  import opened Party
  import opened PartyAuthority
  import opened PartyInvariants
  import opened PartyTheorems

  // The user is active in some other party of two or more.
  ghost predicate SharesAnother(w: World, u: UserId, p: PartyId) {
    exists q :: q in w.groups && q != p && u in w.groups[q].active && |w.groups[q].active| >= 2
  }

  predicate IsUnblocked(w: World, a: UserId, b: UserId) {
    (a, b) !in w.blocks && (b, a) !in w.blocks
  }

  function LeaderOf(w: World, p: PartyId): UserId
    requires p in w.groups
  {
    if p in w.leaders then w.leaders[p] else w.groups[p].creator
  }

  lemma SharedIs(w: World, u: UserId, p: PartyId)
    ensures Shared(Memberships(w, u, {p})) <==> SharesAnother(w, u, p)
  {
    if q :| q in w.groups && q != p && u in w.groups[q].active && |w.groups[q].active| >= 2 {
      assert q in Memberships(w, u, {p});
    }
  }

  lemma SharedAnywhereIs(w: World, u: UserId)
    ensures Shared(Memberships(w, u, {})) <==>
            exists q :: q in w.groups && u in w.groups[q].active && |w.groups[q].active| >= 2
  {
    if q :| q in w.groups && u in w.groups[q].active && |w.groups[q].active| >= 2 {
      assert q in Memberships(w, u, {});
    }
  }

  // Who may make which call, and when.
  ghost predicate MayCall(w: World, op: Op) {
    match op
    case OpCreate(u, p, _) =>
      p !in w.issued && !exists q :: q in w.groups && u in w.groups[q].active && |w.groups[q].active| >= 2
    case OpInvite(u, p, t) =>
      && p != "" && t != "" && t != u && p in w.groups && u in w.groups[p].active
      && |w.groups[p].active| < w.groups[p].capacity && IsUnblocked(w, u, t) && !SharesAnother(w, t, p)
    case OpRawAdd(u, p, ts) =>
      && p in w.groups && u != "" && u == LeaderOf(w, p)
      && forall t :: t in ts ==> IsUnblocked(w, u, t) && !SharesAnother(w, t, p)
    case OpJoin(u, p) =>
      && p in w.groups && !SharesAnother(w, u, p)
      && (u in w.groups[p].active || u !in w.groups[p].pending || w.groups[p].pending[u] != Invited
          || |w.groups[p].active| < w.groups[p].capacity)
    case OpLeave(u, p) => p in w.groups && (u in w.groups[p].active || u in w.groups[p].pending)
    case OpKick(u, p, ts) =>
      && p in w.groups && u != "" && u == LeaderOf(w, p)
      && forall t :: t in ts ==> MayBeKicked(w, p, t)
    case OpTransfer(u, p, t) =>
      && p != "" && t != "" && t != u && p in w.groups && u == LeaderOf(w, p)
      && u in w.groups[p].active && t in w.groups[p].active
    case OpDisband(u, p) => p != "" && p in w.groups && u == LeaderOf(w, p)
    case OpDeleteAccount(_, _) => true
    case OpSetReady(u, p, _) => p != "" && p in w.groups && u in w.groups[p].active
    case OpAbort(u, p) => p != "" && p in w.groups && u in w.groups[p].active
    case OpSetSetting(u, p, _) => p != "" && p in w.groups && u == LeaderOf(w, p)
    case OpBlock(_, _, _) => true
    case _ => false
  }

  lemma {:induction false} AddPassesExactlyWhen(w: World, u: UserId, p: PartyId, ts: seq<UserId>)
    ensures AddRefusal(w, u, p, ts) == 0 <==> forall t :: t in ts ==> IsUnblocked(w, u, t) && !SharesAnother(w, t, p)
    decreases |ts|
  {
    hide SharesAnother, Memberships, Shared;
    if ts != [] {
      SharedIs(w, ts[0], p);
      AddPassesExactlyWhen(w, u, p, ts[1..]);
      assert ts == [ts[0]] + ts[1..];
    }
  }

  // The leader may take this user out.
  predicate MayBeKicked(w: World, p: PartyId, t: UserId)
    requires p in w.groups
  {
    t != LeaderOf(w, p) && (t in w.groups[p].active || t in w.groups[p].pending)
  }

  lemma {:induction false} KickPassesExactlyWhen(w: World, p: PartyId, ts: seq<UserId>)
    requires p in w.groups
    ensures KickRefusal(w, p, ts) == 0 <==> forall t :: t in ts ==> MayBeKicked(w, p, t)
    decreases |ts|
  {
    if ts != [] {
      KickPassesExactlyWhen(w, p, ts[1..]);
      assert KickRefusal(w, p, ts) == 0 <==> MayBeKicked(w, p, ts[0]) && KickRefusal(w, p, ts[1..]) == 0;
      assert ts == [ts[0]] + ts[1..];
    }
  }

  // A call is answered ok if and only if its caller may make it.
  lemma AnsweredOkExactlyWhen(w: World, op: Op)
    requires !op.OpStart? && !op.OpJoinByCode? && !op.OpGetCode?
    ensures Step(w, op).1 == Done <==> MayCall(w, op)
  {
    hide SharesAnother, Memberships, Shared, Disband, AddInvite, AddInvites, AddRefusal, AfterJoin, JoinWrite,
      KickRefusal, RemoveEdges, AutoTransfers, EndIfEmpty, AutoTransfer, RemoveEdge, DeleteReady, ExitEach;
    match op
    case OpCreate(u, p, _) => SharedAnywhereIs(w, u);
    case OpInvite(u, p, t) => SharedIs(w, t, p);
    case OpRawAdd(u, p, ts) => AddPassesExactlyWhen(w, u, p, ts);
    case OpJoin(u, p) => SharedIs(w, u, p);
    case OpKick(u, p, ts) =>
      if p in w.groups {
        KickPassesExactlyWhen(w, p, ts);
      }
    case _ =>
  }

  // ----- Which refusal -----

  ghost predicate MayBeAdded(w: World, u: UserId, p: PartyId, t: UserId) {
    IsUnblocked(w, u, t) && !SharesAnother(w, t, p)
  }

  // The first target who may not be added is the one at this place.
  ghost predicate AddStopsAt(w: World, u: UserId, p: PartyId, ts: seq<UserId>, i: nat) {
    i < |ts| && !MayBeAdded(w, u, p, ts[i]) && forall j :: 0 <= j < i ==> MayBeAdded(w, u, p, ts[j])
  }

  lemma {:induction false} AddTellsTheFirst(w: World, u: UserId, p: PartyId, ts: seq<UserId>) returns (i: nat)
    requires AddRefusal(w, u, p, ts) != 0
    ensures AddStopsAt(w, u, p, ts, i)
    ensures AddRefusal(w, u, p, ts) == if IsUnblocked(w, u, ts[i]) then 6 else 7
    decreases |ts|
  {
    hide SharesAnother, Memberships, Shared;
    SharedIs(w, ts[0], p);
    if MayBeAdded(w, u, p, ts[0]) {
      i := AddTellsTheFirst(w, u, p, ts[1..]);
      assert forall j :: 0 < j < i + 1 ==> ts[j] == ts[1..][j - 1];
      i := i + 1;
    } else {
      i := 0;
    }
  }

  ghost predicate KickStopsAt(w: World, p: PartyId, ts: seq<UserId>, i: nat)
    requires p in w.groups
  {
    i < |ts| && !MayBeKicked(w, p, ts[i]) && forall j :: 0 <= j < i ==> MayBeKicked(w, p, ts[j])
  }

  lemma {:induction false} KickTellsTheFirst(w: World, p: PartyId, ts: seq<UserId>) returns (i: nat)
    requires p in w.groups && KickRefusal(w, p, ts) != 0
    ensures KickStopsAt(w, p, ts, i)
    ensures KickRefusal(w, p, ts) == if ts[i] == LeaderOf(w, p) then 7 else 5
    decreases |ts|
  {
    if MayBeKicked(w, p, ts[0]) {
      i := KickTellsTheFirst(w, p, ts[1..]);
      assert forall j :: 0 < j < i + 1 ==> ts[j] == ts[1..][j - 1];
      i := i + 1;
    } else {
      i := 0;
    }
  }

  // The reasons for each status a call is refused with.
  ghost predicate RefusedWith(w: World, op: Op, status: nat) {
    match op
    case OpCreate(u, p, _) =>
      if p in w.issued then status == 13
      else status == 6 && exists q :: q in w.groups && u in w.groups[q].active && |w.groups[q].active| >= 2
    case OpInvite(u, p, t) =>
      if p == "" || t == "" || t == u then status == 3
      else if p !in w.groups then status == 5
      else
        var full, member := |w.groups[p].active| >= w.groups[p].capacity, u in w.groups[p].active;
        || (status == 9 && full)
        || (status == 7 && !full && !(member && IsUnblocked(w, u, t)))
        || (status == 6 && !full && member && IsUnblocked(w, u, t) && SharesAnother(w, t, p))
    case OpRawAdd(u, p, ts) =>
      if p !in w.groups then status == 5
      else if u == "" || u != LeaderOf(w, p) then status == 7
      else exists i: nat :: AddStopsAt(w, u, p, ts, i) && status == if IsUnblocked(w, u, ts[i]) then 6 else 7
    case OpJoin(u, p) =>
      if p !in w.groups then status == 5
      else if SharesAnother(w, u, p) then status == 6
      else
        && status == 9 && u !in w.groups[p].active && |w.groups[p].active| >= w.groups[p].capacity
        && u in w.groups[p].pending && w.groups[p].pending[u] == Invited
    case OpLeave(u, p) => status == 5 && !(p in w.groups && (u in w.groups[p].active || u in w.groups[p].pending))
    case OpKick(u, p, ts) =>
      if p !in w.groups then status == 5
      else if u == "" || u != LeaderOf(w, p) then status == 7
      else exists i: nat :: KickStopsAt(w, p, ts, i) && status == if ts[i] == u then 7 else 5
    case OpTransfer(u, p, t) =>
      if p == "" || t == "" || t == u then status == 3
      else if p !in w.groups then status == 5
      else if u != LeaderOf(w, p) || u !in w.groups[p].active then status == 7
      else status == 3 && t !in w.groups[p].active
    case OpSetReady(u, p, _) => RefusedOutsider(w, u, p, status)
    case OpGetCode(u, p, draws, fault) =>
      if p != "" && p in w.groups && u in w.groups[p].active then
        status == 13 && !Issue(w.codes, p, draws, fault).1.Issued?
      else RefusedOutsider(w, u, p, status)
    case OpJoinByCode(u, typed) => CodeRefusedWith(w, u, Normalize(typed), status)
    case OpStart(u, p, now) =>
      if p == "" then status == 3
      else if p !in w.groups then status == 5
      else if u !in w.groups[p].active then status == 7
      else if exists m :: m in w.groups[p].active && (p, m) !in w.ready then status == 9
      else status == 8 && p in w.starts && now - w.starts[p] < 20_000_000_000
    case OpAbort(u, p) =>
      if p == "" then status == 3
      else if p !in w.groups then status == 5 else status == 7 && u !in w.groups[p].active
    case OpDisband(u, p) => RefusedFollower(w, u, p, status)
    case OpSetSetting(u, p, _) => RefusedFollower(w, u, p, status)
    case _ => false
  }

  ghost predicate CodeRefusedWith(w: World, u: UserId, code: Code, status: nat) {
    if |code| != 6 || exists i :: 0 <= i < |code| && code[i] !in ALPHABET then status == 3
    else if code !in w.codes.forward || w.codes.forward[code] !in w.groups then status == 5
    else
      var p := w.codes.forward[code];
      var g := w.groups[p];
      if |g.active| >= g.capacity then status == 9
      else if u in g.active || u in g.pending then false
      else if exists m :: m in g.active && !IsUnblocked(w, u, m) then status == 7
      else status == 6 && SharesAnother(w, u, p)
  }

  // A call for the leader.
  ghost predicate RefusedFollower(w: World, u: UserId, p: PartyId, status: nat) {
    if p == "" then status == 3
    else if p !in w.groups then status == 5 else status == 7 && u != LeaderOf(w, p)
  }

  // A call for members: one who is only asked or asking is told apart from a stranger.
  ghost predicate RefusedOutsider(w: World, u: UserId, p: PartyId, status: nat) {
    if p == "" then status == 3
    else if p !in w.groups then status == 5
    else u !in w.groups[p].active && status == if u in w.groups[p].pending then 9 else 7
  }

  // Each status is given for its reasons and no others.
  lemma RefusalsExactly(w: World, op: Op, status: nat)
    ensures Step(w, op).1 == Refused(status) <==> RefusedWith(w, op, status)
  {
    hide SharesAnother, Memberships, Shared, AddInvite, AddInvites, AddRefusal, AfterJoin, JoinWrite, KickRefusal,
      RemoveEdges, AutoTransfers, EndIfEmpty, AutoTransfer, RemoveEdge, DeleteReady, Issue, LeavesHalf, MayBeKicked,
      Normalize, Disband, Solo, ClearReady, ExitEach;
    match op
    case OpCreate(u, _, _) => SharedAnywhereIs(w, u);
    case OpJoinByCode(u, typed) => CodeRefusedExactly(w, u, typed, status);
    case OpStart(u, p, now) => StartRefusedExactly(w, u, p, now, status);
    case OpInvite(u, p, t) => SharedIs(w, t, p);
    case OpRawAdd(u, p, ts) => AddRefusedExactly(w, u, p, ts, status);
    case OpJoin(u, p) => SharedIs(w, u, p);
    case OpKick(u, p, ts) => KickRefusedExactly(w, u, p, ts, status);
    case _ =>
  }

  lemma CodeRefusedExactly(w: World, u: UserId, typed: string, status: nat)
    ensures JoinByCode(w, u, typed).1 == Refused(status) <==> CodeRefusedWith(w, u, Normalize(typed), status)
  {
    hide SharesAnother, Memberships, Shared, Normalize, Disband, Solo, ClearReady;
    var code := Normalize(typed);
    if code in w.codes.forward {
      SharedIs(w, u, w.codes.forward[code]);
    }
  }

  lemma StartRefusedExactly(w: World, u: UserId, p: PartyId, now: int, status: nat)
    ensures StartMatchmaking(w, u, p, now).1 == Refused(status) <==> RefusedWith(w, OpStart(u, p, now), status)
  {
    hide ClearReady;
    assert p in PruneStarts(w.starts, now) <==> p in w.starts && now - w.starts[p] < START_WINDOW;
  }

  lemma AddRefusedExactly(w: World, u: UserId, p: PartyId, ts: seq<UserId>, status: nat)
    ensures RawAdd(w, u, p, ts).1 == Refused(status) <==> RefusedWith(w, OpRawAdd(u, p, ts), status)
  {
    hide SharesAnother, AddInvites, AddRefusal, IsUnblocked;
    if AddRefusal(w, u, p, ts) != 0 {
      var i := AddTellsTheFirst(w, u, p, ts);
      forall k: nat | AddStopsAt(w, u, p, ts, k) ensures k == i {
      }
    } else {
      AddPassesExactlyWhen(w, u, p, ts);
      forall k: nat ensures !AddStopsAt(w, u, p, ts, k) {
        assert k < |ts| ==> ts[k] in ts;
      }
    }
  }

  lemma KickRefusedExactly(w: World, u: UserId, p: PartyId, ts: seq<UserId>, status: nat)
    ensures Kick(w, u, p, ts).1 == Refused(status) <==> RefusedWith(w, OpKick(u, p, ts), status)
  {
    hide RemoveEdges, AutoTransfers, EndIfEmpty, DeleteReady, KickRefusal, MayBeKicked;
    if p in w.groups {
      if KickRefusal(w, p, ts) != 0 {
        var i := KickTellsTheFirst(w, p, ts);
        forall k: nat | KickStopsAt(w, p, ts, k) ensures k == i {
        }
      } else {
        KickPassesExactlyWhen(w, p, ts);
        forall k: nat ensures !KickStopsAt(w, p, ts, k) {
          assert k < |ts| ==> ts[k] in ts;
        }
      }
    }
  }

  // What a call answered ok has done.
  ghost predicate HasDone(w: World, w': World, op: Op) {
    match op
    case OpCreate(u, p, capacity) =>
      && p !in w.groups && p in w'.groups && w'.groups[p] == Group(u, capacity, [u], map[]) && LeaderOf(w', p) == u
    case OpInvite(_, p, t) =>
      && IsAsked(w', p, t) && (p, t) !in w'.ready
      && p in w.groups && w'.groups[p].active == w.groups[p].active
    case OpRawAdd(_, p, ts) =>
      && (forall t :: t in ts ==> IsAsked(w', p, t))
      && p in w.groups && p in w'.groups && w'.groups[p].active == w.groups[p].active
    case OpJoin(u, p) =>
      p in w.groups && p in w'.groups &&
      if u in w.groups[p].active || (u in w.groups[p].pending && w.groups[p].pending[u] == Invited)
      then u in w'.groups[p].active
      else u !in w'.groups[p].active && u in w'.groups[p].pending && w'.groups[p].pending[u] == Requested
    case OpLeave(u, p) =>
      && !HasEdge(w', p, u)
      && (p in w'.groups ==> forall v :: v != u ==> (HasEdge(w', p, v) <==> HasEdge(w, p, v)))
    case OpKick(_, p, ts) =>
      && (forall t :: t in ts ==> !HasEdge(w', p, t))
      && (p in w'.groups ==> forall v :: v !in ts ==> (HasEdge(w', p, v) <==> HasEdge(w, p, v)))
    case OpTransfer(_, p, t) => p in w'.groups && LeaderOf(w', p) == t && w'.groups == w.groups
    case OpDisband(_, p) => w'.groups == w.groups - {p}
    case OpSetReady(u, p, ready) =>
      && ((p, u) in w'.ready <==> ready) && (forall r :: r != (p, u) ==> (r in w'.ready <==> r in w.ready))
    case OpAbort(_, p) => w'.starts == w.starts - {p} && w'.groups == w.groups
    case OpSetSetting(_, p, s) => w'.settings == w.settings + {(p, s)}
    case OpBlock(u, t, blocked) => w'.blocks == if blocked then w.blocks + {(u, t)} else w.blocks - {(u, t)}
    case _ => true
  }

  predicate IsAsked(w: World, p: PartyId, t: UserId) {
    p in w.groups && (t in w.groups[p].active || (t in w.groups[p].pending && w.groups[p].pending[t] == Invited))
  }

  lemma {:induction false} AllAreAsked(w: World, p: PartyId, ts: seq<UserId>)
    requires p in w.groups
    ensures var w' := AddInvites(w, p, ts);
            && p in w'.groups && w'.groups[p].active == w.groups[p].active
            && (forall t :: t in ts || IsAsked(w, p, t) ==> IsAsked(w', p, t))
    decreases |ts|
  {
    if ts != [] {
      AllAreAsked(w, p, ts[..|ts| - 1]);
      assert ts == ts[..|ts| - 1] + [ts[|ts| - 1]];
    }
  }

  lemma {:induction false} AllAreRemoved(w: World, p: PartyId, ts: seq<UserId>)
    ensures var w' := RemoveEdges(w, p, ts);
            && (p in w'.groups <==> p in w.groups)
            && forall v :: HasEdge(w', p, v) <==> HasEdge(w, p, v) && v !in ts
    decreases |ts|
  {
    if ts != [] {
      AllAreRemoved(w, p, ts[..|ts| - 1]);
      assert ts == ts[..|ts| - 1] + [ts[|ts| - 1]];
    }
  }

  lemma {:induction false} TransfersKeepRosters(w: World, p: PartyId, ts: seq<UserId>)
    ensures AutoTransfers(w, p, ts).groups == w.groups
    decreases |ts|
  {
    if ts != [] {
      TransfersKeepRosters(w, p, ts[..|ts| - 1]);
    }
  }

  lemma KickHasDone(w: World, u: UserId, p: PartyId, ts: seq<UserId>)
    requires Kick(w, u, p, ts).1 == Done
    ensures HasDone(w, Kick(w, u, p, ts).0, OpKick(u, p, ts))
  {
    hide RemoveEdges, AutoTransfers, KickRefusal, Leader;
    AllAreRemoved(w, p, ts);
    TransfersKeepRosters(RemoveEdges(w, p, ts), p, ts);
  }

  lemma JoinHasDone(w: World, u: UserId, p: PartyId)
    requires Inv(w) && Join(w, u, p).1 == Done
    ensures HasDone(w, Join(w, u, p).0, OpJoin(u, p))
  {
    hide Inv, Shared, Solo, ClearReady;
    assert p in w.groups ==> RosterOk(w.groups[p]) by { InvRosters(w, p); }
    var w1 := ClearReady(Note(JoinWrite(w, u, p), JoinCalled(p, u)), p, {});
    ClearingKeepsRosters(Note(JoinWrite(w, u, p), JoinCalled(p, u)), p);
    assert w1.groups == JoinWrite(w, u, p).groups;
  }

  lemma InvRosters(w: World, p: PartyId)
    requires Inv(w) && p in w.groups
    ensures RosterOk(w.groups[p])
  {
  }

  lemma ClearingKeepsRosters(w: World, p: PartyId)
    ensures ClearReady(w, p, {}).groups == w.groups
  {
  }

  lemma CreateHasDone(w: World, u: UserId, p: PartyId, capacity: nat)
    requires Inv(w) && Create(w, u, p, capacity).1 == Done
    ensures HasDone(w, Create(w, u, p, capacity).0, OpCreate(u, p, capacity))
  {
    hide MembersOk, ReadyExact, CodesHeld, StartsTracked, Memberships, Shared, Solo, DropOwners;
  }

  lemma LeaveHasDone(w: World, u: UserId, p: PartyId)
    requires Leave(w, u, p).1 == Done
    ensures HasDone(w, Leave(w, u, p).0, OpLeave(u, p))
  {
    hide DeleteReady, AutoTransfer;
    var w1 := Note(RemoveEdge(w, p, u), Exited(p, u));
    RostersKept(DeleteReady(w1, p, {u}), w1, p, u);
  }

  lemma RostersKept(a: World, w1: World, p: PartyId, u: UserId)
    requires a == DeleteReady(w1, p, {u})
    ensures AutoTransfer(a, p, u).groups == w1.groups
  {
  }

  // Every call answered ok has done its work.
  lemma OkMeansDone(w: World, op: Op)
    requires Inv(w) && Step(w, op).1 == Done
    ensures HasDone(w, Step(w, op).0, op)
  {
    hide Inv;
    match op
    case OpCreate(u, p, capacity) =>
      hide Create;
      CreateHasDone(w, u, p, capacity);
    case OpRawAdd(u, p, ts) =>
      hide AddInvites, AddRefusal;
      if p in w.groups {
        AllAreAsked(w, p, ts);
      }
    case OpJoin(u, p) =>
      hide Join;
      JoinHasDone(w, u, p);
    case OpLeave(u, p) =>
      hide Leave;
      LeaveHasDone(w, u, p);
    case OpKick(u, p, ts) =>
      hide Kick;
      KickHasDone(w, u, p, ts);
    case OpInvite(u, p, t) => hide Memberships, Shared, Blocked;
    case _ => RestHasDone(w, op);
  }

  lemma RestHasDone(w: World, op: Op)
    requires Step(w, op).1 == Done
    requires op.OpTransfer? || op.OpDisband? || op.OpSetReady? || op.OpAbort? || op.OpSetSetting? || op.OpBlock?
             || op.OpDeleteAccount? || op.OpStart? || op.OpGetCode? || op.OpJoinByCode?
    ensures HasDone(w, Step(w, op).0, op)
  {
    hide Memberships, Shared, Solo, ClearReady, AddActive, Issue, ExitEach, DropOwners, Normalize, Blocked, PruneStarts;
  }

  // ----- Codes -----

  // A member is given the party's code, or, with storage healthy, the first free draw.
  lemma CodeCallAnswersExactly(w: World, u: UserId, p: PartyId, draws: seq<Code>, fault: Fault, k: nat)
    ensures var (w', r) := GetInviteCode(w, u, p, draws, fault);
            && w'.groups == w.groups && w'.ready == w.ready && w'.settings == w.settings && w'.leaders == w.leaders
            && if p == "" || p !in w.groups || u !in w.groups[p].active then w' == w && r.Refused?
               else if p in w.codes.reverse && w.codes.reverse[p] != "" then
                 r == WithCode(w.codes.reverse[p]) && w'.codes == w.codes
               else fault == NoFault ==>
                 && (IsFirstFree(w.codes.forward, draws, k) ==>
                       && r == WithCode(draws[k])
                       && w'.codes.forward == w.codes.forward[draws[k] := p]
                       && w'.codes.reverse == w.codes.reverse[p := draws[k]])
                 && ((forall d :: d in draws ==> d in w.codes.forward) ==> r == Refused(13) && w'.codes == w.codes)
  {
    hide Issue, LeavesHalf;
    IssueAnswersExactly(w.codes, p, draws, fault, k);
  }

  // Whom a typed code lets into which party.
  lemma CodeJoinAnswersExactly(w: World, u: UserId, typed: string, p: PartyId)
    ensures var code := Normalize(typed);
            JoinByCode(w, u, typed).1 == InParty(p) <==>
            && |code| == 6 && (forall i :: 0 <= i < |code| ==> code[i] in ALPHABET)
            && code in w.codes.forward && w.codes.forward[code] == p
            && p in w.groups && |w.groups[p].active| < w.groups[p].capacity
            && (u in w.groups[p].active || u in w.groups[p].pending
                || ((forall m :: m in w.groups[p].active ==> IsUnblocked(w, u, m)) && !SharesAnother(w, u, p)))
  {
    hide Normalize, Shared, Memberships, SharesAnother, Disband, ClearReady, AddActive, Solo;
    SharedIs(w, u, p);
    assert p in w.groups ==>
      ((exists m :: m in w.groups[p].active && Blocked(w, u, m)) <==>
       !(forall m :: m in w.groups[p].active ==> IsUnblocked(w, u, m)));
  }

  // A player let in by a code is active there behind the others, the party re-readies,
  // their parties of one are over and every other is as it was.
  lemma CodeJoinHasDone(w: World, u: UserId, typed: string, p: PartyId)
    requires JoinByCode(w, u, typed).1 == InParty(p)
    ensures p in w.groups
    ensures var w' := JoinByCode(w, u, typed).0;
            if u in w.groups[p].active || u in w.groups[p].pending then w' == w
            else
              && p in w'.groups && w'.groups[p].active == w.groups[p].active + [u] && u !in w'.groups[p].pending
              && (forall v :: v in w'.groups[p].active ==> (p, v) !in w'.ready)
              && (forall q :: q in w.groups && q != p ==>
                    if w.groups[q].active == [u] then q !in w'.groups
                    else q in w'.groups && w'.groups[q] == w.groups[q])
  {
    hide Normalize, Shared, WellFormedCode, Blocked, DropOwners, Memberships, Solo;
    if !HasEdge(w, p, u) {
      var w1 := AddActive(w, p, u);
      CodeJoinEnds(w, u, typed, p);
      assert Listed(w1.groups[p], u);
      forall v | v in w1.groups[p].active ensures Listed(w1.groups[p], v) {
      }
    }
  }

  lemma CodeJoinEnds(w: World, u: UserId, typed: string, p: PartyId)
    requires JoinByCode(w, u, typed).1 == InParty(p) && !HasEdge(w, p, u)
    ensures forall q :: q in Solo(Memberships(AddActive(w, p, u), u, {p})) <==>
                        q in w.groups && q != p && w.groups[q].active == [u]
  {
    var mine := Memberships(AddActive(w, p, u), u, {p});
    forall q ensures q in Solo(mine) <==> q in w.groups && q != p && w.groups[q].active == [u] {
      if q in Solo(mine) {
        SoloIsAlone(AddActive(w, p, u), u, {p}, q);
      }
    }
  }

  // A code whose party is gone is refused, and its two rows are cleared away.
  lemma StaleCodeIsDropped(w: World, u: UserId, typed: string)
    requires var code := Normalize(typed);
             WellFormedCode(code) && code in w.codes.forward && w.codes.forward[code] !in w.groups
    ensures var (w', r), code := JoinByCode(w, u, typed), Normalize(typed);
            && r == Refused(5) && w' == w.(codes := w'.codes)
            && (forall c :: c in w'.codes.forward <==> c in w.codes.forward && c != code)
            && (forall o :: o in w'.codes.reverse <==> o in w.codes.reverse && o != w.codes.forward[code])
  {
    hide Normalize, WellFormedCode;
  }
}
