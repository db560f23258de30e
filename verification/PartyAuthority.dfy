// Who can change a party: which calls take a member out, let one in, or hand the
// leadership on.
module PartyAuthority {
  import opened CodeTable
  import opened Party
  import opened PartyInvariants

  // The calls that may cost u their place in p: their own, the leader's, or the
  // deletion of the creator's account.
  ghost predicate MayEnd(w: World, op: Op, p: PartyId, u: UserId)
    requires p in w.groups
  {
    match op
    case OpLeave(c, q) => c == u && q == p
    case OpCreate(c, _, _) => c == u && w.groups[p].active == [u]
    case OpJoin(c, q) => c == u && q != p && w.groups[p].active == [u]
    case OpJoinByCode(c, _) => c == u && w.groups[p].active == [u]
    case OpKick(c, q, targets) => q == p && c == Leader(w, p) && u in targets && u != c
    case OpDisband(c, q) => q == p && c == Leader(w, p)
    case OpDeleteAccount(c, _) => c == u || w.groups[p].creator == c
    case _ => false
  }

  // The calls that may make u an active member of p: only their own, on an invite or
  // a code, while there is room and no member has blocked them or been blocked.
  ghost predicate MayLand(w: World, op: Op, p: PartyId, u: UserId) {
    match op
    case OpCreate(c, q, _) => c == u && q == p && p !in w.issued
    case OpJoin(c, q) =>
      && c == u && q == p && p in w.groups && |w.groups[p].active| < w.groups[p].capacity
      && u in w.groups[p].pending && w.groups[p].pending[u] == Invited
    case OpJoinByCode(c, typed) =>
      && c == u && p in w.groups && |w.groups[p].active| < w.groups[p].capacity
      && Normalize(typed) in w.codes.forward && w.codes.forward[Normalize(typed)] == p
      && forall m :: m in w.groups[p].active ==> !Blocked(w, u, m)
    case _ => false
  }

  // A living party's leader gives way only to whom they chose, or by leaving.
  ghost predicate LeadPasses(w: World, w': World, op: Op, p: PartyId)
    requires p in w.groups && p in w'.groups
  {
    Leader(w', p) == Leader(w, p)
    || op == OpTransfer(Leader(w, p), p, Leader(w', p))
    || Leader(w, p) !in w'.groups[p].active
  }

  // A roster keeps its creator and capacity, and grows by one at a time while there is room.
  ghost predicate Evolves(g: Group, g': Group) {
    && g'.creator == g.creator && g'.capacity == g.capacity
    && (|g'.active| <= |g.active| || (|g.active| < g.capacity && |g'.active| == |g.active| + 1))
  }

  // What one call may do to one party: nothing, end it, begin it, or move members.
  ghost predicate LawfulAt(w: World, w': World, op: Op, p: PartyId) {
    if p in w.groups && p in w'.groups then
      && (forall u :: u in w.groups[p].active && u !in w'.groups[p].active ==> MayEnd(w, op, p, u))
      && (forall u :: u in w'.groups[p].active && u !in w.groups[p].active ==> MayLand(w, op, p, u))
      && LeadPasses(w, w', op, p) && Evolves(w.groups[p], w'.groups[p])
    else
      && (p in w.groups ==> forall u :: u in w.groups[p].active ==> MayEnd(w, op, p, u))
      && (p in w'.groups ==> exists u :: w'.groups[p].active == [u] && MayLand(w, op, p, u))
  }

  ghost predicate Lawful(w: World, w': World, op: Op) {
    forall p :: LawfulAt(w, w', op, p)
  }

  // ----- Steps, one party at a time -----

  ghost predicate SameAt(w: World, w': World, p: PartyId) {
    && (p in w'.groups <==> p in w.groups)
    && (p in w.groups ==>
          && w'.groups[p].active == w.groups[p].active && w'.groups[p].creator == w.groups[p].creator
          && w'.groups[p].capacity == w.groups[p].capacity && Leader(w', p) == Leader(w, p))
  }

  lemma SameIsLawful(w: World, w': World, op: Op, p: PartyId)
    requires SameAt(w, w', p)
    ensures LawfulAt(w, w', op, p)
  {
    hide MayEnd, MayLand;
  }

  lemma NothingMovesIsLawful(w: World, w': World, op: Op)
    requires forall p :: SameAt(w, w', p)
    ensures Lawful(w, w', op)
  {
    hide SameAt, LawfulAt;
    forall p ensures LawfulAt(w, w', op, p) {
      SameIsLawful(w, w', op, p);
    }
  }

  lemma GoneIsLawful(w: World, w': World, op: Op, p: PartyId)
    requires p in w.groups && p !in w'.groups
    requires forall u :: u in w.groups[p].active ==> MayEnd(w, op, p, u)
    ensures LawfulAt(w, w', op, p)
  {
  }

  lemma SoloIsAlone(w: World, u: UserId, except: set<PartyId>, p: PartyId)
    requires p in Solo(Memberships(w, u, except))
    ensures p in w.groups && w.groups[p].active == [u] && p !in except
  {
    var active := w.groups[p].active;
    assert |active| == 1 && u in active;
  }

  // Ending some parties leaves every other as it was.
  lemma EndingIsLawful(w: World, w': World, op: Op, ended: set<PartyId>)
    requires w'.groups == w.groups - ended && w'.leaders == w.leaders - ended
    requires forall p, u :: p in ended && p in w.groups && u in w.groups[p].active ==> MayEnd(w, op, p, u)
    ensures Lawful(w, w', op)
  {
    hide MayEnd, LawfulAt;
    forall p ensures LawfulAt(w, w', op, p) {
      if p in ended && p in w.groups {
        GoneIsLawful(w, w', op, p);
      } else {
        SameIsLawful(w, w', op, p);
      }
    }
  }

  lemma CreateIsLawful(w: World, caller: UserId, p: PartyId, capacity: nat)
    requires Inv(w)
    ensures Lawful(w, Create(w, caller, p, capacity).0, OpCreate(caller, p, capacity))
  {
    hide Inv, LawfulAt;
    var (w', r) := Create(w, caller, p, capacity);
    var op := OpCreate(caller, p, capacity);
    if r == Done {
      var solos := Solo(Memberships(w, caller, {}));
      IssuedCoversGroups(w);
      forall q ensures LawfulAt(w, w', op, q) {
        if q == p {
          NewIsLawful(w, w', op, p, caller);
        } else if q in solos {
          SoloIsAlone(w, caller, {}, q);
          GoneIsLawful(w, w', op, q);
        } else {
          SameIsLawful(w, w', op, q);
        }
      }
    } else {
      NothingMovesIsLawful(w, w', op);
    }
  }

  lemma IssuedCoversGroups(w: World)
    requires Inv(w)
    ensures forall p :: p in w.groups ==> p in w.issued
  {
  }

  lemma NewIsLawful(w: World, w': World, op: Op, p: PartyId, u: UserId)
    requires p !in w.groups && p in w'.groups && w'.groups[p].active == [u] && MayLand(w, op, p, u)
    ensures LawfulAt(w, w', op, p)
  {
  }

  lemma {:induction false} InvitesMoveNobody(w: World, p: PartyId, us: seq<UserId>)
    ensures forall q :: SameAt(w, AddInvites(w, p, us), q)
    decreases |us|
  {
    if us != [] {
      var front := us[..|us| - 1];
      InvitesMoveNobody(w, p, front);
      var before := AddInvites(w, p, front);
      forall q ensures SameAt(w, AddInvites(w, p, us), q) {
        assert SameAt(w, before, q);
        InviteMovesNobody(before, p, us[|us| - 1], q);
      }
    }
  }

  lemma InviteMovesNobody(w: World, p: PartyId, u: UserId, q: PartyId)
    ensures SameAt(w, AddInvite(w, p, u), q)
  {
  }

  // Landing in p leaves behind only the parties of one elsewhere.
  lemma LandingIsLawful(w: World, w': World, op: Op, p: PartyId, u: UserId, ended: set<PartyId>)
    requires p in w.groups && u !in w.groups[p].active && p !in ended
    requires var g := w.groups[p];
             w'.groups == w.groups[p := g.(active := g.active + [u], pending := g.pending - {u})] - ended
    requires w'.leaders == w.leaders - ended
    requires forall q :: q in ended ==> q in w.groups && w.groups[q].active == [u] && MayEnd(w, op, q, u)
    requires MayLand(w, op, p, u) && |w.groups[p].active| < w.groups[p].capacity
    ensures Lawful(w, w', op)
  {
    hide MayEnd, MayLand, LawfulAt;
    forall q ensures LawfulAt(w, w', op, q) {
      if q == p {
        LandedIsLawful(w, w', op, p, u);
      } else if q in ended {
        GoneIsLawful(w, w', op, q);
      } else {
        SameIsLawful(w, w', op, q);
      }
    }
  }

  lemma LandedIsLawful(w: World, w': World, op: Op, p: PartyId, u: UserId)
    requires p in w.groups && p in w'.groups && w'.groups[p].active == w.groups[p].active + [u]
    requires w'.groups[p].creator == w.groups[p].creator && w'.groups[p].capacity == w.groups[p].capacity
    requires Leader(w', p) == Leader(w, p) && |w.groups[p].active| < w.groups[p].capacity && MayLand(w, op, p, u)
    ensures LawfulAt(w, w', op, p)
  {
    hide MayEnd, MayLand;
  }

  lemma JoinIsLawful(w: World, caller: UserId, p: PartyId)
    requires Inv(w)
    ensures Lawful(w, Join(w, caller, p).0, OpJoin(caller, p))
  {
    hide Lawful, Inv, AfterJoin;
    var (w', r) := Join(w, caller, p);
    if r != Done {
      NothingMovesIsLawful(w, w', OpJoin(caller, p));
    } else if caller !in w.groups[p].active && caller in w.groups[p].pending && w.groups[p].pending[caller] == Invited {
      AcceptIsLawful(w, caller, p);
    } else {
      IdleJoinIsLawful(w, caller, p);
    }
  }

  lemma AcceptIsLawful(w: World, caller: UserId, p: PartyId)
    requires p in w.groups && caller !in w.groups[p].active && |w.groups[p].active| < w.groups[p].capacity
    requires caller in w.groups[p].pending && w.groups[p].pending[caller] == Invited
    ensures Lawful(w, AfterJoin(JoinWrite(w, caller, p), caller, p), OpJoin(caller, p))
  {
    hide Lawful;
    var w1 := AddActive(w, p, caller);
    var w2 := ClearReady(Note(w1, JoinCalled(p, caller)), p, {});
    var mine := Memberships(w2, caller, {});
    assert p in mine;
    var ended := Solo(mine) - {p};
    forall q | q in ended ensures q in w.groups && w.groups[q].active == [caller] {
      SoloIsAlone(w2, caller, {}, q);
    }
    LandingIsLawful(w, Disband(w2, ended), OpJoin(caller, p), p, caller, ended);
  }

  lemma IdleJoinIsLawful(w: World, caller: UserId, p: PartyId)
    requires p in w.groups
    requires caller in w.groups[p].active || !(caller in w.groups[p].pending && w.groups[p].pending[caller] == Invited)
    ensures Lawful(w, AfterJoin(JoinWrite(w, caller, p), caller, p), OpJoin(caller, p))
  {
    hide LawfulAt;
    var w1 := JoinWrite(w, caller, p);
    var w2 := ClearReady(Note(w1, JoinCalled(p, caller)), p, {});
    var mine := Memberships(w2, caller, {});
    var ended := if p in mine then Solo(mine) - {p} else {};
    var w' := AfterJoin(w1, caller, p);
    var op := OpJoin(caller, p);
    assert w'.groups == w1.groups - ended && w'.leaders == w.leaders - ended;
    forall q ensures LawfulAt(w, w', op, q) {
      if q in ended {
        SoloIsAlone(w2, caller, {}, q);
        GoneIsLawful(w, w', op, q);
      } else {
        SameIsLawful(w, w', op, q);
      }
    }
  }

  lemma JoinByCodeIsLawful(w: World, caller: UserId, typed: string)
    requires Inv(w)
    ensures Lawful(w, JoinByCode(w, caller, typed).0, OpJoinByCode(caller, typed))
  {
    hide Inv, Normalize, Lawful;
    var (w', r) := JoinByCode(w, caller, typed);
    var op := OpJoinByCode(caller, typed);
    if w'.groups == w.groups && w'.leaders == w.leaders {
      NothingMovesIsLawful(w, w', op);
    } else {
      var p := w.codes.forward[Normalize(typed)];
      var w1 := AddActive(w, p, caller);
      var ended := Solo(Memberships(w1, caller, {p}));
      forall q | q in ended ensures q in w.groups && w.groups[q].active == [caller] && q != p {
        SoloIsAlone(w1, caller, {p}, q);
      }
      LandingIsLawful(w, w', op, p, caller, ended);
    }
  }

  lemma LeaveIsLawful(w: World, caller: UserId, p: PartyId)
    requires Inv(w)
    ensures Lawful(w, Leave(w, caller, p).0, OpLeave(caller, p))
  {
    hide Inv, Departed, Lawful;
    if HasEdge(w, p, caller) {
      LeaveShape(w, caller, p);
      DepartureIsLawful(w, Leave(w, caller, p).0, OpLeave(caller, p), p, caller);
    } else {
      NothingMovesIsLawful(w, w, OpLeave(caller, p));
    }
  }

  // One player's exit takes nobody else out and passes the lead only when they held it.
  lemma DepartureIsLawful(w: World, w': World, op: Op, p: PartyId, u: UserId)
    requires p in w.groups
    requires var d := Departed(w, p, u); w'.groups == d.groups && w'.leaders == d.leaders
    requires MayEnd(w, op, p, u)
    ensures Lawful(w, w', op)
  {
    hide MayEnd, LawfulAt;
    forall q ensures LawfulAt(w, w', op, q) {
      if q == p {
        DepartedIsLawful(w, w', op, p, u);
      } else {
        SameIsLawful(w, w', op, q);
      }
    }
  }

  lemma DepartedIsLawful(w: World, w': World, op: Op, p: PartyId, u: UserId)
    requires p in w.groups
    requires var d := Departed(w, p, u); w'.groups == d.groups && w'.leaders == d.leaders
    requires MayEnd(w, op, p, u)
    ensures LawfulAt(w, w', op, p)
  {
    hide MayEnd, MayLand;
    WithoutTwice(w.groups[p].active, u);
  }

  lemma {:induction false} RemoveEdgesMoves(w: World, p: PartyId, us: seq<UserId>)
    requires p in w.groups
    ensures var w' := RemoveEdges(w, p, us);
            && w'.leaders == w.leaders && w'.groups.Keys == w.groups.Keys
            && (forall q :: q in w.groups && q != p ==> w'.groups[q] == w.groups[q])
            && w'.groups[p].creator == w.groups[p].creator && w'.groups[p].capacity == w.groups[p].capacity
            && |w'.groups[p].active| <= |w.groups[p].active|
            && (forall v :: v in w'.groups[p].active <==> v in w.groups[p].active && v !in us)
    decreases |us|
  {
    if us != [] {
      RemoveEdgesMoves(w, p, us[..|us| - 1]);
      assert us == us[..|us| - 1] + [us[|us| - 1]];
    }
  }

  lemma KickIsLawful(w: World, caller: UserId, p: PartyId, targets: seq<UserId>)
    requires Inv(w)
    ensures Lawful(w, Kick(w, caller, p, targets).0, OpKick(caller, p, targets))
  {
    hide Inv, RemoveEdges, AutoTransfers, KickRefusal, LawfulAt;
    var (w', r) := Kick(w, caller, p, targets);
    var op := OpKick(caller, p, targets);
    if r == Done {
      KickTargetsSpareLeader(w, p, targets);
      RemoveEdgesMoves(w, p, targets);
      var w1 := RemoveEdges(w, p, targets);
      AutoTransfersIdle(w1, p, targets);
      forall q ensures LawfulAt(w, w', op, q) {
        if q != p {
          SameIsLawful(w, w', op, q);
        } else if p in w'.groups {
          KickedIsLawful(w, w', op, p);
        } else {
          GoneIsLawful(w, w', op, p);
        }
      }
    } else {
      NothingMovesIsLawful(w, w', op);
    }
  }

  lemma KickedIsLawful(w: World, w': World, op: Op, p: PartyId)
    requires p in w.groups && p in w'.groups && Leader(w', p) == Leader(w, p)
    requires w'.groups[p].creator == w.groups[p].creator && w'.groups[p].capacity == w.groups[p].capacity
    requires |w'.groups[p].active| <= |w.groups[p].active|
    requires forall u :: u in w'.groups[p].active ==> u in w.groups[p].active
    requires forall u :: u in w.groups[p].active && u !in w'.groups[p].active ==> MayEnd(w, op, p, u)
    ensures LawfulAt(w, w', op, p)
  {
  }

  // ----- Account deletion -----

  // Deleting u's account: each party shrinks by u alone, or, if u created it, is gone.
  ghost predicate ShrinksBy(w: World, w': World, u: UserId, p: PartyId) {
    && (p in w'.groups ==> p in w.groups)
    && (p in w.groups && p in w'.groups ==>
          && w'.groups[p].creator == w.groups[p].creator && w'.groups[p].capacity == w.groups[p].capacity
          && |w'.groups[p].active| <= |w.groups[p].active|
          && (forall v :: v in w'.groups[p].active ==> v in w.groups[p].active)
          && (forall v :: v in w.groups[p].active && v !in w'.groups[p].active ==> v == u)
          && (Leader(w', p) == Leader(w, p) || Leader(w, p) !in w'.groups[p].active))
    && (p in w.groups && p !in w'.groups ==>
          w.groups[p].creator == u || forall v :: v in w.groups[p].active ==> v == u)
  }

  lemma ExitShrinks(w: World, u: UserId, p: PartyId, q: PartyId)
    ensures ShrinksBy(w, ExitForDeletion(w, u, p), u, q)
  {
    if p in w.groups && w.groups[p].creator != u && q == p {
      WithoutTwice(w.groups[p].active, u);
    }
  }

  lemma ShrinksOn(a: World, b: World, c: World, u: UserId, p: PartyId)
    requires ShrinksBy(a, b, u, p) && ShrinksBy(b, c, u, p)
    ensures ShrinksBy(a, c, u, p)
  {
  }

  lemma {:induction false} ExitEachShrinks(w: World, u: UserId, listed: seq<PartyId>, p: PartyId)
    ensures ShrinksBy(w, ExitEach(w, u, listed), u, p)
    decreases |listed|
  {
    hide ExitForDeletion;
    if listed != [] {
      var front := listed[..|listed| - 1];
      ExitEachShrinks(w, u, front, p);
      var before := ExitEach(w, u, front);
      ExitShrinks(before, u, listed[|listed| - 1], p);
      ShrinksOn(w, before, ExitEach(w, u, listed), u, p);
    }
  }

  lemma ShrunkIsLawful(w: World, w': World, u: UserId, listed: seq<PartyId>, p: PartyId)
    requires ShrinksBy(w, w', u, p)
    ensures LawfulAt(w, w', OpDeleteAccount(u, listed), p)
  {
  }

  lemma DeleteAccountIsLawful(w: World, u: UserId, listed: seq<PartyId>)
    ensures Lawful(w, DeleteAccount(w, u, listed).0, OpDeleteAccount(u, listed))
  {
    hide ExitEach, ShrinksBy, LawfulAt;
    var w' := DeleteAccount(w, u, listed).0;
    forall p ensures LawfulAt(w, w', OpDeleteAccount(u, listed), p) {
      ExitEachShrinks(w, u, FirstPages(listed), p);
      ShrunkIsLawful(w, w', u, listed, p);
    }
  }

  // ----- The main results -----

  lemma RestIsLawful(w: World, op: Op)
    requires op.OpInvite? || op.OpSetReady? || op.OpStart? || op.OpAbort?
             || op.OpGetCode? || op.OpSetSetting? || op.OpBlock?
    ensures Lawful(w, Step(w, op).0, op)
  {
    hide LawfulAt, Lawful, Issue;
    var w' := Step(w, op).0;
    forall p ensures SameAt(w, w', p) {
      if op.OpInvite? {
        InviteMovesNobody(w, op.p, op.target, p);
      }
    }
    NothingMovesIsLawful(w, w', op);
  }

  lemma RawAddIsLawful(w: World, caller: UserId, p: PartyId, targets: seq<UserId>)
    ensures Lawful(w, RawAdd(w, caller, p, targets).0, OpRawAdd(caller, p, targets))
  {
    hide Lawful, AddInvites;
    InvitesMoveNobody(w, p, targets);
    NothingMovesIsLawful(w, RawAdd(w, caller, p, targets).0, OpRawAdd(caller, p, targets));
  }

  lemma TransferIsLawful(w: World, caller: UserId, p: PartyId, target: UserId)
    ensures Lawful(w, Transfer(w, caller, p, target).0, OpTransfer(caller, p, target))
  {
    hide MayEnd, MayLand, LawfulAt;
    var (w', r) := Transfer(w, caller, p, target);
    forall q ensures LawfulAt(w, w', OpTransfer(caller, p, target), q) {
      if q == p && r == Done {
        TransferredIsLawful(w, caller, p, target);
      } else {
        SameIsLawful(w, w', OpTransfer(caller, p, target), q);
      }
    }
  }

  lemma TransferredIsLawful(w: World, caller: UserId, p: PartyId, target: UserId)
    requires p in w.groups && Leader(w, p) == caller
    ensures LawfulAt(w, w.(leaders := w.leaders[p := target]), OpTransfer(caller, p, target), p)
  {
    hide MayEnd, MayLand;
  }

  lemma DisbandIsLawful(w: World, caller: UserId, p: PartyId)
    ensures Lawful(w, DisbandByLeader(w, caller, p).0, OpDisband(caller, p))
  {
    hide Lawful, LawfulAt;
    var (w', r) := DisbandByLeader(w, caller, p);
    if r == Done {
      EndingIsLawful(w, w', OpDisband(caller, p), {p});
    } else {
      NothingMovesIsLawful(w, w', OpDisband(caller, p));
    }
  }

  lemma StepIsLawful(w: World, op: Op)
    requires Inv(w)
    ensures Lawful(w, Step(w, op).0, op)
  {
    hide Inv, Lawful;
    match op
    case OpCreate(u, p, capacity) => CreateIsLawful(w, u, p, capacity);
    case OpRawAdd(u, p, ts) => RawAddIsLawful(w, u, p, ts);
    case OpJoin(u, p) => JoinIsLawful(w, u, p);
    case OpJoinByCode(u, typed) => JoinByCodeIsLawful(w, u, typed);
    case OpLeave(u, p) => LeaveIsLawful(w, u, p);
    case OpKick(u, p, ts) => KickIsLawful(w, u, p, ts);
    case OpTransfer(u, p, t) => TransferIsLawful(w, u, p, t);
    case OpDisband(u, p) => DisbandIsLawful(w, u, p);
    case OpDeleteAccount(u, listed) => DeleteAccountIsLawful(w, u, listed);
    case _ => RestIsLawful(w, op);
  }

  // In every reachable state, whatever call comes next: a member loses their place
  // only by their own call, a kick or disband by the leader, or the deletion of the
  // creator's account; a player gains one only by their own call on an invite or a
  // code; and a living party's lead passes only to whom the leader chose or when the
  // leader is gone.
  lemma EveryStepIsLawful(w: World, op: Op)
    requires Reachable(w)
    ensures Lawful(w, Step(w, op).0, op)
  {
    ReachableInv(w);
    StepIsLawful(w, op);
  }

  ghost predicate WithinCapacity(w: World) {
    forall p :: p in w.groups ==> |w.groups[p].active| <= 1 || |w.groups[p].active| <= w.groups[p].capacity
  }

  lemma LawfulKeepsCapacity(w: World, w': World, op: Op)
    requires Lawful(w, w', op) && WithinCapacity(w)
    ensures WithinCapacity(w')
  {
    hide MayEnd, MayLand, LeadPasses;
    forall p | p in w'.groups ensures |w'.groups[p].active| <= 1 || |w'.groups[p].active| <= w'.groups[p].capacity {
      assert LawfulAt(w, w', op, p);
    }
  }

  lemma {:induction false} RunKeepsCapacity(w: World, ops: seq<Op>)
    requires Inv(w) && WithinCapacity(w) && EnabledRun(w, ops)
    ensures WithinCapacity(Run(w, ops))
    decreases |ops|
  {
    hide Inv, Lawful, WithinCapacity, Step, Enabled;
    if ops != [] {
      StepIsLawful(w, ops[0]);
      StepKeepsInv(w, ops[0]);
      LawfulKeepsCapacity(w, Step(w, ops[0]).0, ops[0]);
      RunKeepsCapacity(Step(w, ops[0]).0, ops[1..]);
    }
  }

  lemma NothingHeld()
    ensures Inv(EMPTY_WORLD) && WithinCapacity(EMPTY_WORLD)
  {
    assert EnabledRun(EMPTY_WORLD, []) && Run(EMPTY_WORLD, []) == EMPTY_WORLD;
    ReachableInv(EMPTY_WORLD);
  }

  // No party ever holds more active members than its capacity.
  lemma PartyNeverOverfills(w: World, p: PartyId)
    requires Reachable(w) && p in w.groups && w.groups[p].capacity > 0
    ensures |w.groups[p].active| <= w.groups[p].capacity
  {
    hide Inv;
    NothingHeld();
    var ops: seq<Op> :| EnabledRun(EMPTY_WORLD, ops) && w == Run(EMPTY_WORLD, ops);
    RunKeepsCapacity(EMPTY_WORLD, ops);
  }
}
