// Invite codes of parties that end: which rows stay behind, and why.
module PartyCodes {
  import opened CodeTable
  import opened Party
  import opened PartyInvariants
  import opened PartyAuthority
  import opened PartyTheorems

  // Some issue of a code for p wrote its forward row and then failed.
  predicate HalfIssuedSo(h: History, p: PartyId) {
    h.After? && (h.event == HalfIssued(p) || HalfIssuedSo(h.before, p))
  }

  lemma {:induction false} HalfIssuedMentions(h: History, p: PartyId)
    requires HalfIssuedSo(h, p)
    ensures Mentions(h, p)
  {
    if h.event != HalfIssued(p) {
      HalfIssuedMentions(h.before, p);
    }
  }

  // A live party has a stray code row exactly when one of its issues half failed.
  ghost predicate StraysKnown(w: World) {
    && (forall c :: c in w.codes.forward ==> w.codes.forward[c] in w.issued)
    && (forall p :: p in w.groups ==> (HasStray(w.codes, p) <==> HalfIssuedSo(w.history, p)))
  }

  // What every step but an issue does: it adds no forward row and no half-failed issue,
  // and parties that live on keep their strays.
  ghost predicate Carries(w: World, w': World) {
    && w.issued <= w'.issued
    && (forall c :: c in w'.codes.forward ==> c in w.codes.forward && w'.codes.forward[c] == w.codes.forward[c])
    && (forall p :: p in w'.groups && p in w.groups ==> (HasStray(w'.codes, p) <==> HasStray(w.codes, p)))
    && (forall p :: p in w'.groups && p !in w.groups ==> p !in w.issued)
    && (forall p :: HalfIssuedSo(w'.history, p) <==> HalfIssuedSo(w.history, p))
  }

  lemma CarriedStraysAreKnown(w: World, w': World)
    requires Inv(w) && StraysKnown(w) && Carries(w, w')
    ensures StraysKnown(w')
  {
    hide MembersOk, ReadyExact, CodesHeld, StartsTracked;
    forall p | p in w'.groups ensures HasStray(w'.codes, p) <==> HalfIssuedSo(w'.history, p) {
      if p !in w.groups {
        if HalfIssuedSo(w.history, p) {
          HalfIssuedMentions(w.history, p);
        }
        forall c ensures !IsStray(w'.codes, c, p) {
        }
      }
    }
  }

  // A step that leaves the codes alone carries the strays over if its history does.
  lemma SameCodesCarry(w: World, w': World)
    requires w'.codes == w.codes && w'.groups.Keys <= w.groups.Keys && w'.issued == w.issued
    requires forall p :: HalfIssuedSo(w'.history, p) <==> HalfIssuedSo(w.history, p)
    ensures Carries(w, w')
  {
  }

  lemma DropOwnersLeaveStrays(t: Codes, owners: set<PartyId>, p: PartyId)
    requires Consistent(t)
    ensures var t' := DropOwners(t, owners);
            && (p in owners ==> (IsNamed(t', p) <==> HasStray(t, p)) && p !in t'.reverse)
            && (p !in owners ==> SameRowsOf(t, t', p) && (HasStray(t', p) <==> HasStray(t, p)))
  {
    var t' := DropOwners(t, owners);
    assert forall code :: Names(t', code, p) <==>
             Names(t, code, p) && !(p in owners && p in t.reverse && t.reverse[p] == code);
    assert forall code :: p in owners ==> (Names(t', code, p) <==> IsStray(t, code, p));
    assert forall code :: p !in owners ==> (IsStray(t', code, p) <==> IsStray(t, code, p));
  }

  // Ending parties through their reverse rows, whatever else the step does to the world.
  lemma DisbandingCarries(w: World, w': World, ended: set<PartyId>)
    requires Consistent(w.codes) && w'.codes == DropOwners(w.codes, ended)
    requires w'.groups.Keys <= w.groups.Keys - ended && w'.issued == w.issued
    requires forall p :: HalfIssuedSo(w'.history, p) <==> HalfIssuedSo(w.history, p)
    ensures Carries(w, w')
  {
    forall p | p in w'.groups ensures HasStray(w'.codes, p) <==> HasStray(w.codes, p) {
      DropOwnersLeaveStrays(w.codes, ended, p);
    }
  }

  lemma {:induction false} InvitesCarry(w: World, p: PartyId, us: seq<UserId>)
    ensures var w' := AddInvites(w, p, us);
            && w'.codes == w.codes && w'.issued == w.issued && w'.groups.Keys == w.groups.Keys
            && forall q :: HalfIssuedSo(w'.history, q) <==> HalfIssuedSo(w.history, q)
    decreases |us|
  {
    if us != [] {
      InvitesCarry(w, p, us[..|us| - 1]);
    }
  }

  lemma {:induction false} RemovalsCarry(w: World, p: PartyId, us: seq<UserId>)
    ensures var w' := RemoveEdges(w, p, us);
            && w'.codes == w.codes && w'.issued == w.issued && w'.groups.Keys == w.groups.Keys
            && forall q :: HalfIssuedSo(w'.history, q) <==> HalfIssuedSo(w.history, q)
    decreases |us|
  {
    if us != [] {
      RemovalsCarry(w, p, us[..|us| - 1]);
    }
  }

  lemma {:induction false} TransfersCarry(w: World, p: PartyId, us: seq<UserId>)
    ensures var w' := AutoTransfers(w, p, us);
            w' == w.(leaders := w'.leaders)
    decreases |us|
  {
    if us != [] {
      TransfersCarry(w, p, us[..|us| - 1]);
    }
  }

  lemma KickCarries(w: World, u: UserId, p: PartyId, ts: seq<UserId>)
    ensures Carries(w, Kick(w, u, p, ts).0)
  {
    hide AutoTransfers, RemoveEdges;
    RemovalsCarry(w, p, ts);
    TransfersCarry(RemoveEdges(w, p, ts), p, ts);
    SameCodesCarry(w, Kick(w, u, p, ts).0);
  }

  lemma CreateCarries(w: World, u: UserId, p: PartyId, capacity: nat)
    requires Consistent(w.codes) && w.groups.Keys <= w.issued
    ensures Carries(w, Create(w, u, p, capacity).0)
  {
    var w' := Create(w, u, p, capacity).0;
    var ended := Solo(Memberships(w, u, {}));
    forall q | q in w'.groups && q in w.groups ensures HasStray(w'.codes, q) <==> HasStray(w.codes, q) {
      DropOwnersLeaveStrays(w.codes, ended, q);
    }
  }

  lemma JoinCarries(w: World, u: UserId, p: PartyId)
    requires Consistent(w.codes)
    ensures Carries(w, Join(w, u, p).0)
  {
    hide DropOwners, Carries, Memberships, Solo, Shared;
    var w' := Join(w, u, p).0;
    if Join(w, u, p).1 == Done {
      var w1 := ClearReady(Note(JoinWrite(w, u, p), JoinCalled(p, u)), p, {});
      var ended := Solo(Memberships(w1, u, {})) - {p};
      assert forall q :: HalfIssuedSo(w1.history, q) <==> HalfIssuedSo(w.history, q);
      if w' != w1 {
        DisbandingCarries(w, w', ended);
      } else {
        SameCodesCarry(w, w');
      }
    } else {
      SameCodesCarry(w, w);
    }
  }

  lemma JoinByCodeCarries(w: World, u: UserId, typed: string)
    requires Consistent(w.codes)
    ensures Carries(w, JoinByCode(w, u, typed).0)
  {
    hide DropOwners, Normalize, Carries, HasStray, Blocked;
    var w', code := JoinByCode(w, u, typed).0, Normalize(typed);
    if code in w.codes.forward && w.codes.forward[code] !in w.groups {
      StaleCodeCarries(w, code);
      SameCodesCarry(w, w);
    } else if JoinByCode(w, u, typed).1.InParty? && w' != w {
      var p := w.codes.forward[code];
      DisbandingCarries(w, w', Solo(Memberships(AddActive(w, p, u), u, {p})));
    } else {
      SameCodesCarry(w, w);
    }
  }

  lemma StaleCodeCarries(w: World, code: Code)
    requires Consistent(w.codes) && code in w.codes.forward && w.codes.forward[code] !in w.groups
    ensures Carries(w, w.(codes := DropPair(w.codes, code, w.codes.forward[code])))
  {
    var p, t' := w.codes.forward[code], DropPair(w.codes, code, w.codes.forward[code]);
    assert forall q, c :: q != p ==> (IsStray(t', c, q) <==> IsStray(w.codes, c, q));
  }

  lemma ExitCarries(w: World, u: UserId, p: PartyId)
    requires Consistent(w.codes)
    ensures Carries(w, ExitForDeletion(w, u, p))
  {
    var w' := ExitForDeletion(w, u, p);
    if p !in w.groups || w.groups[p].creator != u {
      hide Carries, Without;
      SameCodesCarry(w, w');
    } else {
      hide DropOwner;
      forall q ensures HasStray(w'.codes, q) <==> HasStray(w.codes, q) {
        DropOwnerLeavesStrays(w.codes, p, q);
      }
      assert forall c :: c in w'.codes.forward ==> Names(w.codes, c, w'.codes.forward[c]) by {
        DropOwnerRemoves(w.codes, p);
      }
    }
  }

  lemma DropOwnerRemoves(t: Codes, owner: PartyId)
    ensures var t' := DropOwner(t, owner);
            forall c :: c in t'.forward ==> Names(t, c, t'.forward[c])
  {
  }

  lemma {:induction false} ExitsCarry(w: World, u: UserId, listed: seq<PartyId>)
    requires Inv(w)
    ensures Carries(w, ExitEach(w, u, listed)) && ExitEach(w, u, listed).groups.Keys <= w.groups.Keys
    decreases |listed|
  {
    hide MembersOk, ReadyExact, StartsTracked, ExitForDeletion;
    if listed == [] {
      SameCodesCarry(w, w);
    } else {
      var front, p := listed[..|listed| - 1], listed[|listed| - 1];
      ExitsCarry(w, u, front);
      ExitEachKeepsInv(w, u, front);
      ExitCarries(ExitEach(w, u, front), u, p);
      ExitEndsOnly(ExitEach(w, u, front), u, p);
    }
  }

  lemma ExitEndsOnly(w: World, u: UserId, p: PartyId)
    ensures ExitForDeletion(w, u, p).groups.Keys <= w.groups.Keys
  {
  }

  lemma OwnersOfIssue(t: Codes, p: PartyId, draws: seq<Code>, fault: Fault)
    ensures var t' := Issue(t, p, draws, fault).0;
            forall c :: c in t'.forward ==> Names(t, c, t'.forward[c]) || t'.forward[c] == p
  {
  }

  lemma GetCodeKnowsStrays(w: World, u: UserId, p: PartyId, draws: seq<Code>, fault: Fault)
    requires Consistent(w.codes) && w.groups.Keys <= w.issued && StraysKnown(w)
    ensures StraysKnown(GetInviteCode(w, u, p, draws, fault).0)
  {
    hide Issue, HasStray, Consistent;
    var w' := GetInviteCode(w, u, p, draws, fault).0;
    if p in w.groups && w' != w {
      OwnersOfIssue(w.codes, p, draws, fault);
      forall q | q in w'.groups ensures HasStray(w'.codes, q) <==> HalfIssuedSo(w'.history, q) {
        IssueAddsStray(w.codes, p, draws, fault, q);
      }
    }
  }

  lemma StepKnowsStrays(w: World, op: Op)
    requires Inv(w) && Enabled(w, op) && StraysKnown(w)
    ensures StraysKnown(Step(w, op).0)
  {
    assert Consistent(w.codes) && w.groups.Keys <= w.issued;
    if op.OpGetCode? {
      hide Inv, StraysKnown, GetInviteCode;
      GetCodeKnowsStrays(w, op.caller, op.p, op.draws, op.fault);
    } else {
      hide Inv, StraysKnown, Carries, Step;
      StepCarries(w, op);
      CarriedStraysAreKnown(w, Step(w, op).0);
    }
  }

  lemma StepCarries(w: World, op: Op)
    requires Inv(w) && Enabled(w, op) && !op.OpGetCode?
    ensures Carries(w, Step(w, op).0)
  {
    assert Consistent(w.codes) && w.groups.Keys <= w.issued;
    hide Inv, Carries, Create, Invite, RawAdd, Join, JoinByCode, Leave, Kick, DisbandByLeader;
    match op
    case OpCreate(u, p, capacity) => CreateCarries(w, u, p, capacity);
    case OpInvite(u, p, t) => InviteCarries(w, u, p, t);
    case OpRawAdd(u, p, ts) => RawAddCarries(w, u, p, ts);
    case OpJoin(u, p) => JoinCarries(w, u, p);
    case OpJoinByCode(u, typed) => JoinByCodeCarries(w, u, typed);
    case OpLeave(u, p) => LeaveCarries(w, u, p);
    case OpKick(u, p, ts) => KickCarries(w, u, p, ts);
    case OpDisband(u, p) => DisbandCarries(w, u, p);
    case OpDeleteAccount(u, listed) => ExitsCarry(w, u, FirstPages(listed));
    case _ => RestCarries(w, op);
  }

  lemma InviteCarries(w: World, u: UserId, p: PartyId, t: UserId)
    ensures Carries(w, Invite(w, u, p, t).0)
  {
    hide Carries, Memberships, Blocked, Shared;
    SameCodesCarry(w, Invite(w, u, p, t).0);
  }

  lemma RawAddCarries(w: World, u: UserId, p: PartyId, ts: seq<UserId>)
    ensures Carries(w, RawAdd(w, u, p, ts).0)
  {
    hide Carries, AddInvites, AddRefusal;
    InvitesCarry(w, p, ts);
    SameCodesCarry(w, RawAdd(w, u, p, ts).0);
  }

  lemma LeaveCarries(w: World, u: UserId, p: PartyId)
    ensures Carries(w, Leave(w, u, p).0)
  {
    hide Carries, Leave, Departed;
    if HasEdge(w, p, u) {
      LeaveShape(w, u, p);
      DepartedShape(w, p, u);
      SameCodesCarry(w, Leave(w, u, p).0);
    } else {
      assert Leave(w, u, p).0 == w by {
        NoLeave(w, u, p);
      }
      SameCodesCarry(w, w);
    }
  }

  lemma NoLeave(w: World, u: UserId, p: PartyId)
    requires !HasEdge(w, p, u)
    ensures Leave(w, u, p).0 == w
  {
  }

  lemma DisbandCarries(w: World, u: UserId, p: PartyId)
    requires Consistent(w.codes)
    ensures Carries(w, DisbandByLeader(w, u, p).0)
  {
    hide Carries, DropOwners;
    if DisbandByLeader(w, u, p).1 == Done {
      DisbandingCarries(w, Disband(w, {p}), {p});
    } else {
      SameCodesCarry(w, w);
    }
  }

  lemma RestCarries(w: World, op: Op)
    requires op.OpTransfer? || op.OpSetReady? || op.OpStart? || op.OpAbort? || op.OpSetSetting? || op.OpBlock?
    ensures Carries(w, Step(w, op).0)
  {
    hide Carries, PruneStarts, AllReady;
    SameCodesCarry(w, Step(w, op).0);
  }

  lemma {:induction false} RunKnowsStrays(w: World, ops: seq<Op>)
    requires Inv(w) && StraysKnown(w) && EnabledRun(w, ops)
    ensures StraysKnown(Run(w, ops))
    decreases |ops|
  {
    hide Inv, StraysKnown, Step, Enabled;
    if ops != [] {
      StepKnowsStrays(w, ops[0]);
      StepKeepsInv(w, ops[0]);
      RunKnowsStrays(Step(w, ops[0]).0, ops[1..]);
    }
  }

  // A live party has a forward code row beside its own pair if and only if, at some time,
  // an issue for it failed between its two writes: nothing clears such a row while it lives.
  lemma StrayExactlyWhen(w: World, p: PartyId)
    requires Reachable(w) && p in w.groups
    ensures HasStray(w.codes, p) <==> HalfIssuedSo(w.history, p)
  {
    var ops: seq<Op> :| EnabledRun(EMPTY_WORLD, ops) && w == Run(EMPTY_WORLD, ops);
    RunKnowsStrays(EMPTY_WORLD, ops);
  }

  // ----- Codes of ended parties -----

  // The call takes the last member out of p; nothing is disbanded.
  predicate Empties(w: World, op: Op, p: PartyId)
    requires p in w.groups
  {
    op.OpLeave? || (op.OpDeleteAccount? && w.groups[p].creator != op.caller)
  }

  lemma DropOwnerOfSame(a: Codes, b: Codes, p: PartyId)
    requires Consistent(a) && Consistent(b) && SameRowsOf(a, b, p)
    ensures SameRowsOf(DropOwner(a, p), DropOwner(b, p), p)
  {
    forall code ensures Names(DropOwner(a, p), code, p) <==> Names(DropOwner(b, p), code, p) {
      assert Names(a, code, p) <==> Names(b, code, p);
    }
  }

  // What the walk of an account deletion does to one party's code rows.
  lemma {:induction false} ExitEachCodesAt(w: World, u: UserId, listed: seq<PartyId>, p: PartyId)
    requires Inv(w) && forall i, j :: 0 <= i < j < |listed| ==> listed[i] != listed[j]
    ensures SameRowsOf(if p in listed && p in w.groups && w.groups[p].creator == u then DropOwner(w.codes, p)
                       else w.codes,
                       ExitEach(w, u, listed).codes, p)
    decreases |listed|
  {
    hide MembersOk, ReadyExact, StartsTracked, IdsIssued, DropOwner, Consistent, SameRowsOf, SameParty, RemoveEdge;
    if listed == [] {
      SameAsItself(w.codes, p);
    } else {
      var front, q := listed[..|listed| - 1], listed[|listed| - 1];
      assert listed == front + [q];
      ExitEachCodesAt(w, u, front, p);
      ExitEachKeepsInv(w, u, front);
      ExitEachAt(w, u, front, p);
      var before := ExitEach(w, u, front);
      LastExitCodes(w, before, u, q, p);
      if q != p {
        SameTwice(if p in front && p in w.groups && w.groups[p].creator == u then DropOwner(w.codes, p) else w.codes,
                  before.codes, ExitForDeletion(before, u, q).codes, p);
      }
    }
  }

  lemma SameAsItself(t: Codes, p: PartyId)
    ensures SameRowsOf(t, t, p)
  {
  }

  lemma SameTwice(a: Codes, b: Codes, c: Codes, p: PartyId)
    requires SameRowsOf(a, b, p) && SameRowsOf(b, c, p)
    ensures SameRowsOf(a, c, p)
  {
  }

  lemma LastExitCodes(w: World, before: World, u: UserId, q: PartyId, p: PartyId)
    requires Consistent(w.codes) && Consistent(before.codes)
    ensures q != p ==> SameRowsOf(before.codes, ExitForDeletion(before, u, q).codes, p)
    ensures q == p && SameParty(w, before, p) && SameRowsOf(w.codes, before.codes, p) ==>
              SameRowsOf(if p in w.groups && w.groups[p].creator == u then DropOwner(w.codes, p) else w.codes,
                         ExitForDeletion(before, u, q).codes, p)
  {
    hide DropOwner, Consistent, SameRowsOf, RemoveEdge, AutoTransfer, EndIfEmpty, ClearReady;
    DropOwnerLeavesStrays(before.codes, q, p);
    SameAsItself(before.codes, p);
    ExitCodes(before, u, q);
    if q == p && SameParty(w, before, p) && SameRowsOf(w.codes, before.codes, p) {
      DropOwnerOfSame(w.codes, before.codes, p);
    }
  }

  lemma ExitCodes(w: World, u: UserId, p: PartyId)
    ensures ExitForDeletion(w, u, p).codes ==
            if p in w.groups && w.groups[p].creator == u then DropOwner(w.codes, p) else w.codes
  {
  }

  lemma DisbandingCodes(w: World, op: Op, p: PartyId) returns (ended: set<PartyId>)
    requires p in w.groups && p !in Step(w, op).0.groups
    requires op.OpCreate? || op.OpJoin? || op.OpJoinByCode? || op.OpDisband?
    ensures p in ended && Step(w, op).0.codes == DropOwners(w.codes, ended)
  {
    hide DropOwners, Normalize, ClearReady, Memberships, Solo, Shared;
    match op
    case OpCreate(u, _, _) => ended := Solo(Memberships(w, u, {}));
    case OpJoin(u, q) => ended := JoinEnds(w, u, q, p);
    case OpJoinByCode(u, typed) => ended := JoinByCodeEnds(w, u, typed, p);
    case OpDisband(u, q) => ended := {q};
  }

  lemma JoinEnds(w: World, u: UserId, q: PartyId, p: PartyId) returns (ended: set<PartyId>)
    requires p in w.groups && p !in Join(w, u, q).0.groups
    ensures p in ended && Join(w, u, q).0.codes == DropOwners(w.codes, ended)
  {
    hide DropOwners, Memberships, Solo, Shared;
    var w1 := ClearReady(Note(JoinWrite(w, u, q), JoinCalled(q, u)), q, {});
    ended := Solo(Memberships(w1, u, {})) - {q};
  }

  lemma JoinByCodeEnds(w: World, u: UserId, typed: string, p: PartyId) returns (ended: set<PartyId>)
    requires p in w.groups && p !in JoinByCode(w, u, typed).0.groups
    ensures p in ended && JoinByCode(w, u, typed).0.codes == DropOwners(w.codes, ended)
  {
    hide DropOwners, Normalize, Memberships, Solo, Shared;
    var q := w.codes.forward[Normalize(typed)];
    ended := Solo(Memberships(AddActive(w, q, u), u, {q}));
  }

  // Whichever call ends a party: when it takes the last member out, the party's code rows
  // all stay. Otherwise its pair goes, and a forward row still names the party if and only
  // if one of its issues had failed between its two writes.
  lemma EndedPartyLeavesCodesExactlyWhen(w: World, op: Op, p: PartyId)
    requires Reachable(w) && Enabled(w, op) && p in w.groups && p !in Step(w, op).0.groups
    ensures var t' := Step(w, op).0.codes;
            && (IsNamed(t', p) <==> if Empties(w, op, p) then IsNamed(w.codes, p) else HalfIssuedSo(w.history, p))
            && (p in t'.reverse <==> Empties(w, op, p) && p in w.codes.reverse)
  {
    hide HasStray, IsNamed;
    ReachableInv(w);
    StrayExactlyWhen(w, p);
    assert Consistent(w.codes);
    hide Inv, DropOwners;
    if op.OpDeleteAccount? {
      DeletionCodes(w, op.caller, op.listed, p);
    } else {
      EndingCalls(w, op, p);
      if op.OpLeave? {
        hide Without;
        SameAsItself(w.codes, p);
      } else {
        var ended := DisbandingCodes(w, op, p);
        DropOwnersLeaveStrays(w.codes, ended, p);
      }
    }
  }

  lemma EndingCalls(w: World, op: Op, p: PartyId)
    requires Inv(w) && p in w.groups && p !in Step(w, op).0.groups
    ensures op.OpCreate? || op.OpJoin? || op.OpJoinByCode? || op.OpLeave? || op.OpDisband? || op.OpDeleteAccount?
  {
    hide Inv, Lawful;
    StepIsLawful(w, op);
    OnlyMembersReady(w, p);
    EndedBy(w, Step(w, op).0, op, p);
  }

  lemma DeletionCodes(w: World, u: UserId, listed: seq<PartyId>, p: PartyId)
    requires Inv(w) && Enabled(w, OpDeleteAccount(u, listed)) && p in w.groups
    requires p !in DeleteAccount(w, u, listed).0.groups
    ensures var t' := DeleteAccount(w, u, listed).0.codes;
            if w.groups[p].creator == u then (IsNamed(t', p) <==> HasStray(w.codes, p)) && p !in t'.reverse
            else SameRowsOf(w.codes, t', p) && (IsNamed(t', p) <==> IsNamed(w.codes, p))
  {
    hide MembersOk, ReadyExact, StartsTracked, IdsIssued, ExitEach, DropOwner;
    ExitEachCodesAt(w, u, FirstPages(listed), p);
    ExitEachAt(w, u, FirstPages(listed), p);
    DropOwnerLeavesStrays(w.codes, p, p);
    DropOwnerEndsOnlyItsCode(w.codes, p);
    SameRowsSameNames(if p in FirstPages(listed) && w.groups[p].creator == u then DropOwner(w.codes, p) else w.codes,
                      DeleteAccount(w, u, listed).0.codes, p);
  }

  lemma SameRowsSameNames(a: Codes, b: Codes, p: PartyId)
    requires SameRowsOf(a, b, p)
    ensures IsNamed(a, p) <==> IsNamed(b, p)
  {
  }

  // One such run: an issue fails between its writes, and the leader disbands the party.
  lemma HalfIssueOutlivesTheParty(draws: seq<Code>)
    requires |draws| == MAX_ATTEMPTS && forall d :: d in draws ==> WellFormedCode(d)
    ensures exists w :: Reachable(w) && "P" in w.groups && HalfIssuedSo(w.history, "P")
                        && DisbandByLeader(w, "A", "P").1 == Done
                        && Names(DisbandByLeader(w, "A", "P").0.codes, draws[0], "P")
  {
    var w1 := PartyOfOne();
    var op := OpGetCode("A", "P", draws, ReverseFault);
    ReachableStep(w1, op);
    HalfIssueStays(w1, draws);
  }

  lemma HalfIssueStays(w1: World, draws: seq<Code>)
    requires w1.groups == map["P" := Group("A", 4, ["A"], map[])] && w1.codes == CodeTable.EMPTY && w1.leaders == map[]
    requires draws != []
    ensures var w := GetInviteCode(w1, "A", "P", draws, ReverseFault).0;
            && "P" in w.groups && HalfIssuedSo(w.history, "P") && DisbandByLeader(w, "A", "P").1 == Done
            && Names(DisbandByLeader(w, "A", "P").0.codes, draws[0], "P")
  {
    hide Issue, LeavesHalf;
    FirstIssueFailsHalfway("P", draws);
  }

  // ----- Settings of ended parties -----

  lemma {:induction false} InvitesKeepSettings(w: World, p: PartyId, us: seq<UserId>)
    ensures AddInvites(w, p, us).settings == w.settings
    decreases |us|
  {
    if us != [] {
      InvitesKeepSettings(w, p, us[..|us| - 1]);
    }
  }

  lemma {:induction false} KicksKeepSettings(w: World, p: PartyId, us: seq<UserId>)
    ensures RemoveEdges(w, p, us).settings == w.settings && AutoTransfers(w, p, us).settings == w.settings
    decreases |us|
  {
    if us != [] {
      KicksKeepSettings(w, p, us[..|us| - 1]);
    }
  }

  // What a call does to one setting of a party that was live: the call sets it, or it was
  // there and stays unless the call ends the party otherwise than by taking the last member
  // out.
  ghost predicate SettingFollows(w: World, op: Op, p: PartyId, s: Setting)
    requires p in w.groups
  {
    var (w', r) := Step(w, op);
    (p, s) in w'.settings <==>
    (op.OpSetSetting? && op.p == p && op.setting == s && r == Done)
    || ((p, s) in w.settings && (p in w'.groups || Empties(w, op, p)))
  }

  lemma DisbandingSettings(w: World, op: Op, p: PartyId, s: Setting)
    requires w.groups.Keys <= w.issued && p in w.groups
    requires op.OpCreate? || op.OpDisband?
    ensures SettingFollows(w, op, p, s)
  {
    hide Memberships, Shared, Solo, DropOwners, Leader;
  }

  lemma JoinSettings(w: World, op: Op, p: PartyId, s: Setting)
    requires op.OpJoin? && p in w.groups
    ensures SettingFollows(w, op, p, s)
  {
    hide Memberships, Shared, Solo, DropOwners, ClearReady;
    if op.p in w.groups {
      var w1 := JoinWrite(w, op.caller, op.p);
      assert p in w1.groups && w1.settings == w.settings;
      hide JoinWrite;
      ClearKeepsSettings(Note(w1, JoinCalled(op.p, op.caller)), op.p);
    }
  }

  lemma ClearKeepsSettings(w: World, p: PartyId)
    ensures ClearReady(w, p, {}).settings == w.settings && ClearReady(w, p, {}).groups == w.groups
  {
  }

  lemma CodeSettings(w: World, op: Op, p: PartyId, s: Setting)
    requires op.OpJoinByCode? && p in w.groups
    ensures SettingFollows(w, op, p, s)
  {
    hide Memberships, Shared, Solo, DropOwners, Normalize, WellFormedCode, Blocked;
  }

  lemma DeletionSettings(w: World, op: Op, p: PartyId, s: Setting)
    requires op.OpDeleteAccount? && Enabled(w, op) && p in w.groups
    ensures SettingFollows(w, op, p, s)
  {
    DeletionEndsOwnParties(w, op.caller, op.listed, p, s);
    ExitEachAt(w, op.caller, FirstPages(op.listed), p);
    hide ExitEach, ExitForDeletion;
  }

  lemma StartSettings(w: World, op: Op, p: PartyId, s: Setting)
    requires op.OpStart? && p in w.groups
    ensures SettingFollows(w, op, p, s)
  {
    hide PruneStarts, AllReady;
  }

  lemma AddSettings(w: World, op: Op, p: PartyId, s: Setting)
    requires op.OpRawAdd? && p in w.groups && p in Step(w, op).0.groups
    ensures SettingFollows(w, op, p, s)
  {
    hide AddInvites, AddRefusal;
    InvitesKeepSettings(w, op.p, op.targets);
  }

  lemma KickSettings(w: World, op: Op, p: PartyId, s: Setting)
    requires op.OpKick? && p in w.groups && p in Step(w, op).0.groups
    ensures SettingFollows(w, op, p, s)
  {
    hide RemoveEdges, AutoTransfers, KickRefusal;
    KicksKeepSettings(w, op.p, op.targets);
    KicksKeepSettings(RemoveEdges(w, op.p, op.targets), op.p, op.targets);
  }

  lemma LeaveSettings(w: World, op: Op, p: PartyId, s: Setting)
    requires op.OpLeave? && p in w.groups
    ensures SettingFollows(w, op, p, s)
  {
    if HasEdge(w, op.p, op.caller) {
      LeaveShape(w, op.caller, op.p);
    }
  }

  lemma OtherSettings(w: World, op: Op, p: PartyId, s: Setting)
    requires op.OpInvite? || op.OpTransfer? || op.OpSetReady? || op.OpAbort? || op.OpGetCode? || op.OpSetSetting?
             || op.OpBlock?
    requires p in w.groups && p in Step(w, op).0.groups
    ensures SettingFollows(w, op, p, s)
  {
    hide Memberships, Shared, Blocked, Issue, LeavesHalf;
  }

  // In every reachable state, whatever call comes next, a setting of a live party is there
  // afterwards if and only if the call sets it, or it was there and the party lives on or
  // ended with its last member's exit: then its settings rows stay behind.
  lemma SettingsStayExactlyWhen(w: World, op: Op, p: PartyId, s: Setting)
    requires Reachable(w) && Enabled(w, op) && p in w.groups
    ensures SettingFollows(w, op, p, s)
  {
    hide Inv, SettingFollows;
    ReachableInv(w);
    IssuedCoversGroups(w);
    if p !in Step(w, op).0.groups {
      EndingCalls(w, op, p);
    }
    match op
    case OpCreate(_, _, _) => DisbandingSettings(w, op, p, s);
    case OpDisband(_, _) => DisbandingSettings(w, op, p, s);
    case OpJoin(_, _) => JoinSettings(w, op, p, s);
    case OpJoinByCode(_, _) => CodeSettings(w, op, p, s);
    case OpDeleteAccount(_, _) => DeletionSettings(w, op, p, s);
    case OpRawAdd(_, _, _) => AddSettings(w, op, p, s);
    case OpKick(_, _, _) => KickSettings(w, op, p, s);
    case OpLeave(_, _) => LeaveSettings(w, op, p, s);
    case OpStart(_, _, _) => StartSettings(w, op, p, s);
    case _ => OtherSettings(w, op, p, s);
  }
}
