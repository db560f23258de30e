// What players can rely on in every reachable state of the party protocol.
module PartyTheorems {
  import opened CodeTable
  import opened Party
  import opened PartyInvariants
  import opened PartyAuthority

  // ----- Membership -----

  lemma PlayerHasOneParty(w: World, p: PartyId, q: PartyId, u: UserId)
    requires Reachable(w) && IsActive(w, p, u) && IsActive(w, q, u)
    ensures p == q
  {
    ReachableInv(w);
    assert ActiveIn(w.groups, p, u) && ActiveIn(w.groups, q, u);
  }

  // A party is never stranded: somebody is active, and the resolved leader is
  // one of them.
  lemma LeaderIsActive(w: World, p: PartyId)
    requires Reachable(w) && p in w.groups
    ensures IsActive(w, p, Leader(w, p))
  {
    ReachableInv(w);
  }

  // Accepting an invite moves the player: into the new party, out of any other.
  lemma AcceptMovesThePlayer(w: World, u: UserId, p: PartyId, q: PartyId)
    requires Inv(w) && p in w.groups && u in w.groups[p].pending && w.groups[p].pending[u] == Invited
    requires Join(w, u, p).1 == Done
    ensures var w' := Join(w, u, p).0;
            Inv(w') && IsActive(w', p, u) && (q != p ==> !IsActive(w', q, u))
  {
    var w' := Join(w, u, p).0;
    JoinKeepsInv(w, u, p);
    assert ActiveIn(w'.groups, p, u);
    assert IsActive(w', q, u) ==> ActiveIn(w'.groups, q, u);
  }

  // ----- Readiness and starts -----

  function Extend(h: History, events: seq<Event>): History
    decreases |events|
  {
    if events == [] then h
    else After(Extend(h, events[..|events| - 1]), events[|events| - 1])
  }

  // ReadySince spelled out over the run: at some point u set ready in p, and no
  // event after that point reset it.
  lemma {:induction false} ReadySinceUnrolled(h: History, p: PartyId, u: UserId)
    ensures ReadySince(h, p, u) <==>
            exists before, since :: h == Extend(After(before, Readied(p, u)), since) &&
                                    forall e :: e in since ==> !Resets(e, p, u)
  {
    if ReadySince(h, p, u) {
      var before, since := SinceFromReady(h, p, u);
    }
    if before: History, since: seq<Event> :|
      h == Extend(After(before, Readied(p, u)), since) && forall e :: e in since ==> !Resets(e, p, u)
    {
      ReadyFromSince(before, since, p, u);
    }
  }

  lemma {:induction false} SinceFromReady(h: History, p: PartyId, u: UserId)
    returns (before: History, since: seq<Event>)
    requires ReadySince(h, p, u)
    ensures h == Extend(After(before, Readied(p, u)), since)
    ensures forall e :: e in since ==> !Resets(e, p, u)
  {
    if h.event == Readied(p, u) {
      before, since := h.before, [];
    } else {
      before, since := SinceFromReady(h.before, p, u);
      assert (since + [h.event])[..|since|] == since;
      since := since + [h.event];
    }
  }

  lemma {:induction false} ReadyFromSince(before: History, since: seq<Event>, p: PartyId, u: UserId)
    requires forall e :: e in since ==> !Resets(e, p, u)
    ensures ReadySince(Extend(After(before, Readied(p, u)), since), p, u)
    decreases |since|
  {
    if since != [] {
      assert since[|since| - 1] in since;
      ReadyFromSince(before, since[..|since| - 1], p, u);
    }
  }

  // Exactly when a start goes through: an active member calls it, every active
  // member has readied since the last thing that resets them, and no attempt of
  // the last twenty seconds stands un-aborted.
  lemma StartGoesThroughExactlyWhen(w: World, caller: UserId, p: PartyId, now: int)
    requires Reachable(w) && w.clock <= now
    ensures StartMatchmaking(w, caller, p, now).1 == Done <==>
            && p != "" && p in w.groups && caller in w.groups[p].active
            && (forall u :: u in w.groups[p].active ==> ReadySince(w.history, p, u))
            && (forall at :: Unaborted(w.history, p, at) ==> now - at >= START_WINDOW)
  {
    ReachableInv(w);
    LiveStartIsUnaborted(w.history, p);
    assert StartTracked(w.starts, w.clock, w.history, p);
    if p in w.groups {
      assert AllReady(w, p) <==> forall u :: u in w.groups[p].active ==> ReadySince(w.history, p, u);
    }
    GuardRefusesExactlyWhen(w.starts, w.clock, w.history, p, now);
  }

  // The pruned map answers for the whole history of starts and aborts.
  lemma GuardRefusesExactlyWhen(starts: map<PartyId, int>, clock: int, h: History, p: PartyId, now: int)
    requires StartTracked(starts, clock, h, p) && clock <= now
    ensures p in PruneStarts(starts, now) ==> exists at :: Unaborted(h, p, at) && now - at < START_WINDOW
    ensures forall at :: Unaborted(h, p, at) && now - at < START_WINDOW ==> p in PruneStarts(starts, now)
  {
    LiveStartIsUnaborted(h, p);
    var live := LiveStart(h, p);
    if p in starts && live != [] {
      assert Unaborted(h, p, live[0]);
    }
  }

  lemma {:induction false} LiveStartIsUnaborted(h: History, p: PartyId)
    ensures LiveStart(h, p) != [] ==> Unaborted(h, p, LiveStart(h, p)[0])
  {
    if h.After? {
      LiveStartIsUnaborted(h.before, p);
    }
  }

  // A start spends the party's readiness: whatever happens next, each member
  // readies again before the party can start again.
  lemma StartSpendsReadiness(w: World, caller: UserId, p: PartyId, now: int)
    requires Reachable(w) && w.clock <= now && StartMatchmaking(w, caller, p, now).1 == Done
    ensures var w' := StartMatchmaking(w, caller, p, now).0;
            && w'.groups == w.groups
            && (forall u :: (p, u) !in w'.ready)
            && (forall u :: !ReadySince(w'.history, p, u))
            && Unaborted(w'.history, p, now)
  {
    ReachableInv(w);
  }

  // Leaving takes the leaver's readiness only; the others keep theirs.
  lemma SurvivorsKeepReadiness(w: World, u: UserId, p: PartyId)
    requires Reachable(w) && HasEdge(w, p, u)
    ensures Leave(w, u, p).0.ready == w.ready - {(p, u)}
  {
    LeaveShape(w, u, p);
  }

  // A join call is refused: the party is gone, the caller shares another one, or they
  // hold an invite and there is no room.
  ghost predicate JoinRefused(w: World, u: UserId, p: PartyId) {
    p !in w.groups
    || Shared(Memberships(w, u, {p}))
    || (u !in w.groups[p].active && u in w.groups[p].pending && w.groups[p].pending[u] == Invited
        && |w.groups[p].active| >= w.groups[p].capacity)
  }

  ghost predicate SameRows(w: World, w': World, p: PartyId) {
    forall v :: (p, v) in w'.ready <==> (p, v) in w.ready
  }

  // A join call that makes nobody active, whoever makes it, an outsider, a repeated
  // request or a member already active, changes no roster; it leaves the party's ready
  // rows alone if and only if it was refused or nobody was ready. Else it clears them all.
  lemma IdleJoinKeepsReadinessExactlyWhen(w: World, u: UserId, p: PartyId)
    requires Reachable(w) && (IsActive(w, p, u) || !IsActive(Join(w, u, p).0, p, u))
    ensures var (w', r) := Join(w, u, p);
            && (r.Refused? <==> JoinRefused(w, u, p))
            && (SameRows(w, w', p) <==> JoinRefused(w, u, p) || !SomeoneReady(w, p))
            && (!JoinRefused(w, u, p) ==> !SomeoneReady(w', p))
            && (p in w.groups ==> p in w'.groups && w'.groups[p].active == w.groups[p].active)
  {
    hide Inv;
    ReachableInv(w);
    if !JoinRefused(w, u, p) {
      OnlyMembersReady(w, p);
      IdleJoinClears(w, u, p);
    }
  }

  // The ready rows of a live party all belong to its active members.
  ghost predicate ReadyAreMembers(w: World, p: PartyId)
    requires p in w.groups
  {
    forall v :: (p, v) in w.ready ==> v in w.groups[p].active
  }

  lemma OnlyMembersReady(w: World, p: PartyId)
    requires Inv(w) && p in w.groups
    ensures ReadyAreMembers(w, p) && Leader(w, p) in w.groups[p].active
  {
  }

  lemma IdleJoinClears(w: World, u: UserId, p: PartyId)
    requires !JoinRefused(w, u, p) && ReadyAreMembers(w, p)
    requires u in w.groups[p].active || !IsActive(Join(w, u, p).0, p, u)
    ensures var w' := Join(w, u, p).0;
            !SomeoneReady(w', p) && p in w'.groups && w'.groups[p].active == w.groups[p].active
  {
    var w1 := JoinWrite(w, u, p);
    var w2 := ClearReady(Note(w1, JoinCalled(p, u)), p, {});
    forall v ensures (p, v) !in w2.ready {
      assert (p, v) in w.ready ==> Listed(w1.groups[p], v);
    }
  }

  // One such run: two members, one of them ready, and a stranger who asks to join.
  lemma RequestUnreadiesTheParty() returns (w: World)
    ensures Reachable(w) && ("P", "B") in w.ready && !HasEdge(w, "P", "C")
    ensures var w' := Step(w, OpJoin("C", "P")).0;
            Reachable(w') && ("P", "B") !in w'.ready && w'.groups["P"].active == ["A", "B"] == w.groups["P"].active
  {
    var w0 := PartyOfTwo();
    ReachableStep(w0, OpSetReady("B", "P", true));
    w := Step(w0, OpSetReady("B", "P", true)).0;
    assert w.groups == w0.groups;
    ReachableStep(w, OpJoin("C", "P"));
    assert !Shared(Memberships(w, "C", {"P"}));
    IdleJoinKeepsReadinessExactlyWhen(w, "C", "P");
  }

  // ----- Invite codes -----

  // A well-formed code is read as itself.
  lemma WellFormedReadsAsItself(code: Code)
    requires WellFormedCode(code)
    ensures Normalize(code) == code
  {
    AlphabetReadsAsItself(code);
  }

  function CodesOf(draws: seq<seq<nat>>): seq<Code> {
    seq(|draws|, i requires 0 <= i < |draws| => CodeOf(draws[i]))
  }

  // Whatever random bytes are drawn, the codes made of them are ones this model allows.
  lemma DrawnCodesAreWellFormed(w: World, caller: UserId, p: PartyId, draws: seq<seq<nat>>, fault: Fault)
    requires |draws| == 5 && forall d :: d in draws ==> |d| == 6
    ensures Enabled(w, OpGetCode(caller, p, CodesOf(draws), fault))
  {
    forall c | c in CodesOf(draws) ensures WellFormedCode(c) {
      var i :| 0 <= i < |draws| && CodesOf(draws)[i] == c;
      assert draws[i] in draws;
    }
  }

  // The party has room, and neither a block nor a shared party bars the caller.
  ghost predicate MayJoin(w: World, p: PartyId, caller: UserId)
    requires p in w.groups
  {
    && |w.groups[p].active| < w.groups[p].capacity
    && (forall m :: m in w.groups[p].active ==> (caller, m) !in w.blocks && (m, caller) !in w.blocks)
    && !Shared(Memberships(w, caller, {p}))
  }

  // A code handed out for a party works for as long as that party lives: joining
  // by it reaches that party and no other.
  lemma HandedOutCodeReachesItsParty(w: World, p: PartyId, code: Code, caller: UserId)
    requires Reachable(w) && p in w.groups && HandedOutSo(w.history, p, code)
    ensures code in w.codes.forward && w.codes.forward[code] == p
    ensures var (w', r) := JoinByCode(w, caller, code);
            && (r.InParty? ==> r.p == p && HasEdge(w', p, caller))
            && r != Refused(3) && r != Refused(5)
            && (MayJoin(w, p, caller) ==> r == InParty(p))
  {
    ReachableInv(w);
    WellFormedReadsAsItself(code);
    assert WellFormedCode(code);
    hide Inv;
    hide Normalize;
    if !HasEdge(w, p, caller) && JoinByCode(w, caller, code).1.InParty? {
      LandingSolos(w, caller, p);
    }
  }

  // Live parties never share a handed-out code.
  lemma LivePartiesShareNoCode(w: World, p: PartyId, q: PartyId, code: Code)
    requires Reachable(w) && p in w.groups && q in w.groups
    requires HandedOutSo(w.history, p, code) && HandedOutSo(w.history, q, code)
    ensures p == q
  {
    HandedOutCodeReachesItsParty(w, p, code, "");
    HandedOutCodeReachesItsParty(w, q, code, "");
  }

  // ----- Endings -----

  // Disbanding leaves no group, leader, ready or settings row of the party, and every other
  // party's; no pair of code rows is left, and a forward code row stays if and only if no
  // reverse row answered to it.
  lemma DisbandLeavesOnlyStrays(w: World, caller: UserId, p: PartyId)
    requires Reachable(w) && DisbandByLeader(w, caller, p).1 == Done
    ensures var w' := DisbandByLeader(w, caller, p).0;
            && w'.groups == w.groups - {p} && w'.leaders == w.leaders - {p}
            && (forall q, u :: (q, u) in w'.ready <==> (q, u) in w.ready && q != p)
            && (forall q, s :: (q, s) in w'.settings <==> (q, s) in w.settings && q != p)
            && p !in w'.codes.reverse
            && (p in w.codes.reverse ==> w.codes.reverse[p] !in w'.codes.forward)
            && (forall c :: Names(w'.codes, c, p) <==> IsStray(w.codes, c, p))
  {
    ReachableInv(w);
  }

  lemma ExitTouchesOneEdge(w: World, u: UserId, p: PartyId, q: PartyId, v: UserId)
    ensures var w' := ExitForDeletion(w, u, p);
            && !HasEdge(w', p, u)
            && (q != p ==> HasEdge(w', q, v) == HasEdge(w, q, v))
            && (HasEdge(w', q, v) ==> HasEdge(w, q, v))
  {
    if p in w.groups && w.groups[p].creator != u {
      DepartedShape(w, p, u);
    }
  }

  lemma {:induction false} ExitEachEdges(w: World, u: UserId, listed: seq<PartyId>, q: PartyId)
    ensures HasEdge(ExitEach(w, u, listed), q, u) <==> HasEdge(w, q, u) && q !in listed
    decreases |listed|
  {
    if listed != [] {
      var front, p := listed[..|listed| - 1], listed[|listed| - 1];
      ExitEachEdges(w, u, front, q);
      ExitTouchesOneEdge(ExitEach(w, u, front), u, p, q, u);
      assert listed == front + [p];
    }
  }

  lemma PastThePages(listed: seq<PartyId>, q: PartyId)
    requires q in listed && q !in FirstPages(listed)
    ensures exists i :: MEMBERSHIP_PAGES_LIMIT <= i < |listed| && listed[i] == q
  {
    var first := FirstPages(listed);
    assert forall i :: 0 <= i < |first| ==> first[i] == listed[i] && first[i] in first;
    var i :| 0 <= i < |listed| && listed[i] == q;
  }

  // Account deletion takes the player out of exactly the parties its listing reaches
  // among all their groups, so out of every party if and only if none of theirs comes
  // after the thousand groups that ten pages hold.
  lemma DeletionLeavesEveryPartyExactlyWhen(w: World, u: UserId, listed: seq<PartyId>)
    requires Enabled(w, OpDeleteAccount(u, listed))
    ensures var w' := DeleteAccount(w, u, listed).0;
            && (forall q :: HasEdge(w', q, u) <==> HasEdge(w, q, u) && q !in FirstPages(listed))
            && ((forall q :: !HasEdge(w', q, u)) <==>
                forall i :: 1000 <= i < |listed| ==> listed[i] !in w.groups)
  {
    var w' := DeleteAccount(w, u, listed).0;
    forall q ensures HasEdge(w', q, u) <==> HasEdge(w, q, u) && q !in FirstPages(listed) {
      ExitEachEdges(w, u, FirstPages(listed), q);
    }
    forall i | MEMBERSHIP_PAGES_LIMIT <= i < |listed| && listed[i] in w.groups ensures HasEdge(w', listed[i], u) {
      assert listed[i] in listed && listed[i] !in FirstPages(listed);
    }
    forall q | HasEdge(w', q, u) ensures exists i :: MEMBERSHIP_PAGES_LIMIT <= i < |listed| && listed[i] in w.groups {
      PastThePages(listed, q);
    }
  }

  // A thousand groups that are no parties.
  function OtherGroups(n: nat): (listed: seq<PartyId>)
    ensures |listed| == n && forall i :: 0 <= i < n ==> |listed[i]| == i + 2
  {
    seq(n, i requires 0 <= i < n => seq(i + 2, _ => 'g'))
  }

  // One such run: the player's party is listed behind a thousand other groups of theirs.
  lemma DeletionMissesTheParty() returns (w: World, listed: seq<PartyId>)
    ensures Reachable(w) && Enabled(w, OpDeleteAccount("A", listed))
    ensures HasEdge(w, "P", "A") && HasEdge(DeleteAccount(w, "A", listed).0, "P", "A")
  {
    w := PartyOfOne();
    var others := OtherGroups(MEMBERSHIP_PAGES_LIMIT);
    listed := others + ["P"];
    forall p | p in others ensures p != "P" {
      var i :| 0 <= i < |others| && others[i] == p;
    }
    assert listed[MEMBERSHIP_PAGES_LIMIT] == "P" && FirstPages(listed) == others;
    hide ExitEach, Inv;
    ExitEachEdges(w, "A", others, "P");
  }

  // ----- Ready rows of ended parties -----

  // The two worlds agree on everything one party is.
  ghost predicate SameParty(a: World, b: World, p: PartyId) {
    && (p in a.groups <==> p in b.groups)
    && (p in a.groups ==> a.groups[p] == b.groups[p])
    && (p in a.leaders <==> p in b.leaders)
    && (p in a.leaders ==> a.leaders[p] == b.leaders[p])
    && (forall u :: (p, u) in a.ready <==> (p, u) in b.ready)
  }

  lemma ExitElsewhere(w: World, u: UserId, q: PartyId, p: PartyId)
    requires q != p
    ensures SameParty(w, ExitForDeletion(w, u, q), p)
  {
  }

  // What the leaving half of an exit makes of one party, in terms of that party only.
  lemma ExitAt(w: World, u: UserId, p: PartyId)
    requires p in w.groups && w.groups[p].creator != u
    ensures var w', g := ExitForDeletion(w, u, p), RosterWithout(w.groups[p], u);
            && (p in w'.groups <==> g.active != [])
            && (p in w'.groups ==> w'.groups[p] == g)
            && (p in w'.leaders <==> if Leader(w, p) == u then g.active != [] else p in w.leaders)
            && (p in w'.leaders ==> w'.leaders[p] == if Leader(w, p) == u then g.active[0] else w.leaders[p])
            && (forall v :: (p, v) in w'.ready <==> (p, v) in w.ready && v != u && !Listed(g, v))
  {
    WithoutTwice(w.groups[p].active, u);
    var w1 := Note(RemoveEdge(w, p, u), AccountLeft(p, u));
    assert w1.groups[p] == RosterWithout(w.groups[p], u);
  }

  lemma ExitSame(a: World, b: World, u: UserId, p: PartyId)
    requires SameParty(a, b, p)
    ensures SameParty(ExitForDeletion(a, u, p), ExitForDeletion(b, u, p), p)
  {
    if p in a.groups && a.groups[p].creator != u {
      hide ExitForDeletion, RosterWithout;
      ExitAt(a, u, p);
      ExitAt(b, u, p);
    }
  }

  // A walk over many groups does to each what leaving it alone would do.
  lemma {:induction false} ExitEachAt(w: World, u: UserId, listed: seq<PartyId>, p: PartyId)
    requires forall i, j :: 0 <= i < j < |listed| ==> listed[i] != listed[j]
    ensures SameParty(if p in listed then ExitForDeletion(w, u, p) else w, ExitEach(w, u, listed), p)
    decreases |listed|
  {
    hide ExitForDeletion;
    if listed != [] {
      var front, q := listed[..|listed| - 1], listed[|listed| - 1];
      ExitEachAt(w, u, front, p);
      assert listed == front + [q];
      var before := ExitEach(w, u, front);
      if q == p {
        ExitSame(w, before, u, p);
      } else {
        ExitElsewhere(before, u, q, p);
      }
    }
  }

  lemma {:induction false} ExitEachSettings(w: World, u: UserId, listed: seq<PartyId>, p: PartyId, s: Setting)
    requires forall i, j :: 0 <= i < j < |listed| ==> listed[i] != listed[j]
    ensures (p, s) in ExitEach(w, u, listed).settings <==>
            (p, s) in w.settings && !(p in listed && p in w.groups && w.groups[p].creator == u)
    decreases |listed|
  {
    if listed != [] {
      var front, q := listed[..|listed| - 1], listed[|listed| - 1];
      ExitEachSettings(w, u, front, p, s);
      ExitEachAt(w, u, front, q);
      assert listed == front + [q];
      hide AutoTransfer, EndIfEmpty, DropOwner, ExitEach;
      assert SameParty(w, ExitEach(w, u, front), q);
      ExitSettings(ExitEach(w, u, front), u, q, p, s);
    }
  }

  lemma ExitSettings(w: World, u: UserId, q: PartyId, p: PartyId, s: Setting)
    ensures (p, s) in ExitForDeletion(w, u, q).settings <==>
            (p, s) in w.settings && !(p == q && q in w.groups && w.groups[q].creator == u)
  {
  }

  // A party whose creator's account is deleted, its listing reaching it, is over, with its
  // lead and its settings; the settings of every other party stay.
  lemma DeletionEndsOwnParties(w: World, u: UserId, listed: seq<PartyId>, p: PartyId, s: Setting)
    requires Enabled(w, OpDeleteAccount(u, listed))
    ensures var w' := DeleteAccount(w, u, listed).0;
            var own := p in FirstPages(listed) && p in w.groups && w.groups[p].creator == u;
            && (own ==> p !in w'.groups && p !in w'.leaders)
            && ((p, s) in w'.settings <==> (p, s) in w.settings && !own)
  {
    ExitEachSettings(w, u, FirstPages(listed), p, s);
    ExitEachAt(w, u, FirstPages(listed), p);
    hide ExitEach;
  }

  ghost predicate SomeoneReady(w: World, p: PartyId) {
    exists u :: (p, u) in w.ready
  }

  lemma DeletionRows(w: World, u: UserId, listed: seq<PartyId>, p: PartyId)
    requires Inv(w) && Enabled(w, OpDeleteAccount(u, listed)) && p in w.groups
    requires p !in DeleteAccount(w, u, listed).0.groups
    ensures SomeoneReady(DeleteAccount(w, u, listed).0, p) <==> w.groups[p].creator == u && SomeoneReady(w, p)
  {
    hide Inv, ExitEach;
    OnlyMembersReady(w, p);
    ExitEachAt(w, u, FirstPages(listed), p);
    if w.groups[p].creator != u {
      hide ExitForDeletion;
      ExitAt(w, u, p);
    }
  }

  // An ending that is not an account deletion takes every row with it.
  lemma OtherEndingsTakeTheRows(w: World, op: Op, p: PartyId)
    requires Inv(w) && p in w.groups && p !in Step(w, op).0.groups && !op.OpDeleteAccount?
    ensures !SomeoneReady(Step(w, op).0, p)
  {
    hide Inv, Lawful, LawfulAt;
    var w' := Step(w, op).0;
    StepIsLawful(w, op);
    OnlyMembersReady(w, p);
    EndedBy(w, w', op, p);
    match op
    case OpCreate(u, _, _) => CreateRows(w, op, p);
    case OpJoin(u, q) => JoinRows(w, u, q, p);
    case OpJoinByCode(u, typed) => CodeRows(w, u, typed, p);
    case OpLeave(u, q) => LeaveRows(w, u, p);
    case OpDisband(u, q) => DisbandRows(w, {p}, p);
  }

  // Which calls end a party, and that only its last member's own call empties it.
  lemma EndedBy(w: World, w': World, op: Op, p: PartyId)
    requires Lawful(w, w', op) && p in w.groups && p !in w'.groups && Leader(w, p) in w.groups[p].active
    ensures op.OpCreate? || op.OpJoin? || op.OpJoinByCode? || op.OpLeave? || op.OpDisband? || op.OpDeleteAccount?
    ensures op.OpDisband? || op.OpLeave? ==> op.p == p
    ensures op.OpLeave? ==> forall u :: u in w.groups[p].active ==> u == op.caller
  {
    assert LawfulAt(w, w', op, p);
    assert MayEnd(w, op, p, Leader(w, p));
  }

  lemma DisbandRows(w: World, ended: set<PartyId>, p: PartyId)
    requires p in ended && p in w.groups && ReadyAreMembers(w, p)
    ensures !SomeoneReady(Disband(w, ended), p)
  {
    forall u ensures (p, u) !in Disband(w, ended).ready {
      assert (p, u) in w.ready ==> u in w.groups[p].active;
    }
  }

  lemma CreateRows(w: World, op: Op, p: PartyId)
    requires op.OpCreate? && p in w.groups && ReadyAreMembers(w, p) && p !in Step(w, op).0.groups
    ensures !SomeoneReady(Step(w, op).0, p)
  {
    DisbandRows(w, Solo(Memberships(w, op.caller, {})), p);
  }

  lemma JoinRows(w: World, u: UserId, q: PartyId, p: PartyId)
    requires p in w.groups && ReadyAreMembers(w, p) && p !in Join(w, u, q).0.groups
    ensures !SomeoneReady(Join(w, u, q).0, p)
  {
    var w1 := JoinWrite(w, u, q);
    var w2 := ClearReady(Note(w1, JoinCalled(q, u)), q, {});
    var mine := Memberships(w2, u, {});
    forall v ensures (p, v) !in Disband(w2, Solo(mine) - {q}).ready || p !in Solo(mine) - {q} {
      assert (p, v) in w2.ready ==> v in w.groups[p].active;
      assert v in w.groups[p].active ==> v in w2.groups[p].active;
    }
  }

  lemma CodeRows(w: World, u: UserId, typed: string, p: PartyId)
    requires p in w.groups && ReadyAreMembers(w, p) && p !in JoinByCode(w, u, typed).0.groups
    ensures !SomeoneReady(JoinByCode(w, u, typed).0, p)
  {
    hide Normalize;
    var q := w.codes.forward[Normalize(typed)];
    var w1 := AddActive(w, q, u);
    var ended := Solo(Memberships(w1, u, {q}));
    forall v ensures (p, v) !in Disband(w1, ended).ready {
      assert (p, v) in w.ready ==> v in w.groups[p].active;
      assert v in w.groups[p].active ==> v in w1.groups[p].active;
    }
  }

  lemma LeaveRows(w: World, u: UserId, p: PartyId)
    requires HasEdge(w, p, u) && ReadyAreMembers(w, p) && Leader(w, p) in w.groups[p].active
    requires forall v :: v in w.groups[p].active ==> v == u
    ensures !SomeoneReady(Leave(w, u, p).0, p)
  {
    LeaveShape(w, u, p);
  }

  // Whichever call ends a party, it leaves ready rows behind if and only if the call
  // deletes its creator's account and somebody in it was ready.
  lemma EndedPartyLeavesRowsExactlyWhen(w: World, op: Op, p: PartyId)
    requires Reachable(w) && Enabled(w, op) && p in w.groups && p !in Step(w, op).0.groups
    ensures SomeoneReady(Step(w, op).0, p) <==>
            op.OpDeleteAccount? && w.groups[p].creator == op.caller && SomeoneReady(w, p)
  {
    hide Inv;
    ReachableInv(w);
    if op.OpDeleteAccount? {
      DeletionRows(w, op.caller, op.listed, p);
    } else {
      OtherEndingsTakeTheRows(w, op, p);
    }
  }

  // One such run: an invited member readies, then the creator's account goes.
  lemma ReadyRowOutlivesItsParty()
    ensures exists w :: Reachable(w) && "P" !in w.groups && ("P", "B") in w.ready
  {
    var w := PartyOfTwo();
    var w4 := Step(w, OpSetReady("B", "P", true)).0;
    ReachableStep(w, OpSetReady("B", "P", true));
    assert ("P", "B") in w4.ready && w4.groups == w.groups;
    ReachableStep(w4, OpDeleteAccount("A", ["P"]));
    assert FirstPages(["P"]) == ["P"] && ["P"][..0] == [];
    assert ExitEach(w4, "A", []) == w4;
    assert DeleteAccount(w4, "A", ["P"]).0 == ExitForDeletion(w4, "A", "P");
  }

  lemma PartyOfOne() returns (w: World)
    ensures Reachable(w) && w.groups == map["P" := Group("A", 4, ["A"], map[])]
    ensures w == EMPTY_WORLD.(groups := w.groups, issued := w.issued)
  {
    var w0 := EMPTY_WORLD;
    assert Reachable(w0) by { assert EnabledRun(w0, []) && Run(w0, []) == w0; }
    w := Step(w0, OpCreate("A", "P", 4)).0;
    ReachableStep(w0, OpCreate("A", "P", 4));
    assert w.groups == map["P" := Group("A", 4, ["A"], map[])];
  }

  lemma PartyOfTwo() returns (w: World)
    ensures Reachable(w) && w.groups == map["P" := Group("A", 4, ["A", "B"], map[])]
  {
    var w1 := PartyOfOne();
    w := InvitedLands(w1);
  }

  lemma InvitedLands(w1: World) returns (w: World)
    requires Reachable(w1) && w1.groups == map["P" := Group("A", 4, ["A"], map[])] && w1.blocks == {}
    ensures Reachable(w) && w.groups == map["P" := Group("A", 4, ["A", "B"], map[])]
  {
    var w2 := Step(w1, OpInvite("A", "P", "B")).0;
    ReachableStep(w1, OpInvite("A", "P", "B"));
    assert w2.groups == map["P" := Group("A", 4, ["A"], map["B" := Invited])];
    ReachableStep(w2, OpJoin("B", "P"));
    w := Step(w2, OpJoin("B", "P")).0;
    LandsAlone(w2);
  }

  lemma LandsAlone(w2: World)
    requires w2.groups == map["P" := Group("A", 4, ["A"], map["B" := Invited])]
    ensures Join(w2, "B", "P").0.groups == map["P" := Group("A", 4, ["A", "B"], map[])]
  {
    var w3 := JoinWrite(w2, "B", "P");
    assert w3.groups["P"] == Group("A", 4, ["A", "B"], map[]);
    assert w3.groups == map["P" := Group("A", 4, ["A", "B"], map[])];
    assert !Shared(Memberships(w2, "B", {"P"}));
    var w4 := ClearReady(Note(w3, JoinCalled("P", "B")), "P", {});
    assert Solo(Memberships(w4, "B", {})) - {"P"} == {};
    assert Disband(w4, {}).groups == w3.groups;
  }

  lemma {:induction false} RunAppends(w: World, ops: seq<Op>, op: Op)
    requires EnabledRun(w, ops) && Enabled(Run(w, ops), op)
    ensures EnabledRun(w, ops + [op]) && Run(w, ops + [op]) == Step(Run(w, ops), op).0
    decreases |ops|
  {
    if ops == [] {
      assert [op][1..] == [];
    } else {
      RunAppends(Step(w, ops[0]).0, ops[1..], op);
      assert (ops + [op])[1..] == ops[1..] + [op];
    }
  }

  lemma ReachableStep(w: World, op: Op)
    requires Reachable(w) && Enabled(w, op)
    ensures Reachable(Step(w, op).0)
  {
    var ops: seq<Op> :| EnabledRun(EMPTY_WORLD, ops) && w == Run(EMPTY_WORLD, ops);
    RunAppends(EMPTY_WORLD, ops, op);
  }
}
