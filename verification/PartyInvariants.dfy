// What every party operation keeps, and so what every run of them keeps.
module PartyInvariants {
  import opened CodeTable
  import opened Party

  // ----- Facts read off the history -----

  // Whether the event spends or withdraws u's readiness in p.
  predicate Resets(e: Event, p: PartyId, u: UserId) {
    match e
    case JoinCalled(q, _) => q == p
    case Joined(q, _) => q == p
    case Started(q, _) => q == p
    case AccountLeft(q, _) => q == p
    case InvitedTo(q, v) => q == p && v == u
    case Exited(q, v) => q == p && v == u
    case Unreadied(q, v) => q == p && v == u
    case _ => false
  }

  // u has set ready in p and nothing has reset it since.
  predicate ReadySince(h: History, p: PartyId, u: UserId) {
    h.After? && (h.event == Readied(p, u) || (!Resets(h.event, p, u) && ReadySince(h.before, p, u)))
  }

  // The time of p's last successful start, unless it was aborted since.
  function LiveStart(h: History, p: PartyId): (at: seq<int>)
    ensures |at| <= 1
  {
    match h
    case Dawn => []
    case After(before, e) =>
      if e.Started? && e.p == p then [e.at]
      else if e == Aborted(p) then []
      else LiveStart(before, p)
  }

  // p started at that time and has not aborted since.
  predicate Unaborted(h: History, p: PartyId, at: int) {
    h.After? && (h.event == Started(p, at) || (h.event != Aborted(p) && Unaborted(h.before, p, at)))
  }

  predicate HandedOutSo(h: History, p: PartyId, code: Code) {
    h.After? && (h.event == HandedOut(p, code) || HandedOutSo(h.before, p, code))
  }

  predicate Mentions(h: History, p: PartyId) {
    h.After? && (h.event.p == p || Mentions(h.before, p))
  }

  lemma {:induction false} UnmentionedIsBlank(h: History, p: PartyId)
    requires !Mentions(h, p)
    ensures LiveStart(h, p) == []
    ensures forall u :: !ReadySince(h, p, u)
    ensures forall c :: !HandedOutSo(h, p, c)
    ensures forall at :: !Unaborted(h, p, at)
  {
    if h.After? {
      UnmentionedIsBlank(h.before, p);
    }
  }

  // ----- The invariant -----

  type Groups = map<PartyId, Group>

  ghost predicate Distinct(s: seq<UserId>) {
    forall i, j :: 0 <= i < j < |s| ==> s[i] != s[j]
  }

  // A live party has someone active, once each, and nobody both active and pending.
  ghost predicate RosterOk(g: Group) {
    && g.active != []
    && Distinct(g.active)
    && (forall u :: u in g.active ==> u !in g.pending)
  }

  ghost predicate RostersOk(groups: Groups) {
    forall p :: p in groups ==> RosterOk(groups[p])
  }

  predicate ActiveIn(groups: Groups, p: PartyId, u: UserId) {
    p in groups && u in groups[p].active
  }

  // Each player is an active member of at most one party.
  ghost predicate OneParty(groups: Groups) {
    forall p, q, u :: ActiveIn(groups, p, u) && ActiveIn(groups, q, u) ==> p == q
  }

  // Every live party's leader is one of its active members.
  ghost predicate LeadersPresent(groups: Groups, leaders: map<PartyId, UserId>) {
    forall p :: p in groups ==>
      (if p in leaders then leaders[p] else groups[p].creator) in groups[p].active
  }

  // A live party's ready rows are its active members who readied and were not
  // reset since: no more and no fewer.
  ghost predicate ReadyExact(groups: Groups, ready: set<(PartyId, UserId)>, h: History) {
    forall p, u :: p in groups ==>
      && ((p, u) in ready <==> ReadySince(h, p, u))
      && ((p, u) in ready ==> u in groups[p].active)
  }

  ghost predicate IdsIssued(w: World) {
    && w.groups.Keys <= w.issued
    && w.leaders.Keys <= w.issued
    && (forall r :: r in w.ready ==> r.0 in w.issued)
    && (forall p :: Mentions(w.history, p) ==> p in w.issued)
  }

  // A code handed out for a live party is still that party's.
  ghost predicate CodesHeld(groups: Groups, codes: Codes, h: History) {
    && Consistent(codes)
    && (forall c :: c in codes.forward ==> WellFormedCode(c))
    && (forall p, c :: p in groups && HandedOutSo(h, p, c) ==>
          p in codes.reverse && codes.reverse[p] == c)
  }

  // The guard's map remembers every live attempt it may still have to refuse for.
  ghost predicate StartTracked(starts: map<PartyId, int>, clock: int, h: History, p: PartyId) {
    var live := LiveStart(h, p);
    && (forall at :: Unaborted(h, p, at) ==> live != [] && at <= live[0])
    && if live == [] then p !in starts
    else
      && live[0] <= clock
      && (if p in starts then starts[p] == live[0] else clock - live[0] >= START_WINDOW)
  }

  ghost predicate StartsTracked(starts: map<PartyId, int>, clock: int, h: History) {
    forall p :: StartTracked(starts, clock, h, p)
  }

  ghost predicate MembersOk(groups: Groups, leaders: map<PartyId, UserId>) {
    RostersOk(groups) && OneParty(groups) && LeadersPresent(groups, leaders)
  }

  ghost predicate Inv(w: World) {
    && MembersOk(w.groups, w.leaders)
    && ReadyExact(w.groups, w.ready, w.history)
    && IdsIssued(w)
    && CodesHeld(w.groups, w.codes, w.history)
    && StartsTracked(w.starts, w.clock, w.history)
  }

  // ----- Building blocks -----

  lemma {:induction false} WithoutKeepsDistinct(s: seq<UserId>, u: UserId)
    requires Distinct(s)
    ensures Distinct(Without(s, u))
  {
    if s != [] {
      WithoutKeepsDistinct(s[1..], u);
      forall x | x in s[1..] ensures x != s[0] {
        var i :| 0 <= i < |s[1..]| && s[1..][i] == x;
        assert s[i + 1] == x;
      }
      var r := Without(s[1..], u);
      if s[0] != u {
        forall i, j | 0 <= i < j < |[s[0]] + r| ensures ([s[0]] + r)[i] != ([s[0]] + r)[j] {
          assert r[j - 1] in r;
        }
      }
    }
  }

  // A player in no shared party is active nowhere but in parties of one.
  lemma NotSharedMeansSolo(w: World, u: UserId, except: set<PartyId>)
    requires RostersOk(w.groups) && !Shared(Memberships(w, u, except))
    ensures forall p :: ActiveIn(w.groups, p, u) && p !in except ==> p in Solo(Memberships(w, u, except))
  {
    var mine := Memberships(w, u, except);
    forall p | ActiveIn(w.groups, p, u) && p !in except ensures p in Solo(mine) {
      assert p in mine && mine[p] == |w.groups[p].active|;
      assert mine[p] <= 1;
    }
  }

  lemma DropOwnersKeepsConsistent(t: Codes, owners: set<PartyId>)
    requires Consistent(t)
    ensures Consistent(DropOwners(t, owners))
    ensures forall o :: o !in owners && o in t.reverse ==>
              o in DropOwners(t, owners).reverse && DropOwners(t, owners).reverse[o] == t.reverse[o]
  {
  }

  // Events that neither start nor abort leave the guard's record right.
  lemma NoteKeepsStarts(starts: map<PartyId, int>, clock: int, h: History, e: Event)
    requires StartsTracked(starts, clock, h) && !e.Started? && !e.Aborted?
    ensures StartsTracked(starts, clock, After(h, e))
  {
    forall p ensures StartTracked(starts, clock, After(h, e), p) {
      assert StartTracked(starts, clock, h, p);
    }
  }

  // Deleting exactly the rows an event resets keeps the ready rows exact.
  lemma NoteKeepsReady(groups: Groups, groups': Groups, ready: set<(PartyId, UserId)>,
                       ready': set<(PartyId, UserId)>, h: History, e: Event)
    requires ReadyExact(groups, ready, h) && !e.Readied?
    requires forall p :: p in groups' ==> p in groups
    requires forall p, u :: p in groups' ==> ((p, u) in ready' <==> (p, u) in ready && !Resets(e, p, u))
    requires forall p, u :: p in groups' && u in groups[p].active && (p, u) in ready' ==> u in groups'[p].active
    ensures ReadyExact(groups', ready', After(h, e))
  {
  }

  lemma NoteKeepsCodes(groups: Groups, groups': Groups, codes: Codes, h: History, e: Event)
    requires CodesHeld(groups, codes, h) && !e.HandedOut?
    requires forall p :: p in groups' ==> p in groups
    ensures CodesHeld(groups', codes, After(h, e))
  {
  }

  lemma DisbandKeepsInv(w: World, parties: set<PartyId>)
    requires Inv(w)
    ensures Inv(Disband(w, parties))
  {
    var w' := Disband(w, parties);
    DropOwnersKeepsConsistent(w.codes, parties);
    forall p, q, u | ActiveIn(w'.groups, p, u) && ActiveIn(w'.groups, q, u) ensures p == q {
      assert ActiveIn(w.groups, p, u) && ActiveIn(w.groups, q, u);
    }
  }

  // A new group of one, led by its creator, who is active nowhere else.
  lemma NewGroupMembersOk(groups: Groups, leaders: map<PartyId, UserId>, p: PartyId, g: Group)
    requires MembersOk(groups, leaders) && p !in groups && p !in leaders
    requires g.active == [g.creator] && g.pending == map[]
    requires forall q :: !ActiveIn(groups, q, g.creator)
    ensures MembersOk(groups[p := g], leaders)
  {
    var groups' := groups[p := g];
    forall q, r, u | ActiveIn(groups', q, u) && ActiveIn(groups', r, u) ensures q == r {
      assert q != p ==> ActiveIn(groups, q, u);
      assert r != p ==> ActiveIn(groups, r, u);
    }
  }

  lemma CreateKeepsInv(w: World, caller: UserId, p: PartyId, capacity: nat)
    requires Inv(w)
    ensures Inv(Create(w, caller, p, capacity).0)
  {
    var (w', r) := Create(w, caller, p, capacity);
    if r == Done {
      var mine := Memberships(w, caller, {});
      var w1 := Disband(w, Solo(mine));
      DisbandKeepsInv(w, Solo(mine));
      NotSharedMeansSolo(w, caller, {});
      forall q ensures !ActiveIn(w1.groups, q, caller) {
        assert ActiveIn(w1.groups, q, caller) ==> ActiveIn(w.groups, q, caller);
      }
      NewGroupMembersOk(w1.groups, w1.leaders, p, Group(caller, capacity, [caller], map[]));
      assert !Mentions(w.history, p);
      UnmentionedIsBlank(w.history, p);
    }
  }

  // Changing only who is pending, among those not active.
  lemma PendingKeepsMembers(groups: Groups, leaders: map<PartyId, UserId>, p: PartyId, g: Group)
    requires MembersOk(groups, leaders) && p in groups
    requires g.active == groups[p].active && g.creator == groups[p].creator
    requires forall u :: u in g.pending ==> u !in g.active
    ensures MembersOk(groups[p := g], leaders)
  {
    var groups' := groups[p := g];
    forall q, r, u | ActiveIn(groups', q, u) && ActiveIn(groups', r, u) ensures q == r {
      assert ActiveIn(groups, q, u) && ActiveIn(groups, r, u);
    }
  }

  lemma AddInviteKeepsInv(w: World, p: PartyId, u: UserId)
    requires Inv(w)
    ensures Inv(AddInvite(w, p, u))
  {
    hide OneParty, LeadersPresent, StartsTracked, CodesHeld;
    if p in w.groups && u !in w.groups[p].active {
      var w' := AddInvite(w, p, u);
      var e := InvitedTo(p, u);
      PendingKeepsMembers(w.groups, w.leaders, p, w'.groups[p]);
      NoteKeepsReady(w.groups, w'.groups, w.ready, w'.ready, w.history, e);
      NoteKeepsCodes(w.groups, w'.groups, w.codes, w.history, e);
      NoteKeepsStarts(w.starts, w.clock, w.history, e);
    }
  }

  lemma {:induction false} AddInvitesKeepsInv(w: World, p: PartyId, us: seq<UserId>)
    requires Inv(w)
    ensures Inv(AddInvites(w, p, us))
    decreases |us|
  {
    if us != [] {
      AddInvitesKeepsInv(w, p, us[..|us| - 1]);
      AddInviteKeepsInv(AddInvites(w, p, us[..|us| - 1]), p, us[|us| - 1]);
    }
  }

  lemma InviteKeepsInv(w: World, caller: UserId, p: PartyId, target: UserId)
    requires Inv(w)
    ensures Inv(Invite(w, caller, p, target).0)
  {
    var (w', r) := Invite(w, caller, p, target);
    if r == Done {
      var e := InvitedTo(p, target);
      if target in w.groups[p].active {
        NoteKeepsReady(w.groups, w'.groups, w.ready, w'.ready, w.history, e);
        NoteKeepsCodes(w.groups, w'.groups, w.codes, w.history, e);
        NoteKeepsStarts(w.starts, w.clock, w.history, e);
      } else {
        AddInviteKeepsInv(w, p, target);
      }
    }
  }

  lemma RawAddKeepsInv(w: World, caller: UserId, p: PartyId, targets: seq<UserId>)
    requires Inv(w)
    ensures Inv(RawAdd(w, caller, p, targets).0)
  {
    AddInvitesKeepsInv(w, p, targets);
  }

  // A player becomes active in p while every other party they were in ends.
  lemma LandingMembersOk(groups: Groups, leaders: map<PartyId, UserId>, p: PartyId, u: UserId, ended: set<PartyId>)
    requires MembersOk(groups, leaders) && p in groups && !ActiveIn(groups, p, u) && p !in ended
    requires forall q :: ActiveIn(groups, q, u) ==> q in ended
    ensures var g := groups[p];
            MembersOk(groups[p := g.(active := g.active + [u], pending := g.pending - {u})] - ended, leaders - ended)
  {
    var g := groups[p];
    var groups' := groups[p := g.(active := g.active + [u], pending := g.pending - {u})] - ended;
    forall q, r, v | ActiveIn(groups', q, v) && ActiveIn(groups', r, v) ensures q == r {
      assert ActiveIn(groups, q, v) || (q == p && v == u);
      assert ActiveIn(groups, r, v) || (r == p && v == u);
    }
  }

  // The rows and codes once u has landed in p and the ended parties are gone.
  lemma LandingKeepsInv(w: World, w': World, p: PartyId, u: UserId, ended: set<PartyId>)
    requires Inv(w) && p in w.groups && !ActiveIn(w.groups, p, u) && p !in ended
    requires forall q :: ActiveIn(w.groups, q, u) ==> q in ended
    requires var g := w.groups[p];
             w'.groups == w.groups[p := g.(active := g.active + [u], pending := g.pending - {u})] - ended
    requires w'.issued == w.issued && w'.starts == w.starts && w'.clock == w.clock
    requires w'.leaders == w.leaders - ended && w'.codes == DropOwners(w.codes, ended)
    requires forall q, v :: (q, v) in w'.ready ==> (q, v) in w.ready
    requires forall v :: (p, v) !in w'.ready
    requires forall q, v :: q in w'.groups && q != p && (q, v) in w.ready ==> (q, v) in w'.ready
    requires w'.history == After(w.history, Joined(p, u)) ||
             w'.history == After(After(w.history, Joined(p, u)), JoinCalled(p, u))
    ensures Inv(w')
  {
    hide MembersOk, StartsTracked;
    var h := After(w.history, Joined(p, u));
    LandingMembersOk(w.groups, w.leaders, p, u, ended);
    DropOwnersKeepsConsistent(w.codes, ended);
    NoteKeepsReady(w.groups, w'.groups, w.ready, w'.ready, w.history, Joined(p, u));
    NoteKeepsCodes(w.groups, w.groups, w.codes, w.history, Joined(p, u));
    NoteKeepsStarts(w.starts, w.clock, w.history, Joined(p, u));
    if w'.history != h {
      NoteKeepsReady(w'.groups, w'.groups, w'.ready, w'.ready, h, JoinCalled(p, u));
      NoteKeepsCodes(w.groups, w.groups, w.codes, h, JoinCalled(p, u));
      NoteKeepsStarts(w.starts, w.clock, h, JoinCalled(p, u));
    }
    assert forall q :: Mentions(w'.history, q) ==> q in w'.issued;

  }

  // Once the caller is active in p, their parties of one elsewhere are all the
  // other parties they are in.
  lemma LandingSolos(w: World, u: UserId, p: PartyId)
    requires RostersOk(w.groups) && p in w.groups && !Shared(Memberships(w, u, {p}))
    ensures var ended := Solo(Memberships(AddActive(w, p, u), u, {p}));
            p !in ended && forall q :: ActiveIn(w.groups, q, u) && q != p ==> q in ended
  {
    NotSharedMeansSolo(w, u, {p});
    var there := Memberships(AddActive(w, p, u), u, {p});
    forall q | ActiveIn(w.groups, q, u) && q != p ensures q in Solo(there) {
      assert q in Memberships(w, u, {p}) && q in there;
    }
  }

  lemma CodeLandingKeepsInv(w: World, caller: UserId, p: PartyId)
    requires Inv(w) && p in w.groups && !HasEdge(w, p, caller)
    requires !Shared(Memberships(w, caller, {p}))
    ensures var w1 := AddActive(w, p, caller);
            Inv(ClearReady(Disband(w1, Solo(Memberships(w1, caller, {p}))), p, {}))
  {
    var w1 := AddActive(w, p, caller);
    var ended := Solo(Memberships(w1, caller, {p}));
    LandingSolos(w, caller, p);
    LandingKeepsInv(w, ClearReady(Disband(w1, ended), p, {}), p, caller, ended);
  }

  lemma StaleCodeKeepsInv(w: World, code: Code)
    requires Inv(w) && code in w.codes.forward && w.codes.forward[code] !in w.groups
    ensures Inv(w.(codes := DropPair(w.codes, code, w.codes.forward[code])))
  {
    DropPairKeepsConsistent(w.codes, code, w.codes.forward[code]);
  }

  lemma JoinByCodeKeepsInv(w: World, caller: UserId, typed: string)
    requires Inv(w)
    ensures Inv(JoinByCode(w, caller, typed).0)
  {
    hide Inv;
    var code := Normalize(typed);
    var (w', r) := JoinByCode(w, caller, typed);
    if w' != w {
      var p := w.codes.forward[code];
      if p !in w.groups {
        StaleCodeKeepsInv(w, code);
      } else {
        CodeLandingKeepsInv(w, caller, p);
      }
    }
  }

  // A join call that lands nobody: at most a request is left, and everyone in
  // the party re-readies all the same.
  lemma IdleJoinKeepsInv(w: World, caller: UserId, p: PartyId)
    requires Inv(w) && p in w.groups
    requires caller in w.groups[p].active ||
             !(caller in w.groups[p].pending && w.groups[p].pending[caller] == Invited)
    ensures Inv(AfterJoin(JoinWrite(w, caller, p), caller, p))
  {
    var w1 := JoinWrite(w, caller, p);
    var e := JoinCalled(p, caller);
    PendingKeepsMembers(w.groups, w.leaders, p, w1.groups[p]);
    assert w.groups[p := w.groups[p]] == w.groups;
    var w2 := ClearReady(Note(w1, e), p, {});
    NoteKeepsReady(w.groups, w2.groups, w.ready, w2.ready, w.history, e);
    NoteKeepsCodes(w.groups, w2.groups, w.codes, w.history, e);
    NoteKeepsStarts(w.starts, w.clock, w.history, e);
    var mine := Memberships(w2, caller, {});
    DisbandKeepsInv(w2, Solo(mine) - {p});
  }

  // An invited player's join: they land, and leave every party of one behind.
  lemma AcceptKeepsInv(w: World, caller: UserId, p: PartyId)
    requires Inv(w) && p in w.groups && !Shared(Memberships(w, caller, {p}))
    requires caller in w.groups[p].pending && w.groups[p].pending[caller] == Invited
    ensures Inv(AfterJoin(JoinWrite(w, caller, p), caller, p))
  {
    hide OneParty, LeadersPresent, StartsTracked, CodesHeld, IdsIssued;
    assert !ActiveIn(w.groups, p, caller);
    var w1 := AddActive(w, p, caller);
    var w2 := ClearReady(Note(w1, JoinCalled(p, caller)), p, {});
    var mine := Memberships(w2, caller, {});
    LandingSolos(w, caller, p);
    forall q | ActiveIn(w.groups, q, caller) ensures q in Solo(mine) - {p} {
      assert q in Memberships(w1, caller, {p}) && q in mine;
    }
    assert p in mine;
    LandingKeepsInv(w, Disband(w2, Solo(mine) - {p}), p, caller, Solo(mine) - {p});
  }

  lemma JoinKeepsInv(w: World, caller: UserId, p: PartyId)
    requires Inv(w)
    ensures Inv(Join(w, caller, p).0)
  {
    if Join(w, caller, p).1 == Done {
      if caller !in w.groups[p].active && caller in w.groups[p].pending && w.groups[p].pending[caller] == Invited {
        AcceptKeepsInv(w, caller, p);
      } else {
        IdleJoinKeepsInv(w, caller, p);
      }
    }
  }

  // ----- Leaving -----

  // A smaller roster in one party, its leader still in it, or that party gone.
  lemma ShrunkMembersOk(groups: Groups, groups': Groups, leaders: map<PartyId, UserId>,
                        leaders': map<PartyId, UserId>, p: PartyId, g: Group)
    requires MembersOk(groups, leaders) && p in groups
    requires groups' == groups - {p} || (groups' == groups[p := g] && RosterOk(g))
    requires forall v :: v in g.active ==> v in groups[p].active
    requires p in groups' ==> (if p in leaders' then leaders'[p] else g.creator) in g.active
    requires leaders' - {p} == leaders - {p}
    ensures MembersOk(groups', leaders')
  {
    forall q, r, v | ActiveIn(groups', q, v) && ActiveIn(groups', r, v) ensures q == r {
      assert ActiveIn(groups, q, v) && ActiveIn(groups, r, v);
    }
    forall q | q in groups' ensures (if q in leaders' then leaders'[q] else groups'[q].creator) in groups'[q].active {
      if q != p {
        assert q in leaders' <==> q in leaders' - {p};
        assert q in leaders <==> q in leaders - {p};
        assert q in leaders' ==> (leaders' - {p})[q] == leaders'[q];
        assert q in leaders ==> (leaders - {p})[q] == leaders[q];
      }
    }
  }

  function RosterWithout(g: Group, u: UserId): Group {
    g.(active := Without(g.active, u), pending := g.pending - {u})
  }

  // An exit shrinks one roster, passes leadership on to someone still there, and
  // ends the party when nobody is.
  lemma DepartedMembers(w: World, p: PartyId, u: UserId)
    requires p in w.groups && Leader(w, p) in w.groups[p].active
    ensures var g := RosterWithout(w.groups[p], u);
            var d := Departed(w, p, u);
            && d.groups == (if g.active == [] then w.groups - {p} else w.groups[p := g])
            && d.leaders - {p} == w.leaders - {p}
            && (g.active != [] ==> Leader(d, p) in g.active)
  {
    WithoutTwice(w.groups[p].active, u);
    var g := RosterWithout(w.groups[p], u);
    assert w.groups[p := g] - {p} == w.groups - {p};
  }

  lemma ExitMembersOk(w: World, p: PartyId, u: UserId)
    requires MembersOk(w.groups, w.leaders) && p in w.groups
    ensures var w' := Departed(w, p, u);
            MembersOk(w'.groups, w'.leaders)
  {
    hide Departed;
    var w' := Departed(w, p, u);
    WithoutKeepsDistinct(w.groups[p].active, u);
    DepartedMembers(w, p, u);
    ShrunkMembersOk(w.groups, w'.groups, w.leaders, w'.leaders, p, RosterWithout(w.groups[p], u));
  }

  lemma {:induction false} WithoutTwice(s: seq<UserId>, u: UserId)
    ensures Without(Without(s, u), u) == Without(s, u)
  {
    WithoutNothing(Without(s, u), u);
  }

  lemma {:induction false} WithoutNothing(s: seq<UserId>, u: UserId)
    requires u !in s
    ensures Without(s, u) == s
  {
    if s != [] {
      WithoutNothing(s[1..], u);
    }
  }

  // One exit's effect on members and leaders.
  function Departed(w: World, p: PartyId, u: UserId): World {
    EndIfEmpty(AutoTransfer(RemoveEdge(w, p, u), p, u), p)
  }

  lemma DepartedShape(w: World, p: PartyId, u: UserId)
    requires p in w.groups
    ensures var d := Departed(w, p, u);
            && (forall q :: q in d.groups ==> q in w.groups)
            && (forall q :: q in w.groups && q != p ==> q in d.groups && d.groups[q] == w.groups[q])
            && (p in d.groups ==> forall v :: v in d.groups[p].active <==> v in w.groups[p].active && v != u)
            && d.leaders.Keys <= w.leaders.Keys + {p}
            && d == w.(groups := d.groups, leaders := d.leaders)
  {
  }

  // An exit keeps everything once u's row in p is gone, with or without the rest.
  lemma ExitKeepsInv(w: World, w': World, p: PartyId, u: UserId, e: Event)
    requires Inv(w) && p in w.groups
    requires e == Exited(p, u) || e == AccountLeft(p, u)
    requires var d := Departed(w, p, u); w'.groups == d.groups && w'.leaders == d.leaders
    requires w'.issued == w.issued && w'.starts == w.starts && w'.clock == w.clock
    requires w'.codes == w.codes && w'.history == After(w.history, e)
    requires forall q, v :: (q, v) in w'.ready ==> (q, v) in w.ready
    requires forall q, v :: q in w'.groups && (q, v) in w.ready ==> ((q, v) in w'.ready <==> !Resets(e, q, v))
    ensures Inv(w')
  {
    hide MembersOk, ReadyExact, StartsTracked, CodesHeld;
    hide Departed;
    ExitMembersOk(w, p, u);
    DepartedShape(w, p, u);
    NoteKeepsReady(w.groups, w'.groups, w.ready, w'.ready, w.history, e);
    NoteKeepsCodes(w.groups, w'.groups, w.codes, w.history, e);
    NoteKeepsStarts(w.starts, w.clock, w.history, e);
  }

  lemma LeaveShape(w: World, caller: UserId, p: PartyId)
    requires HasEdge(w, p, caller)
    ensures var w' := Leave(w, caller, p).0;
            && w' == Departed(w, p, caller).(ready := w'.ready, history := After(w.history, Exited(p, caller)))
            && w'.ready == w.ready - {(p, caller)}
  {
    var w1 := Note(RemoveEdge(w, p, caller), Exited(p, caller));
    assert DeleteReady(w1, p, {caller}).ready == w.ready - {(p, caller)};
  }

  lemma LeaveKeepsInv(w: World, caller: UserId, p: PartyId)
    requires Inv(w)
    ensures Inv(Leave(w, caller, p).0)
  {
    if HasEdge(w, p, caller) {
      LeftKeepsInv(w, caller, p);
    }
  }

  lemma LeftKeepsInv(w: World, caller: UserId, p: PartyId)
    requires Inv(w) && HasEdge(w, p, caller)
    ensures Inv(Leave(w, caller, p).0)
  {
    hide Departed, Leave, Inv;
    DepartedShape(w, p, caller);
    LeaveShape(w, caller, p);
    ExitKeepsInv(w, Leave(w, caller, p).0, p, caller, Exited(p, caller));
  }

  // A deleted account's own party goes with it, whoever leads it now.
  lemma CreatorExitKeepsInv(w: World, u: UserId, p: PartyId)
    requires Inv(w) && p in w.groups && w.groups[p].creator == u
    ensures Inv(ExitForDeletion(w, u, p))
  {
    var w' := ExitForDeletion(w, u, p);
    var e := AccountLeft(p, u);
    assert w'.groups == w.groups - {p};
    forall q, r, v | ActiveIn(w'.groups, q, v) && ActiveIn(w'.groups, r, v) ensures q == r {
      assert ActiveIn(w.groups, q, v) && ActiveIn(w.groups, r, v);
    }
    DropOwnerEndsOnlyItsCode(w.codes, p);
    NoteKeepsReady(w.groups, w'.groups, w.ready, w'.ready, w.history, e);
    NoteKeepsCodes(w.groups, w.groups, w.codes, w.history, e);
    NoteKeepsStarts(w.starts, w.clock, w.history, e);
  }

  lemma MemberExitShape(w: World, u: UserId, p: PartyId)
    requires p in w.groups && w.groups[p].creator != u
    requires forall v :: (p, v) in w.ready ==> v in w.groups[p].active
    ensures var w' := ExitForDeletion(w, u, p);
            var d := Departed(w, p, u);
            && w' == d.(ready := w'.ready, history := After(w.history, AccountLeft(p, u)))
            && w'.ready == (set r | r in w.ready && r.0 != p)
  {
    var w1 := Note(RemoveEdge(w, p, u), AccountLeft(p, u));
    assert ClearReady(w1, p, {u}).ready == (set r | r in w.ready && r.0 != p);
  }

  lemma MemberExitKeepsInv(w: World, u: UserId, p: PartyId)
    requires Inv(w) && p in w.groups && w.groups[p].creator != u
    ensures Inv(ExitForDeletion(w, u, p))
  {
    hide ExitForDeletion;
    hide Departed;
    DepartedShape(w, p, u);
    MemberExitShape(w, u, p);
    ExitKeepsInv(w, ExitForDeletion(w, u, p), p, u, AccountLeft(p, u));
  }

  lemma ExitForDeletionKeepsInv(w: World, u: UserId, p: PartyId)
    requires Inv(w)
    ensures Inv(ExitForDeletion(w, u, p))
  {
    hide Inv;
    if p in w.groups {
      if w.groups[p].creator == u {
        CreatorExitKeepsInv(w, u, p);
      } else {
        MemberExitKeepsInv(w, u, p);
      }
    }
  }

  lemma {:induction false} ExitEachKeepsInv(w: World, u: UserId, listed: seq<PartyId>)
    requires Inv(w)
    ensures Inv(ExitEach(w, u, listed))
    decreases |listed|
  {
    hide Inv;
    if listed != [] {
      ExitEachKeepsInv(w, u, listed[..|listed| - 1]);
      ExitForDeletionKeepsInv(ExitEach(w, u, listed[..|listed| - 1]), u, listed[|listed| - 1]);
    }
  }

  // ----- Kicking -----

  // A kick only ever removes others: the leader is no target, so stays, and
  // leads still.
  lemma {:induction false} KickTargetsSpareLeader(w: World, p: PartyId, targets: seq<UserId>)
    requires p in w.groups && KickRefusal(w, p, targets) == 0
    ensures Leader(w, p) !in targets
  {
    if targets != [] {
      KickTargetsSpareLeader(w, p, targets[1..]);
    }
  }

  // Removing one player who does not lead, together with their ready row.
  lemma RemovalKeepsInv(w: World, p: PartyId, u: UserId)
    requires Inv(w) && p in w.groups && Leader(w, p) != u
    ensures Inv(DeleteReady(Note(RemoveEdge(w, p, u), Exited(p, u)), p, {u}))
  {
    var w1 := RemoveEdge(w, p, u);
    assert Leader(w, p) in w1.groups[p].active;
    assert Departed(w, p, u) == w1;
    DepartedShape(w, p, u);
    ExitKeepsInv(w, DeleteReady(Note(w1, Exited(p, u)), p, {u}), p, u, Exited(p, u));
  }

  lemma DeletesCommute(w: World, p: PartyId, u: UserId, gone: set<UserId>)
    ensures var e := Exited(p, u);
            DeleteReady(Note(RemoveEdge(w, p, u), e), p, gone + {u}) ==
            DeleteReady(Note(RemoveEdge(DeleteReady(w, p, gone), p, u), e), p, {u})
  {
    var late := DeleteReady(Note(RemoveEdge(w, p, u), Exited(p, u)), p, gone + {u});
    var early := DeleteReady(Note(RemoveEdge(DeleteReady(w, p, gone), p, u), Exited(p, u)), p, {u});
    assert late.ready == early.ready;
  }

  lemma KickOneMoreKeepsInv(w: World, p: PartyId, u: UserId, gone: set<UserId>)
    requires Inv(DeleteReady(w, p, gone)) && p in w.groups && Leader(w, p) != u
    ensures Inv(DeleteReady(Note(RemoveEdge(w, p, u), Exited(p, u)), p, gone + {u}))
  {
    RemovalKeepsInv(DeleteReady(w, p, gone), p, u);
    DeletesCommute(w, p, u, gone);
  }

  lemma UnrollKick(w: World, p: PartyId, front: seq<UserId>, u: UserId)
    ensures DeleteReady(RemoveEdges(w, p, front + [u]), p, set v | v in front + [u]) ==
            DeleteReady(Note(RemoveEdge(RemoveEdges(w, p, front), p, u), Exited(p, u)), p, (set v | v in front) + {u})
  {
    assert (front + [u])[..|front|] == front;
    assert (set v | v in front + [u]) == (set v | v in front) + {u};
  }

  // Kicking some of the others, one after another; their rows go in one delete
  // at the end, which is as good as deleting each at once.
  lemma {:induction false} RemoveEdgesKeeps(w: World, p: PartyId, us: seq<UserId>)
    requires Inv(w) && p in w.groups && Leader(w, p) !in us
    ensures Inv(DeleteReady(RemoveEdges(w, p, us), p, set v | v in us))
    decreases |us|
  {
    hide Inv;
    if us == [] {
      assert DeleteReady(w, p, set v | v in us) == w by {
        assert DeleteReady(w, p, set v | v in us).ready == w.ready;
      }
    } else {
      var front, u := us[..|us| - 1], us[|us| - 1];
      RemoveEdgesKeeps(w, p, front);
      RemoveEdgesKeepCreator(w, p, front);
      KickOneMoreKeepsInv(RemoveEdges(w, p, front), p, u, set v | v in front);
      UnrollKick(w, p, front, u);
      assert us == front + [u];
    }
  }

  lemma {:induction false} AutoTransfersIdle(w: World, p: PartyId, us: seq<UserId>)
    requires p in w.groups && Leader(w, p) !in us
    ensures AutoTransfers(w, p, us) == w
    decreases |us|
  {
    if us != [] {
      AutoTransfersIdle(w, p, us[..|us| - 1]);
      assert us[|us| - 1] in us;
    }
  }

  lemma KickKeepsInv(w: World, caller: UserId, p: PartyId, targets: seq<UserId>)
    requires Inv(w)
    ensures Inv(Kick(w, caller, p, targets).0)
  {
    var (w', r) := Kick(w, caller, p, targets);
    if r == Done {
      KickTargetsSpareLeader(w, p, targets);
      RemoveEdgesKeeps(w, p, targets);
      var w1 := RemoveEdges(w, p, targets);
      assert Leader(w1, p) == Leader(w, p) by { RemoveEdgesKeepCreator(w, p, targets); }
      AutoTransfersIdle(w1, p, targets);
      assert w' == DeleteReady(w1, p, set u | u in targets);
    }
  }

  lemma {:induction false} RemoveEdgesKeepCreator(w: World, p: PartyId, us: seq<UserId>)
    requires p in w.groups
    ensures p in RemoveEdges(w, p, us).groups
    ensures RemoveEdges(w, p, us).groups[p].creator == w.groups[p].creator
    ensures RemoveEdges(w, p, us).leaders == w.leaders
    decreases |us|
  {
    if us != [] {
      RemoveEdgesKeepCreator(w, p, us[..|us| - 1]);
    }
  }

  // ----- The rest -----

  lemma TransferKeepsInv(w: World, caller: UserId, p: PartyId, target: UserId)
    requires Inv(w)
    ensures Inv(Transfer(w, caller, p, target).0)
  {
  }

  lemma SetReadyKeepsInv(w: World, caller: UserId, p: PartyId, ready: bool)
    requires Inv(w)
    ensures Inv(SetReady(w, caller, p, ready).0)
  {
    var (w', r) := SetReady(w, caller, p, ready);
    if r == Done {
      var e := if ready then Readied(p, caller) else Unreadied(p, caller);
      NoteKeepsCodes(w.groups, w.groups, w.codes, w.history, e);
      NoteKeepsStarts(w.starts, w.clock, w.history, e);
      if !ready {
        NoteKeepsReady(w.groups, w.groups, w.ready, w'.ready, w.history, e);
      }
    }
  }

  // Pruning forgets only attempts whose window has passed.
  lemma PruneKeepsTracked(starts: map<PartyId, int>, clock: int, h: History, now: int)
    requires StartsTracked(starts, clock, h) && clock <= now
    ensures StartsTracked(PruneStarts(starts, now), now, h)
  {
    forall p ensures StartTracked(PruneStarts(starts, now), now, h, p) {
      assert StartTracked(starts, clock, h, p);
    }
  }

  lemma StartKeepsInv(w: World, caller: UserId, p: PartyId, now: int)
    requires Inv(w) && w.clock <= now
    ensures Inv(StartMatchmaking(w, caller, p, now).0)
  {
    var (w', r) := StartMatchmaking(w, caller, p, now);
    PruneKeepsTracked(w.starts, w.clock, w.history, now);
    if r == Done {
      var e := Started(p, now);
      NoteKeepsReady(w.groups, w.groups, w.ready, w'.ready, w.history, e);
      NoteKeepsCodes(w.groups, w.groups, w.codes, w.history, e);
      forall q ensures StartTracked(w'.starts, now, w'.history, q) {
        assert StartTracked(PruneStarts(w.starts, now), now, w.history, q);
      }
    }
  }

  lemma AbortKeepsInv(w: World, caller: UserId, p: PartyId)
    requires Inv(w)
    ensures Inv(AbortMatchmaking(w, caller, p).0)
  {
    var (w', r) := AbortMatchmaking(w, caller, p);
    if r == Done {
      NoteKeepsReady(w.groups, w.groups, w.ready, w.ready, w.history, Aborted(p));
      NoteKeepsCodes(w.groups, w.groups, w.codes, w.history, Aborted(p));
      forall q ensures StartTracked(w'.starts, w.clock, w'.history, q) {
        assert StartTracked(w.starts, w.clock, w.history, q);
      }
    }
  }

  lemma IssueKeepsCodes(groups: Groups, codes: Codes, h: History, p: PartyId, draws: seq<Code>, fault: Fault)
    requires CodesHeld(groups, codes, h) && forall d :: d in draws ==> WellFormedCode(d)
    ensures var (codes', r) := Issue(codes, p, draws, fault);
            CodesHeld(groups, codes', if r.Issued? then After(h, HandedOut(p, r.code)) else h)
  {
    hide WellFormedCode;
    assert "" !in draws by {
      EmptyIsNoCode();
    }
    IssueKeepsConsistent(codes, p, draws, fault);
    IssuedCodeSticks(codes, p, draws, fault, draws, fault);
    var (codes', r) := Issue(codes, p, draws, fault);
    forall c | c in codes'.forward ensures WellFormedCode(c) {
      assert c in codes.forward || c in draws;
    }
    var h' := if r.Issued? then After(h, HandedOut(p, r.code)) else h;
    forall q, c | q in groups && HandedOutSo(h', q, c) ensures q in codes'.reverse && codes'.reverse[q] == c {
      assert HandedOutSo(h, q, c) || (q == p && r == Issued(c));
      assert HandedOutSo(h, q, c) ==> q in codes.reverse && codes.reverse[q] == c;
    }
  }

  lemma EmptyIsNoCode()
    ensures !WellFormedCode("")
  {
  }

  lemma GetInviteCodeKeepsInv(w: World, caller: UserId, p: PartyId, draws: seq<Code>, fault: Fault)
    requires Inv(w) && forall d :: d in draws ==> WellFormedCode(d)
    ensures Inv(GetInviteCode(w, caller, p, draws, fault).0)
  {
    hide MembersOk, StartsTracked, CodesHeld, Issue, LeavesHalf, WellFormedCode;
    var (w', r) := GetInviteCode(w, caller, p, draws, fault);
    if p in w.groups && caller in w.groups[p].active {
      IssueKeepsCodes(w.groups, w.codes, w.history, p, draws, fault);
      if w'.history != w.history {
        var e := w'.history.event;
        if !r.WithCode? {
          NoteKeepsCodes(w.groups, w.groups, w'.codes, w.history, e);
        }
        NoteKeepsReady(w.groups, w.groups, w.ready, w.ready, w.history, e);
        NoteKeepsStarts(w.starts, w.clock, w.history, e);
        assert forall q :: Mentions(w'.history, q) ==> q in w'.issued;
      }
    }
  }

  lemma StepKeepsInv(w: World, op: Op)
    requires Inv(w) && Enabled(w, op)
    ensures Inv(Step(w, op).0)
  {
    hide Inv;
    match op
    case OpCreate(u, p, capacity) => CreateKeepsInv(w, u, p, capacity);
    case OpInvite(u, p, t) => InviteKeepsInv(w, u, p, t);
    case OpRawAdd(u, p, ts) => RawAddKeepsInv(w, u, p, ts);
    case OpJoin(u, p) => JoinKeepsInv(w, u, p);
    case OpJoinByCode(u, typed) => JoinByCodeKeepsInv(w, u, typed);
    case OpLeave(u, p) => LeaveKeepsInv(w, u, p);
    case OpKick(u, p, ts) => KickKeepsInv(w, u, p, ts);
    case OpTransfer(u, p, t) => TransferKeepsInv(w, u, p, t);
    case OpDisband(u, p) => DisbandKeepsInv(w, {p});
    case OpDeleteAccount(u, listed) => ExitEachKeepsInv(w, u, FirstPages(listed));
    case OpSetReady(u, p, r) => SetReadyKeepsInv(w, u, p, r);
    case OpStart(u, p, now) => StartKeepsInv(w, u, p, now);
    case OpAbort(u, p) => AbortKeepsInv(w, u, p);
    case OpGetCode(u, p, draws, fault) => GetInviteCodeKeepsInv(w, u, p, draws, fault);
    case OpSetSetting(u, p, s) => SettingKeepsInv(w, Step(w, op).0);
    case OpBlock(u, t, b) => SettingKeepsInv(w, Step(w, op).0);
  }

  lemma SettingKeepsInv(w: World, w': World)
    requires Inv(w) && w' == w.(settings := w'.settings, blocks := w'.blocks)
    ensures Inv(w')
  {
  }

  lemma {:induction false} RunKeepsInv(w: World, ops: seq<Op>)
    requires Inv(w) && EnabledRun(w, ops)
    ensures Inv(Run(w, ops))
    decreases |ops|
  {
    if ops != [] {
      StepKeepsInv(w, ops[0]);
      RunKeepsInv(Step(w, ops[0]).0, ops[1..]);
    }
  }

  ghost predicate Reachable(w: World) {
    exists ops: seq<Op> :: EnabledRun(EMPTY_WORLD, ops) && w == Run(EMPTY_WORLD, ops)
  }

  lemma ReachableInv(w: World)
    requires Reachable(w)
    ensures Inv(w)
  {
    var ops: seq<Op> :| EnabledRun(EMPTY_WORLD, ops) && w == Run(EMPTY_WORLD, ops);
    RunKeepsInv(EMPTY_WORLD, ops);
  }
}
