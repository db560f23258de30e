// The party RPCs and hooks as the runtime runs them: listings walked member by
// member, rows written and deleted one table at a time. Each is proved to have
// exactly the effect of one step of the party machine.
module PartyServer {
  import opened CodeTable
  import opened Party

  // An edge as GroupUsersList reports it; state 3 is pending, anything less active.
  datatype Member = Member(user: UserId, state: nat)

  const PENDING: nat := 3

  // Ending parties one after another ends them all.
  lemma DisbandOneMore(w: World, ended: set<PartyId>, p: PartyId)
    requires p !in ended
    ensures Disband(Disband(w, ended), {p}) == Disband(w, ended + {p})
  {
    var one, both := Disband(Disband(w, ended), {p}), Disband(w, ended + {p});
    assert one.groups == both.groups;
    assert one.ready == both.ready;
    assert one.settings == both.settings;
    assert one.leaders == both.leaders;
    assert one.codes.reverse == both.codes.reverse;
    assert one.codes.forward == both.codes.forward;
  }

  lemma DisbandNone(w: World)
    ensures Disband(w, {}) == w
  {
    var d := Disband(w, {});
    assert d.groups == w.groups && d.ready == w.ready && d.settings == w.settings && d.leaders == w.leaders;
    assert d.codes.forward == w.codes.forward && d.codes.reverse == w.codes.reverse;
  }

  class Server {
    var groups: map<PartyId, Group>
    var issued: set<PartyId>
    var leaders: map<PartyId, UserId>
    var ready: set<(PartyId, UserId)>
    var settings: set<(PartyId, Setting)>
    var codes: Codes
    var starts: map<PartyId, int>
    var blocks: set<(UserId, UserId)>
    ghost var clock: int
    ghost var history: History

    ghost function State(): World
      reads this
    {
      World(groups, issued, leaders, ready, settings, codes, starts, blocks, clock, history)
    }

    constructor ()
      ensures State() == EMPTY_WORLD
    {
      groups, issued, leaders, ready, settings := map[], {}, map[], {}, {};
      codes, starts, blocks, clock, history := CodeTable.EMPTY, map[], {}, 0, Dawn;
    }

    ghost method Record(e: Event)
      modifies this`history
      ensures State() == Note(old(State()), e)
    {
      history := After(history, e);
    }

    // ----- Listings -----

    method GroupUsersList(p: PartyId) returns (members: seq<Member>)
      requires p in groups
      ensures var g := groups[p];
              && |members| >= |g.active|
              && (forall i :: 0 <= i < |g.active| ==> members[i].user == g.active[i] && members[i].state != PENDING)
              && (forall i :: |g.active| <= i < |members| ==>
                    members[i].state == PENDING && members[i].user in g.pending)
              && (forall u :: u in g.pending ==> Member(u, PENDING) in members)
    {
      var g := groups[p];
      members := [];
      for i := 0 to |g.active|
        invariant |members| == i
        invariant forall j :: 0 <= j < i ==> members[j].user == g.active[j] && members[j].state != PENDING
      {
        members := members + [Member(g.active[i], 2)];
      }
      var rest := g.pending.Keys;
      while rest != {}
        invariant rest <= g.pending.Keys && |members| >= |g.active|
        invariant forall j :: 0 <= j < |g.active| ==> members[j].user == g.active[j] && members[j].state != PENDING
        invariant forall j :: |g.active| <= j < |members| ==>
                    members[j].state == PENDING && members[j].user in g.pending
        invariant forall u :: u in g.pending && u !in rest ==> Member(u, PENDING) in members
        decreases rest
      {
        var u :| u in rest;
        members := members + [Member(u, PENDING)];
        rest := rest - {u};
      }
    }

    // Every party the user has any edge in, once each.
    method UserGroupsList(user: UserId) returns (listed: seq<PartyId>)
      ensures forall p :: p in listed <==> p in groups && Listed(groups[p], user)
      ensures forall i, j :: 0 <= i < j < |listed| ==> listed[i] != listed[j]
    {
      listed := [];
      var rest := groups.Keys;
      while rest != {}
        invariant rest <= groups.Keys
        invariant forall p :: p in listed <==> p in groups && p !in rest && Listed(groups[p], user)
        invariant forall i, j :: 0 <= i < j < |listed| ==> listed[i] != listed[j]
        decreases rest
      {
        var p :| p in rest;
        rest := rest - {p};
        if Listed(groups[p], user) {
          listed := listed + [p];
        }
      }
    }

    method ActivePartiesOf(user: UserId, except: set<PartyId>) returns (parties: set<PartyId>)
      ensures parties == Memberships(State(), user, except).Keys
    {
      parties := {};
      var listed := UserGroupsList(user);
      for i := 0 to |listed|
        invariant forall p :: p in parties <==> p in listed[..i] && p !in except && user in groups[p].active
      {
        var p := listed[i];
        if p !in except && user in groups[p].active {
          parties := parties + {p};
        }
      }
      assert listed[..|listed|] == listed;
    }

    method PartyMemberships(user: UserId, except: set<PartyId>) returns (parties: map<PartyId, nat>)
      ensures parties == Memberships(State(), user, except)
    {
      var toCount := ActivePartiesOf(user, except);
      ghost var wanted := Memberships(State(), user, except);
      parties := map[];
      while toCount != {}
        invariant toCount + parties.Keys == wanted.Keys
        invariant forall p :: p in parties ==> parties[p] == wanted[p]
        decreases toCount
      {
        var p :| p in toCount;
        var count := CountActive(p);
        parties := parties[p := count];
        toCount := toCount - {p};
      }
    }

    method CountActive(p: PartyId) returns (count: nat)
      requires p in groups
      ensures count == |groups[p].active|
    {
      var members := GroupUsersList(p);
      count := 0;
      for i := 0 to |members|
        invariant count == if i <= |groups[p].active| then i else |groups[p].active|
      {
        if members[i].state != PENDING {
          count := count + 1;
        }
      }
    }

    method IsShared(parties: map<PartyId, nat>) returns (shared: bool)
      ensures shared == Shared(parties)
    {
      var rest := parties.Keys;
      while rest != {}
        invariant rest <= parties.Keys
        invariant forall p :: p in parties && p !in rest ==> parties[p] <= 1
        decreases rest
      {
        var p :| p in rest;
        if parties[p] > 1 {
          return true;
        }
        rest := rest - {p};
      }
      return false;
    }

    method SoloParties(parties: map<PartyId, nat>) returns (solos: seq<PartyId>)
      ensures (set p | p in solos) == Solo(parties)
      ensures forall i, j :: 0 <= i < j < |solos| ==> solos[i] != solos[j]
    {
      solos := [];
      var rest := parties.Keys;
      while rest != {}
        invariant rest <= parties.Keys
        invariant forall p :: p in solos <==> p in parties && p !in rest && parties[p] == 1
        invariant forall i, j :: 0 <= i < j < |solos| ==> solos[i] != solos[j]
        decreases rest
      {
        var p :| p in rest;
        rest := rest - {p};
        if parties[p] == 1 {
          solos := solos + [p];
        }
      }
    }

    // ----- Row cleanup -----

    method DeletePartyReadyRows(p: PartyId, users: seq<UserId>)
      modifies this`ready
      ensures State() == DeleteReady(old(State()), p, set u | u in users)
    {
      var deletes := {};
      for i := 0 to |users|
        invariant deletes == set u | u in users[..i] :: (p, u)
      {
        deletes := deletes + {(p, users[i])};
      }
      assert users[..|users|] == users;
      ready := ready - deletes;
      assert ready == DeleteReady(old(State()), p, set u | u in users).ready;
    }

    // The ready-row keys of everyone the roster lists.
    method RosterRows(p: PartyId) returns (rows: set<(PartyId, UserId)>)
      requires p in groups
      ensures forall r :: r in rows <==> r.0 == p && Listed(groups[p], r.1)
    {
      var members := GroupUsersList(p);
      rows := {};
      for i := 0 to |members|
        invariant forall r :: r in rows <==> r.0 == p && exists j :: 0 <= j < i && members[j].user == r.1
      {
        rows := rows + {(p, members[i].user)};
      }
      ghost var g := groups[p];
      forall u ensures (exists j :: 0 <= j < |members| && members[j].user == u) <==> Listed(g, u) {
        if u in g.active {
          var i :| 0 <= i < |g.active| && g.active[i] == u;
          assert members[i].user == u;
        } else if u in g.pending {
          assert Member(u, PENDING) in members;
        }
      }
    }

    method ClearPartyReadyRows(p: PartyId, extras: seq<UserId>)
      requires p in groups
      modifies this`ready
      ensures State() == ClearReady(old(State()), p, set u | u in extras)
    {
      var deletes := RosterRows(p);
      ghost var listed := deletes;
      for i := 0 to |extras|
        invariant deletes == listed + (set u | u in extras[..i] :: (p, u))
      {
        deletes := deletes + {(p, extras[i])};
      }
      assert extras[..|extras|] == extras;
      ready := ready - deletes;
      assert ready == ClearReady(old(State()), p, set u | u in extras).ready;
    }

    method DisbandPartyGroup(p: PartyId)
      requires p in groups
      modifies this
      ensures State() == Disband(old(State()), {p})
    {
      ghost var d := Disband(State(), {p});
      var deletes := RosterRows(p);
      groups := groups - {p};
      ready := ready - deletes;
      assert ready == d.ready;
      DeleteSettings(p);
      leaders := leaders - {p};
      if p in codes.reverse {
        codes := DropPair(codes, codes.reverse[p], p);
      }
      assert codes.forward == d.codes.forward && codes.reverse == d.codes.reverse;
    }

    method DeleteSettings(p: PartyId)
      modifies this`settings
      ensures settings == set s | s in old(settings) && s.0 != p
    {
      forall s | s in settings && s.0 == p ensures s.1 in {Mode, LevelPrefs, CheatPrefs} {
        match s.1 case Mode => case LevelPrefs => case CheatPrefs =>
      }
      settings := settings - {(p, Mode), (p, LevelPrefs), (p, CheatPrefs)};
    }

    // Ends the named parties one by one.
    method DisbandEach(solos: seq<PartyId>)
      requires forall p :: p in solos ==> p in groups
      requires forall i, j :: 0 <= i < j < |solos| ==> solos[i] != solos[j]
      modifies this
      ensures State() == Disband(old(State()), set p | p in solos)
    {
      ghost var w0 := State();
      ghost var soFar := {};
      DisbandNone(w0);
      for i := 0 to |solos|
        invariant State() == Disband(w0, soFar)
        invariant soFar == set p | p in solos[..i]
      {
        assert solos[i] !in soFar;
        DisbandOneMore(w0, soFar, solos[i]);
        soFar := soFar + {solos[i]};
        DisbandPartyGroup(solos[i]);
        assert solos[..i + 1] == solos[..i] + [solos[i]];
      }
      assert solos[..|solos|] == solos;
    }

    // ----- Leadership -----

    method ResolvePartyLeader(p: PartyId) returns (leader: UserId)
      requires p in groups
      ensures leader == Leader(State(), p)
    {
      leader := if p in leaders then leaders[p] else groups[p].creator;
    }

    // The first active member other than the departed takes over.
    method AutoTransferIfLeaderDeparted(p: PartyId, departed: UserId)
      modifies this`leaders
      ensures State() == AutoTransfer(old(State()), p, departed)
    {
      if p !in groups {
        return;
      }
      var leader := ResolvePartyLeader(p);
      if leader != departed {
        return;
      }
      var members := GroupUsersList(p);
      ghost var active := groups[p].active;
      for i := 0 to |members|
        invariant State() == old(State())
        invariant forall j :: 0 <= j < i && j < |active| ==> active[j] == departed
      {
        if members[i].user != departed && members[i].state != PENDING {
          FirstOther(active, departed, i);
          leaders := leaders[p := members[i].user];
          return;
        }
      }
      NoOther(active, departed);
      leaders := leaders - {p};
    }

    static lemma {:induction false} FirstOther(s: seq<UserId>, u: UserId, k: nat)
      requires k < |s| && s[k] != u && forall j :: 0 <= j < k ==> s[j] == u
      ensures Without(s, u) != [] && Without(s, u)[0] == s[k]
    {
      if k > 0 {
        FirstOther(s[1..], u, k - 1);
      }
    }

    static lemma {:induction false} NoOther(s: seq<UserId>, u: UserId)
      requires forall j :: 0 <= j < |s| ==> s[j] == u
      ensures Without(s, u) == []
    {
      if s != [] {
        NoOther(s[1..], u);
      }
    }

    // Nakama's own removal of one edge.
    method RemoveGroupEdge(p: PartyId, u: UserId)
      modifies this`groups
      ensures State() == RemoveEdge(old(State()), p, u)
    {
      if p in groups {
        var g := groups[p];
        groups := groups[p := g.(active := Without(g.active, u), pending := g.pending - {u})];
      }
    }

    method EndGroupIfEmpty(p: PartyId)
      modifies this`groups
      ensures State() == EndIfEmpty(old(State()), p)
    {
      if p in groups && groups[p].active == [] {
        groups := groups - {p};
      }
    }

    // ----- The RPCs and hooks -----

    method UsersBlockEachOther(a: UserId, b: UserId) returns (blocked: bool)
      ensures blocked == Blocked(State(), a, b)
    {
      if (a, b) in blocks {
        return true;
      }
      return (b, a) in blocks;
    }

    method SharesAParty(user: UserId, except: set<PartyId>) returns (shared: bool)
      ensures shared == Shared(Memberships(State(), user, except))
    {
      var parties := PartyMemberships(user, except);
      shared := IsShared(parties);
    }

    // Ends every party of one the user holds, but the spared one.
    method DisbandSolos(user: UserId, except: set<PartyId>, spared: set<PartyId>)
      modifies this
      ensures State() == Disband(old(State()), Solo(Memberships(old(State()), user, except)) - spared)
    {
      var parties := PartyMemberships(user, except);
      var solos := SoloParties(parties);
      var doomed := [];
      for i := 0 to |solos|
        invariant State() == old(State())
        invariant forall p :: p in doomed <==> p in solos[..i] && p !in spared
        invariant forall j, k :: 0 <= j < k < |doomed| ==> doomed[j] != doomed[k]
      {
        if solos[i] !in spared {
          doomed := doomed + [solos[i]];
        }
      }
      assert solos[..|solos|] == solos;
      ghost var ended := set p | p in doomed;
      assert ended == Solo(parties) - spared;
      assert forall p :: p in ended ==> p in parties && p in groups;
      DisbandEach(doomed);
    }

    method CreatePartyGroup(caller: UserId, p: PartyId, capacity: nat) returns (r: Outcome)
      modifies this
      ensures (State(), r) == Create(old(State()), caller, p, capacity)
    {
      if p in issued {
        return Refused(13);
      }
      var shared := SharesAParty(caller, {});
      if shared {
        return Refused(6);
      }
      DisbandSolos(caller, {}, {});
      assert Solo(Memberships(old(State()), caller, {})) - {} == Solo(Memberships(old(State()), caller, {}));
      groups := groups[p := Group(caller, capacity, [caller], map[])];
      issued := issued + {p};
      return Done;
    }

    // GroupUsersAdd by an admin of a closed group: a pending invite.
    method GroupUsersAdd(p: PartyId, u: UserId)
      modifies this`groups, this`history
      ensures State() == AddInvite(old(State()), p, u)
    {
      if p in groups && u !in groups[p].active {
        var g := groups[p];
        groups := groups[p := g.(pending := g.pending[u := Invited])];
        Record(InvitedTo(p, u));
      }
    }

    method PartyInvite(caller: UserId, p: PartyId, target: UserId) returns (r: Outcome)
      modifies this
      ensures (State(), r) == Invite(old(State()), caller, p, target)
    {
      if p == "" || target == "" || target == caller {
        return Refused(3);
      }
      if p !in groups {
        return Refused(5);
      }
      if |groups[p].active| >= groups[p].capacity {
        return Refused(9);
      }
      if caller !in groups[p].active {
        return Refused(7);
      }
      var blocked := UsersBlockEachOther(caller, target);
      if blocked {
        return Refused(7);
      }
      var shared := SharesAParty(target, {p});
      if shared {
        return Refused(6);
      }
      var already := target in groups[p].active;
      GroupUsersAdd(p, target);
      if already {
        Record(InvitedTo(p, target));
      }
      assert (set u | u in [target]) == {target};
      DeletePartyReadyRows(p, [target]);
      return Done;
    }

    // beforeAddGroupUsersPartyGuard's walk over the targets.
    method AddGuard(caller: UserId, p: PartyId, targets: seq<UserId>) returns (status: nat)
      ensures status == AddRefusal(State(), caller, p, targets)
    {
      for i := 0 to |targets|
        invariant AddRefusal(State(), caller, p, targets) == AddRefusal(State(), caller, p, targets[i..])
      {
        var blocked := UsersBlockEachOther(caller, targets[i]);
        if blocked {
          return 7;
        }
        var shared := SharesAParty(targets[i], {p});
        if shared {
          return 6;
        }
        assert targets[i..][1..] == targets[i + 1..];
      }
      return 0;
    }

    method AddGroupUsers(caller: UserId, p: PartyId, targets: seq<UserId>) returns (r: Outcome)
      modifies this
      ensures (State(), r) == RawAdd(old(State()), caller, p, targets)
    {
      if p !in groups {
        return Refused(5);
      }
      var leader := ResolvePartyLeader(p);
      if caller == "" || caller != leader {
        return Refused(7);
      }
      var status := AddGuard(caller, p, targets);
      if status != 0 {
        return Refused(status);
      }
      for i := 0 to |targets|
        invariant State() == AddInvites(old(State()), p, targets[..i])
      {
        assert targets[..i + 1][..i] == targets[..i];
        GroupUsersAdd(p, targets[i]);
      }
      assert targets[..|targets|] == targets;
      return Done;
    }

    // Nakama's side of a join.
    method GroupJoin(p: PartyId, caller: UserId)
      requires p in groups
      modifies this`groups, this`history
      ensures State() == JoinWrite(old(State()), caller, p)
    {
      var g := groups[p];
      if caller in g.active {
      } else if caller in g.pending && g.pending[caller] == Invited {
        groups := groups[p := g.(active := g.active + [caller], pending := g.pending - {caller})];
        Record(Joined(p, caller));
      } else {
        groups := groups[p := g.(pending := g.pending[caller := Requested])];
      }
    }

    method AfterJoinGroup(p: PartyId, caller: UserId)
      requires p in groups
      modifies this
      ensures State() == AfterJoin(old(State()), caller, p)
    {
      Record(JoinCalled(p, caller));
      var none: seq<UserId> := [];
      assert (set u | u in none) == {};
      ClearPartyReadyRows(p, none);
      var parties := PartyMemberships(caller, {});
      if p in parties {
        DisbandSolos(caller, {}, {p});
      }
    }

    method JoinGroup(caller: UserId, p: PartyId) returns (r: Outcome)
      modifies this
      ensures (State(), r) == Join(old(State()), caller, p)
    {
      if p !in groups {
        return Refused(5);
      }
      var shared := SharesAParty(caller, {p});
      if shared {
        return Refused(6);
      }
      var g := groups[p];
      if caller !in g.active && caller in g.pending && g.pending[caller] == Invited
         && |g.active| >= g.capacity {
        return Refused(9);
      }
      GroupJoin(p, caller);
      AfterJoinGroup(p, caller);
      return Done;
    }

    // Whether a block stands between the joiner and any active member.
    method BlockedByMember(caller: UserId, p: PartyId) returns (blocked: bool)
      requires p in groups
      ensures blocked <==> exists m :: m in groups[p].active && Blocked(State(), caller, m)
    {
      var members := GroupUsersList(p);
      ghost var active := groups[p].active;
      for i := 0 to |members|
        invariant forall j :: 0 <= j < i && j < |active| ==> !Blocked(State(), caller, active[j])
      {
        if members[i].state != PENDING {
          var b := UsersBlockEachOther(caller, members[i].user);
          if b {
            assert members[i].user in active;
            return true;
          }
        }
      }
      return false;
    }

    method PartyJoinByCode(caller: UserId, typed: string) returns (r: Outcome)
      modifies this
      ensures (State(), r) == JoinByCode(old(State()), caller, typed)
    {
      var code := Normalize(typed);
      if !WellFormedCode(code) {
        return Refused(3);
      }
      if code !in codes.forward {
        return Refused(5);
      }
      var p := codes.forward[code];
      if p !in groups {
        codes := DropPair(codes, code, p);
        return Refused(5);
      }
      var g := groups[p];
      if |g.active| >= g.capacity {
        return Refused(9);
      }
      if Listed(g, caller) {
        return InParty(p);
      }
      var blocked := BlockedByMember(caller, p);
      if blocked {
        return Refused(7);
      }
      var shared := SharesAParty(caller, {p});
      if shared {
        return Refused(6);
      }
      groups := groups[p := g.(active := g.active + [caller], pending := g.pending - {caller})];
      Record(Joined(p, caller));
      ghost var w1 := State();
      DisbandSolos(caller, {p}, {});
      assert Solo(Memberships(w1, caller, {p})) - {} == Solo(Memberships(w1, caller, {p}));
      var none: seq<UserId> := [];
      assert (set u | u in none) == {};
      ClearPartyReadyRows(p, none);
      return InParty(p);
    }

    method LeaveGroup(caller: UserId, p: PartyId) returns (r: Outcome)
      modifies this
      ensures (State(), r) == Leave(old(State()), caller, p)
    {
      if p !in groups || !Listed(groups[p], caller) {
        return Refused(5);
      }
      RemoveGroupEdge(p, caller);
      Record(Exited(p, caller));
      assert (set u | u in [caller]) == {caller};
      DeletePartyReadyRows(p, [caller]);
      AutoTransferIfLeaderDeparted(p, caller);
      EndGroupIfEmpty(p);
      return Done;
    }

    // beforeKickGroupUsersHook's walk over the targets.
    method KickGuard(p: PartyId, targets: seq<UserId>) returns (status: nat)
      requires p in groups
      ensures status == KickRefusal(State(), p, targets)
    {
      var leader := ResolvePartyLeader(p);
      for i := 0 to |targets|
        invariant KickRefusal(State(), p, targets) == KickRefusal(State(), p, targets[i..])
      {
        if targets[i] == leader {
          return 7;
        }
        if !Listed(groups[p], targets[i]) {
          return 5;
        }
        assert targets[i..][1..] == targets[i + 1..];
      }
      return 0;
    }

    method KickGroupUsers(caller: UserId, p: PartyId, targets: seq<UserId>) returns (r: Outcome)
      modifies this
      ensures (State(), r) == Kick(old(State()), caller, p, targets)
    {
      if p !in groups {
        return Refused(5);
      }
      var leader := ResolvePartyLeader(p);
      if caller == "" || caller != leader {
        return Refused(7);
      }
      var status := KickGuard(p, targets);
      if status != 0 {
        return Refused(status);
      }
      for i := 0 to |targets|
        invariant State() == RemoveEdges(old(State()), p, targets[..i])
      {
        assert targets[..i + 1][..i] == targets[..i];
        RemoveGroupEdge(p, targets[i]);
        Record(Exited(p, targets[i]));
      }
      assert targets[..|targets|] == targets;
      ghost var w1 := State();
      for i := 0 to |targets|
        invariant State() == AutoTransfers(w1, p, targets[..i])
      {
        assert targets[..i + 1][..i] == targets[..i];
        AutoTransferIfLeaderDeparted(p, targets[i]);
      }
      DeletePartyReadyRows(p, targets);
      EndGroupIfEmpty(p);
      return Done;
    }

    method PartyTransferLeadership(caller: UserId, p: PartyId, target: UserId) returns (r: Outcome)
      modifies this`leaders
      ensures (State(), r) == Transfer(old(State()), caller, p, target)
    {
      if p == "" || target == "" || target == caller {
        return Refused(3);
      }
      if p !in groups {
        return Refused(5);
      }
      var leader := ResolvePartyLeader(p);
      if leader != caller {
        return Refused(7);
      }
      var members := GroupUsersList(p);
      ghost var active := groups[p].active;
      var callerActive, targetActive := false, false;
      for i := 0 to |members|
        invariant callerActive <==> caller in active[..if i <= |active| then i else |active|]
        invariant targetActive <==> target in active[..if i <= |active| then i else |active|]
      {
        if members[i].state != PENDING {
          callerActive := callerActive || members[i].user == caller;
          targetActive := targetActive || members[i].user == target;
        }
      }
      assert active[..|active|] == active;
      if !callerActive {
        return Refused(7);
      }
      if !targetActive {
        return Refused(3);
      }
      leaders := leaders[p := target];
      return Done;
    }

    method PartyDisband(caller: UserId, p: PartyId) returns (r: Outcome)
      modifies this
      ensures (State(), r) == DisbandByLeader(old(State()), caller, p)
    {
      if p == "" {
        return Refused(3);
      }
      if p !in groups {
        return Refused(5);
      }
      var leader := ResolvePartyLeader(p);
      if leader != caller {
        return Refused(7);
      }
      DisbandPartyGroup(p);
      return Done;
    }

    method LeaveForDeletion(u: UserId, p: PartyId)
      modifies this
      ensures State() == ExitForDeletion(old(State()), u, p)
    {
      if p !in groups {
        return;
      }
      var creator := groups[p].creator;
      RemoveGroupEdge(p, u);
      Record(AccountLeft(p, u));
      if creator == u {
        groups := groups - {p};
        leaders := leaders - {p};
        DeleteSettings(p);
        codes := DropOwner(codes, p);
        return;
      }
      assert (set v | v in [u]) == {u};
      ClearPartyReadyRows(p, [u]);
      AutoTransferIfLeaderDeparted(p, u);
      EndGroupIfEmpty(p);
    }

    // Account deletion's walk over the player's groups, in the order Nakama lists
    // them: ten pages of a hundred at most.
    method LeaveAllGroups(u: UserId, listing: seq<PartyId>)
      requires Enabled(State(), OpDeleteAccount(u, listing))
      modifies this
      ensures State() == DeleteAccount(old(State()), u, listing).0
    {
      var memberships: seq<PartyId> := [];
      var page := 0;
      while page < 10
        invariant page <= 10 && |memberships| <= |listing| && memberships == listing[..|memberships|]
        invariant |memberships| == 100 * page || (page == 10 && |memberships| == |listing| <= MEMBERSHIP_PAGES_LIMIT)
      {
        var next := if |memberships| + 100 < |listing| then |memberships| + 100 else |listing|;
        memberships := listing[..next];
        page := if next == |listing| then 10 else page + 1;
      }
      assert memberships == FirstPages(listing);
      for i := 0 to |memberships|
        invariant State() == ExitEach(old(State()), u, memberships[..i])
      {
        assert memberships[..i + 1][..i] == memberships[..i];
        LeaveForDeletion(u, memberships[i]);
      }
      assert memberships[..|memberships|] == memberships;
    }

    method PartySetReady(caller: UserId, p: PartyId, isReady: bool) returns (r: Outcome)
      modifies this`ready, this`history
      ensures (State(), r) == SetReady(old(State()), caller, p, isReady)
      ensures r == Done ==> ((p, caller) in ready <==> isReady)
      ensures forall row :: row != (p, caller) ==> (row in ready <==> row in old(ready))
    {
      if p == "" {
        return Refused(3);
      }
      if p !in groups {
        return Refused(5);
      }
      if caller !in groups[p].active {
        return Refused(if caller in groups[p].pending then 9 else 7);
      }
      if isReady {
        ready := ready + {(p, caller)};
        Record(Readied(p, caller));
      } else {
        ready := ready - {(p, caller)};
        Record(Unreadied(p, caller));
      }
      return Done;
    }

    // Reads every listed member's ready row; a missing row is not ready.
    method AllMembersReady(p: PartyId, memberIds: seq<UserId>) returns (all: bool)
      ensures all <==> memberIds != [] && forall u :: u in memberIds ==> (p, u) in ready
    {
      if memberIds == [] {
        return false;
      }
      var readyByUser := {};
      for i := 0 to |memberIds|
        invariant readyByUser == set u | u in memberIds[..i] && (p, u) in ready
      {
        if (p, memberIds[i]) in ready {
          readyByUser := readyByUser + {memberIds[i]};
        }
      }
      for i := 0 to |memberIds|
        invariant forall j :: 0 <= j < i ==> (p, memberIds[j]) in ready
      {
        if memberIds[i] !in readyByUser {
          assert memberIds[..|memberIds|] == memberIds;
          return false;
        }
      }
      return true;
    }

    // The start guard: prunes, then records the start unless one is live.
    method TryStart(p: PartyId, now: int) returns (ok: bool)
      modifies this`starts, this`clock
      ensures ok <==> p !in PruneStarts(old(starts), now)
      ensures starts == if ok then PruneStarts(old(starts), now)[p := now] else PruneStarts(old(starts), now)
      ensures clock == now
    {
      clock := now;
      var rest := starts.Keys;
      while rest != {}
        invariant rest <= starts.Keys <= old(starts).Keys
        invariant forall q :: q in starts ==> starts[q] == old(starts)[q]
        invariant forall q :: q in old(starts) && q !in rest ==>
                    (q in starts <==> now - old(starts)[q] < START_WINDOW)
        invariant forall q :: q in rest ==> q in starts
        invariant clock == now
        decreases rest
      {
        var q :| q in rest;
        rest := rest - {q};
        if now - starts[q] >= START_WINDOW {
          starts := starts - {q};
        }
      }
      assert starts == PruneStarts(old(starts), now);
      if p in starts && now - starts[p] < START_WINDOW {
        return false;
      }
      starts := starts[p := now];
      return true;
    }

    method PartyStartMatchmaking(caller: UserId, p: PartyId, now: int) returns (r: Outcome)
      modifies this
      ensures (State(), r) == StartMatchmaking(old(State()), caller, p, now)
    {
      if p == "" {
        return Refused(3);
      }
      if p !in groups {
        return Refused(5);
      }
      var memberIds, callerIsMember := ActiveMembers(p, caller);
      if !callerIsMember {
        return Refused(7);
      }
      var all := AllMembersReady(p, memberIds);
      if !all {
        return Refused(9);
      }
      var ok := TryStart(p, now);
      if !ok {
        return Refused(8);
      }
      var none: seq<UserId> := [];
      assert (set u | u in none) == {};
      ClearPartyReadyRows(p, none);
      Record(Started(p, now));
      return Done;
    }

    method ActiveMembers(p: PartyId, caller: UserId) returns (memberIds: seq<UserId>, callerIsMember: bool)
      requires p in groups
      ensures memberIds == groups[p].active
      ensures callerIsMember <==> caller in groups[p].active
    {
      var members := GroupUsersList(p);
      ghost var active := groups[p].active;
      memberIds, callerIsMember := [], false;
      for i := 0 to |members|
        invariant memberIds == active[..if i <= |active| then i else |active|]
        invariant callerIsMember <==> caller in memberIds
      {
        if members[i].state != PENDING {
          memberIds := memberIds + [members[i].user];
          callerIsMember := callerIsMember || members[i].user == caller;
        }
      }
    }

    method PartyAbortMatchmaking(caller: UserId, p: PartyId) returns (r: Outcome)
      modifies this`starts, this`history
      ensures (State(), r) == AbortMatchmaking(old(State()), caller, p)
    {
      if p == "" {
        return Refused(3);
      }
      if p !in groups {
        return Refused(5);
      }
      var memberIds, callerIsMember := ActiveMembers(p, caller);
      if !callerIsMember {
        return Refused(7);
      }
      starts := starts - {p};
      Record(Aborted(p));
      return Done;
    }

    method PartyGetInviteCode(caller: UserId, p: PartyId, draws: seq<Code>, fault: Fault) returns (r: Outcome)
      requires |draws| == MAX_ATTEMPTS
      modifies this`codes, this`history
      ensures (State(), r) == GetInviteCode(old(State()), caller, p, draws, fault)
    {
      if p == "" {
        return Refused(3);
      }
      if p !in groups {
        return Refused(5);
      }
      if caller !in groups[p].active {
        return Refused(if caller in groups[p].pending then 9 else 7);
      }
      ghost var half := LeavesHalf(codes, p, draws, fault);
      var codes', issued := IssueCode(codes, p, draws, fault);
      codes := codes';
      if issued.Issued? {
        Record(HandedOut(p, issued.code));
        return WithCode(issued.code);
      }
      if half {
        Record(HalfIssued(p));
      }
      return Refused(13);
    }
  }
}
