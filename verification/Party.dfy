// The party protocol as a state machine: every guard, write and after-hook of
// one party operation is one step over the world of groups and storage rows.
module Party {
  import opened CodeTable

  type UserId = string
  type PartyId = string

  // The window in which a second start counts as the same attempt, in nanoseconds.
  const START_WINDOW: int := 20_000_000_000

  // leaveAllGroups lists at most ten pages of a hundred memberships.
  const MEMBERSHIP_PAGES_LIMIT: nat := 1000

  const CODE_LENGTH: nat := 6

  // Both are edge state 3: an invite becomes active on join, a request does not.
  datatype Pending = Invited | Requested

  // One party group. Active members stand in the order the roster lists them.
  datatype Group = Group(creator: UserId, capacity: nat, active: seq<UserId>, pending: map<UserId, Pending>)

  datatype Setting = Mode | LevelPrefs | CheatPrefs

  // What happened, as far as readiness, start attempts and codes are concerned.
  datatype Event =
    | JoinCalled(p: PartyId, u: UserId)
    | Joined(p: PartyId, u: UserId)
    | InvitedTo(p: PartyId, u: UserId)
    | Exited(p: PartyId, u: UserId)
    | AccountLeft(p: PartyId, u: UserId)
    | Readied(p: PartyId, u: UserId)
    | Unreadied(p: PartyId, u: UserId)
    | Started(p: PartyId, at: int)
    | Aborted(p: PartyId)
    | HandedOut(p: PartyId, code: Code)
    | HalfIssued(p: PartyId)

  // The run so far, newest event last. No operation reads it.
  datatype History = Dawn | After(before: History, event: Event)

  datatype World = World(
    groups: map<PartyId, Group>,
    issued: set<PartyId>,
    leaders: map<PartyId, UserId>,
    ready: set<(PartyId, UserId)>,
    settings: set<(PartyId, Setting)>,
    codes: Codes,
    starts: map<PartyId, int>,
    blocks: set<(UserId, UserId)>,
    clock: int,
    history: History)

  // Refused carries the gRPC status the caller sees.
  datatype Outcome = Done | InParty(p: PartyId) | WithCode(code: Code) | Refused(status: nat)

  const EMPTY_WORLD := World(map[], {}, map[], {}, {}, CodeTable.EMPTY, map[], {}, 0, Dawn)

  // ----- Reading the world -----

  function Without(s: seq<UserId>, u: UserId): (r: seq<UserId>)
    ensures forall x :: x in r <==> x in s && x != u
    ensures |r| <= |s|
  {
    if s == [] then []
    else if s[0] == u then Without(s[1..], u)
    else [s[0]] + Without(s[1..], u)
  }

  predicate IsActive(w: World, p: PartyId, u: UserId) {
    p in w.groups && u in w.groups[p].active
  }

  predicate HasEdge(w: World, p: PartyId, u: UserId) {
    p in w.groups && (u in w.groups[p].active || u in w.groups[p].pending)
  }

  // The leader override when one is stored, else the group's creator.
  function Leader(w: World, p: PartyId): UserId
    requires p in w.groups
  {
    if p in w.leaders then w.leaders[p] else w.groups[p].creator
  }

  // The parties u is active in, with their active head counts.
  function Memberships(w: World, u: UserId, except: set<PartyId>): map<PartyId, nat> {
    map p | p in w.groups && p !in except && u in w.groups[p].active :: |w.groups[p].active|
  }

  predicate Shared(parties: map<PartyId, nat>) {
    exists p :: p in parties && parties[p] > 1
  }

  function Solo(parties: map<PartyId, nat>): set<PartyId> {
    set p | p in parties && parties[p] == 1
  }

  predicate Blocked(w: World, a: UserId, b: UserId) {
    (a, b) in w.blocks || (b, a) in w.blocks
  }

  // Active members first, then pending ones: everyone the roster lists.
  predicate Listed(g: Group, u: UserId) {
    u in g.active || u in g.pending
  }

  // ----- The pieces operations are made of -----

  function Note(w: World, e: Event): World {
    w.(history := After(w.history, e))
  }

  function SetGroup(w: World, p: PartyId, g: Group): World {
    w.(groups := w.groups[p := g])
  }

  // Deletes the ready rows of everyone the roster lists, and of the extras.
  function ClearReady(w: World, p: PartyId, extras: set<UserId>): World {
    w.(ready := set r | r in w.ready &&
          !(r.0 == p && (r.1 in extras || (p in w.groups && Listed(w.groups[p], r.1)))))
  }

  function DeleteReady(w: World, p: PartyId, users: set<UserId>): World {
    w.(ready := set r | r in w.ready && !(r.0 == p && r.1 in users))
  }

  function DropOwners(t: Codes, owners: set<PartyId>): Codes {
    Codes(t.forward - (set o | o in owners && o in t.reverse :: t.reverse[o]), t.reverse - owners)
  }

  // Ends every party in the set: the groups and each party-scoped row go.
  function Disband(w: World, parties: set<PartyId>): World {
    w.(groups := w.groups - parties,
       ready := (set r | r in w.ready &&
                   !(r.0 in parties && r.0 in w.groups && Listed(w.groups[r.0], r.1))),
       settings := (set s | s in w.settings && s.0 !in parties),
       leaders := w.leaders - parties,
       codes := DropOwners(w.codes, parties))
  }

  // Hands leadership on when the departed user held it, or drops the override
  // when nobody active is left.
  function AutoTransfer(w: World, p: PartyId, departed: UserId): World {
    if p !in w.groups || Leader(w, p) != departed then w
    else
      var rest := Without(w.groups[p].active, departed);
      if rest == [] then w.(leaders := w.leaders - {p})
      else w.(leaders := w.leaders[p := rest[0]])
  }

  function RemoveEdge(w: World, p: PartyId, u: UserId): World {
    if p !in w.groups then w
    else
      var g := w.groups[p];
      SetGroup(w, p, g.(active := Without(g.active, u), pending := g.pending - {u}))
  }

  function RemoveEdges(w: World, p: PartyId, us: seq<UserId>): World {
    if us == [] then w
    else Note(RemoveEdge(RemoveEdges(w, p, us[..|us| - 1]), p, us[|us| - 1]), Exited(p, us[|us| - 1]))
  }

  function AutoTransfers(w: World, p: PartyId, us: seq<UserId>): World {
    if us == [] then w
    else AutoTransfer(AutoTransfers(w, p, us[..|us| - 1]), p, us[|us| - 1])
  }

  // A party whose last active member is gone is over.
  function EndIfEmpty(w: World, p: PartyId): World {
    if p in w.groups && w.groups[p].active == [] then w.(groups := w.groups - {p}) else w
  }

  function AddInvite(w: World, p: PartyId, u: UserId): World {
    if p !in w.groups || u in w.groups[p].active then w
    else
      var g := w.groups[p];
      Note(SetGroup(w, p, g.(pending := g.pending[u := Invited])), InvitedTo(p, u))
  }

  function AddInvites(w: World, p: PartyId, us: seq<UserId>): World {
    if us == [] then w
    else AddInvite(AddInvites(w, p, us[..|us| - 1]), p, us[|us| - 1])
  }

  function AddActive(w: World, p: PartyId, u: UserId): World
    requires p in w.groups
  {
    var g := w.groups[p];
    Note(SetGroup(w, p, g.(active := g.active + [u], pending := g.pending - {u})), Joined(p, u))
  }

  // Entries older than the window go; the rest are live attempts.
  function PruneStarts(starts: map<PartyId, int>, now: int): map<PartyId, int> {
    map p | p in starts && now - starts[p] < START_WINDOW :: starts[p]
  }

  predicate AllReady(w: World, p: PartyId)
    requires p in w.groups
  {
    forall u :: u in w.groups[p].active ==> (p, u) in w.ready
  }

  // ----- The operations -----

  // beforeCreateGroupPartyGuard, then the creation: a caller sharing a party is
  // refused, a party of one is ended first. Ids are never issued twice.
  function Create(w: World, caller: UserId, p: PartyId, capacity: nat): (World, Outcome) {
    if p in w.issued then (w, Refused(13))
    else
      var mine := Memberships(w, caller, {});
      if Shared(mine) then (w, Refused(6))
      else
        var w1 := Disband(w, Solo(mine));
        (w1.(groups := w1.groups[p := Group(caller, capacity, [caller], map[])], issued := w1.issued + {p}), Done)
  }

  // party_invite: any active member invites; the add is made as the leader.
  function Invite(w: World, caller: UserId, p: PartyId, target: UserId): (World, Outcome) {
    if p == "" || target == "" || target == caller then (w, Refused(3))
    else if p !in w.groups then (w, Refused(5))
    else if |w.groups[p].active| >= w.groups[p].capacity then (w, Refused(9))
    else if caller !in w.groups[p].active then (w, Refused(7))
    else if Blocked(w, caller, target) then (w, Refused(7))
    else if Shared(Memberships(w, target, {p})) then (w, Refused(6))
    else
      var w1 := AddInvite(w, p, target);
      var w2 := if target in w.groups[p].active then Note(w1, InvitedTo(p, target)) else w1;
      (DeleteReady(w2, p, {target}), Done)
  }

  // The first target the add guard turns away, if any.
  function AddRefusal(w: World, caller: UserId, p: PartyId, targets: seq<UserId>): (status: nat) {
    if targets == [] then 0
    else if Blocked(w, caller, targets[0]) then 7
    else if Shared(Memberships(w, targets[0], {p})) then 6
    else AddRefusal(w, caller, p, targets[1..])
  }

  // A leader's raw group add, behind beforeAddGroupUsersPartyGuard.
  function RawAdd(w: World, caller: UserId, p: PartyId, targets: seq<UserId>): (World, Outcome) {
    if p !in w.groups then (w, Refused(5))
    else if caller == "" || caller != Leader(w, p) then (w, Refused(7))
    else
      var refusal := AddRefusal(w, caller, p, targets);
      if refusal != 0 then (w, Refused(refusal))
      else (AddInvites(w, p, targets), Done)
  }

  // Nakama's write for a join of a closed group: an invite becomes active, anyone
  // else only leaves a request.
  function JoinWrite(w: World, caller: UserId, p: PartyId): World
    requires p in w.groups
  {
    var g := w.groups[p];
    if caller in g.active then w
    else if caller in g.pending && g.pending[caller] == Invited then AddActive(w, p, caller)
    else SetGroup(w, p, g.(pending := g.pending[caller := Requested]))
  }

  // afterJoinGroupHook: everyone re-readies, and a joiner who landed leaves any
  // party of one behind.
  function AfterJoin(w: World, caller: UserId, p: PartyId): World
    requires p in w.groups
  {
    var w1 := ClearReady(Note(w, JoinCalled(p, caller)), p, {});
    var mine := Memberships(w1, caller, {});
    if p in mine then Disband(w1, Solo(mine) - {p}) else w1
  }

  function Join(w: World, caller: UserId, p: PartyId): (World, Outcome) {
    if p !in w.groups then (w, Refused(5))
    else if Shared(Memberships(w, caller, {p})) then (w, Refused(6))
    else
      var g := w.groups[p];
      if caller !in g.active && caller in g.pending && g.pending[caller] == Invited
         && |g.active| >= g.capacity
      then (w, Refused(9))
      else (AfterJoin(JoinWrite(w, caller, p), caller, p), Done)
  }

  predicate WellFormedCode(code: Code) {
    |code| == CODE_LENGTH && forall i :: 0 <= i < |code| ==> code[i] in ALPHABET
  }

  // party_join_by_code: the code is the invitation, so the caller becomes active
  // at once. A code whose party is gone loses both rows.
  function JoinByCode(w: World, caller: UserId, typed: string): (World, Outcome) {
    var code := Normalize(typed);
    if !WellFormedCode(code) then (w, Refused(3))
    else if code !in w.codes.forward then (w, Refused(5))
    else
      var p := w.codes.forward[code];
      if p !in w.groups then (w.(codes := DropPair(w.codes, code, p)), Refused(5))
      else if |w.groups[p].active| >= w.groups[p].capacity then (w, Refused(9))
      else if HasEdge(w, p, caller) then (w, InParty(p))
      else if exists m :: m in w.groups[p].active && Blocked(w, caller, m) then (w, Refused(7))
      else if Shared(Memberships(w, caller, {p})) then (w, Refused(6))
      else
        var w1 := AddActive(w, p, caller);
        var w2 := Disband(w1, Solo(Memberships(w1, caller, {p})));
        (ClearReady(w2, p, {}), InParty(p))
  }

  // A client leave with afterLeaveGroupHook. Declining an invite is the same call.
  function Leave(w: World, caller: UserId, p: PartyId): (World, Outcome) {
    if !HasEdge(w, p, caller) then (w, Refused(5))
    else
      var w1 := Note(RemoveEdge(w, p, caller), Exited(p, caller));
      var w2 := AutoTransfer(DeleteReady(w1, p, {caller}), p, caller);
      (EndIfEmpty(w2, p), Done)
  }

  // The first target the kick guard turns away, if any.
  function KickRefusal(w: World, p: PartyId, targets: seq<UserId>): (status: nat)
    requires p in w.groups
  {
    if targets == [] then 0
    else if targets[0] == Leader(w, p) then 7
    else if !Listed(w.groups[p], targets[0]) then 5
    else KickRefusal(w, p, targets[1..])
  }

  // beforeKickGroupUsersHook, the removal, afterKickGroupUsersHook.
  function Kick(w: World, caller: UserId, p: PartyId, targets: seq<UserId>): (World, Outcome) {
    if p !in w.groups then (w, Refused(5))
    else if caller == "" || caller != Leader(w, p) then (w, Refused(7))
    else
      var refusal := KickRefusal(w, p, targets);
      if refusal != 0 then (w, Refused(refusal))
      else
        var w1 := AutoTransfers(RemoveEdges(w, p, targets), p, targets);
        (EndIfEmpty(DeleteReady(w1, p, set u | u in targets), p), Done)
  }

  function Transfer(w: World, caller: UserId, p: PartyId, target: UserId): (World, Outcome) {
    if p == "" || target == "" || target == caller then (w, Refused(3))
    else if p !in w.groups then (w, Refused(5))
    else if Leader(w, p) != caller then (w, Refused(7))
    else if caller !in w.groups[p].active then (w, Refused(7))
    else if target !in w.groups[p].active then (w, Refused(3))
    else (w.(leaders := w.leaders[p := target]), Done)
  }

  function DisbandByLeader(w: World, caller: UserId, p: PartyId): (World, Outcome) {
    if p == "" then (w, Refused(3))
    else if p !in w.groups then (w, Refused(5))
    else if Leader(w, p) != caller then (w, Refused(7))
    else (Disband(w, {p}), Done)
  }

  // One group's share of leaveAllGroups: a party the player created is deleted
  // with its settings rows, any other is left as a client leave would.
  function ExitForDeletion(w: World, u: UserId, p: PartyId): World {
    if p !in w.groups then w
    else
      var w1 := Note(RemoveEdge(w, p, u), AccountLeft(p, u));
      if w.groups[p].creator == u then
        w1.(groups := w1.groups - {p},
            leaders := w1.leaders - {p},
            settings := (set s | s in w1.settings && s.0 != p),
            codes := DropOwner(w1.codes, p))
      else EndIfEmpty(AutoTransfer(ClearReady(w1, p, {u}), p, u), p)
  }

  function ExitEach(w: World, u: UserId, listed: seq<PartyId>): World {
    if listed == [] then w
    else ExitForDeletion(ExitEach(w, u, listed[..|listed| - 1]), u, listed[|listed| - 1])
  }

  // The prefix of a membership listing that the page cap lets through.
  function FirstPages(listed: seq<PartyId>): seq<PartyId> {
    if |listed| <= MEMBERSHIP_PAGES_LIMIT then listed else listed[..MEMBERSHIP_PAGES_LIMIT]
  }

  function DeleteAccount(w: World, u: UserId, listed: seq<PartyId>): (World, Outcome) {
    (ExitEach(w, u, FirstPages(listed)), Done)
  }

  function SetReady(w: World, caller: UserId, p: PartyId, ready: bool): (World, Outcome) {
    if p == "" then (w, Refused(3))
    else if p !in w.groups then (w, Refused(5))
    else if caller !in w.groups[p].active then
      (w, Refused(if caller in w.groups[p].pending then 9 else 7))
    else if ready then (Note(w.(ready := w.ready + {(p, caller)}), Readied(p, caller)), Done)
    else (Note(w.(ready := w.ready - {(p, caller)}), Unreadied(p, caller)), Done)
  }

  // party_start_matchmaking: any active member, once everyone is ready, at most
  // one live attempt per party; a start spends the readiness.
  function StartMatchmaking(w: World, caller: UserId, p: PartyId, now: int): (World, Outcome) {
    if p == "" then (w, Refused(3))
    else if p !in w.groups then (w, Refused(5))
    else if caller !in w.groups[p].active then (w, Refused(7))
    else if !AllReady(w, p) then (w, Refused(9))
    else
      var live := PruneStarts(w.starts, now);
      if p in live then (w.(starts := live, clock := now), Refused(8))
      else
        var w1 := w.(starts := live[p := now], clock := now);
        (Note(ClearReady(w1, p, {}), Started(p, now)), Done)
  }

  function AbortMatchmaking(w: World, caller: UserId, p: PartyId): (World, Outcome) {
    if p == "" then (w, Refused(3))
    else if p !in w.groups then (w, Refused(5))
    else if caller !in w.groups[p].active then (w, Refused(7))
    else (Note(w.(starts := w.starts - {p}), Aborted(p)), Done)
  }

  function GetInviteCode(w: World, caller: UserId, p: PartyId, draws: seq<Code>, fault: Fault): (World, Outcome) {
    if p == "" then (w, Refused(3))
    else if p !in w.groups then (w, Refused(5))
    else if caller !in w.groups[p].active then
      (w, Refused(if caller in w.groups[p].pending then 9 else 7))
    else
      var (codes, issued) := Issue(w.codes, p, draws, fault);
      var w1 := w.(codes := codes);
      if issued.Issued? then (Note(w1, HandedOut(p, issued.code)), WithCode(issued.code))
      else if LeavesHalf(w.codes, p, draws, fault) then (Note(w1, HalfIssued(p)), Refused(13))
      else (w1, Refused(13))
  }

  function SetSetting(w: World, caller: UserId, p: PartyId, setting: Setting): (World, Outcome) {
    if p == "" then (w, Refused(3))
    else if p !in w.groups then (w, Refused(5))
    else if Leader(w, p) != caller then (w, Refused(7))
    else (w.(settings := w.settings + {(p, setting)}), Done)
  }

  datatype Op =
    | OpCreate(caller: UserId, p: PartyId, capacity: nat)
    | OpInvite(caller: UserId, p: PartyId, target: UserId)
    | OpRawAdd(caller: UserId, p: PartyId, targets: seq<UserId>)
    | OpJoin(caller: UserId, p: PartyId)
    | OpJoinByCode(caller: UserId, typed: string)
    | OpLeave(caller: UserId, p: PartyId)
    | OpKick(caller: UserId, p: PartyId, targets: seq<UserId>)
    | OpTransfer(caller: UserId, p: PartyId, target: UserId)
    | OpDisband(caller: UserId, p: PartyId)
    | OpDeleteAccount(caller: UserId, listed: seq<PartyId>)
    | OpSetReady(caller: UserId, p: PartyId, ready: bool)
    | OpStart(caller: UserId, p: PartyId, now: int)
    | OpAbort(caller: UserId, p: PartyId)
    | OpGetCode(caller: UserId, p: PartyId, draws: seq<Code>, fault: Fault)
    | OpSetSetting(caller: UserId, p: PartyId, setting: Setting)
    | OpBlock(caller: UserId, target: UserId, blocked: bool)

  function Step(w: World, op: Op): (World, Outcome) {
    match op
    case OpCreate(u, p, capacity) => Create(w, u, p, capacity)
    case OpInvite(u, p, t) => Invite(w, u, p, t)
    case OpRawAdd(u, p, ts) => RawAdd(w, u, p, ts)
    case OpJoin(u, p) => Join(w, u, p)
    case OpJoinByCode(u, typed) => JoinByCode(w, u, typed)
    case OpLeave(u, p) => Leave(w, u, p)
    case OpKick(u, p, ts) => Kick(w, u, p, ts)
    case OpTransfer(u, p, t) => Transfer(w, u, p, t)
    case OpDisband(u, p) => DisbandByLeader(w, u, p)
    case OpDeleteAccount(u, listed) => DeleteAccount(w, u, listed)
    case OpSetReady(u, p, r) => SetReady(w, u, p, r)
    case OpStart(u, p, now) => StartMatchmaking(w, u, p, now)
    case OpAbort(u, p) => AbortMatchmaking(w, u, p)
    case OpGetCode(u, p, draws, fault) => GetInviteCode(w, u, p, draws, fault)
    case OpSetSetting(u, p, s) => SetSetting(w, u, p, s)
    case OpBlock(u, t, b) => (w.(blocks := if b then w.blocks + {(u, t)} else w.blocks - {(u, t)}), Done)
  }

  // What the environment guarantees of one call: the clock never runs back, a
  // membership listing names each of the user's groups once, groups that are not
  // parties among them, and drawn codes are well formed.
  ghost predicate Enabled(w: World, op: Op) {
    match op
    case OpStart(_, _, now) => w.clock <= now
    case OpDeleteAccount(u, listed) =>
      && (forall i, j :: 0 <= i < j < |listed| ==> listed[i] != listed[j])
      && (forall p :: HasEdge(w, p, u) ==> p in listed)
      && (forall p :: p in listed && p in w.groups ==> HasEdge(w, p, u))
    case OpGetCode(_, _, draws, _) =>
      |draws| == MAX_ATTEMPTS && forall d :: d in draws ==> WellFormedCode(d)
    case _ => true
  }

  ghost predicate EnabledRun(w: World, ops: seq<Op>)
    decreases |ops|
  {
    ops == [] || (Enabled(w, ops[0]) && EnabledRun(Step(w, ops[0]).0, ops[1..]))
  }

  function Run(w: World, ops: seq<Op>): World
    decreases |ops|
  {
    if ops == [] then w else Run(Step(w, ops[0]).0, ops[1..])
  }
}
