// The table of allocations in flight: which one a user's cancel reaches.
module Inflight {
  import opened Basics

  // One matched set's allocation, by its start order.
  type Handle = nat

  // The table, the allocations still running, those cancelled, and every matched set
  // in the order their allocations started.
  datatype World =
    World(table: map<string, Handle>, running: set<Handle>, cancelled: set<Handle>, starts: seq<seq<string>>)

  const IDLE := World(map[], {}, {}, [])

  function Register(table: map<string, Handle>, users: seq<string>, h: Handle): map<string, Handle> {
    if users == [] then table
    else
      var n := |users| - 1;
      var before := Register(table, users[..n], h);
      if users[n] == "" then before else before[users[n] := h]
  }

  // Compare and delete: only an entry that is still this allocation's goes.
  function Deregister(table: map<string, Handle>, users: seq<string>, h: Handle): map<string, Handle> {
    if users == [] then table
    else
      var n := |users| - 1;
      var before := Deregister(table, users[..n], h);
      if users[n] != "" && users[n] in before && before[users[n]] == h then before - {users[n]} else before
  }

  datatype Step = Start(users: seq<string>) | Finish(h: Handle) | Cancel(user: string)

  function Apply(w: World, s: Step): World {
    match s
    case Start(users) =>
      var h := |w.starts|;
      World(Register(w.table, users, h), w.running + {h}, w.cancelled, w.starts + [users])
    case Finish(h) =>
      if h in w.running && h < |w.starts| then
        w.(table := Deregister(w.table, w.starts[h], h), running := w.running - {h})
      else w
    case Cancel(user) => if user in w.table then w.(cancelled := w.cancelled + {w.table[user]}) else w
  }

  function Run(steps: seq<Step>): World {
    if steps == [] then IDLE else Apply(Run(steps[..|steps| - 1]), steps[|steps| - 1])
  }

  lemma {:induction false} RegisterIs(table: map<string, Handle>, users: seq<string>, h: Handle)
    ensures var after := Register(table, users, h);
            && (forall u :: u in after <==> u in table || (u in users && u != ""))
            && (forall u :: u in after ==> after[u] == if u in users && u != "" then h else table[u])
  {
    if users != [] {
      RegisterIs(table, users[..|users| - 1], h);
      assert users == users[..|users| - 1] + [users[|users| - 1]];
    }
  }

  lemma {:induction false} DeregisterIs(table: map<string, Handle>, users: seq<string>, h: Handle)
    ensures var after := Deregister(table, users, h);
            && (forall u :: u in after <==> u in table && !(u in users && u != "" && table[u] == h))
            && (forall u :: u in after ==> after[u] == table[u])
  {
    if users != [] {
      DeregisterIs(table, users[..|users| - 1], h);
      assert users == users[..|users| - 1] + [users[|users| - 1]];
    }
  }

  // The newest of all allocations ever started with this user.
  function LatestStart(starts: seq<seq<string>>, user: string): (h: Option<Handle>)
    ensures h.None? ==> forall g :: 0 <= g < |starts| ==> user !in starts[g]
    ensures h.Some? ==> h.value < |starts| && user in starts[h.value]
    ensures h.Some? ==> forall g :: h.value < g < |starts| ==> user !in starts[g]
  {
    if starts == [] then None
    else
      var n := |starts| - 1;
      if user in starts[n] then Some(n) else LatestStart(starts[..n], user)
  }

  // A user's entry is there exactly while their newest allocation runs, and points at it.
  ghost predicate Inv(w: World) {
    && (forall h :: h in w.running ==> h < |w.starts|)
    && (forall u :: u in w.table <==>
          u != "" && LatestStart(w.starts, u).Some? && LatestStart(w.starts, u).value in w.running)
    && (forall u :: u in w.table ==> w.table[u] == LatestStart(w.starts, u).value)
  }

  lemma StepKeepsInv(w: World, s: Step)
    requires Inv(w)
    ensures Inv(Apply(w, s))
  {
    match s
    case Start(users) =>
      RegisterIs(w.table, users, |w.starts|);
      assert (w.starts + [users])[..|w.starts|] == w.starts;
    case Finish(h) =>
      if h in w.running {
        DeregisterIs(w.table, w.starts[h], h);
      }
    case Cancel(_) =>
  }

  lemma {:induction false} RunKeepsInv(steps: seq<Step>)
    ensures Inv(Run(steps))
  {
    if steps != [] {
      RunKeepsInv(steps[..|steps| - 1]);
      StepKeepsInv(Run(steps[..|steps| - 1]), steps[|steps| - 1]);
    }
  }

  // After any run a cancel signals an allocation if and only if the newest one its user
  // was ever matched into still runs; it then signals that one and no other.
  lemma CancelReachesExactlyTheNewest(steps: seq<Step>, user: string)
    ensures var w := Run(steps);
            var after, newest := Apply(w, Cancel(user)), LatestStart(w.starts, user);
            && (user in w.table <==> user != "" && newest.Some? && newest.value in w.running)
            && after == if user in w.table then w.(cancelled := w.cancelled + {newest.value}) else w
  {
    RunKeepsInv(steps);
  }

  ghost predicate RunsIn(w: World, user: string, h: Handle) {
    h in w.running && h < |w.starts| && user in w.starts[h]
  }

  // So a cancel is lost on a user who is still being matched if and only if the newest
  // of their allocations is over and an older one is not.
  lemma CancelIsLostExactlyWhen(steps: seq<Step>, user: string)
    requires user != ""
    ensures var w := Run(steps);
            (Apply(w, Cancel(user)) == w && user !in w.table && exists h :: RunsIn(w, user, h)) <==>
            (exists h, newest ::
               RunsIn(w, user, h) && LatestStart(w.starts, user) == Some(newest) && newest !in w.running)
  {
    RunKeepsInv(steps);
  }

  // One such run: the user is matched twice, and the newer match is over first.
  lemma NewerFinishesFirst()
    ensures var w := Run([Start(["u"])] + [Start(["u"])] + [Finish(1)]);
            RunsIn(w, "u", 0) && "u" !in w.table && Apply(w, Cancel("u")) == w
  {
    var one := [Start(["u"])];
    var two := one + one;
    assert one[..0] == [] && two[..1] == one && (two + [Finish(1)])[..2] == two;
    assert Run(two).starts == [["u"]] + [["u"]] && 0 in Run(two).running;
    RunKeepsInv(two + [Finish(1)]);
    assert LatestStart([["u"]] + [["u"]], "u") == Some(1);
  }

  // An older match of the same users that finishes late leaves the newer entry be.
  lemma LateFinishKeepsTheNewer(steps: seq<Step>, users: seq<string>, h: Handle, user: string)
    requires h in Run(steps).running && user in users && user != ""
    ensures var newer := |Run(steps).starts|;
            var after := Apply(Apply(Run(steps), Start(users)), Finish(h));
            user in after.table && after.table[user] == newer && newer != h
  {
    RunKeepsInv(steps);
    var w := Run(steps);
    RegisterIs(w.table, users, |w.starts|);
    DeregisterIs(Register(w.table, users, |w.starts|), w.starts[h], h);
  }

  class InflightTable {
    var inflightByUserID: map<string, Handle>
    var cancelled: set<Handle>
    var started: nat
    ghost var running: set<Handle>
    ghost var starts: seq<seq<string>>

    ghost function State(): World
      reads this
    {
      World(inflightByUserID, running, cancelled, starts)
    }

    // The next handle is the number of allocations started so far.
    ghost predicate Valid()
      reads this
    {
      started == |starts|
    }

    constructor ()
      ensures Valid() && State() == IDLE
    {
      inflightByUserID, cancelled, started, running, starts := map[], {}, 0, {}, [];
    }

    method RegisterInflight(users: seq<string>) returns (h: Handle)
      requires Valid()
      modifies this
      ensures Valid() && State() == Apply(old(State()), Start(users)) && h == |old(starts)|
    {
      h := started;
      ghost var before := inflightByUserID;
      for i := 0 to |users|
        invariant inflightByUserID == Register(before, users[..i], h)
        invariant cancelled == old(cancelled) && started == h && running == old(running) && starts == old(starts)
      {
        assert users[..i + 1][..i] == users[..i];
        if users[i] == "" {
          continue;
        }
        inflightByUserID := inflightByUserID[users[i] := h];
      }
      assert users[..|users|] == users;
      started, running, starts := started + 1, running + {h}, starts + [users];
    }

    method DeregisterInflight(users: seq<string>, h: Handle)
      requires Valid() && h in running && h < |starts| && starts[h] == users
      modifies this
      ensures Valid() && State() == Apply(old(State()), Finish(h))
    {
      ghost var before := inflightByUserID;
      for i := 0 to |users|
        invariant inflightByUserID == Deregister(before, users[..i], h)
        invariant cancelled == old(cancelled) && started == old(started)
                    && running == old(running) && starts == old(starts)
      {
        assert users[..i + 1][..i] == users[..i];
        if users[i] == "" {
          continue;
        }
        if users[i] in inflightByUserID && inflightByUserID[users[i]] == h {
          inflightByUserID := inflightByUserID - {users[i]};
        }
      }
      assert users[..|users|] == users;
      running := running - {h};
    }

    method CancelInflightForUser(user: string) returns (triggered: bool)
      modifies this`cancelled
      ensures State() == Apply(old(State()), Cancel(user))
      ensures triggered <==> user in old(inflightByUserID)
    {
      if user !in inflightByUserID {
        return false;
      }
      cancelled := cancelled + {inflightByUserID[user]};
      return true;
    }
  }
}
