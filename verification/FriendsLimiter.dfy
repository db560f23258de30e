// The shared per-caller limiter: ten calls in any sixty seconds.
module FriendsLimits {
  import opened Windows

  const WINDOW: int := 60_000_000_000
  const LIMIT: nat := 10
  const MAX_PENDING: nat := 50

  // The rule on the full history of accepted calls.
  predicate Fits(accepted: seq<Call>, user: string, now: int) {
    user == "" || Count(accepted, user, now - WINDOW, now) < LIMIT
  }

  // The accepted calls of a run judged against the full history.
  function Accepted(calls: seq<Call>): seq<Call> {
    if calls == [] then []
    else
      var before, last := Accepted(calls[..|calls| - 1]), calls[|calls| - 1];
      if last.user != "" && Fits(before, last.user, last.at) then before + [last] else before
  }

  ghost predicate ClockForward(calls: seq<Call>) {
    forall i, j :: 0 <= i < j < |calls| ==> calls[i].at <= calls[j].at
  }

  lemma {:induction false} AcceptedInOrder(calls: seq<Call>, latest: int)
    requires ClockForward(calls) && (calls != [] ==> calls[|calls| - 1].at <= latest)
    ensures InOrder(Accepted(calls), latest)
  {
    if calls != [] {
      var front := calls[..|calls| - 1];
      AcceptedInOrder(front, calls[|calls| - 1].at);
    }
  }

  // No closed sixty seconds of any run hold more than ten accepted calls of one
  // caller.
  lemma {:induction false} NoBurst(calls: seq<Call>, user: string, start: int)
    requires ClockForward(calls)
    ensures Count(Accepted(calls), user, start, start + 60_000_000_000) <= 10
    decreases |calls|
  {
    if calls != [] {
      var front, last := calls[..|calls| - 1], calls[|calls| - 1];
      AcceptedInOrder(front, last.at);
      NoBurst(front, user, start);
      if last.user != "" && Fits(Accepted(front), last.user, last.at) {
        WindowAfterAccept(Accepted(front), last, user, WINDOW, LIMIT, start);
      }
    }
  }

  lemma AcceptedStep(calls: seq<Call>, c: Call)
    ensures Accepted(calls + [c]) ==
            if c.user != "" && Fits(Accepted(calls), c.user, c.at) then Accepted(calls) + [c] else Accepted(calls)
  {
    assert (calls + [c])[..|calls|] == calls;
  }

  class FriendsLimiter {
    var windows: map<string, seq<int>>
    // Every call so far, and the time of the last one.
    ghost var calls: seq<Call>
    ghost var latest: int

    ghost predicate Valid()
      reads this
    {
      && ClockForward(calls)
      && (calls != [] ==> calls[|calls| - 1].at <= latest)
      && forall u :: Keeps(Accepted(calls), u, latest)
    }

    ghost predicate Keeps(accepted: seq<Call>, u: string, latest: int)
      reads this`windows
    {
      KeptSince(if u in windows then windows[u] else [], Stamps(accepted, u), latest - WINDOW)
    }

    constructor (start: int)
      ensures Valid() && calls == [] && latest == start
    {
      windows, calls, latest := map[], [], start;
    }

    // Decides as the full history would, though it keeps only pruned stamps.
    method AllowFriendCodeCall(user: string, now: int) returns (allowed: bool)
      requires Valid() && latest <= now
      modifies this
      ensures Valid() && latest == now
      ensures calls == old(calls) + [Call(user, now)]
      ensures allowed <==> user == "" || Count(Accepted(old(calls)), user, now - 60_000_000_000, now) < 10
    {
      hide KeptSince;
      hide Stamps;
      hide Pruned;
      hide Count;
      hide Accepted;
      hide InOrder;
      ghost var before := Accepted(calls);
      AcceptedInOrder(calls, latest);
      forall u ensures Keeps(before, u, now) {
        assert Keeps(before, u, latest);
        KeptLater(if u in windows then windows[u] else [], Stamps(before, u), latest - WINDOW, now - WINDOW);
      }
      ghost var c := Call(user, now);
      AcceptedStep(calls, c);
      calls := calls + [c];
      latest := now;
      if user == "" {
        return true;
      }
      var cutoff := now - WINDOW;
      var stamps := if user in windows then windows[user] else [];
      assert old(Keeps(before, user, latest));
      KeptDecides(before, user, stamps, old(latest), WINDOW, now);
      var pruneTo := 0;
      while pruneTo < |stamps| && stamps[pruneTo] < cutoff
        invariant pruneTo <= |stamps|
        invariant forall i :: 0 <= i < pruneTo ==> stamps[i] < cutoff
      {
        pruneTo := pruneTo + 1;
      }
      PrunedFrom(stamps, cutoff, pruneTo);
      stamps := stamps[pruneTo..];
      if |stamps| >= LIMIT {
        windows := windows[user := stamps];
        assert forall u :: u != user ==> old(Keeps(before, u, now)) == Keeps(before, u, now);
        return false;
      }
      windows := windows[user := stamps + [now]];
      forall u ensures Keeps(before + [c], u, now) {
        StampsAppend(before, c, u);
        assert u != user ==> old(Keeps(before, u, now)) == Keeps(before, u, now);
      }
      return true;
    }

    // Adds that create a new outgoing request: every username, and each id that
    // has not already invited the caller.
    method NewFriendRequestCount(ids: seq<string>, usernames: seq<string>, incoming: set<string>) returns (count: nat)
      ensures count == |usernames| + |NewIds(ids, incoming)|
    {
      count := |usernames|;
      for i := 0 to |ids|
        invariant count == |usernames| + |NewIds(ids[..i], incoming)|
      {
        assert ids[..i + 1][..i] == ids[..i];
        if ids[i] !in incoming {
          count := count + 1;
        }
      }
      assert ids[..|ids|] == ids;
    }

    // The add-friends hook. An accept-only request is exempt from the rate limit
    // and the pending cap alike; anything else is judged by both, and one turned
    // away by the cap has still used its place in the window.
    method CheckAddFriends(user: string, ids: seq<string>, usernames: seq<string>,
                           listing: Listing, pending: Tally, now: int) returns (status: nat)
      requires Valid() && latest <= now
      modifies this
      ensures Valid()
      ensures var asked := ids != [];
              var incoming := if asked && listing.Listed? then listing.users else {};
              var added := |usernames| + |NewIds(ids, incoming)|;
              if asked && listing.Failed? then status == 13 && calls == old(calls)
              else if added == 0 then status == 0 && calls == old(calls)
              else
                && calls == old(calls) + [Call(user, now)]
                && status == (if user != "" && Count(Accepted(old(calls)), user, now - 60_000_000_000, now) >= 10 then 8
                              else if pending.Unread? then 13
                              else if pending.count + added > 50 then 9
                              else 0)
    {
      var incoming := {};
      if ids != [] {
        if listing.Failed? {
          return 13;
        }
        incoming := listing.users;
      }
      var added := NewFriendRequestCount(ids, usernames, incoming);
      if added == 0 {
        return 0;
      }
      var allowed := AllowFriendCodeCall(user, now);
      if !allowed {
        return 8;
      }
      if pending.Unread? {
        return 13;
      }
      return if pending.count + added > MAX_PENDING then 9 else 0;
    }
  }

  // What the friend listings come back with.
  datatype Listing = Listed(users: set<string>) | Failed
  datatype Tally = Counted(count: nat) | Unread

  function NewIds(ids: seq<string>, incoming: set<string>): seq<string> {
    if ids == [] then []
    else NewIds(ids[..|ids| - 1], incoming) + (if ids[|ids| - 1] in incoming then [] else [ids[|ids| - 1]])
  }

  // Accepting every pending invitation at once is always allowed and always free.
  lemma {:induction false} AcceptsAreNoNewRequests(ids: seq<string>, incoming: set<string>)
    ensures NewIds(ids, incoming) == [] <==> forall id :: id in ids ==> id in incoming
  {
    if ids != [] {
      AcceptsAreNoNewRequests(ids[..|ids| - 1], incoming);
      assert ids == ids[..|ids| - 1] + [ids[|ids| - 1]];
    }
  }
}
