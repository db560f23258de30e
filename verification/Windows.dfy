// Sliding windows over a log of calls: what a limiter that keeps only pruned
// stamps has to agree with.
module Windows {
  datatype Call = Call(user: string, at: int)

  // The times of one user's calls, oldest first.
  function Stamps(log: seq<Call>, user: string): (s: seq<int>)
    ensures |s| <= |log|
  {
    if log == [] then []
    else
      var last := log[|log| - 1];
      Stamps(log[..|log| - 1], user) + (if last.user == user then [last.at] else [])
  }

  // How many of the user's calls fall in the closed interval.
  function Count(log: seq<Call>, user: string, lo: int, hi: int): nat {
    if log == [] then 0
    else
      var last := log[|log| - 1];
      Count(log[..|log| - 1], user, lo, hi) + (if last.user == user && lo <= last.at <= hi then 1 else 0)
  }

  ghost predicate Sorted(s: seq<int>) {
    forall i, j :: 0 <= i < j < |s| ==> s[i] <= s[j]
  }

  ghost predicate InOrder(log: seq<Call>, latest: int) {
    && (forall i, j :: 0 <= i < j < |log| ==> log[i].at <= log[j].at)
    && (forall i :: 0 <= i < |log| ==> log[i].at <= latest)
  }

  // Drops the leading stamps older than the cutoff.
  function Pruned(s: seq<int>, cutoff: int): seq<int> {
    if s == [] || s[0] >= cutoff then s else Pruned(s[1..], cutoff)
  }

  lemma {:induction false} PrunedShape(s: seq<int>, cutoff: int)
    ensures var r := Pruned(s, cutoff);
            && |r| <= |s| && r == s[|s| - |r|..]
            && (forall i :: 0 <= i < |s| - |r| ==> s[i] < cutoff)
            && (r != [] ==> r[0] >= cutoff)
  {
    if s != [] && s[0] < cutoff {
      PrunedShape(s[1..], cutoff);
    }
  }

  // What a limiter keeps for a user: the end of their stamps, everything before
  // it older than the bound.
  ghost predicate KeptSince(kept: seq<int>, all: seq<int>, bound: int) {
    && |kept| <= |all|
    && kept == all[|all| - |kept|..]
    && forall i :: 0 <= i < |all| - |kept| ==> all[i] < bound
  }

  lemma {:induction false} StampsInOrder(log: seq<Call>, user: string, latest: int)
    requires InOrder(log, latest)
    ensures Sorted(Stamps(log, user))
    ensures forall i :: 0 <= i < |Stamps(log, user)| ==> Stamps(log, user)[i] <= latest
  {
    if log != [] {
      var front, last := log[..|log| - 1], log[|log| - 1];
      StampsInOrder(front, user, last.at);
    }
  }

  lemma PrunedFrom(s: seq<int>, cutoff: int, k: nat)
    requires k <= |s| && (forall i :: 0 <= i < k ==> s[i] < cutoff)
    requires k < |s| ==> s[k] >= cutoff
    ensures Pruned(s, cutoff) == s[k..]
  {
    PrunedShape(s, cutoff);
    var j := |s| - |Pruned(s, cutoff)|;
    assert j < |s| ==> Pruned(s, cutoff)[0] == s[j];
  }

  lemma PrunedAppend(s: seq<int>, x: int, cutoff: int)
    ensures Pruned(s, cutoff) != [] || x >= cutoff ==> Pruned(s + [x], cutoff) == Pruned(s, cutoff) + [x]
    ensures Pruned(s, cutoff) == [] && x < cutoff ==> Pruned(s + [x], cutoff) == []
  {
    PrunedShape(s, cutoff);
    var r := Pruned(s, cutoff);
    if r != [] || x >= cutoff {
      PrunedFrom(s + [x], cutoff, |s| - |r|);
    } else {
      PrunedFrom(s + [x], cutoff, |s| + 1);
    }
  }

  // Counting from the cutoff on a log that ends by now is pruning and measuring.
  lemma {:induction false} CountIsPrunedLength(log: seq<Call>, user: string, cutoff: int, now: int)
    requires InOrder(log, now)
    ensures Count(log, user, cutoff, now) == |Pruned(Stamps(log, user), cutoff)|
  {
    hide Pruned;
    if log == [] {
      PrunedFrom([], cutoff, 0);
    } else {
      var front, last := log[..|log| - 1], log[|log| - 1];
      CountIsPrunedLength(front, user, cutoff, now);
      StampsInOrder(front, user, last.at);
      PrunedGrows(Stamps(front, user), last.at, cutoff);
    }
  }

  lemma PrunedGrows(s: seq<int>, x: int, cutoff: int)
    requires forall i :: 0 <= i < |s| ==> s[i] <= x
    ensures |Pruned(s + [x], cutoff)| == |Pruned(s, cutoff)| + (if x >= cutoff then 1 else 0)
    ensures Pruned(s + [], cutoff) == Pruned(s, cutoff)
  {
    PrunedShape(s, cutoff);
    var r := Pruned(s, cutoff);
    assert r != [] ==> r[0] == s[|s| - |r|];
    PrunedAppend(s, x, cutoff);
    assert s + [] == s;
  }

  // Pruning what was kept is pruning the full history.
  lemma PrunedOfKept(kept: seq<int>, all: seq<int>, bound: int, cutoff: int)
    requires KeptSince(kept, all, bound) && bound <= cutoff
    ensures Pruned(kept, cutoff) == Pruned(all, cutoff)
    ensures KeptSince(Pruned(kept, cutoff), all, cutoff)
  {
    PrunedShape(kept, cutoff);
    var a := Pruned(kept, cutoff);
    forall i | 0 <= i < |all| - |a| ensures all[i] < cutoff {
      if i >= |all| - |kept| {
        assert all[i] == kept[i - (|all| - |kept|)];
      }
    }
    PrunedFrom(all, cutoff, |all| - |a|);
  }

  // What a limiter relies on at one call: from the kept stamps it gets the very
  // count the full history gives, and what it keeps next stays right.
  lemma KeptDecides(log: seq<Call>, user: string, kept: seq<int>, latest: int, width: int, now: int)
    requires InOrder(log, latest) && latest <= now && KeptSince(kept, Stamps(log, user), latest - width)
    ensures var r := Pruned(kept, now - width);
            && |r| == Count(log, user, now - width, now)
            && KeptSince(r, Stamps(log, user), now - width)
            && KeptSince(r + [now], Stamps(log + [Call(user, now)], user), now - width)
  {
    hide Pruned;
    hide KeptSince;
    hide Stamps;
    PrunedOfKept(kept, Stamps(log, user), latest - width, now - width);
    CountIsPrunedLength(log, user, now - width, now);
    KeptAppend(Pruned(kept, now - width), Stamps(log, user), now - width, now);
    StampsAppend(log, Call(user, now), user);
  }

  lemma StampsAppend(log: seq<Call>, c: Call, user: string)
    ensures Stamps(log + [c], user) == if c.user == user then Stamps(log, user) + [c.at] else Stamps(log, user)
  {
    assert (log + [c])[..|log|] == log;
  }

  lemma KeptLater(kept: seq<int>, all: seq<int>, bound: int, later: int)
    requires KeptSince(kept, all, bound) && bound <= later
    ensures KeptSince(kept, all, later)
  {
  }

  lemma KeptAppend(kept: seq<int>, all: seq<int>, bound: int, x: int)
    requires KeptSince(kept, all, bound)
    ensures KeptSince(kept + [x], all + [x], bound)
  {
  }

  lemma {:induction false} CountBoundedBy(log: seq<Call>, user: string, lo: int, hi: int, lo': int, hi': int)
    requires forall i :: 0 <= i < |log| && log[i].user == user && lo <= log[i].at <= hi ==> lo' <= log[i].at <= hi'
    ensures Count(log, user, lo, hi) <= Count(log, user, lo', hi')
  {
    if log != [] {
      CountBoundedBy(log[..|log| - 1], user, lo, hi, lo', hi');
    }
  }

  // A rule that never lets more than limit calls into the window behind each
  // accepted call never lets more than limit into any window at all.
  lemma WindowAfterAccept(log: seq<Call>, c: Call, user: string, width: int, limit: nat, start: int)
    requires InOrder(log, c.at) && width >= 0
    requires Count(log, c.user, c.at - width, c.at) < limit
    requires Count(log, user, start, start + width) <= limit
    ensures Count(log + [c], user, start, start + width) <= limit
  {
    assert (log + [c])[..|log|] == log;
    if c.user == user && start <= c.at <= start + width {
      CountBoundedBy(log, user, start, start + width, c.at - width, c.at);
    }
  }
}
