// One read of a public leaderboard: paging through the records, keeping the players
// that may be listed, and ranking them.
module BoardListing {
  import opened Basics
  import CodeTable

  const PAGE_SIZE: nat := 100
  const MAX_PAGES: nat := 5
  const MAX_LISTED: nat := 100
  const PROBE_PREFIX: string := "probe-"
  const ANONYMIZED_NAME: string := "[deleted]"

  datatype SpawnName = SpawnName(nameIndex: nat, adjListId: nat, adjIndex: nat)

  datatype Record = Record(owner: string, score: int, subscore: int, spawn: Option<SpawnName>)

  datatype Account = Account(disabled: bool, username: string, displayName: string)

  // The accounts that exist and the users queued for deletion.
  datatype Players = Players(accounts: map<string, Account>, pending: set<string>)

  datatype Candidate = Candidate(owner: string, name: string, spawn: Option<SpawnName>, score: int, subscore: int)

  function Lower(s: string): (r: string)
    ensures |r| == |s|
  {
    seq(|s|, i requires 0 <= i < |s| => if 'A' <= s[i] <= 'Z' then (s[i] as int + 32) as char else s[i])
  }

  // The user name begins with probe- in any mixture of cases.
  predicate IsProbeName(name: string) {
    |name| >= 6 && forall i :: 0 <= i < 6 ==> name[i] == "probe-"[i] || name[i] == "PROBE-"[i]
  }

  lemma ProbeInAnyCase(name: string)
    ensures PROBE_PREFIX <= Lower(name) <==> IsProbeName(name)
  {
    if |name| >= 6 {
      forall i | 0 <= i < 6
        ensures Lower(name)[i] == PROBE_PREFIX[i] <==> name[i] == "probe-"[i] || name[i] == "PROBE-"[i]
      {
      }
      assert PROBE_PREFIX <= Lower(name) <==> forall i :: 0 <= i < 6 ==> Lower(name)[i] == PROBE_PREFIX[i];
    }
  }

  // The name to list an account under, unless it may not be listed at all.
  function PublicDisplayName(p: Players, owner: string, spawn: Option<SpawnName>): Option<string> {
    if owner !in p.accounts || owner in p.pending then None
    else if p.accounts[owner].disabled then None
    else if PROBE_PREFIX <= Lower(p.accounts[owner].username) then None
    else
      var name := CodeTable.Trim(p.accounts[owner].displayName);
      if name == "" || name == ANONYMIZED_NAME then (if spawn.Some? then Some("") else None) else Some(name)
  }

  function Listable(p: Players, record: Record): seq<Candidate> {
    match PublicDisplayName(p, record.owner, record.spawn)
    case None => []
    case Some(name) => [Candidate(record.owner, name, record.spawn, record.score, record.subscore)]
  }

  // Every record that may be listed, in board order.
  function AllListable(p: Players, records: seq<Record>): seq<Candidate> {
    if records == [] then [] else Listable(p, records[0]) + AllListable(p, records[1..])
  }

  lemma {:induction false} AllListableConcat(p: Players, a: seq<Record>, b: seq<Record>)
    ensures AllListable(p, a + b) == AllListable(p, a) + AllListable(p, b)
  {
    hide Listable;
    if a == [] {
      assert a + b == b;
    } else {
      AllListableConcat(p, a[1..], b);
      assert (a + b)[1..] == a[1..] + b && (a + b)[0] == a[0];
      var head := Listable(p, a[0]);
      assert head + (AllListable(p, a[1..]) + AllListable(p, b)) == (head + AllListable(p, a[1..])) + AllListable(p, b);
    }
  }

  lemma {:induction false} HiddenPlayersAreNeverListed(p: Players, records: seq<Record>, c: Candidate)
    requires c in AllListable(p, records)
    ensures c.owner in p.accounts && c.owner !in p.pending && !p.accounts[c.owner].disabled
    ensures !IsProbeName(p.accounts[c.owner].username)
    ensures c.name != ANONYMIZED_NAME && (c.name == "" ==> c.spawn.Some?)
    ensures exists r :: r in records && r.owner == c.owner && r.score == c.score && r.subscore == c.subscore
  {
    hide CodeTable.Trim, Lower, IsProbeName;
    if c in Listable(p, records[0]) {
      ProbeInAnyCase(p.accounts[c.owner].username);
      assert records[0] in records;
    } else {
      HiddenPlayersAreNeverListed(p, records[1..], c);
      var r :| r in records[1..] && r.owner == c.owner && r.score == c.score && r.subscore == c.subscore;
      assert r in records;
    }
  }

  // ----- Reading the pages -----

  // The candidates one read ends with, or nothing when a page it needs fails.
  function ReadPages(p: Players, rest: seq<Record>, listed: seq<Candidate>, page: nat, fails: nat -> bool)
    : Option<seq<Candidate>>
    decreases MAX_PAGES - page
  {
    if page >= MAX_PAGES || |listed| >= MAX_LISTED then Some(listed[..Min(|listed|, MAX_LISTED)])
    else if fails(page) then None
    else
      var n := Min(PAGE_SIZE, |rest|);
      var kept := listed + AllListable(p, rest[..n]);
      if n == |rest| then Some(kept[..Min(|kept|, MAX_LISTED)])
      else ReadPages(p, rest[n..], kept, page + 1, fails)
  }

  function FirstListed(all: seq<Candidate>): seq<Candidate> { all[..Min(|all|, MAX_LISTED)] }

  // The simple specification: the first hundred listable records of the first five hundred.
  function TopListed(p: Players, board: seq<Record>): seq<Candidate> {
    FirstListed(AllListable(p, board[..Min(|board|, MAX_PAGES * PAGE_SIZE)]))
  }

  // Reading ahead or stopping early makes no difference to the first hundred.
  lemma {:induction false} PagesAreInvisible(p: Players, rest: seq<Record>, listed: seq<Candidate>, page: nat,
                                             fails: nat -> bool)
    requires page <= MAX_PAGES
    ensures var reach := rest[..Min(|rest|, (MAX_PAGES - page) * PAGE_SIZE)];
            var r := ReadPages(p, rest, listed, page, fails);
            r.Some? ==> r.value == FirstListed(listed + AllListable(p, reach))
    decreases MAX_PAGES - page
  {
    hide AllListable;
    var reach := rest[..Min(|rest|, (MAX_PAGES - page) * PAGE_SIZE)];
    if page >= MAX_PAGES {
      assert reach == [];
      EmptyLists(p);
      assert listed + [] == listed;
    } else if |listed| < MAX_LISTED && !fails(page) {
      var n := Min(PAGE_SIZE, |rest|);
      var front, back := rest[..n], reach[n..];
      assert reach == front + back;
      AllListableConcat(p, front, back);
      var kept := listed + AllListable(p, front);
      assert listed + AllListable(p, reach) == kept + AllListable(p, back);
      if n == |rest| {
        assert back == [];
        EmptyLists(p);
        assert kept + [] == kept;
      } else {
        PagesAreInvisible(p, rest[n..], kept, page + 1, fails);
        assert rest[n..][..Min(|rest[n..]|, (MAX_PAGES - page - 1) * PAGE_SIZE)] == back;
      }
    }
  }

  lemma EmptyLists(p: Players)
    ensures AllListable(p, []) == []
  {
  }

  // The page is listed at all, and the pages before it hold fewer than a hundred listable
  // records.
  ghost predicate IsNeeded(p: Players, board: seq<Record>, page: nat) {
    (page == 0 || 100 * page < |board|) && |AllListable(p, board[..Min(|board|, 100 * page)])| < 100
  }

  // A read fails if and only if a page it needs does, and else it is the simple
  // specification's answer.
  lemma ReadIsTopListed(p: Players, board: seq<Record>, fails: nat -> bool)
    ensures var read := ReadPages(p, board, [], 0, fails);
            && (read.Some? ==> read.value == TopListed(p, board))
            && (read.None? <==> exists page: nat :: page < 5 && IsNeeded(p, board, page) && fails(page))
  {
    PagesAreInvisible(p, board, [], 0, fails);
    var all := AllListable(p, board[..Min(|board|, MAX_PAGES * PAGE_SIZE)]);
    assert [] + all == all;
    assert board[0..] == board && board[..0] == [];
    EmptyLists(p);
    ReadFailsExactlyWhen(p, board, 0, fails);
  }

  lemma {:induction false} ReadFailsExactlyWhen(p: Players, board: seq<Record>, page: nat, fails: nat -> bool)
    requires page <= 5 && (page == 0 || 100 * page < |board|)
    ensures ReadPages(p, board[100 * page..], AllListable(p, board[..100 * page]), page, fails).None? <==>
            exists k: nat :: page <= k < 5 && IsNeeded(p, board, k) && fails(k)
    decreases 5 - page
  {
    hide AllListable;
    var rest, listed := board[100 * page..], AllListable(p, board[..100 * page]);
    if page < 5 {
      if |listed| >= 100 {
        forall k: nat | page <= k < 5 ensures !IsNeeded(p, board, k) {
          ListableGrows(p, board, 100 * page, Min(|board|, 100 * k));
        }
      } else if fails(page) {
        assert IsNeeded(p, board, page);
      } else if |rest| > 100 {
        var next := 100 * (page + 1);
        assert board[..next] == board[..100 * page] + rest[..100] && rest[100..] == board[next..];
        AllListableConcat(p, board[..100 * page], rest[..100]);
        ReadFailsExactlyWhen(p, board, page + 1, fails);
      }
    }
  }

  lemma ListableGrows(p: Players, board: seq<Record>, m: nat, n: nat)
    requires m <= |board| && n <= |board|
    ensures m <= n ==> |AllListable(p, board[..m])| <= |AllListable(p, board[..n])|
  {
    if m <= n {
      assert board[..n] == board[..m] + board[m..n];
      AllListableConcat(p, board[..m], board[m..n]);
    }
  }

  // ----- Who is on the board -----

  // The account exists, is neither disabled nor queued for deletion nor a probe's,
  // and has a name to show, its own or the record's spawn name.
  predicate MayBeListed(p: Players, r: Record) {
    && r.owner in p.accounts && r.owner !in p.pending && !p.accounts[r.owner].disabled
    && !IsProbeName(p.accounts[r.owner].username)
    && (r.spawn.Some? || ShownName(p, r) != "")
  }

  // The display name without its outer spaces, or nothing for a player who has none or
  // whose name was anonymized: the client shows the spawn name instead.
  function ShownName(p: Players, r: Record): string
    requires r.owner in p.accounts
  {
    var name := CodeTable.Trim(p.accounts[r.owner].displayName);
    if name == ANONYMIZED_NAME then "" else name
  }

  function CandidateOf(p: Players, r: Record): Candidate
    requires r.owner in p.accounts
  {
    Candidate(r.owner, ShownName(p, r), r.spawn, r.score, r.subscore)
  }

  lemma ListableIs(p: Players, r: Record)
    ensures Listable(p, r) == if MayBeListed(p, r) then [CandidateOf(p, r)] else []
  {
    hide CodeTable.Trim, Lower, IsProbeName;
    if r.owner in p.accounts {
      ProbeInAnyCase(p.accounts[r.owner].username);
    }
  }

  // How many of the first i records may be listed.
  function ListableBefore(p: Players, records: seq<Record>, i: nat): nat
    requires i <= |records|
  {
    if i == 0 then 0 else ListableBefore(p, records, i - 1) + (if MayBeListed(p, records[i - 1]) then 1 else 0)
  }

  // What one more record adds to the listing.
  lemma OneMoreRecord(p: Players, records: seq<Record>, i: nat)
    requires i < |records|
    ensures AllListable(p, records[..i + 1]) ==
            AllListable(p, records[..i]) + if MayBeListed(p, records[i]) then [CandidateOf(p, records[i])] else []
  {
    hide Listable, MayBeListed;
    ListableIs(p, records[i]);
    assert records[..i + 1] == records[..i] + [records[i]] && [records[i]][1..] == [];
    AllListableConcat(p, records[..i], [records[i]]);
    EmptyLists(p);
    assert Listable(p, records[i]) + [] == Listable(p, records[i]);
    assert AllListable(p, [records[i]]) == Listable(p, records[i]);
  }

  lemma {:induction false} ListableCounts(p: Players, records: seq<Record>, i: nat)
    requires i <= |records|
    ensures |AllListable(p, records[..i])| == ListableBefore(p, records, i)
  {
    hide AllListable, MayBeListed;
    if i == 0 {
      EmptyLists(p);
    } else {
      ListableCounts(p, records, i - 1);
      OneMoreRecord(p, records, i - 1);
    }
  }

  // The record i places the candidate k on the listing.
  predicate Places(p: Players, records: seq<Record>, i: nat, k: nat, c: Candidate)
    requires i < |records|
  {
    MayBeListed(p, records[i]) && ListableBefore(p, records, i) == k && c == CandidateOf(p, records[i])
  }

  // Each place on the listing is some listable record's.
  lemma {:induction false} PlaceHasRecord(p: Players, records: seq<Record>, m: nat, k: nat) returns (i: nat)
    requires m <= |records| && k < |AllListable(p, records[..m])|
    ensures i < m && Places(p, records, i, k, AllListable(p, records[..m])[k])
  {
    hide AllListable, MayBeListed, CandidateOf;
    EmptyLists(p);
    assert records[..0] == [];
    OneMoreRecord(p, records, m - 1);
    ListableCounts(p, records, m - 1);
    if k < |AllListable(p, records[..m - 1])| {
      i := PlaceHasRecord(p, records, m - 1, k);
    } else {
      i := m - 1;
    }
  }

  // Each listable record has the place that the listable ones before it leave it.
  lemma {:induction false} RecordHasPlace(p: Players, records: seq<Record>, m: nat, i: nat)
    requires i < m <= |records| && MayBeListed(p, records[i])
    ensures var k, all := ListableBefore(p, records, i), AllListable(p, records[..m]);
            k < |all| && all[k] == CandidateOf(p, records[i])
  {
    hide AllListable, MayBeListed, CandidateOf;
    OneMoreRecord(p, records, m - 1);
    ListableCounts(p, records, m - 1);
    if i < m - 1 {
      RecordHasPlace(p, records, m - 1, i);
    }
  }

  // A candidate is on a board's list exactly when it is the result of one of the first
  // five hundred records, that record's owner may be listed, and fewer than a hundred
  // listable records come before it; it then shows the owner's trimmed name.
  lemma ListedExactlyWhen(p: Players, board: seq<Record>, c: Candidate)
    ensures c in TopListed(p, board) <==>
            exists i, k ::
              0 <= i < Min(|board|, 500) && 0 <= k < 100 && Places(p, board, i, k, c)
  {
    hide AllListable, MayBeListed, CandidateOf, ListableBefore;
    var m := Min(|board|, MAX_PAGES * PAGE_SIZE);
    var all, top := AllListable(p, board[..m]), TopListed(p, board);
    if c in top {
      var k :| 0 <= k < |top| && top[k] == c;
      var i := PlaceHasRecord(p, board, m, k);
      assert Places(p, board, i, k, c);
    }
    if i, k :| 0 <= i < m && 0 <= k < MAX_LISTED && Places(p, board, i, k, c) {
      RecordHasPlace(p, board, m, i);
      assert top[k] == c;
    }
  }

  // ----- Ranking -----

  predicate SameResult(a: Candidate, b: Candidate) { a.score == b.score && a.subscore == b.subscore }

  // One result beats another on a board of this order, subscores breaking ties.
  predicate Beats(descending: bool, score: int, subscore: int, otherScore: int, otherSubscore: int) {
    if score != otherScore then (if descending then score > otherScore else score < otherScore)
    else if descending then subscore > otherSubscore
    else subscore < otherSubscore
  }

  predicate Better(descending: bool, a: Candidate, b: Candidate) {
    Beats(descending, a.score, a.subscore, b.score, b.subscore)
  }

  // The higher score is better on a board of best scores, the lower one on a board of best
  // times; the subscore decides between equal scores.
  lemma BetterMeans(a: Candidate, b: Candidate)
    ensures Better(true, a, b) <==> a.score > b.score || (a.score == b.score && a.subscore > b.subscore)
    ensures Better(false, a, b) <==> Better(true, b, a)
  {
  }

  ghost predicate InBoardOrder(descending: bool, listed: seq<Candidate>) {
    forall i, j :: 0 <= i < j < |listed| ==> !Better(descending, listed[j], listed[i])
  }

  function Ranks(listed: seq<Candidate>): (ranks: seq<int>)
    ensures |ranks| == |listed|
  {
    if listed == [] then []
    else
      var i := |listed| - 1;
      var front := Ranks(listed[..i]);
      front + [if i > 0 && SameResult(listed[i], listed[i - 1]) then front[i - 1] else i + 1]
  }

  function CountBetter(descending: bool, listed: seq<Candidate>, c: Candidate): nat {
    if listed == [] then 0
    else CountBetter(descending, listed[..|listed| - 1], c)
         + (if Better(descending, listed[|listed| - 1], c) then 1 else 0)
  }

  lemma {:induction false} RanksOfPrefix(listed: seq<Candidate>, k: nat)
    requires k <= |listed|
    ensures Ranks(listed[..k]) == Ranks(listed)[..k]
  {
    if k < |listed| {
      RanksOfPrefix(listed[..|listed| - 1], k);
      assert listed[..|listed| - 1][..k] == listed[..k];
    } else {
      assert listed[..k] == listed && Ranks(listed)[..k] == Ranks(listed);
    }
  }

  // A rank is one more than the index where its run of equal results begins.
  lemma {:induction false} RankStartsItsRun(listed: seq<Candidate>, i: nat)
    requires i < |listed|
    ensures var first := Ranks(listed)[i] - 1;
            && 0 <= first <= i
            && (forall k :: first <= k <= i ==> SameResult(listed[k], listed[i]))
            && (first > 0 ==> !SameResult(listed[first - 1], listed[i]))
  {
    RanksOfPrefix(listed, i + 1);
    assert Ranks(listed)[i] == Ranks(listed[..i + 1])[i];
    assert listed[..i + 1][..i] == listed[..i];
    if i > 0 && SameResult(listed[i], listed[i - 1]) {
      RankStartsItsRun(listed, i - 1);
      RanksOfPrefix(listed, i);
      assert Ranks(listed)[i] == Ranks(listed)[i - 1];
    }
  }

  lemma {:induction false} CountBetterIs(descending: bool, listed: seq<Candidate>, c: Candidate, first: nat)
    requires first <= |listed|
    requires forall k :: 0 <= k < first ==> Better(descending, listed[k], c)
    requires forall k :: first <= k < |listed| ==> !Better(descending, listed[k], c)
    ensures CountBetter(descending, listed, c) == first
  {
    if listed != [] {
      CountBetterIs(descending, listed[..|listed| - 1], c, Min(first, |listed| - 1));
    }
  }

  // On a sorted board each rank is one more than the number of players strictly
  // ahead, so equal results share a rank and the next takes its own position.
  lemma RankCountsTheBetter(descending: bool, listed: seq<Candidate>, i: nat)
    requires InBoardOrder(descending, listed) && i < |listed|
    ensures Ranks(listed)[i] == 1 + CountBetter(descending, listed, listed[i])
  {
    RankStartsItsRun(listed, i);
    var first := Ranks(listed)[i] - 1;
    forall k | 0 <= k < first ensures Better(descending, listed[k], listed[i]) {
      assert !Better(descending, listed[i], listed[k]) && !Better(descending, listed[i], listed[first - 1]);
      assert k < first - 1 ==> !Better(descending, listed[first - 1], listed[k]);
    }
    CountBetterIs(descending, listed, listed[i], first);
  }

  predicate AheadOf(descending: bool, a: Record, b: Record) {
    Beats(descending, a.score, a.subscore, b.score, b.subscore)
  }

  ghost predicate SortedBoard(descending: bool, board: seq<Record>) {
    forall i, j :: 0 <= i < j < |board| ==> !AheadOf(descending, board[j], board[i])
  }

  lemma {:induction false} NoneListedAhead(descending: bool, p: Players, first: Record, rest: seq<Record>)
    requires forall k :: 0 <= k < |rest| ==> !AheadOf(descending, rest[k], first)
    ensures forall c: Candidate, k :: 0 <= k < |AllListable(p, rest)| && c in Listable(p, first) ==>
              !Better(descending, AllListable(p, rest)[k], c)
  {
    hide PublicDisplayName;
    if rest != [] {
      NoneListedAhead(descending, p, first, rest[1..]);
    }
  }

  // A board in its own order lists its players in that order.
  lemma {:induction false} ListingKeepsBoardOrder(descending: bool, p: Players, board: seq<Record>)
    requires SortedBoard(descending, board)
    ensures InBoardOrder(descending, AllListable(p, board))
  {
    hide Better, AheadOf, PublicDisplayName;
    if board != [] {
      ListingKeepsBoardOrder(descending, p, board[1..]);
      NoneListedAhead(descending, p, board[0], board[1..]);
      var head, tail := Listable(p, board[0]), AllListable(p, board[1..]);
      var all := head + tail;
      forall i, j | 0 <= i < j < |all| ensures !Better(descending, all[j], all[i]) {
        if i < |head| {
          assert all[i] in head && all[j] == tail[j - |head|];
        } else {
          assert all[i] == tail[i - |head|] && all[j] == tail[j - |head|];
        }
      }
    }
  }

  lemma TopListedInOrder(descending: bool, p: Players, board: seq<Record>)
    requires SortedBoard(descending, board)
    ensures InBoardOrder(descending, TopListed(p, board))
  {
    hide Better, AheadOf, AllListable;
    ListingKeepsBoardOrder(descending, p, board[..Min(|board|, MAX_PAGES * PAGE_SIZE)]);
  }

  // ----- The snapshot -----

  datatype Entry = Entry(rank: int, name: string, score: int, spawn: Option<SpawnName>)

  function Entries(listed: seq<Candidate>): (entries: seq<Entry>)
    ensures |entries| == |listed|
  {
    seq(|listed|, i requires 0 <= i < |listed| =>
      Entry(Ranks(listed)[i], listed[i].name, listed[i].score, listed[i].spawn))
  }

  datatype Snapshot = Snapshot(entries: seq<Entry>, ranks: map<string, int>)

  // The ranks map holds, for each listed player, the rank of their last entry.
  function RankMap(listed: seq<Candidate>, n: nat): map<string, int>
    requires n <= |listed|
  {
    if n == 0 then map[] else RankMap(listed, n - 1)[listed[n - 1].owner := Ranks(listed)[n - 1]]
  }

  function SnapshotOf(listed: seq<Candidate>): Snapshot {
    Snapshot(Entries(listed), RankMap(listed, |listed|))
  }

  lemma {:induction false} RankMapAgrees(listed: seq<Candidate>, n: nat, owner: string)
    requires n <= |listed|
    ensures owner in RankMap(listed, n) <==> exists i :: 0 <= i < n && listed[i].owner == owner
    ensures owner in RankMap(listed, n) ==>
              exists i :: 0 <= i < n && listed[i].owner == owner && RankMap(listed, n)[owner] == Ranks(listed)[i]
                          && forall k :: i < k < n ==> listed[k].owner != owner
  {
    if n > 0 {
      RankMapAgrees(listed, n - 1, owner);
      if listed[n - 1].owner != owner && owner in RankMap(listed, n - 1) {
        var i :| 0 <= i < n - 1 && listed[i].owner == owner && RankMap(listed, n - 1)[owner] == Ranks(listed)[i]
                 && forall k :: i < k < n - 1 ==> listed[k].owner != owner;
        assert RankMap(listed, n)[owner] == Ranks(listed)[i];
      }
    }
  }

  function RankOf(snapshot: Option<Snapshot>, owner: string): Option<int> {
    if snapshot.None? || owner !in snapshot.value.ranks then None else Some(snapshot.value.ranks[owner])
  }

  // A player has a rank exactly when they are among the listed, and it is the rank
  // the public listing shows for them: one more than the players strictly ahead.
  lemma RankOfAgreesWithTheListing(descending: bool, p: Players, board: seq<Record>, owner: string)
    requires SortedBoard(descending, board)
    ensures var listed := TopListed(p, board);
            var rank := RankOf(Some(SnapshotOf(listed)), owner);
            && (rank.Some? <==> exists i :: 0 <= i < |listed| && listed[i].owner == owner)
            && (rank.Some? ==>
                  exists i :: 0 <= i < |listed| && listed[i].owner == owner
                              && rank.value == Entries(listed)[i].rank
                                  == 1 + CountBetter(descending, listed, listed[i]))
  {
    hide TopListed, CountBetter, InBoardOrder, Ranks;
    var listed := TopListed(p, board);
    TopListedInOrder(descending, p, board);
    RankMapAgrees(listed, |listed|, owner);
    forall i | 0 <= i < |listed| ensures Ranks(listed)[i] == 1 + CountBetter(descending, listed, listed[i]) {
      RankCountsTheBetter(descending, listed, i);
    }
    if owner in RankMap(listed, |listed|) {
      var i :| 0 <= i < |listed| && listed[i].owner == owner && RankMap(listed, |listed|)[owner] == Ranks(listed)[i]
               && forall k :: i < k < |listed| ==> listed[k].owner != owner;
      assert Entries(listed)[i].rank == Ranks(listed)[i];
    }
  }

  // A response's entries: the snapshot's, cut to the request's limit.
  function Response(snapshot: Snapshot, limit: nat): seq<Entry> {
    if |snapshot.entries| > limit then snapshot.entries[..limit] else snapshot.entries
  }

  // Cutting to a limit and ranking what is left are the same thing.
  lemma LimitCommutesWithRanking(listed: seq<Candidate>, limit: nat)
    ensures Response(SnapshotOf(listed), limit) == Entries(listed[..Min(|listed|, limit)])
  {
    var k := Min(|listed|, limit);
    RanksOfPrefix(listed, k);
    forall i | 0 <= i < k ensures Entries(listed)[i] == Entries(listed[..k])[i] {
    }
  }

  // ----- The loops -----

  method ListablePublicRecords(p: Players, records: seq<Record>) returns (kept: seq<Candidate>)
    ensures kept == AllListable(p, records)
  {
    hide PublicDisplayName, AllListable;
    kept := [];
    EmptyLists(p);
    for i := 0 to |records|
      invariant kept == AllListable(p, records[..i])
    {
      assert records[..i + 1] == records[..i] + [records[i]];
      AllListableConcat(p, records[..i], [records[i]]);
      OneListed(p, records[i]);
      var name := PublicDisplayName(p, records[i].owner, records[i].spawn);
      if name.None? {
        assert kept + [] == kept;
        continue;
      }
      kept := kept + [Candidate(records[i].owner, name.value, records[i].spawn, records[i].score, records[i].subscore)];
    }
    assert records[..|records|] == records;
  }

  lemma OneListed(p: Players, record: Record)
    ensures AllListable(p, [record]) == Listable(p, record)
  {
    hide Listable;
    assert [record][1..] == [];
    assert Listable(p, record) + [] == Listable(p, record);
  }

  method RankPublicLeaderboard(listed: seq<Candidate>) returns (entries: seq<Entry>)
    ensures entries == Entries(listed)
  {
    entries := [];
    for i := 0 to |listed|
      invariant |entries| == i
      invariant forall k :: 0 <= k < i ==>
                  entries[k] == Entry(Ranks(listed)[k], listed[k].name, listed[k].score, listed[k].spawn)
    {
      var rank := i + 1;
      RanksOfPrefix(listed, i + 1);
      RanksOfPrefix(listed, i);
      assert listed[..i + 1][..i] == listed[..i];
      assert Ranks(listed)[i] == Ranks(listed[..i + 1])[i];
      if i > 0 && listed[i].score == listed[i - 1].score && listed[i].subscore == listed[i - 1].subscore {
        rank := entries[i - 1].rank;
      }
      entries := entries + [Entry(rank, listed[i].name, listed[i].score, listed[i].spawn)];
    }
  }

  method ReadPublicLeaderboard(p: Players, board: seq<Record>, fails: nat -> bool) returns (snapshot: Option<Snapshot>)
    ensures var listed := ReadPages(p, board, [], 0, fails);
            snapshot == if listed.None? then None else Some(SnapshotOf(listed.value))
  {
    hide AllListable;
    var listed := [];
    var rest, page := board, 0;
    var more := true;
    while more && page < MAX_PAGES && |listed| < MAX_LISTED
      invariant page <= MAX_PAGES
      invariant more ==> ReadPages(p, board, [], 0, fails) == ReadPages(p, rest, listed, page, fails)
      invariant !more ==> ReadPages(p, board, [], 0, fails) == Some(FirstListed(listed))
      decreases MAX_PAGES - page, more
    {
      if fails(page) {
        return None;
      }
      var n := Min(PAGE_SIZE, |rest|);
      var kept := ListablePublicRecords(p, rest[..n]);
      listed := listed + kept;
      if n == |rest| {
        more := false;
      } else {
        rest, page := rest[n..], page + 1;
      }
    }
    assert listed[..|listed|] == listed;
    if |listed| > MAX_LISTED {
      listed := listed[..MAX_LISTED];
    }
    assert ReadPages(p, board, [], 0, fails) == Some(listed);
    var read := RankedSnapshot(listed);
    return Some(read);
  }

  method RankedSnapshot(listed: seq<Candidate>) returns (snapshot: Snapshot)
    ensures snapshot == SnapshotOf(listed)
  {
    var entries := RankPublicLeaderboard(listed);
    var ranks := map[];
    for i := 0 to |listed|
      invariant ranks == RankMap(listed, i)
    {
      ranks := ranks[listed[i].owner := entries[i].rank];
    }
    return Snapshot(entries, ranks);
  }
}
