// Crash-report retention: the hourly prune over key-sorted, paged storage.
module CrashPrune {
  import opened Basics
  import opened CrashKeys

  const BATCH: nat := 100
  const MAX_PAGES: nat := 100
  const RETENTION: int := 30 * 86_400_000_000_000

  // How one page's storage calls end.
  datatype Reply = Fine | ListFails | DeleteFails

  predicate WellFormed(key: string) { KeyTime(key).Some? }

  predicate Expired(key: string, cutoff: int) {
    WellFormed(key) && KeyTime(key).value * 1000 < cutoff
  }

  ghost predicate Sorted(keys: seq<string>) {
    forall i, j :: 0 <= i < j < |keys| ==> Less(keys[i], keys[j])
  }

  // Every key with a readable time is one the runtime could have written.
  ghost predicate Written(keys: seq<string>) {
    forall i :: 0 <= i < |keys| && WellFormed(keys[i]) ==> Plain(keys[i])
  }

  function AllExpired(keys: seq<string>, cutoff: int): seq<string> {
    if keys == [] then []
    else (if Expired(keys[0], cutoff) then [keys[0]] else []) + AllExpired(keys[1..], cutoff)
  }

  function Readable(keys: seq<string>): seq<string> {
    if keys == [] then [] else (if WellFormed(keys[0]) then [keys[0]] else []) + Readable(keys[1..])
  }

  function LeftAfter(keys: seq<string>, gone: seq<string>): seq<string> {
    if keys == [] then [] else (if keys[0] in gone then [] else [keys[0]]) + LeftAfter(keys[1..], gone)
  }

  // One page's deletes, and whether it reached a report still retained.
  function ExpiredOf(page: seq<string>, cutoff: int): (seq<string>, bool) {
    if page == [] then ([], false)
    else if !WellFormed(page[0]) then ExpiredOf(page[1..], cutoff)
    else if !Expired(page[0], cutoff) then ([], true)
    else
      var rest := ExpiredOf(page[1..], cutoff);
      ([page[0]] + rest.0, rest.1)
  }

  // What the age pass deletes of the keys it has yet to list.
  function AgePass(rest: seq<string>, cutoff: int, page: nat, reply: nat -> Reply): seq<string>
    decreases MAX_PAGES - page
  {
    if page >= MAX_PAGES || reply(page).ListFails? then []
    else
      var n := Min(BATCH, |rest|);
      var (expired, reached) := ExpiredOf(rest[..n], cutoff);
      if expired != [] && reply(page).DeleteFails? then []
      else if reached || n == |rest| then expired
      else expired + AgePass(rest[n..], cutoff, page + 1, reply)
  }

  // What the cap pass deletes, asked for count keys in all.
  function CapPass(rest: seq<string>, count: int, page: nat, reply: nat -> Reply): seq<string>
    decreases MAX_PAGES - page
  {
    if page >= MAX_PAGES || count <= 0 || reply(page).ListFails? then []
    else
      var n := Min(Min(BATCH, count), |rest|);
      var doomed := Readable(rest[..n]);
      if doomed != [] && reply(page).DeleteFails? then []
      else if n == |rest| then doomed
      else doomed + CapPass(rest[n..], count - |doomed|, page + 1, reply)
  }

  ghost predicate AllFine(reply: nat -> Reply) {
    forall page :: reply(page) == Fine
  }

  // ----- What the passes delete -----

  lemma {:induction false} ExpiredOfConcat(a: seq<string>, b: seq<string>, cutoff: int)
    ensures var x, y := ExpiredOf(a, cutoff), ExpiredOf(b, cutoff);
            ExpiredOf(a + b, cutoff) == if x.1 then x else (x.0 + y.0, y.1)
  {
    hide Expired, WellFormed;
    if a == [] {
      assert a + b == b && [] + ExpiredOf(b, cutoff).0 == ExpiredOf(b, cutoff).0;
    } else {
      ExpiredOfConcat(a[1..], b, cutoff);
      assert (a + b)[1..] == a[1..] + b && (a + b)[0] == a[0];
      var x, y := ExpiredOf(a[1..], cutoff).0, ExpiredOf(b, cutoff).0;
      assert [a[0]] + (x + y) == ([a[0]] + x) + y;
    }
  }

  // With storage healthy, paging makes no difference: the age pass stops at the
  // first retained key among the ones the page budget reaches.
  lemma {:induction false} AgePassIgnoresPages(rest: seq<string>, cutoff: int, page: nat, reply: nat -> Reply)
    requires AllFine(reply) && page <= MAX_PAGES
    ensures AgePass(rest, cutoff, page, reply) ==
            ExpiredOf(rest[..Min(|rest|, (MAX_PAGES - page) * BATCH)], cutoff).0
    decreases MAX_PAGES - page
  {
    if page < MAX_PAGES {
      var n, reach := Min(BATCH, |rest|), Min(|rest|, (MAX_PAGES - page) * BATCH);
      var front, back := rest[..n], rest[n..reach];
      assert reply(page) == Fine;
      assert rest[..reach] == front + back;
      ExpiredOfConcat(front, back, cutoff);
      if n < |rest| {
        AgePassIgnoresPages(rest[n..], cutoff, page + 1, reply);
        assert rest[n..][..reach - n] == back;
      } else {
        assert back == [];
      }
    }
  }

  // No expired key comes after a readable key that is retained.
  ghost predicate RetainedAreLast(keys: seq<string>, cutoff: int) {
    forall i, j :: 0 <= i < j < |keys| && WellFormed(keys[i]) && !Expired(keys[i], cutoff) ==> !Expired(keys[j], cutoff)
  }

  // The keys the runtime writes sort by time, so they are so ordered for every cutoff.
  lemma WrittenAreInOrder(keys: seq<string>, cutoff: int)
    requires Sorted(keys) && Written(keys)
    ensures RetainedAreLast(keys, cutoff)
  {
    hide KeyTime, Less, Plain;
    forall i, j | 0 <= i < j < |keys| && WellFormed(keys[i]) && !Expired(keys[i], cutoff)
      ensures !Expired(keys[j], cutoff)
    {
      if WellFormed(keys[j]) {
        PlainKeysInOrder(keys[i], keys[j]);
      }
    }
  }

  lemma {:induction false} NoneExpired(keys: seq<string>, cutoff: int)
    ensures AllExpired(keys, cutoff) == [] <==> forall i :: 0 <= i < |keys| ==> !Expired(keys[i], cutoff)
  {
    hide Expired;
    if keys != [] {
      NoneExpired(keys[1..], cutoff);
      assert forall i :: 0 < i < |keys| ==> keys[i] == keys[1..][i - 1];
    }
  }

  // Stopping at the first retained key misses nothing if and only if no expired key
  // comes after a retained one.
  lemma {:induction false} StoppingMissesNothingExactlyWhen(keys: seq<string>, cutoff: int)
    ensures ExpiredOf(keys, cutoff).0 == AllExpired(keys, cutoff) <==> RetainedAreLast(keys, cutoff)
  {
    hide Expired, WellFormed;
    if keys != [] {
      var rest := keys[1..];
      StoppingMissesNothingExactlyWhen(rest, cutoff);
      NoneExpired(rest, cutoff);
      assert forall i :: 0 < i < |keys| ==> keys[i] == rest[i - 1];
      assert forall i :: 0 <= i < |rest| ==> rest[i] == keys[i + 1];
      RetainedHead(keys, cutoff);
      if Expired(keys[0], cutoff) {
        var x, y := ExpiredOf(rest, cutoff).0, AllExpired(rest, cutoff);
        assert ([keys[0]] + x)[1..] == x && ([keys[0]] + y)[1..] == y;
        ExpiredAreReadable(keys[0], cutoff);
      }
    }
  }

  lemma ExpiredAreReadable(key: string, cutoff: int)
    requires Expired(key, cutoff)
    ensures WellFormed(key)
  {
  }

  lemma RetainedHead(keys: seq<string>, cutoff: int)
    requires keys != []
    ensures RetainedAreLast(keys, cutoff) <==>
            if WellFormed(keys[0]) && !Expired(keys[0], cutoff) then
              forall i :: 0 <= i < |keys[1..]| ==> !Expired(keys[1..][i], cutoff)
            else RetainedAreLast(keys[1..], cutoff)
  {
    hide Expired, WellFormed;
    var rest := keys[1..];
    assert forall i :: 0 < i < |keys| ==> keys[i] == rest[i - 1];
    assert forall i :: 0 <= i < |rest| ==> rest[i] == keys[i + 1];
  }

  // A pass that meets a fault deletes only an opening part of what a healthy one does.
  lemma {:induction false} FaultsOnlyShorten(rest: seq<string>, cutoff: int, page: nat,
                                             reply: nat -> Reply, fine: nat -> Reply)
    requires AllFine(fine)
    ensures AgePass(rest, cutoff, page, reply) <= AgePass(rest, cutoff, page, fine)
    decreases MAX_PAGES - page
  {
    assert fine(page) == Fine;
    if page < MAX_PAGES {
      FaultsOnlyShorten(rest[Min(BATCH, |rest|)..], cutoff, page + 1, reply, fine);
    }
  }

  // On a healthy store the age pass deletes the well-formed keys older than the cutoff
  // among the first ten thousand, and nothing else, if and only if none of them comes
  // after a retained one; which is so whenever the readable keys are the runtime's own.
  lemma AgePassIsExact(keys: seq<string>, cutoff: int, reply: nat -> Reply)
    requires AllFine(reply)
    ensures var reached := keys[..Min(|keys|, 10_000)];
            && (AgePass(keys, cutoff, 0, reply) == AllExpired(reached, cutoff) <==> RetainedAreLast(reached, cutoff))
            && (Sorted(keys) && Written(keys) ==> RetainedAreLast(reached, cutoff))
  {
    var reached := keys[..Min(|keys|, MAX_PAGES * BATCH)];
    AgePassIgnoresPages(keys, cutoff, 0, reply);
    StoppingMissesNothingExactlyWhen(reached, cutoff);
    if Sorted(keys) && Written(keys) {
      assert Sorted(reached) && Written(reached);
      WrittenAreInOrder(reached, cutoff);
    }
  }

  lemma {:induction false} SamePrefixOrder(p: string, x: string, y: string)
    ensures Less(p + x, p + y) <==> Less(x, y)
  {
    if p == "" {
      assert p + x == x && p + y == y;
    } else {
      SamePrefixOrder(p[1..], x, y);
      assert (p + x)[1..] == p[1..] + x && (p + y)[1..] == p[1..] + y;
    }
  }

  // A comma for the point, which the parser takes too, changes no time.
  lemma CommaReadsTheSame(f: Fields)
    requires Valid(f)
    ensures |Stamp(f)| == STAMP_LENGTH && KeyTime(Stamp(f)[19 := ',']) == KeyTime(Stamp(f)) == Some(Micros(f))
  {
    hide Pad, Value, Stamp, Valid, Micros;
    StampLayout(f, "");
    StampReadsBack(f, "");
    assert Stamp(f) + "" == Stamp(f);
    var key, comma := Stamp(f), Stamp(f)[19 := ','];
    assert comma[..4] == key[..4] && comma[5..7] == key[5..7] && comma[8..10] == key[8..10];
    assert comma[11..13] == key[11..13] && comma[14..16] == key[14..16] && comma[17..19] == key[17..19];
    assert comma[20..26] == key[20..26];
  }

  lemma CommaSortsBefore(f: Fields, g: Fields)
    requires g == f.(micro := g.micro)
    ensures |Stamp(f)| == STAMP_LENGTH && Less(Stamp(f)[19 := ','], Stamp(g))
  {
    hide Pad;
    StampLayout(f, "");
    StampLayout(g, "");
    assert Stamp(f) + "" == Stamp(f) && Stamp(g) + "" == Stamp(g);
    var head, x, y := Stamp(f)[..19], "," + Stamp(f)[20..], Stamp(g)[19..];
    assert Stamp(f)[19 := ','] == head + x;
    assert Stamp(g) == head + y;
    SamePrefixOrder(head, x, y);
  }

  // A store ordered otherwise, which only a foreign key can make: a key with a comma
  // sorts before every key of its second, and once retained hides the expired ones.
  lemma CommaKeyHidesTheExpired(f: Fields, g: Fields, reply: nat -> Reply)
    requires AllFine(reply) && Valid(f) && Valid(g) && g == f.(micro := g.micro) && g.micro < f.micro
    ensures var keys, cutoff := [Stamp(f)[..19] + "," + Stamp(f)[20..]] + [Stamp(g)], Micros(f) * 1000;
            && |Stamp(f)| == STAMP_LENGTH
            && Sorted(keys) && AllExpired(keys, cutoff) == [Stamp(g)] && AgePass(keys, cutoff, 0, reply) == []
  {
    hide Stamp, Valid, KeyTime, Less;
    CommaSortsBefore(f, g);
    CommaReadsTheSame(f);
    CommaReadsTheSame(g);
    var comma, point, cutoff := Stamp(f)[19 := ','], Stamp(g), Micros(f) * 1000;
    assert Stamp(f)[..19] + "," + Stamp(f)[20..] == comma;
    assert Micros(g) < Micros(f);
    HiddenByTheFirst(comma, point, cutoff);
    AgePassIgnoresPages([comma] + [point], cutoff, 0, reply);
    assert ([comma] + [point])[..2] == [comma] + [point];
  }

  lemma HiddenByTheFirst(kept: string, expired: string, cutoff: int)
    requires WellFormed(kept) && !Expired(kept, cutoff) && Expired(expired, cutoff)
    ensures AllExpired([kept] + [expired], cutoff) == [expired] && ExpiredOf([kept] + [expired], cutoff).0 == []
  {
    hide Expired, WellFormed;
    assert ([kept] + [expired])[1..] == [expired] && [expired][1..] == [];
    assert AllExpired([expired], cutoff) == [expired];
  }

  lemma AgePassStep(rest: seq<string>, cutoff: int, page: nat, reply: nat -> Reply)
    requires page < MAX_PAGES
    ensures var n := Min(BATCH, |rest|);
            var (expired, reached) := ExpiredOf(rest[..n], cutoff);
            AgePass(rest, cutoff, page, reply) ==
            if reply(page).ListFails? || (expired != [] && reply(page).DeleteFails?) then []
            else if reached || n == |rest| then expired
            else expired + AgePass(rest[n..], cutoff, page + 1, reply)
  {
  }

  lemma CapPassStep(rest: seq<string>, count: int, page: nat, reply: nat -> Reply)
    requires page < MAX_PAGES && count > 0
    ensures var n := Min(Min(BATCH, count), |rest|);
            var doomed := Readable(rest[..n]);
            CapPass(rest, count, page, reply) ==
            if reply(page).ListFails? || (doomed != [] && reply(page).DeleteFails?) then []
            else if n == |rest| then doomed
            else doomed + CapPass(rest[n..], count - |doomed|, page + 1, reply)
  {
  }

  lemma PassesEnd(rest: seq<string>, cutoff: int, count: int, page: nat, reply: nat -> Reply)
    ensures page >= MAX_PAGES ==> AgePass(rest, cutoff, page, reply) == []
    ensures page >= MAX_PAGES || count <= 0 ==> CapPass(rest, count, page, reply) == []
  {
  }

  lemma {:induction false} ReadableConcat(a: seq<string>, b: seq<string>)
    ensures Readable(a + b) == Readable(a) + Readable(b)
  {
    hide WellFormed;
    if a == [] {
      assert a + b == b;
    } else {
      ReadableConcat(a[1..], b);
      assert (a + b)[1..] == a[1..] + b && (a + b)[0] == a[0];
      var head := if WellFormed(a[0]) then [a[0]] else [];
      assert head + (Readable(a[1..]) + Readable(b)) == (head + Readable(a[1..])) + Readable(b);
    }
  }

  lemma {:induction false} ReadableFew(keys: seq<string>)
    ensures |Readable(keys)| <= |keys|
  {
    if keys != [] {
      ReadableFew(keys[1..]);
    }
  }

  // The cap pass deletes the oldest readable keys, whatever faults it meets, and
  // never more of them than it was asked for.
  lemma {:induction false} CapPassNeverOvershoots(rest: seq<string>, count: int, page: nat, reply: nat -> Reply)
    ensures CapPass(rest, count, page, reply) <= Readable(rest)
    ensures |CapPass(rest, count, page, reply)| <= if count > 0 then count else 0
    decreases MAX_PAGES - page
  {
    hide Readable;
    if page < MAX_PAGES && count > 0 {
      var n := Min(Min(BATCH, count), |rest|);
      ReadableFew(rest[..n]);
      assert rest == rest[..n] + rest[n..];
      ReadableConcat(rest[..n], rest[n..]);
      CapPassNeverOvershoots(rest[n..], count - |Readable(rest[..n])|, page + 1, reply);
    }
  }

  // How many keys the pass lists in so many pages when none fails: each page is as long
  // as what is still to be deleted, up to a hundred.
  function Listed(rest: seq<string>, count: int, pages: nat): (n: nat)
    ensures n <= |rest|
  {
    if pages == 0 || count <= 0 then 0
    else
      var n := Min(Min(BATCH, count), |rest|);
      n + Listed(rest[n..], count - |Readable(rest[..n])|, pages - 1)
  }

  // On healthy storage it deletes the readable ones of the keys it lists.
  lemma {:induction false} CapPassDeletesTheListed(rest: seq<string>, count: int, page: nat, reply: nat -> Reply)
    requires AllFine(reply) && page <= MAX_PAGES
    ensures CapPass(rest, count, page, reply) == Readable(rest[..Listed(rest, count, MAX_PAGES - page)])
    decreases MAX_PAGES - page
  {
    hide Readable;
    if page >= MAX_PAGES || count <= 0 {
      assert Readable(rest[..0]) == [] by { ReadableFew(rest[..0]); }
    } else {
      var n := Min(Min(BATCH, count), |rest|);
      var back, left := rest[n..], count - |Readable(rest[..n])|;
      var more := Listed(back, left, MAX_PAGES - page - 1);
      assert reply(page) == Fine;
      assert rest[..n + more] == rest[..n] + back[..more];
      ReadableConcat(rest[..n], back[..more]);
      CapPassDeletesTheListed(back, left, page + 1, reply);
      if n == |rest| {
        assert back[..more] == [];
        ReadableFew(back[..more]);
        assert Readable(rest[..n]) + [] == Readable(rest[..n]);
      }
    }
  }

  // So it deletes exactly as many of the oldest readable keys as asked for, or all there
  // are, if and only if it lists that many: if its pages reach the last key needed.
  lemma CapPassIsExactlyWhen(rest: seq<string>, count: nat, reply: nat -> Reply, n: nat)
    requires AllFine(reply) && n <= |rest| && |Readable(rest[..n])| == Min(count, |Readable(rest)|)
    requires n > 0 ==> |Readable(rest[..n - 1])| < |Readable(rest[..n])|
    ensures CapPass(rest, count, 0, reply) == Readable(rest)[..Min(count, |Readable(rest)|)] <==>
            Listed(rest, count, 100) >= n
  {
    hide Readable, CapPass, Listed;
    var listed := Listed(rest, count, MAX_PAGES);
    CapPassDeletesTheListed(rest, count, 0, reply);
    CapPassNeverOvershoots(rest, count, 0, reply);
    if listed >= n {
      assert rest[..listed] == rest[..n] + rest[n..listed];
      ReadableConcat(rest[..n], rest[n..listed]);
    } else {
      assert rest[..n - 1] == rest[..listed] + rest[listed..n - 1];
      ReadableConcat(rest[..listed], rest[listed..n - 1]);
    }
  }

  // It deletes exactly that many of the oldest readable keys, or all there are, whenever
  // the page budget reaches the last one needed, the n-th key: a page is short of its
  // share only by the foreign keys it lists before that one.
  lemma {:induction false} CapPassWithinBudget(rest: seq<string>, count: nat, page: nat, reply: nat -> Reply, n: nat)
    requires AllFine(reply) && n <= |rest| && |Readable(rest[..n])| == Min(count, |Readable(rest)|)
    requires n - Min(count, |Readable(rest)|) + PagesFor(Min(count, |Readable(rest)|)) <= MAX_PAGES - page
    ensures CapPass(rest, count, page, reply) == Readable(rest)[..Min(count, |Readable(rest)|)]
    decreases MAX_PAGES - page
  {
    hide Readable, CapPass, PagesFor;
    var listed := Min(Min(BATCH, count), |rest|);
    var front, back := Readable(rest[..listed]), rest[listed..];
    CapPassNeverOvershoots(rest, count, page, reply);
    if Min(count, |Readable(rest)|) == 0 {
      assert Readable(rest)[..0] == [];
    } else {
      PageIsLeft(rest, n);
      assert reply(page) == Fine;
      CapPassStep(rest, count, page, reply);
      assert rest == rest[..listed] + back;
      ReadableConcat(rest[..listed], back);
      if n <= listed {
        LastPage(rest, count, n, listed);
        CapPassNeverOvershoots(back, count - |front|, page + 1, reply);
        assert front + [] == front;
      } else {
        MorePages(rest, count, n, listed);
        CapPassWithinBudget(back, count - |front|, page + 1, reply, n - listed);
      }
      TakeConcat(front, Readable(back), count);
    }
  }

  // The pages it takes to list this many keys, when all of them are wanted.
  function PagesFor(keys: nat): nat { (keys + BATCH - 1) / BATCH }

  lemma PageIsLeft(rest: seq<string>, n: nat)
    requires n <= |rest| && |Readable(rest[..n])| > 0
    ensures |Readable(rest[..n])| <= n && n - |Readable(rest[..n])| + PagesFor(|Readable(rest[..n])|) > 0
  {
    ReadableFew(rest[..n]);
  }

  // A page that goes as far as the last key needed holds them all.
  lemma LastPage(rest: seq<string>, count: nat, n: nat, listed: nat)
    requires n <= listed <= |rest| && listed <= count && |Readable(rest[..n])| == Min(count, |Readable(rest)|)
    ensures var front, back := Readable(rest[..listed]), Readable(rest[listed..]);
            |front| <= count && (|front| == count || back == [])
  {
    hide Readable;
    assert rest[..listed] == rest[..n] + rest[n..listed] && rest == rest[..listed] + rest[listed..];
    ReadableConcat(rest[..n], rest[n..listed]);
    ReadableConcat(rest[..listed], rest[listed..]);
    ReadableFew(rest[..listed]);
  }

  // A page that does not leaves the rest of them to the pages after it, one fewer.
  lemma MorePages(rest: seq<string>, count: nat, n: nat, listed: nat)
    requires listed < n <= |rest| && |Readable(rest[..n])| == Min(count, |Readable(rest)|) > 0
    requires listed == Min(BATCH, count)
    ensures var front, back := Readable(rest[..listed]), rest[listed..];
            var needed, left := Min(count, |Readable(rest)|), Min(count - |front|, |Readable(back)|);
            && |front| <= Min(listed, needed) && |Readable(back[..n - listed])| == left
            && n - listed - left + PagesFor(left) < n - needed + PagesFor(needed)
  {
    hide Readable, PagesFor;
    assert rest[..n] == rest[..listed] + rest[listed..n] && rest == rest[..listed] + rest[listed..];
    assert rest[listed..][..n - listed] == rest[listed..n];
    ReadableConcat(rest[..listed], rest[listed..n]);
    ReadableConcat(rest[..listed], rest[listed..]);
    ReadableFew(rest[..listed]);
    PagesShrink(count, Min(count, |Readable(rest)|), listed, |Readable(rest[..listed])|);
  }

  lemma PagesShrink(count: nat, needed: nat, listed: nat, doomed: nat)
    requires 0 < needed <= count && listed == Min(BATCH, count) && doomed <= listed && doomed <= needed
    ensures PagesFor(needed - doomed) < PagesFor(needed) + (listed - doomed)
  {
    if doomed == listed && BATCH <= count {
      assert (needed - BATCH + BATCH - 1) / BATCH == (needed + BATCH - 1) / BATCH - 1;
    }
  }

  lemma TakeConcat(a: seq<string>, b: seq<string>, count: nat)
    requires |a| <= count
    ensures (a + b)[..Min(count, |a + b|)] == a + b[..Min(count - |a|, |b|)]
  {
  }

  // ----- The store -----

  lemma {:induction false} LeftAfterConcat(a: seq<string>, b: seq<string>, gone: seq<string>)
    ensures LeftAfter(a + b, gone) == LeftAfter(a, gone) + LeftAfter(b, gone)
  {
    if a == [] {
      assert a + b == b;
    } else {
      LeftAfterConcat(a[1..], b, gone);
      assert (a + b)[1..] == a[1..] + b && (a + b)[0] == a[0];
      var head := if a[0] in gone then [] else [a[0]];
      assert head + (LeftAfter(a[1..], gone) + LeftAfter(b, gone)) ==
             (head + LeftAfter(a[1..], gone)) + LeftAfter(b, gone);
    }
  }

  lemma {:induction false} LeftAfterNone(keys: seq<string>, gone: seq<string>)
    requires forall k :: k in keys ==> k !in gone
    ensures LeftAfter(keys, gone) == keys
  {
    if keys != [] {
      assert keys[0] in keys && forall k :: k in keys[1..] ==> k in keys;
      LeftAfterNone(keys[1..], gone);
    }
  }

  lemma {:induction false} LeftAfterMembers(keys: seq<string>, gone: seq<string>)
    ensures forall k :: k in LeftAfter(keys, gone) <==> k in keys && k !in gone
  {
    if keys != [] {
      LeftAfterMembers(keys[1..], gone);
      assert keys == [keys[0]] + keys[1..];
    }
  }

  lemma {:induction false} LeftAfterTwice(keys: seq<string>, a: seq<string>, b: seq<string>)
    ensures LeftAfter(LeftAfter(keys, a), b) == LeftAfter(keys, a + b)
  {
    if keys != [] {
      LeftAfterTwice(keys[1..], a, b);
      LeftAfterConcat(if keys[0] in a then [] else [keys[0]], LeftAfter(keys[1..], a), b);
      assert keys[0] in a + b <==> keys[0] in a || keys[0] in b;
    }
  }

  // The keys after the cursor, in order.
  function After(keys: seq<string>, cursor: Option<string>): seq<string> {
    if keys == [] then []
    else if cursor.None? || Less(cursor.value, keys[0]) then keys
    else After(keys[1..], cursor)
  }

  lemma {:induction false} NotLess(a: string)
    ensures !Less(a, a)
  {
    if a != "" {
      NotLess(a[1..]);
    }
  }

  lemma {:induction false} LessOneWay(a: string, b: string)
    requires Less(a, b)
    ensures !Less(b, a)
  {
    if a != "" && a[0] == b[0] {
      LessOneWay(a[1..], b[1..]);
    }
  }

  lemma {:induction false} AfterSplit(kept: seq<string>, rest: seq<string>, cursor: Option<string>)
    requires cursor.None? ==> kept == []
    requires cursor.Some? ==> forall k :: k in kept ==> !Less(cursor.value, k)
    requires cursor.Some? && rest != [] ==> Less(cursor.value, rest[0])
    ensures After(kept + rest, cursor) == rest
  {
    if kept == [] {
      assert kept + rest == rest;
    } else {
      assert kept[0] in kept && forall k :: k in kept[1..] ==> k in kept;
      AfterSplit(kept[1..], rest, cursor);
      assert (kept + rest)[1..] == kept[1..] + rest;
    }
  }

  // Deleting keys already listed does not move the listing: after the last listed
  // key come just the keys not yet listed.
  lemma ListingGoesOn(done: seq<string>, rest: seq<string>, gone: seq<string>, cursor: Option<string>)
    requires Sorted(done + rest)
    requires forall k :: k in gone ==> k in done
    requires cursor == if done == [] then None else Some(done[|done| - 1])
    ensures After(LeftAfter(done + rest, gone), cursor) == rest
  {
    hide Less;
    var all := done + rest;
    LeftAfterConcat(done, rest, gone);
    forall k | k in rest ensures k !in gone {
      if k in done {
        var i :| 0 <= i < |done| && done[i] == k;
        var j :| 0 <= j < |rest| && rest[j] == k;
        assert Less(all[i], all[|done| + j]);
        NotLess(k);
      }
    }
    LeftAfterNone(rest, gone);
    LeftAfterMembers(done, gone);
    if cursor.Some? {
      var at := |done| - 1;
      forall k | k in LeftAfter(done, gone) ensures !Less(cursor.value, k) {
        var i :| 0 <= i < |done| && done[i] == k;
        if i < at {
          assert Less(all[i], all[at]);
          LessOneWay(k, cursor.value);
        } else {
          NotLess(k);
        }
      }
      if rest != [] {
        assert Less(all[at], all[|done|]);
      }
    }
    AfterSplit(LeftAfter(done, gone), rest, cursor);
  }

  lemma EmptyPage(cutoff: int)
    ensures ExpiredOf([], cutoff) == ([], false)
  {
  }

  lemma ExpiredOfOne(key: string, cutoff: int)
    ensures ExpiredOf([key], cutoff) ==
            if !WellFormed(key) then ([], false) else if Expired(key, cutoff) then ([key], false) else ([], true)
  {
    hide KeyTime;
    assert [key][1..] == [];
    EmptyPage(cutoff);
    assert [key] + [] == [key];
  }

  lemma {:induction false} ExpiredOfMembers(page: seq<string>, cutoff: int)
    ensures forall k :: k in ExpiredOf(page, cutoff).0 ==> k in page && Expired(k, cutoff)
  {
    if page != [] {
      ExpiredOfMembers(page[1..], cutoff);
      assert page == [page[0]] + page[1..];
    }
  }

  lemma {:induction false} ReadableMembers(keys: seq<string>)
    ensures forall k :: k in Readable(keys) ==> k in keys && WellFormed(k)
  {
    if keys != [] {
      ReadableMembers(keys[1..]);
      assert keys == [keys[0]] + keys[1..];
    }
  }

  lemma {:induction false} AgePassMembers(rest: seq<string>, cutoff: int, page: nat, reply: nat -> Reply)
    ensures forall k :: k in AgePass(rest, cutoff, page, reply) ==> k in rest && Expired(k, cutoff)
    decreases MAX_PAGES - page
  {
    hide Expired;
    if page < MAX_PAGES {
      var n := Min(BATCH, |rest|);
      ExpiredOfMembers(rest[..n], cutoff);
      AgePassMembers(rest[n..], cutoff, page + 1, reply);
    }
  }

  class CrashStore {
    var keys: seq<string>

    // One page of the collection in key order, and the cursor of the next.
    method List(limit: nat, cursor: Option<string>) returns (page: seq<string>, next: Option<string>)
      requires limit > 0
      ensures var rest := After(keys, cursor);
              && page == rest[..Min(limit, |rest|)]
              && next == if limit < |rest| then Some(rest[limit - 1]) else None
    {
      var rest := After(keys, cursor);
      page := rest[..Min(limit, |rest|)];
      next := if limit < |rest| then Some(rest[limit - 1]) else None;
    }

    method Delete(gone: seq<string>)
      modifies this
      ensures keys == LeftAfter(old(keys), gone)
    {
      keys := LeftAfter(keys, gone);
    }

    // Deletes for the page's keys older than the cutoff, up to the first retained one.
    method ExpiredCrashReports(page: seq<string>, cutoff: int) returns (expired: seq<string>, reached: bool)
      ensures (expired, reached) == ExpiredOf(page, cutoff)
    {
      hide ExpiredOf, KeyTime;
      expired := [];
      EmptyPage(cutoff);
      for i := 0 to |page|
        invariant ExpiredOf(page[..i], cutoff) == (expired, false)
      {
        assert page[..i + 1] == page[..i] + [page[i]];
        ExpiredOfConcat(page[..i], [page[i]], cutoff);
        ExpiredOfOne(page[i], cutoff);
        var received := KeyTime(page[i]);
        if received.None? {
          assert expired + [] == expired;
          continue;
        }
        if !(received.value * 1000 < cutoff) {
          assert page == page[..i + 1] + page[i + 1..];
          ExpiredOfConcat(page[..i + 1], page[i + 1..], cutoff);
          assert expired + [] == expired;
          return expired, true;
        }
        expired := expired + [page[i]];
      }
      assert page[..|page|] == page;
      return expired, false;
    }

    method PruneExpired(now: int, reply: nat -> Reply) returns (deleted: nat)
      requires Sorted(keys)
      modifies this
      ensures var gone := AgePass(old(keys), now - 30 * 86_400_000_000_000, 0, reply);
              keys == LeftAfter(old(keys), gone) && deleted == |gone|
    {
      hide Sorted, ExpiredOf, AgePass, LeftAfter, After, Less, Expired;
      var cutoff := now - RETENTION;
      var cursor := None;
      deleted := 0;
      var page := 0;
      ghost var done, rest, gone := [], keys, [];
      assert done + rest == keys;
      LeftAfterNone(keys, []);
      while page < MAX_PAGES
        invariant page <= MAX_PAGES && done + rest == old(keys) && (page > 0 ==> rest != [])
        invariant cursor == if done == [] then None else Some(done[|done| - 1])
        invariant keys == LeftAfter(old(keys), gone) && deleted == |gone|
        invariant forall k :: k in gone ==> k in done
        invariant AgePass(old(keys), cutoff, 0, reply) == gone + AgePass(rest, cutoff, page, reply)
      {
        AgePassStep(rest, cutoff, page, reply);
        if reply(page).ListFails? {
          break;
        }
        ListingGoesOn(done, rest, gone, cursor);
        var objects, next := List(BATCH, cursor);
        ghost var n := Min(BATCH, |rest|);
        var expired, reachedRetained := ExpiredCrashReports(objects, cutoff);
        ExpiredOfMembers(objects, cutoff);
        if |expired| > 0 {
          if reply(page).DeleteFails? {
            break;
          }
          Delete(expired);
          deleted := deleted + |expired|;
        } else {
          LeftAfterNone(keys, expired);
        }
        LeftAfterTwice(old(keys), gone, expired);
        gone := gone + expired;
        if reachedRetained || next.None? {
          return;
        }
        cursor := next;
        assert done + rest == (done + rest[..n]) + rest[n..];
        done, rest := done + rest[..n], rest[n..];
        page := page + 1;
      }
      PassesEnd(rest, cutoff, 0, page, reply);
      assert gone + [] == gone;
    }

    // The page's keys this program wrote.
    method ReadableOnly(page: seq<string>) returns (doomed: seq<string>)
      ensures doomed == Readable(page)
    {
      doomed := [];
      for i := 0 to |page|
        invariant doomed == Readable(page[..i])
      {
        assert page[..i + 1] == page[..i] + [page[i]];
        ReadableConcat(page[..i], [page[i]]);
        if KeyTime(page[i]).None? {
          continue;
        }
        doomed := doomed + [page[i]];
      }
      assert page[..|page|] == page;
    }

    method DeleteOldest(count: int, reply: nat -> Reply) returns (deleted: nat)
      requires Sorted(keys)
      modifies this
      ensures var gone := CapPass(old(keys), count, 0, reply);
              keys == LeftAfter(old(keys), gone) && deleted == |gone|
    {
      hide Sorted, CapPass, LeftAfter, After, Less, Readable, KeyTime, WellFormed;
      var cursor := None;
      deleted := 0;
      var page := 0;
      ghost var done, rest, gone := [], keys, [];
      assert done + rest == keys;
      LeftAfterNone(keys, []);
      while page < MAX_PAGES && deleted < count
        invariant page <= MAX_PAGES && done + rest == old(keys)
        invariant cursor == if done == [] then None else Some(done[|done| - 1])
        invariant keys == LeftAfter(old(keys), gone) && deleted == |gone|
        invariant forall k :: k in gone ==> k in done
        invariant CapPass(old(keys), count, 0, reply) == gone + CapPass(rest, count - deleted, page, reply)
      {
        CapPassStep(rest, count - deleted, page, reply);
        if reply(page).ListFails? {
          break;
        }
        ListingGoesOn(done, rest, gone, cursor);
        var objects, next := List(Min(BATCH, count - deleted), cursor);
        ghost var n := |objects|;
        var doomed := ReadableOnly(objects);
        ReadableFew(objects);
        ReadableMembers(objects);
        if |doomed| > 0 {
          if reply(page).DeleteFails? {
            break;
          }
          Delete(doomed);
          deleted := deleted + |doomed|;
        } else {
          LeftAfterNone(keys, doomed);
        }
        LeftAfterTwice(old(keys), gone, doomed);
        gone := gone + doomed;
        if next.None? {
          return;
        }
        cursor := next;
        assert done + rest == (done + rest[..n]) + rest[n..];
        done, rest := done + rest[..n], rest[n..];
        page := page + 1;
      }
      PassesEnd(rest, 0, count - deleted, page, reply);
      assert gone + [] == gone;
    }

    // The whole prune: the expired, then the oldest past the cap. The count query
    // may fail, and then the cap step is skipped.
    method Prune(now: int, countFails: bool, maxStored: int, ageReply: nat -> Reply, capReply: nat -> Reply)
      returns (deleted: nat)
      requires Sorted(keys)
      modifies this
      ensures keys == Pruned(old(keys), now, countFails, maxStored, ageReply, capReply)
      ensures var gone := AgePass(old(keys), now - 30 * 86_400_000_000_000, 0, ageReply);
              var young := LeftAfter(old(keys), gone);
              deleted == |gone| + if countFails then 0 else |CapPass(young, |young| - maxStored, 0, capReply)|
    {
      deleted := PruneExpired(now, ageReply);
      if countFails {
        return;
      }
      var stored := |keys|;
      var excess := stored - maxStored;
      LeftAfterSorted(old(keys), AgePass(old(keys), now - RETENTION, 0, ageReply));
      if excess > 0 {
        var dropped := DeleteOldest(excess, capReply);
        deleted := deleted + dropped;
      }
    }
  }

  function Pruned(keys: seq<string>, now: int, countFails: bool, maxStored: int,
                  ageReply: nat -> Reply, capReply: nat -> Reply): seq<string>
  {
    var young := LeftAfter(keys, AgePass(keys, now - RETENTION, 0, ageReply));
    if countFails || |young| <= maxStored then young
    else LeftAfter(young, CapPass(young, |young| - maxStored, 0, capReply))
  }

  lemma {:induction false} LeftAfterSorted(keys: seq<string>, gone: seq<string>)
    requires Sorted(keys)
    ensures Sorted(LeftAfter(keys, gone))
  {
    hide Less;
    if keys != [] {
      LeftAfterSorted(keys[1..], gone);
      LeftAfterMembers(keys[1..], gone);
      var rest := LeftAfter(keys[1..], gone);
      forall j | 0 <= j < |rest| ensures Less(keys[0], rest[j]) {
        assert rest[j] in keys[1..];
        var i :| 0 <= i < |keys| - 1 && keys[1..][i] == rest[j];
        assert Less(keys[0], keys[i + 1]);
      }
    }
  }

  // A key this program did not write is never deleted, whatever goes wrong.
  lemma ForeignKeysStay(keys: seq<string>, key: string, now: int, countFails: bool, maxStored: int,
                        ageReply: nat -> Reply, capReply: nat -> Reply)
    requires key in keys && !WellFormed(key)
    ensures key in Pruned(keys, now, countFails, maxStored, ageReply, capReply)
  {
    var gone := AgePass(keys, now - RETENTION, 0, ageReply);
    AgePassMembers(keys, now - RETENTION, 0, ageReply);
    LeftAfterMembers(keys, gone);
    var young := LeftAfter(keys, gone);
    var dropped := CapPass(young, |young| - maxStored, 0, capReply);
    CapPassNeverOvershoots(young, |young| - maxStored, 0, capReply);
    ReadableMembers(young);
    LeftAfterMembers(young, dropped);
  }

  lemma {:induction false} ReadableLeftAfter(keys: seq<string>, gone: seq<string>)
    ensures Readable(LeftAfter(keys, gone)) == LeftAfter(Readable(keys), gone)
  {
    hide WellFormed;
    if keys != [] {
      ReadableLeftAfter(keys[1..], gone);
      ReadableConcat(if keys[0] in gone then [] else [keys[0]], LeftAfter(keys[1..], gone));
      LeftAfterConcat(if WellFormed(keys[0]) then [keys[0]] else [], Readable(keys[1..]), gone);
    }
  }

  lemma {:induction false} ReadableSorted(keys: seq<string>)
    requires Sorted(keys)
    ensures Sorted(Readable(keys))
  {
    hide Less, WellFormed;
    if keys != [] {
      var rest := keys[1..];
      ReadableSorted(rest);
      ReadableMembers(rest);
      forall j | 0 <= j < |Readable(rest)| ensures Less(keys[0], Readable(rest)[j]) {
        assert Readable(rest)[j] in rest;
        var i :| 0 <= i < |rest| && rest[i] == Readable(rest)[j];
        assert Less(keys[0], keys[i + 1]);
      }
    }
  }

  lemma {:induction false} LeftAfterPrefix(keys: seq<string>, n: nat)
    requires Sorted(keys) && n <= |keys|
    ensures LeftAfter(keys, keys[..n]) == keys[n..]
  {
    assert keys == keys[..n] + keys[n..];
    LeftAfterConcat(keys[..n], keys[n..], keys[..n]);
    forall k | k in keys[n..] ensures k !in keys[..n] {
      NotLess(k);
    }
    LeftAfterNone(keys[n..], keys[..n]);
    LeftAfterAll(keys[..n], keys[..n]);
  }

  lemma {:induction false} LeftAfterAll(keys: seq<string>, gone: seq<string>)
    requires forall k :: k in keys ==> k in gone
    ensures LeftAfter(keys, gone) == []
  {
    if keys != [] {
      LeftAfterAll(keys[1..], gone);
    }
  }

  lemma {:induction false} AllExpiredConcat(a: seq<string>, b: seq<string>, cutoff: int)
    ensures AllExpired(a + b, cutoff) == AllExpired(a, cutoff) + AllExpired(b, cutoff)
  {
    hide Expired;
    if a == [] {
      assert a + b == b;
    } else {
      AllExpiredConcat(a[1..], b, cutoff);
      assert (a + b)[1..] == a[1..] + b && (a + b)[0] == a[0];
      var head := if Expired(a[0], cutoff) then [a[0]] else [];
      assert head + (AllExpired(a[1..], cutoff) + AllExpired(b, cutoff)) ==
             (head + AllExpired(a[1..], cutoff)) + AllExpired(b, cutoff);
    }
  }

  // What the age pass leaves of a healthy store, when its budget reaches every expired key.
  lemma YoungAreLeft(keys: seq<string>, cutoff: int, reply: nat -> Reply)
    requires AllFine(reply) && RetainedAreLast(keys, cutoff)
    requires forall i :: MAX_PAGES * BATCH <= i < |keys| ==> !Expired(keys[i], cutoff)
    ensures AgePass(keys, cutoff, 0, reply) == AllExpired(keys, cutoff)
  {
    hide AgePass, Expired, WellFormed;
    var reach := Min(|keys|, MAX_PAGES * BATCH);
    AgePassIsExact(keys, cutoff, reply);
    assert keys == keys[..reach] + keys[reach..];
    AllExpiredConcat(keys[..reach], keys[reach..], cutoff);
    NoneExpired(keys[reach..], cutoff);
    assert RetainedAreLast(keys[..reach], cutoff);
  }

  // On a healthy store, foreign keys and all, where each step's page budget reaches the
  // last key it needs, the prune deletes every expired report and then the oldest of the
  // others, as many as the count is over the cap or as there are; it keeps the newest of
  // them and every foreign key.
  lemma PruneKeepsTheNewest(keys: seq<string>, now: int, maxStored: nat,
                            ageReply: nat -> Reply, capReply: nat -> Reply, n: nat)
    requires AllFine(ageReply) && AllFine(capReply)
    requires Sorted(keys) && RetainedAreLast(keys, now - 30 * 86_400_000_000_000)
    requires forall i :: 10_000 <= i < |keys| ==> !Expired(keys[i], now - 30 * 86_400_000_000_000)
    requires var young := LeftAfter(keys, AllExpired(keys, now - 30 * 86_400_000_000_000));
             var needed := Dropped(young, maxStored);
             && n <= |young| && |Readable(young[..n])| == needed
             && (n > 0 ==> |Readable(young[..n - 1])| < needed)
             && Listed(young, |young| - maxStored, 100) >= n
    ensures var young := LeftAfter(keys, AllExpired(keys, now - 30 * 86_400_000_000_000));
            var kept := Pruned(keys, now, false, maxStored, ageReply, capReply);
            && kept == LeftAfter(young, Readable(young)[..Dropped(young, maxStored)])
            && Readable(kept) == Readable(young)[Dropped(young, maxStored)..]
            && forall k :: !WellFormed(k) ==> (k in kept <==> k in keys)
  {
    hide Sorted, AllExpired, WellFormed, Expired, AgePass, Listed, Less, RetainedAreLast, LeftAfter, Readable, Pruned;
    var gone := AllExpired(keys, now - RETENTION);
    var young := LeftAfter(keys, gone);
    var drop := Readable(young)[..Dropped(young, maxStored)];
    YoungAreLeft(keys, now - RETENTION, ageReply);
    PrunedIsCapped(keys, now, maxStored, ageReply, capReply, young, n);
    LeftAfterSorted(keys, gone);
    ReadableSorted(young);
    ReadableLeftAfter(young, drop);
    LeftAfterPrefix(Readable(young), Dropped(young, maxStored));
    forall k | !WellFormed(k) ensures k in LeftAfter(young, drop) <==> k in keys {
      ForeignIsLeft(keys, now - RETENTION, drop, k);
    }
  }

  lemma PrunedIsCapped(keys: seq<string>, now: int, maxStored: nat, ageReply: nat -> Reply, capReply: nat -> Reply,
                       young: seq<string>, n: nat)
    requires AllFine(capReply) && young == LeftAfter(keys, AgePass(keys, now - RETENTION, 0, ageReply))
    requires n <= |young| && |Readable(young[..n])| == Dropped(young, maxStored)
    requires n > 0 ==> |Readable(young[..n - 1])| < Dropped(young, maxStored)
    requires Listed(young, |young| - maxStored, MAX_PAGES) >= n
    ensures Pruned(keys, now, false, maxStored, ageReply, capReply) ==
            LeftAfter(young, Readable(young)[..Dropped(young, maxStored)])
  {
    hide AgePass, CapPass, Listed, Readable, LeftAfter;
    if |young| > maxStored {
      CapPassIsExactlyWhen(young, |young| - maxStored, capReply, n);
    } else {
      LeftAfterNone(young, Readable(young)[..0]);
    }
  }

  // How many readable reports the cap takes: as many as the store is over, if it holds them.
  function Dropped(young: seq<string>, maxStored: nat): nat {
    Min(if |young| > maxStored then |young| - maxStored else 0, |Readable(young)|)
  }

  lemma {:induction false} AllExpiredMembers(keys: seq<string>, cutoff: int)
    ensures forall k :: k in AllExpired(keys, cutoff) ==> WellFormed(k)
  {
    if keys != [] {
      AllExpiredMembers(keys[1..], cutoff);
    }
  }

  lemma ForeignIsLeft(keys: seq<string>, cutoff: int, drop: seq<string>, k: string)
    requires !WellFormed(k) && drop <= Readable(LeftAfter(keys, AllExpired(keys, cutoff)))
    ensures k in LeftAfter(LeftAfter(keys, AllExpired(keys, cutoff)), drop) <==> k in keys
  {
    hide WellFormed;
    var gone := AllExpired(keys, cutoff);
    AllExpiredMembers(keys, cutoff);
    LeftAfterMembers(keys, gone);
    ReadableMembers(LeftAfter(keys, gone));
    LeftAfterMembers(LeftAfter(keys, gone), drop);
    assert forall x :: x in drop ==> x in Readable(LeftAfter(keys, gone));
  }
}
