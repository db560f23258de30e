// What cleaning, judging and clamping a display name come to, rune by rune: every law
// here speaks of the kinds and codes of runes alone.
module NameKinds {
  import opened Basics
  import opened Names

  // Which runes of a name are shown: no control or format rune, and a joiner only where
  // it joins letters or marks, or, as a zero-width joiner, two symbols.
  predicate IsShown(name: Name, i: nat)
    requires i < |name|
  {
    match name[i].kind
    case Blank => false
    case Invisible => false
    case Zwj =>
      && 0 < i < |name| - 1
      && ((name[i - 1].kind in {Letter, Mark} && name[i + 1].kind in {Letter, Mark})
          || (name[i - 1].kind == Symbol && name[i + 1].kind == Symbol))
    case Zwnj => 0 < i < |name| - 1 && name[i - 1].kind in {Letter, Mark} && name[i + 1].kind in {Letter, Mark}
    case _ => true
  }

  lemma ShownStays(name: Name, i: nat)
    requires i < |name|
    ensures Stays(name, i) <==> IsShown(name, i)
  {
  }

  // Stripping keeps exactly the shown runes, in order and as often as they stand there.
  lemma StripKeepsExactlyTheShown(name: Name) returns (at: seq<nat>)
    ensures |at| == |Strip(name)| && forall j :: 0 <= j < |at| ==> at[j] < |name| && Strip(name)[j] == name[at[j]]
    ensures forall j, k :: 0 <= j < k < |at| ==> at[j] < at[k]
    ensures forall i :: 0 <= i < |name| ==> (i in at <==> IsShown(name, i))
    ensures forall r :: r in Strip(name) ==> r.kind != Blank && r.kind != Invisible
  {
    at := ShownUpTo(name, |name|);
    forall r | r in Strip(name) ensures r.kind != Blank && r.kind != Invisible {
      var j :| 0 <= j < |at| && Strip(name)[j] == r;
      assert at[j] in at;
    }
  }

  lemma {:induction false} ShownUpTo(name: Name, n: nat) returns (at: seq<nat>)
    requires n <= |name|
    ensures |at| == |StripTo(name, n)|
    ensures forall j :: 0 <= j < |at| ==> at[j] < n && StripTo(name, n)[j] == name[at[j]]
    ensures forall j, k :: 0 <= j < k < |at| ==> at[j] < at[k]
    ensures forall i :: 0 <= i < n ==> (i in at <==> IsShown(name, i))
  {
    hide Stays, IsShown;
    at := [];
    if n > 0 {
      at := ShownUpTo(name, n - 1);
      ShownStays(name, n - 1);
      forall i | i in at ensures i < n - 1 {
      }
      if Stays(name, n - 1) {
        at := at + [n - 1];
      }
    }
  }

  // Trimming takes away white space at both ends and nothing else.
  lemma TrimTakesTheSpace(name: Name) returns (a: nat, b: nat)
    ensures a <= b <= |name| && Trim(name) == name[a..b]
    ensures forall i :: 0 <= i < |name| && !(a <= i < b) ==> name[i].kind in {Space, Blank}
    ensures a < b ==> name[a].kind !in {Space, Blank} && name[b - 1].kind !in {Space, Blank}
  {
    a := TrimShape(name);
    b := a + |Trim(name)|;
  }

  const LOWER: string := "[deleted]"
  const UPPER: string := "[DELETED]"

  function RuneOf(c: char): Rune {
    Rune(if 'a' <= c <= 'z' || 'A' <= c <= 'Z' then Letter else Other, c as int)
  }

  // The reserved name is reserved in any mixture of cases, and no other is.
  lemma ReservedInAnyCase(name: Name)
    ensures IsReserved(name) <==>
            |name| == 9 && forall i :: 0 <= i < 9 ==> name[i] == RuneOf(LOWER[i]) || name[i] == RuneOf(UPPER[i])
  {
    if |name| == 9 {
      forall i | 0 <= i < 9
        ensures Folds(name[i], RESERVED[i]) <==> name[i] == RuneOf(LOWER[i]) || name[i] == RuneOf(UPPER[i])
      {
        FoldsIs(name[i], i);
      }
    }
  }

  lemma FoldsIs(r: Rune, i: nat)
    requires i < 9
    ensures Folds(r, RESERVED[i]) <==> r == RuneOf(LOWER[i]) || r == RuneOf(UPPER[i])
  {
    assert RESERVED == LOWER;
  }

  // A name is valid if and only if, without its outer white space, it is not empty, has at
  // most 32 runes, is not the reserved name, shows every rune and has a letter or digit.
  lemma ValidExactlyWhen(name: Name)
    ensures var trimmed := Trim(name);
            && (Judge(name) == Valid <==>
                  && 1 <= |trimmed| <= 32 && !IsReserved(trimmed)
                  && (forall i :: 0 <= i < |trimmed| ==> IsShown(trimmed, i))
                  && exists r :: r in trimmed && r.kind in {Letter, Digit})
            && (Judge(name) == Valid ==> forall r :: r in trimmed ==> r.kind != Blank && r.kind != Invisible)
  {
    var trimmed := Trim(name);
    forall i | 0 <= i < |trimmed| ensures Stays(trimmed, i) <==> IsShown(trimmed, i) {
      ShownStays(trimmed, i);
    }
    assert HasLetterOrDigit(trimmed) <==> exists r :: r in trimmed && r.kind in {Letter, Digit} by {
      if r :| r in trimmed && r.kind in {Letter, Digit} {
        var i :| 0 <= i < |trimmed| && trimmed[i] == r;
        assert IsLetterOrDigit(trimmed[i]);
      }
    }
    if Judge(name) == Valid {
      forall r | r in trimmed ensures r.kind != Blank && r.kind != Invisible {
        var i :| 0 <= i < |trimmed| && trimmed[i] == r;
        assert IsShown(trimmed, i);
      }
    }
  }

  // Which of the refusals a name meets first.
  lemma RefusalsInOrder(name: Name)
    ensures var trimmed, v := Trim(name), Judge(name);
            && (v == Empty <==> trimmed == [])
            && (v == TooLong <==> |trimmed| > 32)
            && (v == ReservedName <==> IsReserved(trimmed))
            && (v == HiddenRunes <==>
                  1 <= |trimmed| <= 32 && !IsReserved(trimmed)
                  && exists i :: 0 <= i < |trimmed| && !IsShown(trimmed, i))
  {
    var trimmed := Trim(name);
    forall i | 0 <= i < |trimmed| ensures Stays(trimmed, i) <==> IsShown(trimmed, i) {
      ShownStays(trimmed, i);
    }
  }

  // What the clamp stores, when it stores anything, is the beginning of the stripped and
  // trimmed name: as much of its first 32 runes as does not end in white space, one rune
  // less when that is the reserved name.
  lemma StoredIsTheBeginning(name: Name) returns (m: nat)
    ensures var full := Trim(Strip(name));
            && m <= Min(|full|, 32)
            && (forall i :: m <= i < Min(|full|, 32) ==> full[i].kind in {Space, Blank})
            && (m > 0 ==> full[m - 1].kind !in {Space, Blank})
            && (Clamp(name) != [] ==>
                  m > 0 && Clamp(name) == if IsReserved(full[..m]) then full[..m - 1] else full[..m])
  {
    assert !IsReserved([]);
    hide Trim, Strip, IsReserved, Clean;
    var _ := TrimShape(Strip(name));
    m := CutTrims(Trim(Strip(name)));
    assert Cut(name) == Trim(Strip(name))[..m];
  }

  lemma CutTrims(full: Name) returns (m: nat)
    requires Trimmed(full)
    ensures m <= Min(|full|, 32) && (m > 0 ==> full[m - 1].kind !in {Space, Blank})
    ensures (if |full| > MAX_RUNES then Trim(full[..MAX_RUNES]) else full) == full[..m]
    ensures forall i :: m <= i < Min(|full|, 32) ==> full[i].kind in {Space, Blank}
  {
    hide Trim;
    if |full| > MAX_RUNES {
      var cut := full[..MAX_RUNES];
      var a, b := TrimTakesTheSpace(cut);
      assert !IsSpace(full[0]) && cut[0] == full[0];
      assert a == 0;
      m := b;
      assert cut[0..b] == full[..b];
    } else {
      m := |full|;
      assert full[..m] == full;
    }
  }
}
