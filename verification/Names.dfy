// Display names: dropping invisible runes, validating, and clamping imported names.
module Names {
  import opened Basics

  // Disjoint classes of runes. Blank is white space that is also a control or a
  // line or paragraph separator; Invisible is any other control or format rune
  // except the two joiners; Symbol is the class So.
  datatype Kind = Letter | Digit | Mark | Symbol | Space | Blank | Invisible | Zwj | Zwnj | Other

  datatype Rune = Rune(kind: Kind, code: int)

  type Name = seq<Rune>

  const MAX_RUNES: nat := 32
  const RESERVED: string := "[deleted]"

  predicate IsSpace(r: Rune) { r.kind.Space? || r.kind.Blank? }

  predicate IsJoiner(r: Rune) { r.kind.Zwj? || r.kind.Zwnj? }

  predicate IsHidden(r: Rune) { r.kind.Blank? || r.kind.Invisible? || IsJoiner(r) }

  predicate IsLetterOrMark(r: Rune) { r.kind.Letter? || r.kind.Mark? }

  predicate IsLetterOrDigit(r: Rune) { r.kind.Letter? || r.kind.Digit? }

  // Letters (or marks) on both sides, or emoji on both sides of the joiner proper.
  predicate Joins(prev: Rune, r: Rune, next: Rune) {
    (IsLetterOrMark(prev) && IsLetterOrMark(next)) || (r.kind.Zwj? && prev.kind.Symbol? && next.kind.Symbol?)
  }

  predicate IsKeptJoiner(name: Name, i: nat)
    requires i < |name|
  {
    IsJoiner(name[i]) && 0 < i < |name| - 1 && Joins(name[i - 1], name[i], name[i + 1])
  }

  predicate Stays(name: Name, i: nat)
    requires i < |name|
  {
    IsKeptJoiner(name, i) || !IsHidden(name[i])
  }

  function StripTo(name: Name, n: nat): Name
    requires n <= |name|
  {
    if n == 0 then [] else StripTo(name, n - 1) + (if Stays(name, n - 1) then [name[n - 1]] else [])
  }

  function Strip(name: Name): Name { StripTo(name, |name|) }

  method StripInvisibleRunes(name: Name) returns (kept: Name)
    ensures kept == Strip(name)
  {
    kept := [];
    for i := 0 to |name|
      invariant kept == StripTo(name, i)
    {
      if IsKeptJoiner(name, i) {
        kept := kept + [name[i]];
        continue;
      }
      if IsHidden(name[i]) {
        continue;
      }
      kept := kept + [name[i]];
    }
  }

  // Nothing in the name would be stripped.
  ghost predicate Clean(name: Name) {
    forall i :: 0 <= i < |name| ==> Stays(name, i)
  }

  lemma {:induction false} CleanIsKept(name: Name, n: nat)
    requires Clean(name) && n <= |name|
    ensures StripTo(name, n) == name[..n]
  {
    if n > 0 {
      CleanIsKept(name, n - 1);
      assert Stays(name, n - 1);
    }
  }

  // What stripping has kept so far: all but the last rune stay as they are, and a
  // joiner that ends it still waits for the rune it joins to.
  ghost predicate CleanSoFar(kept: Name, name: Name, n: nat)
    requires n <= |name|
  {
    && (forall j :: 0 <= j < |kept| - 1 ==> Stays(kept, j))
    && (kept != [] && IsHidden(kept[|kept| - 1]) ==> n > 0 && IsKeptJoiner(name, n - 1))
    && (n > 0 && Stays(name, n - 1) ==> kept != [] && kept[|kept| - 1] == name[n - 1])
    && (n > 0 && IsKeptJoiner(name, n - 1) ==> |kept| >= 2 && kept[|kept| - 2] == name[n - 2])
  }

  lemma {:induction false} StripIsCleanSoFar(name: Name, n: nat)
    requires n <= |name|
    ensures CleanSoFar(StripTo(name, n), name, n)
  {
    if n > 0 {
      StripIsCleanSoFar(name, n - 1);
      var before, after := StripTo(name, n - 1), StripTo(name, n);
      if Stays(name, n - 1) {
        forall j | 0 <= j < |after| - 1 ensures Stays(after, j) {
          if j < |before| - 1 {
            assert Stays(before, j);
          } else if IsHidden(before[j]) {
            assert Stays(name, n - 2) && before[j] == name[n - 2] && before[j - 1] == name[n - 3];
          }
        }
        if IsKeptJoiner(name, n - 1) {
          assert Stays(name, n - 2);
        }
      } else {
        assert after == before;
      }
    }
  }

  // A kept joiner's neighbours are always kept, so what is stripped is clean.
  lemma StripIsClean(name: Name)
    ensures Clean(Strip(name))
  {
    StripIsCleanSoFar(name, |name|);
    var kept := Strip(name);
    forall i | 0 <= i < |kept| ensures Stays(kept, i) {
      if i == |kept| - 1 {
        assert !IsHidden(kept[i]);
      }
    }
  }

  lemma StripIsIdempotent(name: Name)
    ensures Strip(Strip(name)) == Strip(name)
  {
    StripIsClean(name);
    CleanIsKept(Strip(name), |Strip(name)|);
  }

  // ----- Trimming and cutting -----

  function Trim(name: Name): Name { TrimRight(TrimLeft(name, IsSpace), IsSpace) }

  ghost predicate Trimmed(name: Name) {
    name != [] ==> !IsSpace(name[0]) && !IsSpace(name[|name| - 1])
  }

  // Trimming cuts off spaces only: the middle, from the first non-space on.
  lemma TrimShape(name: Name) returns (a: nat)
    ensures var r := Trim(name);
            && a + |r| <= |name| && r == name[a..a + |r|]
            && (forall i :: 0 <= i < |name| && !(a <= i < a + |r|) ==> IsSpace(name[i]))
            && Trimmed(r)
  {
    TrimLeftShape(name, IsSpace);
    var l := TrimLeft(name, IsSpace);
    TrimRightShape(l, IsSpace);
    a := |name| - |l|;
    var r := Trim(name);
    forall i | 0 <= i < |name| && !(a <= i < a + |r|) ensures IsSpace(name[i]) {
      if i >= a {
        assert name[i] == l[i - a];
      }
    }
    assert r != [] ==> r[0] == l[0];
  }

  lemma TrimmedIsKept(name: Name)
    requires Trimmed(name)
    ensures Trim(name) == name
  {
  }

  // A joiner that stays has no space beside it, so trimming leaves a clean name clean.
  lemma TrimKeepsClean(name: Name)
    requires Clean(name)
    ensures Clean(Trim(name))
  {
    var a := TrimShape(name);
    var r := Trim(name);
    forall j | 0 <= j < |r| ensures Stays(r, j) {
      assert r[j] == name[a + j] && Stays(name, a + j);
      if IsKeptJoiner(name, a + j) {
        assert !IsSpace(name[a + j - 1]) && !IsSpace(name[a + j + 1]);
        assert r[j - 1] == name[a + j - 1] && r[j + 1] == name[a + j + 1];
      }
    }
  }

  // ----- Validating -----

  datatype Verdict = Valid | Empty | TooLong | ReservedName | HiddenRunes | NoLetterOrDigit

  // The rune reads as this character of the reserved name, in either case.
  predicate Folds(r: Rune, c: char) {
    if 'a' <= c <= 'z' then r.kind.Letter? && (r.code == c as int || r.code == c as int - 32)
    else r.kind.Other? && r.code == c as int
  }

  predicate IsReserved(name: Name) {
    |name| == |RESERVED| && forall i :: 0 <= i < |name| ==> Folds(name[i], RESERVED[i])
  }

  ghost predicate HasLetterOrDigit(name: Name) {
    exists i :: 0 <= i < |name| && IsLetterOrDigit(name[i])
  }

  ghost function Judge(name: Name): Verdict {
    var trimmed := Trim(name);
    if trimmed == [] then Empty
    else if |trimmed| > MAX_RUNES then TooLong
    else if IsReserved(trimmed) then ReservedName
    else if !Clean(trimmed) then HiddenRunes
    else if !HasLetterOrDigit(trimmed) then NoLetterOrDigit
    else Valid
  }

  method ValidateDisplayName(name: Name) returns (verdict: Verdict)
    ensures verdict == Judge(name)
  {
    var trimmed := Trim(name);
    if trimmed == [] {
      return Empty;
    }
    if |trimmed| > MAX_RUNES {
      return TooLong;
    }
    if IsReserved(trimmed) {
      return ReservedName;
    }
    var hasLetterOrDigit := false;
    for i := 0 to |trimmed|
      invariant forall j :: 0 <= j < i ==> Stays(trimmed, j)
      invariant hasLetterOrDigit <==> exists j :: 0 <= j < i && IsLetterOrDigit(trimmed[j])
    {
      if IsKeptJoiner(trimmed, i) {
        continue;
      }
      if IsHidden(trimmed[i]) {
        assert !Stays(trimmed, i);
        return HiddenRunes;
      }
      if IsLetterOrDigit(trimmed[i]) {
        hasLetterOrDigit := true;
      }
    }
    if !hasLetterOrDigit {
      return NoLetterOrDigit;
    }
    return Valid;
  }

  // ----- Clamping -----

  // Stripped, trimmed and cut to the bound.
  function Cut(name: Name): Name {
    var trimmed := Trim(Strip(name));
    if |trimmed| > MAX_RUNES then Trim(trimmed[..MAX_RUNES]) else trimmed
  }

  // The reserved name loses its last rune.
  function Unreserved(name: Name): Name {
    if IsReserved(name) then name[..|name| - 1] else name
  }

  ghost function Clamp(name: Name): Name {
    var kept := Unreserved(Cut(name));
    if Judge(kept).Valid? then kept else []
  }

  method ClampDisplayName(name: Name) returns (stored: Name, changed: bool)
    ensures stored == Clamp(name)
    ensures changed <==> stored == [] || stored != name
  {
    var stripped := StripInvisibleRunes(name);
    var trimmed := Trim(stripped);
    if |trimmed| > MAX_RUNES {
      trimmed := Trim(trimmed[..MAX_RUNES]);
    }
    if IsReserved(trimmed) && |trimmed| > 0 {
      trimmed := trimmed[..|trimmed| - 1];
    }
    var verdict := ValidateDisplayName(trimmed);
    if !verdict.Valid? {
      return [], true;
    }
    return trimmed, trimmed != name;
  }

  lemma CutShape(name: Name)
    ensures Trimmed(Cut(name)) && |Cut(name)| <= MAX_RUNES
    ensures var full := Trim(Strip(name));
            Clean(Cut(name)) <==> !(|full| > MAX_RUNES && IsJoiner(full[MAX_RUNES - 1]))
  {
    hide Clean;
    StripIsClean(name);
    TrimKeepsClean(Strip(name));
    var full := Trim(Strip(name));
    var _ := TrimShape(Strip(name));
    if |full| > MAX_RUNES {
      var cut := full[..MAX_RUNES];
      var a := TrimShape(cut);
      CutAtJoiner(full);
      if IsJoiner(full[MAX_RUNES - 1]) {
        EdgeJoinerIsHidden(cut, a);
      } else {
        TrimKeepsClean(cut);
      }
    }
  }

  lemma CutAtJoiner(full: Name)
    requires Clean(full) && |full| > MAX_RUNES
    ensures !IsJoiner(full[MAX_RUNES - 1]) ==> Clean(full[..MAX_RUNES])
  {
    var cut := full[..MAX_RUNES];
    if !IsJoiner(full[MAX_RUNES - 1]) {
      forall i | 0 <= i < |cut| ensures Stays(cut, i) {
        assert Stays(full, i);
      }
    }
  }

  lemma EdgeJoinerIsHidden(cut: Name, a: nat)
    requires cut != [] && IsJoiner(cut[|cut| - 1])
    requires var r := Trim(cut);
             && a + |r| <= |cut| && r == cut[a..a + |r|]
             && forall i :: 0 <= i < |cut| && !(a <= i < a + |r|) ==> IsSpace(cut[i])
    ensures !Clean(Trim(cut))
  {
    var r := Trim(cut);
    assert !IsSpace(cut[|cut| - 1]);
    assert !Stays(r, |r| - 1);
  }

  lemma UnreservedIsFree(name: Name)
    requires Trimmed(name)
    ensures var kept := Unreserved(name);
            && !IsReserved(kept) && Trimmed(kept) && |kept| <= |name|
            && (HasLetterOrDigit(kept) <==> HasLetterOrDigit(name))
            && (Clean(kept) <==> Clean(name))
  {
    if IsReserved(name) {
      assert forall i :: 0 <= i < |name| ==> Folds(name[i], RESERVED[i]);
      var kept := Unreserved(name);
      assert IsLetterOrDigit(kept[1]) && IsLetterOrDigit(name[1]);
      assert Folds(name[7], 'd') && Folds(name[0], '[');
      assert forall i :: 0 <= i < |name| ==> !IsHidden(name[i]);
    }
  }

  // Whatever clamping stores is a valid name, trimmed and not the reserved one.
  lemma ClampStoresAValidName(name: Name)
    requires Clamp(name) != []
    ensures Judge(Clamp(name)).Valid? && Trim(Clamp(name)) == Clamp(name) && !IsReserved(Clamp(name))
    ensures |Clamp(name)| <= MAX_RUNES
  {
    CutShape(name);
    UnreservedIsFree(Cut(name));
    TrimmedIsKept(Unreserved(Cut(name)));
  }

  // A name the update hook accepts is, once trimmed, stored as it stands.
  lemma AcceptedNameIsUnchanged(name: Name)
    requires Judge(name).Valid?
    ensures Clamp(Trim(name)) == Trim(name)
  {
    var _ := TrimShape(name);
    var trimmed := Trim(name);
    TrimmedIsKept(trimmed);
    CleanIsKept(trimmed, |trimmed|);
    assert trimmed[..|trimmed|] == trimmed;
  }

  // Clamping twice is clamping once.
  lemma ClampIsIdempotent(name: Name)
    requires Clamp(name) != []
    ensures Clamp(Clamp(name)) == Clamp(name)
  {
    ClampStoresAValidName(name);
    AcceptedNameIsUnchanged(Clamp(name));
  }

  // Nothing is stored exactly when the cut name has no letter or digit, or when the
  // cut falls just behind a joiner.
  lemma ClampIsEmptyExactlyWhen(name: Name)
    ensures var full := Trim(Strip(name));
            Clamp(name) == [] <==>
            !HasLetterOrDigit(Cut(name)) || (|full| > MAX_RUNES && IsJoiner(full[MAX_RUNES - 1]))
  {
    CutShape(name);
    UnreservedIsFree(Cut(name));
    TrimmedIsKept(Unreserved(Cut(name)));
  }

  // So a name full of letters can come out empty: a joiner as the 32nd rune is
  // kept between its letters, and the cut then leaves it on the edge.
  lemma JoinerAtTheCutEmptiesTheName(letter: Rune, joiner: Rune)
    requires letter.kind.Letter? && IsJoiner(joiner)
    ensures var name := seq(31, _ => letter) + [joiner, letter];
            Clamp(name) == [] && Clean(name) && HasLetterOrDigit(Cut(name))
  {
    var name := seq(31, _ => letter) + [joiner, letter];
    CleanIsKept(name, |name|);
    assert name[..|name|] == name;
    TrimmedIsKept(name);
    ClampIsEmptyExactlyWhen(name);
    var cut := name[..MAX_RUNES];
    assert cut == seq(31, _ => letter) + [joiner];
    TrimmedIsKept(cut);
    assert IsLetterOrDigit(cut[0]);
  }
}
