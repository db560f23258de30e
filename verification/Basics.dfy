// What several modules share.
module Basics {
  datatype Option<T> = Some(value: T) | None

  function Min(a: int, b: int): int { if a < b then a else b }

  // ----- Trimming -----

  function TrimLeft<T>(s: seq<T>, space: T -> bool): seq<T> {
    if s != [] && space(s[0]) then TrimLeft(s[1..], space) else s
  }

  function TrimRight<T>(s: seq<T>, space: T -> bool): seq<T> {
    if s != [] && space(s[|s| - 1]) then TrimRight(s[..|s| - 1], space) else s
  }

  lemma {:induction false} TrimLeftShape<T>(s: seq<T>, space: T -> bool)
    ensures var r := TrimLeft(s, space);
            && |r| <= |s| && r == s[|s| - |r|..]
            && (forall i :: 0 <= i < |s| - |r| ==> space(s[i]))
            && (r != [] ==> !space(r[0]))
  {
    if s != [] && space(s[0]) {
      var rest, r := s[1..], TrimLeft(s, space);
      TrimLeftShape(rest, space);
      assert rest[|rest| - |r|..] == s[|s| - |r|..];
      forall i | 0 <= i < |s| - |r| ensures space(s[i]) {
        assert i > 0 ==> s[i] == rest[i - 1];
      }
    }
  }

  lemma {:induction false} TrimRightShape<T>(s: seq<T>, space: T -> bool)
    ensures var r := TrimRight(s, space);
            && |r| <= |s| && r == s[..|r|]
            && (forall i :: |r| <= i < |s| ==> space(s[i]))
            && (r != [] ==> !space(r[|r| - 1]))
  {
    if s != [] && space(s[|s| - 1]) {
      TrimRightShape(s[..|s| - 1], space);
    }
  }
}
