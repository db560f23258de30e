// The two-row code tables: party invite codes and friend codes.
//
// An owner (a party or a user) gets one short random code. Two storage rows
// record it: forward, code -> owner, written create-only, and reverse,
// owner -> code, written second and allowed to fail on its own.
module CodeTable {
  import Basics

  type Code = string
  type Owner = string

  const ALPHABET: string := "23456789ABCDEFGHJKLMNPQRSTUVWXYZ"
  const MAX_ATTEMPTS: nat := 5

  datatype Codes = Codes(forward: map<Code, Owner>, reverse: map<Owner, Code>)

  // What storage does to one issue call: nothing, a forward write that fails
  // for a reason other than the version check, or a failing reverse write.
  datatype Fault = NoFault | ForwardFault(attempt: nat) | ReverseFault

  datatype Issued = Issued(code: Code) | StorageError | OutOfAttempts

  const EMPTY := Codes(map[], map[])

  // Random bytes mapped into the alphabet, one character each.
  function CodeOf(bytes: seq<nat>): (code: Code)
    ensures |code| == |bytes|
    ensures forall i :: 0 <= i < |code| ==> code[i] in ALPHABET
  {
    seq(|bytes|, i requires 0 <= i < |bytes| => ALPHABET[bytes[i] % |ALPHABET|])
  }

  // No character is favoured: random bytes give the same one exactly when they agree
  // modulo the alphabet's 32, so each has eight of the 256.
  lemma CharactersAreEquallyLikely(a: seq<nat>, b: seq<nat>, i: nat)
    requires i < |a| && i < |b|
    ensures CodeOf(a)[i] == CodeOf(b)[i] <==> a[i] % 32 == b[i] % 32
  {
    AlphabetAt(a[i] % 32);
    AlphabetAt(b[i] % 32);
  }

  // Digits but 0 and 1, then capitals but I and O.
  lemma AlphabetAt(n: nat)
    requires n < 32
    ensures |ALPHABET| == 32
    ensures ALPHABET[n] as int == if n < 8 then 50 + n else if n < 16 then 57 + n else if n < 21 then 58 + n else 59 + n
  {
  }

  // The attempt that finds a free code, or the number of draws when all are taken.
  function FirstFree(forward: map<Code, Owner>, draws: seq<Code>): (k: nat)
    ensures k <= |draws|
    ensures forall i :: 0 <= i < k ==> draws[i] in forward
    ensures k < |draws| ==> draws[k] !in forward
  {
    if draws == [] || draws[0] !in forward then 0 else 1 + FirstFree(forward, draws[1..])
  }

  // One whole issue call: reuse the owner's code, or draw until one is free.
  function Issue(t: Codes, owner: Owner, draws: seq<Code>, fault: Fault): (Codes, Issued)
  {
    if owner in t.reverse && t.reverse[owner] != "" then (t, Issued(t.reverse[owner]))
    else
      var k := FirstFree(t.forward, draws);
      if fault.ForwardFault? && fault.attempt < |draws| && fault.attempt <= k then (t, StorageError)
      else if k == |draws| then (t, OutOfAttempts)
      else
        var written := t.(forward := t.forward[draws[k] := owner]);
        if fault.ReverseFault? then (written, StorageError)
        else (written.(reverse := t.reverse[owner := draws[k]]), Issued(draws[k]))
  }

  // The issue wrote its forward row and then failed.
  predicate LeavesHalf(t: Codes, owner: Owner, draws: seq<Code>, fault: Fault) {
    var (t', r) := Issue(t, owner, draws, fault);
    t' != t && !r.Issued?
  }

  // Deletes the pair found through a forward row whose owner is gone.
  function DropPair(t: Codes, code: Code, owner: Owner): Codes {
    Codes(t.forward - {code}, t.reverse - {owner})
  }

  // Deletes the pair found through the owner's reverse row.
  function DropOwner(t: Codes, owner: Owner): Codes {
    if owner in t.reverse && t.reverse[owner] != ""
    then DropPair(t, t.reverse[owner], owner)
    else t
  }

  // Every reverse row is answered by its forward row, and no code is empty.
  ghost predicate Consistent(t: Codes) {
    && (forall o :: o in t.reverse ==> t.reverse[o] in t.forward && t.forward[t.reverse[o]] == o)
    && "" !in t.forward
  }

  lemma IssueKeepsConsistent(t: Codes, owner: Owner, draws: seq<Code>, fault: Fault)
    requires Consistent(t) && "" !in draws
    ensures Consistent(Issue(t, owner, draws, fault).0)
  {
  }

  // An issued code is the owner's from then on: both rows name the pair, the
  // same call repeated returns it and writes nothing, whatever is drawn, and
  // every row that existed before stands.
  lemma IssuedCodeSticks(t: Codes, owner: Owner, draws: seq<Code>, fault: Fault, redraws: seq<Code>, refault: Fault)
    requires Consistent(t) && "" !in draws
    ensures var (t', r) := Issue(t, owner, draws, fault);
            && (r.Issued? ==>
                  && owner in t'.reverse && t'.reverse[owner] == r.code
                  && r.code in t'.forward && t'.forward[r.code] == owner
                  && Issue(t', owner, redraws, refault) == (t', r))
            && (forall c :: c in t.forward ==> c in t'.forward && t'.forward[c] == t.forward[c])
            && (forall o :: o in t.reverse ==> o in t'.reverse && t'.reverse[o] == t.reverse[o])
  {
    var (t', r) := Issue(t, owner, draws, fault);
    if r.Issued? && !(owner in t.reverse && t.reverse[owner] != "") {
      var k := FirstFree(t.forward, draws);
      assert draws[k] in draws;
    }
  }

  // The draw is the first that nobody has.
  ghost predicate IsFirstFree(forward: map<Code, Owner>, draws: seq<Code>, k: nat) {
    k < |draws| && draws[k] !in forward && forall i :: 0 <= i < k ==> draws[i] in forward
  }

  // What an issue answers and writes. An owner's code is given again. Else the first free
  // draw is written to the forward row and then to the reverse row, and given; a forward
  // write that fails up to there ends the issue with nothing written, a failing reverse
  // write with the forward row alone. With no free draw nothing is written.
  lemma IssueAnswersExactly(t: Codes, owner: Owner, draws: seq<Code>, fault: Fault, k: nat)
    ensures var (t', r) := Issue(t, owner, draws, fault);
            if owner in t.reverse && t.reverse[owner] != "" then t' == t && r == Issued(t.reverse[owner])
            else
              && (IsFirstFree(t.forward, draws, k) ==>
                    if fault.ForwardFault? && fault.attempt <= k then t' == t && r == StorageError
                    else
                      && t'.forward == t.forward[draws[k] := owner]
                      && (if fault == ReverseFault then t'.reverse == t.reverse && r == StorageError
                          else t'.reverse == t.reverse[owner := draws[k]] && r == Issued(draws[k])))
              && ((forall d :: d in draws ==> d in t.forward) ==>
                    && t' == t
                    && r == if fault.ForwardFault? && fault.attempt < |draws| then StorageError else OutOfAttempts)
  {
    var first := FirstFree(t.forward, draws);
    if first < |draws| {
      assert draws[first] in draws;
    }
  }

  // With storage healthy, issuing fails exactly when every draw is taken.
  lemma IssueFailsExactlyWhenAllTaken(t: Codes, owner: Owner, draws: seq<Code>)
    requires owner !in t.reverse
    ensures Issue(t, owner, draws, NoFault).1.OutOfAttempts? <==> forall d :: d in draws ==> d in t.forward
  {
    var k := FirstFree(t.forward, draws);
    if k == |draws| {
      forall d | d in draws ensures d in t.forward {
        var i :| 0 <= i < |draws| && draws[i] == d;
      }
    } else {
      assert draws[k] in draws;
    }
  }

  lemma DropPairKeepsConsistent(t: Codes, code: Code, owner: Owner)
    requires Consistent(t) && code in t.forward && t.forward[code] == owner
    ensures Consistent(DropPair(t, code, owner))
  {
  }

  // Dropping an owner ends exactly its own code: every other owner's pair stands.
  lemma DropOwnerEndsOnlyItsCode(t: Codes, owner: Owner)
    requires Consistent(t)
    ensures Consistent(DropOwner(t, owner))
    ensures owner !in DropOwner(t, owner).reverse
    ensures owner in t.reverse ==> t.reverse[owner] !in DropOwner(t, owner).forward
    ensures forall o :: o != owner && o in t.reverse ==>
              var t' := DropOwner(t, owner);
              o in t'.reverse && t'.reverse[o] == t.reverse[o] && t.reverse[o] in t'.forward
  {
    if owner in t.reverse {
      assert t.reverse[owner] in t.forward;
    }
  }

  // ----- Forward rows that no reverse row answers -----

  predicate Names(t: Codes, code: Code, owner: Owner) {
    code in t.forward && t.forward[code] == owner
  }

  predicate IsStray(t: Codes, code: Code, owner: Owner) {
    Names(t, code, owner) && !(owner in t.reverse && t.reverse[owner] == code)
  }

  ghost predicate IsNamed(t: Codes, owner: Owner) {
    exists code :: Names(t, code, owner)
  }

  ghost predicate HasStray(t: Codes, owner: Owner) {
    exists code :: IsStray(t, code, owner)
  }

  // Only an issue that fails between its two writes makes a stray.
  lemma IssueAddsStray(t: Codes, owner: Owner, draws: seq<Code>, fault: Fault, o: Owner)
    requires Consistent(t)
    ensures HasStray(Issue(t, owner, draws, fault).0, o) <==>
            HasStray(t, o) || (o == owner && LeavesHalf(t, owner, draws, fault))
  {
    var t' := Issue(t, owner, draws, fault).0;
    forall code | IsStray(t, code, o) ensures IsStray(t', code, o) {
    }
    forall code | IsStray(t', code, o) && !IsStray(t, code, o)
      ensures o == owner && LeavesHalf(t, owner, draws, fault)
    {
    }
    if LeavesHalf(t, owner, draws, fault) {
      assert IsStray(t', draws[FirstFree(t.forward, draws)], owner);
    }
  }

  lemma FirstIssueFailsHalfway(owner: Owner, draws: seq<Code>)
    requires draws != []
    ensures LeavesHalf(EMPTY, owner, draws, ReverseFault)
    ensures Issue(EMPTY, owner, draws, ReverseFault) == (Codes(map[draws[0] := owner], map[]), StorageError)
  {
    assert FirstFree(EMPTY.forward, draws) == 0;
  }

  // Dropping an owner finds its code through the reverse row, so a forward row still
  // names the owner afterwards if and only if there was a stray; nobody else's rows go.
  lemma DropOwnerLeavesStrays(t: Codes, owner: Owner, o: Owner)
    requires Consistent(t)
    ensures var t' := DropOwner(t, owner);
            && (IsNamed(t', owner) <==> HasStray(t, owner))
            && (HasStray(t', o) <==> HasStray(t, o))
            && (o != owner ==> SameRowsOf(t, t', o))
  {
    var t' := DropOwner(t, owner);
    assert forall code :: Names(t', code, owner) <==> IsStray(t, code, owner);
    assert forall code :: IsStray(t', code, o) <==> IsStray(t, code, o);
  }

  // The two tables agree on every row of one owner.
  ghost predicate SameRowsOf(t: Codes, t': Codes, o: Owner) {
    && (forall code :: Names(t, code, o) <==> Names(t', code, o))
    && (o in t.reverse <==> o in t'.reverse)
    && (o in t.reverse ==> t.reverse[o] == t'.reverse[o])
  }

  // The retry loop: at most MAX_ATTEMPTS draws, each tried with a create-only
  // forward write.
  method IssueCode(t: Codes, owner: Owner, draws: seq<Code>, fault: Fault) returns (t': Codes, r: Issued)
    requires |draws| == MAX_ATTEMPTS
    ensures (t', r) == Issue(t, owner, draws, fault)
  {
    if owner in t.reverse && t.reverse[owner] != "" {
      return t, Issued(t.reverse[owner]);
    }
    var attempt := 0;
    while attempt < MAX_ATTEMPTS
      invariant attempt <= MAX_ATTEMPTS
      invariant forall i :: 0 <= i < attempt ==> draws[i] in t.forward
      invariant fault.ForwardFault? ==> attempt <= fault.attempt
    {
      var code := draws[attempt];
      if fault == ForwardFault(attempt) {
        return t, StorageError;
      }
      if code in t.forward {
        attempt := attempt + 1;
        continue;
      }
      assert attempt == FirstFree(t.forward, draws);
      var written := t.(forward := t.forward[code := owner]);
      if fault.ReverseFault? {
        return written, StorageError;
      }
      return written.(reverse := t.reverse[owner := code]), Issued(code);
    }
    return t, OutOfAttempts;
  }

  // ----- What callers type -----

  // Upper-cases what the caller typed and drops the space around it.
  function Upper(s: string): (r: string)
    ensures |r| == |s|
  {
    seq(|s|, i requires 0 <= i < |s| => if 'a' <= s[i] <= 'z' then s[i] - 'a' + 'A' else s[i])
  }

  predicate IsSpace(c: char) { c == ' ' || '\t' <= c <= '\r' }

  function Trim(s: string): string { Basics.TrimRight(Basics.TrimLeft(s, IsSpace), IsSpace) }

  function Normalize(typed: string): Code { Upper(Trim(typed)) }

  lemma {:induction false} TrimLeavesInked(s: string)
    requires forall i :: 0 <= i < |s| ==> !IsSpace(s[i])
    ensures Trim(s) == s
  {
  }

  const SPACES: seq<int> := [9, 10, 11, 12, 13, 32]

  lemma SpaceIs(c: char)
    ensures IsSpace(c) <==> c as int in SPACES
  {
  }

  // Trimming finds what stands between the white space.
  lemma TrimFindsTheText(front: string, text: string, back: string)
    requires forall c :: c in front || c in back ==> c as int in SPACES
    requires text == "" || (text[0] as int !in SPACES && text[|text| - 1] as int !in SPACES)
    ensures Trim(front + text + back) == text
  {
    hide IsSpace;
    forall c: char ensures IsSpace(c) <==> c as int in SPACES {
      SpaceIs(c);
    }
    var s := front + text + back;
    var left := Basics.TrimLeft(s, IsSpace);
    Basics.TrimLeftShape(s, IsSpace);
    Basics.TrimRightShape(left, IsSpace);
    assert forall i :: 0 <= i < |front| ==> s[i] in front;
    assert forall i :: |front| + |text| <= i < |s| ==> s[i] in back;
    if text == "" {
      assert forall i :: 0 <= i < |s| ==> IsSpace(s[i]);
    } else {
      assert s[|front|] == text[0];
      assert |left| == |text| + |back|;
      assert left == text + back;
      var right := Basics.TrimRight(left, IsSpace);
      assert left[|text| - 1] == text[|text| - 1];
      assert |right| == |text| && right == text;
    }
  }

  // The capital is the text's character, or, for an ASCII small letter, its capital.
  predicate IsUpperOf(capital: char, c: char) {
    capital as int == if 97 <= c as int <= 122 then c as int - 32 else c as int
  }

  predicate IsUpperText(capitals: string, text: string) {
    |capitals| == |text| && forall i :: 0 <= i < |text| ==> IsUpperOf(capitals[i], text[i])
  }

  // However a code is typed, in capitals or not and with white space around it, it is read.
  lemma TypedCodeIsRead(front: string, typed: string, back: string, code: Code)
    requires forall c :: c in front || c in back ==> c as int in SPACES
    requires IsUpperText(code, typed) && forall i :: 0 <= i < |code| ==> code[i] in ALPHABET
    ensures Normalize(front + typed + back) == code
  {
    forall i | 0 <= i < |typed| ensures typed[i] as int !in SPACES {
      NoSpaceHasThatCapital(code[i], typed[i]);
    }
    TypedTextIsRead(front, typed, back, code);
  }

  lemma NoSpaceHasThatCapital(capital: char, c: char)
    requires capital in ALPHABET && IsUpperOf(capital, c)
    ensures c as int !in SPACES
  {
    hide IsSpace;
    AlphabetIsUpper(capital);
    SpaceIs(capital);
  }

  lemma TypedTextIsRead(front: string, text: string, back: string, capitals: string)
    requires forall c :: c in front || c in back ==> c as int in SPACES
    requires text == "" || (text[0] as int !in SPACES && text[|text| - 1] as int !in SPACES)
    requires IsUpperText(capitals, text)
    ensures Normalize(front + text + back) == capitals
  {
    TrimFindsTheText(front, text, back);
    hide Trim;
    assert Upper(text) == capitals;
  }

  lemma AlphabetIsUpper(c: char)
    requires c in ALPHABET
    ensures !IsSpace(c) && !('a' <= c <= 'z')
  {
  }

  // A code drawn from the alphabet is read as itself.
  lemma AlphabetReadsAsItself(code: Code)
    requires forall i :: 0 <= i < |code| ==> code[i] in ALPHABET
    ensures Normalize(code) == code
  {
    forall i | 0 <= i < |code| ensures !IsSpace(code[i]) && !('a' <= code[i] <= 'z') {
      AlphabetIsUpper(code[i]);
    }
    TrimLeavesInked(code);
  }
}
