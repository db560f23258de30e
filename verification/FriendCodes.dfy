// Friend codes: the second use of the two-row code table, keyed by user.
module FriendCodes {
  import opened CodeTable

  type UserId = string

  const CODE_LENGTH: nat := 8

  // handed is what callers have been given and not lost to an account deletion; half is
  // the users for whom some issue failed between its two writes.
  datatype Desk = Desk(codes: Codes, handed: set<(UserId, Code)>, half: set<UserId>)

  const EMPTY_DESK := Desk(CodeTable.EMPTY, {}, {})

  datatype Call = GetCode(user: UserId, draws: seq<Code>, fault: Fault) | Delete(user: UserId)

  function Serve(d: Desk, call: Call): Desk {
    match call
    case GetCode(u, draws, fault) =>
      var (codes, r) := Issue(d.codes, u, draws, fault);
      Desk(codes, if r.Issued? then d.handed + {(u, r.code)} else d.handed,
           if LeavesHalf(d.codes, u, draws, fault) then d.half + {u} else d.half)
    case Delete(u) =>
      d.(codes := DropOwner(d.codes, u), handed := set h | h in d.handed && h.0 != u)
  }

  function Run(d: Desk, calls: seq<Call>): Desk
    decreases |calls|
  {
    if calls == [] then d else Run(Serve(d, calls[0]), calls[1..])
  }

  // A draw is a friend code: the right length, every character from the alphabet.
  ghost predicate Drawn(call: Call) {
    call.GetCode? ==> forall d :: d in call.draws ==>
      |d| == CODE_LENGTH && forall i :: 0 <= i < |d| ==> d[i] in ALPHABET
  }

  // Whatever eight random bytes are drawn, the code made of them is such a draw.
  lemma EightBytesDrawACode(u: UserId, draws: seq<seq<nat>>, fault: Fault)
    requires forall d :: d in draws ==> |d| == 8
    ensures Drawn(GetCode(u, seq(|draws|, i requires 0 <= i < |draws| => CodeOf(draws[i])), fault))
  {
    var codes := seq(|draws|, i requires 0 <= i < |draws| => CodeOf(draws[i]));
    forall c | c in codes ensures |c| == 8 && forall i :: 0 <= i < |c| ==> c[i] in ALPHABET {
      var i :| 0 <= i < |codes| && codes[i] == c;
      assert draws[i] in draws;
    }
  }

  ghost predicate Honest(d: Desk) {
    && Consistent(d.codes)
    && (forall c :: c in d.codes.forward ==> forall i :: 0 <= i < |c| ==> c[i] in ALPHABET)
    && (forall u, c :: (u, c) in d.handed ==> u in d.codes.reverse && d.codes.reverse[u] == c)
  }

  lemma IssueKeepsAlphabet(codes: Codes, u: UserId, draws: seq<Code>, fault: Fault)
    requires forall c :: c in codes.forward ==> forall i :: 0 <= i < |c| ==> c[i] in ALPHABET
    requires forall c :: c in draws ==> forall i :: 0 <= i < |c| ==> c[i] in ALPHABET
    ensures var after := Issue(codes, u, draws, fault).0;
            forall c :: c in after.forward ==> forall i :: 0 <= i < |c| ==> c[i] in ALPHABET
  {
  }

  lemma GetKeepsHonest(d: Desk, u: UserId, draws: seq<Code>, fault: Fault)
    requires Honest(d) && Drawn(GetCode(u, draws, fault))
    ensures Honest(Serve(d, GetCode(u, draws, fault)))
  {
    hide Consistent, Issue, LeavesHalf;
    assert "" !in draws;
    IssueKeepsConsistent(d.codes, u, draws, fault);
    IssuedCodeSticks(d.codes, u, draws, fault, draws, fault);
    IssueKeepsAlphabet(d.codes, u, draws, fault);
  }

  lemma DeleteKeepsHonest(d: Desk, u: UserId)
    requires Honest(d)
    ensures Honest(Serve(d, Delete(u)))
  {
    DropOwnerEndsOnlyItsCode(d.codes, u);
  }

  lemma ServeKeepsHonest(d: Desk, call: Call)
    requires Honest(d) && Drawn(call)
    ensures Honest(Serve(d, call))
  {
    hide Honest, Drawn, Serve;
    match call
    case GetCode(u, draws, fault) => GetKeepsHonest(d, u, draws, fault);
    case Delete(u) => DeleteKeepsHonest(d, u);
  }

  lemma {:induction false} RunKeepsHonest(d: Desk, calls: seq<Call>)
    requires Honest(d) && forall c :: c in calls ==> Drawn(c)
    ensures Honest(Run(d, calls))
    decreases |calls|
  {
    if calls != [] {
      ServeKeepsHonest(d, calls[0]);
      RunKeepsHonest(Serve(d, calls[0]), calls[1..]);
    }
  }

  // The forward row first, then the username the text spells as typed.
  function Resolve(codes: Codes, usernames: map<string, UserId>, typed: string): UserId {
    var code := Normalize(typed);
    if code == "" then ""
    else if code in codes.forward && codes.forward[code] != "" then codes.forward[code]
    else
      var name := Trim(typed);
      if name in usernames then usernames[name] else ""
  }

  // What a typed text resolves to, whatever white space stands around it: the owner of the
  // code it spells in capitals or not, else the user of exactly that name, else nobody.
  lemma ResolvesExactly(codes: Codes, usernames: map<string, UserId>, front: string, text: string, back: string)
    requires forall c :: c in front || c in back ==> c as int in SPACES
    requires text == "" || (text[0] as int !in SPACES && text[|text| - 1] as int !in SPACES)
    ensures var u := Resolve(codes, usernames, front + text + back);
            && (text == "" ==> u == "")
            && (forall c :: c in codes.forward && IsUpperText(c, text) && codes.forward[c] != "" && text != "" ==>
                  u == codes.forward[c])
            && ((forall c :: c in codes.forward && IsUpperText(c, text) ==> codes.forward[c] == "") && text != "" ==>
                  u == if text in usernames then usernames[text] else "")
  {
    TrimFindsTheText(front, text, back);
    hide Trim;
    assert IsUpperText(Upper(text), text);
    forall c | c in codes.forward && IsUpperText(c, text) ensures c == Upper(text) {
    }
  }

  // The call is answered with this code, given to this user.
  predicate Gives(codes: Codes, call: Call, u: UserId, code: Code) {
    call.GetCode? && call.user == u && Issue(codes, u, call.draws, call.fault).1 == Issued(code)
  }

  // Some call was answered with the code for u, and u's account was not deleted since.
  ghost predicate Holds(calls: seq<Call>, u: UserId, code: Code) {
    exists i :: 0 <= i < |calls| && Gives(Run(EMPTY_DESK, calls[..i]).codes, calls[i], u, code) &&
                forall j :: i < j < |calls| ==> calls[j] != Delete(u)
  }

  lemma {:induction false} RunAppends(d: Desk, calls: seq<Call>, call: Call)
    ensures Run(d, calls + [call]) == Serve(Run(d, calls), call)
    decreases |calls|
  {
    hide Serve;
    if calls == [] {
      assert [call][1..] == [] && [] + [call] == [call];
    } else {
      RunAppends(Serve(d, calls[0]), calls[1..], call);
      assert (calls + [call])[1..] == calls[1..] + [call];
    }
  }

  // The record of what callers were given tells no more and no less than the answers.
  lemma {:induction false} HandedIsWhatTheyHold(calls: seq<Call>, u: UserId, code: Code)
    ensures (u, code) in Run(EMPTY_DESK, calls).handed <==> Holds(calls, u, code)
    decreases |calls|
  {
    if calls != [] {
      var front, last := calls[..|calls| - 1], calls[|calls| - 1];
      HandedIsWhatTheyHold(front, u, code);
      RunAppends(EMPTY_DESK, front, last);
      assert calls == front + [last];
      HoldsOneMore(front, last, u, code);
      hide Holds, Issue, LeavesHalf, DropOwner;
    }
  }

  lemma HoldsOneMore(front: seq<Call>, last: Call, u: UserId, code: Code)
    ensures Holds(front + [last], u, code) <==>
            Gives(Run(EMPTY_DESK, front).codes, last, u, code) || (Holds(front, u, code) && last != Delete(u))
  {
    if Gives(Run(EMPTY_DESK, front).codes, last, u, code) || (Holds(front, u, code) && last != Delete(u)) {
      StillHolds(front, last, u, code);
    }
    if Holds(front + [last], u, code) {
      HeldBefore(front, last, u, code);
    }
  }

  lemma SameBefore(front: seq<Call>, last: Call)
    ensures forall i :: 0 <= i < |front| ==> (front + [last])[i] == front[i]
    ensures forall i :: 0 <= i <= |front| ==> (front + [last])[..i] == front[..i]
    ensures front[..|front|] == front
  {
  }

  lemma StillHolds(front: seq<Call>, last: Call, u: UserId, code: Code)
    requires Gives(Run(EMPTY_DESK, front).codes, last, u, code) || (Holds(front, u, code) && last != Delete(u))
    ensures Holds(front + [last], u, code)
  {
    hide Run, Gives;
    SameBefore(front, last);
    var calls := front + [last];
    if Gives(Run(EMPTY_DESK, front).codes, last, u, code) {
      assert Gives(Run(EMPTY_DESK, calls[..|front|]).codes, calls[|front|], u, code);
    } else {
      var i :| 0 <= i < |front| && Gives(Run(EMPTY_DESK, front[..i]).codes, front[i], u, code) &&
               forall j :: i < j < |front| ==> front[j] != Delete(u);
      assert Gives(Run(EMPTY_DESK, calls[..i]).codes, calls[i], u, code);
    }
  }

  lemma HeldBefore(front: seq<Call>, last: Call, u: UserId, code: Code)
    requires Holds(front + [last], u, code)
    ensures Gives(Run(EMPTY_DESK, front).codes, last, u, code) || (Holds(front, u, code) && last != Delete(u))
  {
    hide Run, Gives;
    SameBefore(front, last);
    var calls := front + [last];
    var i :| 0 <= i < |calls| && Gives(Run(EMPTY_DESK, calls[..i]).codes, calls[i], u, code) &&
             forall j :: i < j < |calls| ==> calls[j] != Delete(u);
    if i < |front| {
      assert calls[|front|] == last;
      assert Gives(Run(EMPTY_DESK, front[..i]).codes, front[i], u, code);
      assert forall j :: i < j < |front| ==> front[j] == calls[j];
    }
  }

  // In every run, a code a user was given resolves to that user until their
  // account goes, and two users never hold the same code.
  lemma GivenCodeResolves(calls: seq<Call>, usernames: map<string, UserId>, u: UserId, v: UserId, code: Code)
    requires forall c :: c in calls ==> Drawn(c)
    requires u != "" && Holds(calls, u, code)
    ensures var d := Run(EMPTY_DESK, calls);
            && Resolve(d.codes, usernames, code) == u
            && (Holds(calls, v, code) ==> v == u)
  {
    hide Holds;
    HandedIsWhatTheyHold(calls, u, code);
    HandedIsWhatTheyHold(calls, v, code);
    RunKeepsHonest(EMPTY_DESK, calls);
    AlphabetReadsAsItself(code);
  }

  // A deleted account's code stops resolving through the table.
  lemma DeletedCodeIsGone(calls: seq<Call>, u: UserId, code: Code)
    requires forall c :: c in calls ==> Drawn(c)
    requires Holds(calls, u, code)
    ensures var d := Run(EMPTY_DESK, calls + [Delete(u)]);
            code !in d.codes.forward && u !in d.codes.reverse
  {
    hide Holds;
    var d := Run(EMPTY_DESK, calls);
    RunAppends(EMPTY_DESK, calls, Delete(u));
    HandedIsWhatTheyHold(calls, u, code);
    RunKeepsHonest(EMPTY_DESK, calls);
    DropOwnerEndsOnlyItsCode(d.codes, u);
  }

  lemma ServeKnowsStrays(d: Desk, call: Call, u: UserId)
    requires Consistent(d.codes) && (HasStray(d.codes, u) <==> u in d.half)
    ensures HasStray(Serve(d, call).codes, u) <==> u in Serve(d, call).half
  {
    hide Consistent, HasStray, Issue, LeavesHalf, DropOwner;
    match call
    case GetCode(v, draws, fault) => IssueAddsStray(d.codes, v, draws, fault, u);
    case Delete(v) => DropOwnerLeavesStrays(d.codes, v, u);
  }

  lemma {:induction false} RunKnowsStrays(d: Desk, calls: seq<Call>, u: UserId)
    requires Honest(d) && (HasStray(d.codes, u) <==> u in d.half) && forall c :: c in calls ==> Drawn(c)
    ensures HasStray(Run(d, calls).codes, u) <==> u in Run(d, calls).half
    decreases |calls|
  {
    hide Serve, HasStray, Drawn;
    if calls != [] {
      ServeKeepsHonest(d, calls[0]);
      ServeKnowsStrays(d, calls[0], u);
      RunKnowsStrays(Serve(d, calls[0]), calls[1..], u);
    }
  }

  // The call is an issue for u that writes a forward row and gives no code.
  predicate HalfFails(codes: Codes, call: Call, u: UserId) {
    && call.GetCode? && call.user == u
    && var (codes', r) := Issue(codes, u, call.draws, call.fault); codes' != codes && !r.Issued?
  }

  lemma {:induction false} HalfIsWhatFailed(calls: seq<Call>, u: UserId)
    ensures u in Run(EMPTY_DESK, calls).half <==>
            exists i :: 0 <= i < |calls| && HalfFails(Run(EMPTY_DESK, calls[..i]).codes, calls[i], u)
    decreases |calls|
  {
    if calls != [] {
      var front, last := calls[..|calls| - 1], calls[|calls| - 1];
      HalfIsWhatFailed(front, u);
      RunAppends(EMPTY_DESK, front, last);
      assert calls == front + [last];
      assert forall i :: 0 <= i <= |front| ==> calls[..i] == front[..i];
      assert front[..|front|] == front;
      hide Run, Issue, DropOwner;
      if i :| 0 <= i < |front| && HalfFails(Run(EMPTY_DESK, front[..i]).codes, front[i], u) {
        assert HalfFails(Run(EMPTY_DESK, calls[..i]).codes, calls[i], u);
      }
      if i :| 0 <= i < |front| && HalfFails(Run(EMPTY_DESK, calls[..i]).codes, calls[i], u) {
        assert HalfFails(Run(EMPTY_DESK, front[..i]).codes, front[i], u);
      }
      assert HalfFails(Run(EMPTY_DESK, calls[..|front|]).codes, calls[|front|], u) <==>
             HalfFails(Run(EMPTY_DESK, front).codes, last, u);
    }
  }

  lemma DeletionLeavesTheHalf(calls: seq<Call>, u: UserId)
    requires forall c :: c in calls ==> Drawn(c)
    ensures IsNamed(Run(EMPTY_DESK, calls + [Delete(u)]).codes, u) <==> u in Run(EMPTY_DESK, calls).half
  {
    var d := Run(EMPTY_DESK, calls);
    assert Honest(EMPTY_DESK) && !HasStray(EMPTY_DESK.codes, u);
    hide Run, HasStray, IsNamed, DropOwner, Drawn;
    RunAppends(EMPTY_DESK, calls, Delete(u));
    RunKeepsHonest(EMPTY_DESK, calls);
    RunKnowsStrays(EMPTY_DESK, calls, u);
    hide Consistent;
    DropOwnerLeavesStrays(d.codes, u, u);
  }

  // After any run, deleting an account leaves a forward row that resolves to it if and
  // only if some issue for it had failed between its two writes.
  lemma DeletionLeavesARowExactlyWhen(calls: seq<Call>, u: UserId)
    requires forall c :: c in calls ==> Drawn(c)
    ensures IsNamed(Run(EMPTY_DESK, calls + [Delete(u)]).codes, u) <==>
            exists i :: 0 <= i < |calls| && HalfFails(Run(EMPTY_DESK, calls[..i]).codes, calls[i], u)
  {
    hide Run, HalfFails, IsNamed, Drawn;
    DeletionLeavesTheHalf(calls, u);
    HalfIsWhatFailed(calls, u);
  }

  // One such call, and the row resolves to the account after it is gone.
  lemma HalfIssueOutlivesTheAccount(draws: seq<Code>, usernames: map<string, UserId>)
    requires |draws| == MAX_ATTEMPTS && Drawn(GetCode("u", draws, ReverseFault))
    ensures var d := Run(EMPTY_DESK, [GetCode("u", draws, ReverseFault)] + [Delete("u")]);
            Resolve(d.codes, usernames, draws[0]) == "u"
  {
    var calls := [GetCode("u", draws, ReverseFault)] + [Delete("u")];
    hide Issue, LeavesHalf;
    FirstIssueFailsHalfway("u", draws);
    var d := Serve(EMPTY_DESK, calls[0]);
    assert Serve(d, Delete("u")).codes == d.codes;
    assert calls[1..] == [Delete("u")] && [Delete("u")][1..] == [];
    assert Run(EMPTY_DESK, calls) == Serve(d, Delete("u"));
    AlphabetReadsAsItself(draws[0]);
  }

  class Store {
    var codes: Codes
    var usernames: map<string, UserId>

    constructor (usernames: map<string, UserId>)
      ensures codes == CodeTable.EMPTY && this.usernames == usernames
    {
      codes := CodeTable.EMPTY;
      this.usernames := usernames;
    }

    method GetOrCreateFriendCode(user: UserId, draws: seq<Code>, fault: Fault) returns (r: Issued)
      requires |draws| == MAX_ATTEMPTS
      modifies this`codes
      ensures (codes, r) == Issue(old(codes), user, draws, fault)
    {
      var codes', issued := IssueCode(codes, user, draws, fault);
      codes := codes';
      return issued;
    }

    method ResolveFriendCode(typed: string) returns (user: UserId)
      ensures user == Resolve(codes, usernames, typed)
    {
      var code := Normalize(typed);
      if code == "" {
        return "";
      }
      if code in codes.forward && codes.forward[code] != "" {
        return codes.forward[code];
      }
      var name := Trim(typed);
      return if name in usernames then usernames[name] else "";
    }

    method DeleteFriendCode(user: UserId)
      modifies this`codes
      ensures old(Consistent(codes)) ==> codes == DropOwner(old(codes), user)
      ensures user !in codes.reverse
    {
      var forwardKeys := {};
      if user in codes.reverse && codes.reverse[user] != "" {
        forwardKeys := {codes.reverse[user]};
      }
      codes := Codes(codes.forward - forwardKeys, codes.reverse - {user});
    }
  }
}
