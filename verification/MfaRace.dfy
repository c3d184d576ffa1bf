/** A run in which a user's two recovery codes are accepted on one challenge and buy one session. */
module MfaRace {
  import opened MfaProtocol
  import opened MfaSafety
  import opened Options

  lemma Then(steps: seq<Step>, s: State, step: Step)
    requires Run(steps) == Some(s) && Enabled(s, step)
    ensures Run(steps + [step]) == Some(Apply(s, step))
  {
    assert (steps + [step])[..|steps|] == steps;
  }

  /** A user gets recovery codes 10 and 11. */
  function WriterSteps(): seq<Step> {
    [] + [Arrive(0, WriterStart(7))] + [WriterCheck(0, true, [1, 2])] + [ReplaceCodes(0, [10, 11])]
  }

  /** The user logs in and is handed challenge 20. */
  function LoginSteps(): seq<Step> {
    WriterSteps() + [Arrive(1, LoginStart)] + [Password(1, 7, true)] + [Membership(1, Some(3))]
    + [GateCheck(1, true, false, false)] + [CreateChallenge(1, 20, 5, 100)]
  }

  /** A request presents the challenge's token and one of the codes, which is accepted. */
  function AcceptSteps(before: seq<Step>, r: Id): seq<Step> {
    before + [Arrive(r, VerifyStart(5, RecoveryShape))] + [Find(r, 0)] + [Load(r, true)] + [ListCodes(r)]
    + [Compare(r, true)] + [ConsumeCode(r)]
  }

  /** Two such requests, before either claims the challenge. */
  function RaceSteps(): seq<Step> {
    AcceptSteps(AcceptSteps(LoginSteps(), 2), 3)
    + [ConsumeChallenge(2)] + [ConsumeChallenge(3)] + [VerifySession(2, 30)]
  }

  function Codes(used: bool, alsoUsed: bool): seq<Code> {
    [Code(10, 1, used), Code(11, 2, alsoUsed)]
  }

  predicate SameStore(s: State, t: State) {
    && t.codes == s.codes && t.challenges == s.challenges && t.issued == s.issued
    && t.sessions == s.sessions && t.claims == s.claims && t.accepted == s.accepted
  }

  lemma Moves(steps: seq<Step>, s: State, step: Step) returns (t: State)
    requires Run(steps) == Some(s) && Enabled(s, step) && OnlyMoves(s, step)
    ensures Run(steps + [step]) == Some(t) && SameStore(s, t) && t.requests == s.requests[step.r := Next(s, step)]
  {
    hide Next, Noted, Enabled, Run;
    Then(steps, s, step);
    WritesNothing(s, step);
    t := Apply(s, step);
  }

  lemma WriterPhase() returns (t: State)
    ensures Run(WriterSteps()) == Some(t) && t.requests == map[0 := Finished] && t.issued == {10, 11}
    ensures t.codes == map[7 := Codes(false, false)] && t.challenges == map[]
    ensures t.sessions == [] && t.claims == [] && t.accepted == []
  {
    assert Run([]) == Some(Initial());
    hide Run;
    var s := Moves([], Initial(), Arrive(0, WriterStart(7)));
    var upTo := [] + [Arrive(0, WriterStart(7))];
    s := Moves(upTo, s, WriterCheck(0, true, [1, 2]));
    upTo := upTo + [WriterCheck(0, true, [1, 2])];
    hide Next, Noted;
    t := ReplacePhase(upTo, s);
  }

  lemma ReplacePhase(steps: seq<Step>, s: State) returns (t: State)
    requires Run(steps) == Some(s) && 0 in s.requests && s.requests[0] == WriterReady(7, [1, 2]) && s.issued == {}
    ensures Run(steps + [ReplaceCodes(0, [10, 11])]) == Some(t) && t.requests == s.requests[0 := Finished]
    ensures t.issued == {10, 11} && t.codes == s.codes[7 := Codes(false, false)]
    ensures t.challenges == s.challenges && t.sessions == s.sessions && t.claims == s.claims
    ensures t.accepted == s.accepted
  {
    hide Run, Noted, Codes, NewCodes, Assigned;
    NewPair();
    Then(steps, s, ReplaceCodes(0, [10, 11]));
    t := Apply(s, ReplaceCodes(0, [10, 11]));
  }

  lemma NewPair()
    ensures Distinct([10, 11]) && NewCodes([10, 11], [1, 2]) == Codes(false, false)
    ensures (set id | id in [10, 11]) == {10, 11}
  {
  }

  lemma LoginPhase(steps: seq<Step>, s0: State) returns (t: State)
    requires Run(steps) == Some(s0) && 1 !in s0.requests && 20 !in s0.issued
    ensures Run(steps + [Arrive(1, LoginStart)] + [Password(1, 7, true)] + [Membership(1, Some(3))]
                + [GateCheck(1, true, false, false)] + [CreateChallenge(1, 20, 5, 100)]) == Some(t)
    ensures t.requests == s0.requests[1 := Finished] && t.codes == s0.codes && t.issued == s0.issued + {20}
    ensures t.challenges == s0.challenges[5 := Challenge(20, 7, 3, 100, false)]
    ensures t.sessions == s0.sessions && t.claims == s0.claims && t.accepted == s0.accepted
  {
    hide Run;
    var s := Moves(steps, s0, Arrive(1, LoginStart));
    var upTo := steps + [Arrive(1, LoginStart)];
    s := Moves(upTo, s, Password(1, 7, true));
    upTo := upTo + [Password(1, 7, true)];
    s := Moves(upTo, s, Membership(1, Some(3)));
    upTo := upTo + [Membership(1, Some(3))];
    s := Moves(upTo, s, GateCheck(1, true, false, false));
    upTo := upTo + [GateCheck(1, true, false, false)];
    Then(upTo, s, CreateChallenge(1, 20, 5, 100));
    t := Apply(s, CreateChallenge(1, 20, 5, 100));
  }

  /** The first unused code is found, matches and is taken. */
  lemma AcceptPhase(steps: seq<Step>, s0: State, r: Id, row: Code) returns (t: State)
    requires Run(steps) == Some(s0) && r !in s0.requests && 7 in s0.codes
    requires 5 in s0.challenges && s0.challenges[5] == Challenge(20, 7, 3, 100, false)
    requires Unused(s0.codes[7]) != [] && row == Unused(s0.codes[7])[0] && CodeOpen(s0.codes[7], row.id)
    ensures Run(AcceptSteps(steps, r)) == Some(t)
    ensures t.requests == s0.requests[r := VerifyAccepted(s0.challenges[5], Recovery(row.id))]
    ensures t.codes == s0.codes[7 := MarkUsed(s0.codes[7], row.id)]
    ensures t.accepted == s0.accepted + [Acceptance(row.id, r, 7)]
    ensures t.challenges == s0.challenges && t.issued == s0.issued
    ensures t.sessions == s0.sessions && t.claims == s0.claims
  {
    var s, upTo := FindPhase(steps, s0, r);
    hide Run, Unused, CodeOpen, MarkUsed, Next;
    t := TakePhase(upTo, s, r, row);
  }

  lemma TakePhase(steps: seq<Step>, s0: State, r: Id, row: Code) returns (t: State)
    requires Run(steps) == Some(s0) && r in s0.requests && 7 in s0.codes
    requires s0.requests[r] == VerifyLoaded(Challenge(20, 7, 3, 100, false), RecoveryShape)
    requires Unused(s0.codes[7]) != [] && row == Unused(s0.codes[7])[0] && CodeOpen(s0.codes[7], row.id)
    ensures Run(steps + [ListCodes(r)] + [Compare(r, true)] + [ConsumeCode(r)]) == Some(t)
    ensures t.requests == s0.requests[r := VerifyAccepted(Challenge(20, 7, 3, 100, false), Recovery(row.id))]
    ensures t.codes == s0.codes[7 := MarkUsed(s0.codes[7], row.id)]
    ensures t.accepted == s0.accepted + [Acceptance(row.id, r, 7)]
    ensures t.challenges == s0.challenges && t.issued == s0.issued
    ensures t.sessions == s0.sessions && t.claims == s0.claims
  {
    hide Run, Unused, CodeOpen, MarkUsed, Next;
    var s := MatchPhase(steps, s0, r, row);
    t := ConsumePhase(steps + [ListCodes(r)] + [Compare(r, true)], s, r);
  }

  lemma MatchPhase(steps: seq<Step>, s0: State, r: Id, row: Code) returns (t: State)
    requires Run(steps) == Some(s0) && r in s0.requests && 7 in s0.codes
    requires s0.requests[r] == VerifyLoaded(Challenge(20, 7, 3, 100, false), RecoveryShape)
    requires Unused(s0.codes[7]) != [] && row == Unused(s0.codes[7])[0]
    ensures Run(steps + [ListCodes(r)] + [Compare(r, true)]) == Some(t) && SameStore(s0, t)
    ensures t.requests == s0.requests[r := VerifyMatched(Challenge(20, 7, 3, 100, false), row)]
  {
    hide Run, Unused;
    t := Moves(steps, s0, ListCodes(r));
    t := Moves(steps + [ListCodes(r)], t, Compare(r, true));
  }

  lemma ConsumePhase(steps: seq<Step>, s: State, r: Id) returns (t: State)
    requires Run(steps) == Some(s) && r in s.requests && s.requests[r].VerifyMatched?
    requires var q := s.requests[r]; q.challenge.user in s.codes && CodeOpen(s.codes[q.challenge.user], q.row.id)
    ensures var q := s.requests[r];
            var user := q.challenge.user;
            && Run(steps + [ConsumeCode(r)]) == Some(t)
            && t.requests == s.requests[r := VerifyAccepted(q.challenge, Recovery(q.row.id))]
            && t.codes == s.codes[user := MarkUsed(s.codes[user], q.row.id)]
            && t.accepted == s.accepted + [Acceptance(q.row.id, r, user)]
            && t.challenges == s.challenges && t.issued == s.issued
            && t.sessions == s.sessions && t.claims == s.claims
  {
    hide Run, Noted, CodeOpen, MarkUsed;
    Then(steps, s, ConsumeCode(r));
    t := Apply(s, ConsumeCode(r));
  }

  lemma FindPhase(steps: seq<Step>, s0: State, r: Id) returns (t: State, upTo: seq<Step>)
    requires Run(steps) == Some(s0) && r !in s0.requests
    requires 5 in s0.challenges && s0.challenges[5] == Challenge(20, 7, 3, 100, false)
    ensures upTo == steps + [Arrive(r, VerifyStart(5, RecoveryShape))] + [Find(r, 0)] + [Load(r, true)]
    ensures Run(upTo) == Some(t) && SameStore(s0, t)
    ensures t.requests == s0.requests[r := VerifyLoaded(s0.challenges[5], RecoveryShape)]
  {
    hide Run;
    var s := Moves(steps, s0, Arrive(r, VerifyStart(5, RecoveryShape)));
    upTo := steps + [Arrive(r, VerifyStart(5, RecoveryShape))];
    s := Moves(upTo, s, Find(r, 0));
    upTo := upTo + [Find(r, 0)];
    t := Moves(upTo, s, Load(r, true));
    upTo := upTo + [Load(r, true)];
  }

  /** Request 2 claims the challenge, request 3 is turned away, and request 2 gets its session. */
  lemma ClaimPhase(steps: seq<Step>, s0: State) returns (t: State)
    requires Run(steps) == Some(s0) && 2 in s0.requests && 3 in s0.requests && 30 !in s0.issued
    requires s0.requests[2] == VerifyAccepted(Challenge(20, 7, 3, 100, false), Recovery(10))
    requires s0.requests[3] == VerifyAccepted(Challenge(20, 7, 3, 100, false), Recovery(11))
    requires s0.challenges == map[5 := Challenge(20, 7, 3, 100, false)] && s0.sessions == []
    ensures Run(steps + [ConsumeChallenge(2)] + [ConsumeChallenge(3)] + [VerifySession(2, 30)]) == Some(t)
    ensures t.accepted == s0.accepted && t.codes == s0.codes
    ensures t.sessions == [Session(30, 7, 3, Verified(20, 2, Recovery(10)))]
    ensures 2 in t.requests && t.requests[2].Finished? && 3 in t.requests && t.requests[3].Finished?
  {
    hide Run, Next, Written, Noted, Enabled;
    var s := WinPhase(steps, s0);
    var upTo := steps + [ConsumeChallenge(2)];
    s := LosePhase(upTo, s);
    upTo := upTo + [ConsumeChallenge(3)];
    t := SessionPhase(upTo, s);
  }

  lemma WinPhase(steps: seq<Step>, s: State) returns (t: State)
    requires Run(steps) == Some(s) && 2 in s.requests
    requires s.requests[2] == VerifyAccepted(Challenge(20, 7, 3, 100, false), Recovery(10))
    requires s.challenges == map[5 := Challenge(20, 7, 3, 100, false)]
    ensures Run(steps + [ConsumeChallenge(2)]) == Some(t) && !ChallengeOpen(t.challenges, 20)
    ensures t.requests == s.requests[2 := VerifyConsumed(Challenge(20, 7, 3, 100, false), Recovery(10))]
    ensures t.accepted == s.accepted && t.codes == s.codes && t.issued == s.issued && t.sessions == s.sessions
  {
    hide Run, Noted;
    assert s.challenges[5].id == 20;
    Then(steps, s, ConsumeChallenge(2));
    t := Apply(s, ConsumeChallenge(2));
  }

  lemma LosePhase(steps: seq<Step>, s: State) returns (t: State)
    requires Run(steps) == Some(s) && 3 in s.requests && s.requests[3].VerifyAccepted?
    requires !ChallengeOpen(s.challenges, s.requests[3].challenge.id)
    ensures Run(steps + [ConsumeChallenge(3)]) == Some(t) && SameStore(s, t)
    ensures t.requests == s.requests[3 := Finished]
  {
    hide Run, Noted, ChallengeOpen;
    t := Moves(steps, s, ConsumeChallenge(3));
  }

  lemma SessionPhase(steps: seq<Step>, s: State) returns (t: State)
    requires Run(steps) == Some(s) && 2 in s.requests && 30 !in s.issued && s.sessions == []
    requires s.requests[2] == VerifyConsumed(Challenge(20, 7, 3, 100, false), Recovery(10))
    ensures Run(steps + [VerifySession(2, 30)]) == Some(t) && t.requests == s.requests[2 := Finished]
    ensures t.sessions == [Session(30, 7, 3, Verified(20, 2, Recovery(10)))]
    ensures t.accepted == s.accepted && t.codes == s.codes
  {
    hide Run, Noted;
    Then(steps, s, VerifySession(2, 30));
    t := Apply(s, VerifySession(2, 30));
  }

  lemma CodesInTurn()
    ensures Unused(Codes(false, false)) == Codes(false, false) && CodeOpen(Codes(false, false), 10)
    ensures MarkUsed(Codes(false, false), 10) == Codes(true, false)
    ensures Unused(Codes(true, false)) == [Code(11, 2, false)] && CodeOpen(Codes(true, false), 11)
    ensures MarkUsed(Codes(true, false), 11) == Codes(true, true)
  {
    var rows, later := Codes(false, false), Codes(true, false);
    assert rows[0].id == 10 && later[1].id == 11;
    assert rows[1..] == [Code(11, 2, false)] && rows[1..][1..] == [];
    assert later[1..] == [Code(11, 2, false)];
  }

  /** Both codes are spent and both requests are over, yet there is one session: the code of request 3
      bought nothing. */
  lemma SpentCodeBuysNothing()
    ensures Run(RaceSteps()).Some?
    ensures var s := Run(RaceSteps()).value;
            && s.accepted == [Acceptance(10, 2, 7), Acceptance(11, 3, 7)] && s.codes == map[7 := Codes(true, true)]
            && 2 in s.requests && s.requests[2].Finished? && 3 in s.requests && s.requests[3].Finished?
            && s.sessions == [Session(30, 7, 3, Verified(20, 2, Recovery(10)))]
            && !exists i :: 0 <= i < |s.sessions| && BoughtBy(s.sessions[i], s.accepted[1])
  {
    CodesInTurn();
    hide Run, Unused, MarkUsed, CodeOpen, AcceptSteps;
    var s := WriterPhase();
    s := LoginPhase(WriterSteps(), s);
    s := AcceptPhase(LoginSteps(), s, 2, Code(10, 1, false));
    s := AcceptPhase(AcceptSteps(LoginSteps(), 2), s, 3, Code(11, 2, false));
    s := ClaimPhase(AcceptSteps(AcceptSteps(LoginSteps(), 2), 3), s);
  }
}
