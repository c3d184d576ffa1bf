/** Password login and second-factor verification as concurrent requests over one identity store.

    Every `await` of a handler is a step boundary: a step reads or writes the store once and moves
    one request on. A run is any interleaving of such steps. The two "consume" operations are atomic
    test-and-set updates, as both store drivers make them. Outcomes the model does not compute -
    whether a password, a TOTP code or a hash matches, what the account tables say - are chosen
    freely by the step, so every claim holds whatever they are. */
module MfaProtocol {
  import opened Options

  type Id = nat

  // ---------------------------------------------------------------- the store

  datatype Challenge = Challenge(id: Id, user: Id, organization: Id, expiresAt: int, consumed: bool)

  datatype Code = Code(id: Id, hash: Id, used: bool)

  datatype Via = Totp | Recovery(code: Id)

  /** Where a session came from. */
  datatype Origin = PasswordOnly(login: Id) | Verified(challenge: Id, request: Id, via: Via)

  datatype Session = Session(id: Id, user: Id, organization: Id, origin: Origin)

  // ---------------------------------------------------------------- requests

  datatype Gate = NoMfa | MustVerify | MustEnroll

  /** Enrolled users always verify; the organization flag only forces privileged roles to enroll. */
  function MfaGateForLogin(enrolled: bool, privileged: bool, required: bool): Gate {
    if enrolled then MustVerify else if required && privileged then MustEnroll else NoMfa
  }

  datatype Presented = SixDigits | RecoveryShape | Malformed

  datatype Request =
    | LoginStart
    | LoginPassed(user: Id)
    | LoginMember(user: Id, organization: Id)
    | LoginGated(user: Id, organization: Id, gate: Gate)
    | VerifyStart(tokenHash: Id, presented: Presented)
    | VerifyFound(challenge: Challenge, presented: Presented)
    | VerifyLoaded(challenge: Challenge, presented: Presented)
    | VerifyScanning(challenge: Challenge, rows: seq<Code>)
    | VerifyMatched(challenge: Challenge, row: Code)
    | VerifyAccepted(challenge: Challenge, via: Via)
    | VerifyConsumed(challenge: Challenge, via: Via)
    | WriterStart(user: Id)
    | WriterReady(user: Id, hashes: seq<Id>)
    | Finished

  // ---------------------------------------------------------------- the whole state

  datatype Creation = Creation(login: Id, user: Id, organization: Id, tokenHash: Id)

  datatype Claim = Claim(challenge: Id, request: Id)

  datatype Acceptance = Acceptance(code: Id, request: Id, user: Id)

  /** What a login's gate was asked. */
  datatype GateFacts = GateFacts(enrolled: bool, privileged: bool, required: bool)

  /** What requests have shown, each noted under the request: whose password a login proved and what
      was known of it at the gate; which token a verification came with, whose authenticator code it
      got right, and which recovery code its text was found to match. */
  datatype Notes = Notes(
    passwords: map<Id, Id>,
    gates: map<Id, GateFacts>,
    presented: map<Id, Id>,
    passes: map<Id, Id>,
    matched: map<Id, Id>)

  /** The store and the requests in flight, with histories: the notes, which login created each
      challenge and for which token, for whom each recovery code was made, and every consume that
      succeeded. */
  datatype State = State(
    challenges: map<Id, Challenge>,   // by token hash
    codes: map<Id, seq<Code>>,        // by user
    sessions: seq<Session>,
    requests: map<Id, Request>,
    issued: set<Id>,                  // row ids ever generated
    notes: Notes,
    created: map<Id, Creation>,       // by challenge
    issuedTo: map<Id, Id>,            // user, by code
    claims: seq<Claim>,
    accepted: seq<Acceptance>)

  function Initial(): State {
    State(map[], map[], [], map[], {}, Notes(map[], map[], map[], map[], map[]), map[], map[], [], [])
  }

  datatype Step =
    | Arrive(r: Id, start: Request)
    | Password(r: Id, user: Id, matches: bool)
    | Membership(r: Id, organization: Option<Id>)
    | GateCheck(r: Id, enrolled: bool, privileged: bool, required: bool)
    | CreateChallenge(r: Id, id: Id, tokenHash: Id, expiresAt: int)
    | LoginSession(r: Id, id: Id)
    | Find(r: Id, now: int)
    | Load(r: Id, accountActive: bool)
    | CheckTotp(r: Id, correct: bool)
    | ListCodes(r: Id)
    | Compare(r: Id, matches: bool)
    | ConsumeCode(r: Id)
    | ConsumeChallenge(r: Id)
    | VerifySession(r: Id, id: Id)
    | WriterCheck(r: Id, correct: bool, hashes: seq<Id>)
    | ReplaceCodes(r: Id, ids: seq<Id>)

  predicate Distinct(ids: seq<Id>) {
    forall i, j :: 0 <= i < j < |ids| ==> ids[i] != ids[j]
  }

  /** A step is taken by a request at the right point; generated ids are new. */
  predicate Enabled(s: State, step: Step) {
    match step
    case Arrive(r, start) =>
      r !in s.requests && (start.LoginStart? || start.VerifyStart? || start.WriterStart?)
    case Password(r, _, _) => r in s.requests && s.requests[r].LoginStart?
    case Membership(r, _) => r in s.requests && s.requests[r].LoginPassed?
    case GateCheck(r, _, _, _) => r in s.requests && s.requests[r].LoginMember?
    case CreateChallenge(r, id, _, _) =>
      r in s.requests && s.requests[r].LoginGated? && s.requests[r].gate.MustVerify? && id !in s.issued
    case LoginSession(r, id) =>
      r in s.requests && s.requests[r].LoginGated? && s.requests[r].gate.NoMfa? && id !in s.issued
    case Find(r, _) => r in s.requests && s.requests[r].VerifyStart?
    case Load(r, _) => r in s.requests && s.requests[r].VerifyFound?
    case CheckTotp(r, _) => r in s.requests && s.requests[r].VerifyLoaded? && !s.requests[r].presented.RecoveryShape?
    case ListCodes(r) => r in s.requests && s.requests[r].VerifyLoaded? && s.requests[r].presented.RecoveryShape?
    case Compare(r, _) => r in s.requests && s.requests[r].VerifyScanning?
    case ConsumeCode(r) => r in s.requests && s.requests[r].VerifyMatched?
    case ConsumeChallenge(r) => r in s.requests && s.requests[r].VerifyAccepted?
    case VerifySession(r, id) => r in s.requests && s.requests[r].VerifyConsumed? && id !in s.issued
    case WriterCheck(r, _, _) => r in s.requests && s.requests[r].WriterStart?
    case ReplaceCodes(r, ids) =>
      && r in s.requests && s.requests[r].WriterReady? && |s.requests[r].hashes| == |ids|
      && Distinct(ids) && forall id :: id in ids ==> id !in s.issued
  }

  // ---------------------------------------------------------------- store operations

  /** No two stored challenges share an id. */
  ghost predicate DistinctChallenges(challenges: map<Id, Challenge>) {
    forall g, h :: g in challenges && h in challenges && g != h ==> challenges[g].id != challenges[h].id
  }

  ghost predicate DistinctRows(rows: seq<Code>) {
    forall i, j :: 0 <= i < j < |rows| ==> rows[i].id != rows[j].id
  }

  /** The unconsumed, unexpired challenge for a token. */
  function FindValid(challenges: map<Id, Challenge>, tokenHash: Id, now: int): Option<Challenge> {
    if tokenHash in challenges && !challenges[tokenHash].consumed && now < challenges[tokenHash].expiresAt
    then Some(challenges[tokenHash]) else None
  }

  predicate ChallengeOpen(challenges: map<Id, Challenge>, id: Id) {
    exists h :: h in challenges && challenges[h].id == id && !challenges[h].consumed
  }

  function ChallengesConsumed(challenges: map<Id, Challenge>, id: Id): map<Id, Challenge> {
    map h | h in challenges :: if challenges[h].id == id then challenges[h].(consumed := true) else challenges[h]
  }

  function CodesOf(codes: map<Id, seq<Code>>, user: Id): seq<Code> {
    if user in codes then codes[user] else []
  }

  function Unused(rows: seq<Code>): (r: seq<Code>) {
    if rows == [] then []
    else (if rows[0].used then [] else [rows[0]]) + Unused(rows[1..])
  }

  predicate CodeOpen(rows: seq<Code>, id: Id) {
    exists i :: 0 <= i < |rows| && rows[i].id == id && !rows[i].used
  }

  function MarkUsed(rows: seq<Code>, id: Id): (r: seq<Code>) {
    seq(|rows|, i requires 0 <= i < |rows| => if rows[i].id == id then rows[i].(used := true) else rows[i])
  }

  function NewCodes(ids: seq<Id>, hashes: seq<Id>): seq<Code>
    requires |ids| == |hashes|
  {
    seq(|ids|, i requires 0 <= i < |ids| => Code(ids[i], hashes[i], false))
  }

  /** Every new code is made for one user. */
  function Assigned(issuedTo: map<Id, Id>, ids: seq<Id>, user: Id): map<Id, Id> {
    issuedTo + (map id | id in ids :: user)
  }

  // ---------------------------------------------------------------- the steps

  /** Where the step takes its request. At login an unknown user, a wrong password, no membership and a
      refused gate all end it; at verification everything that fails does. */
  function Next(s: State, step: Step): Request
    requires Enabled(s, step)
  {
    if step.Arrive? then step.start
    else
      var q := s.requests[step.r];
      match step
      case Password(_, user, matches) => if matches then LoginPassed(user) else Finished
      case Membership(_, organization) =>
        if organization.Some? then LoginMember(q.user, organization.value) else Finished
      case GateCheck(_, enrolled, privileged, required) =>
        var gate := MfaGateForLogin(enrolled, privileged, required);
        if gate.MustEnroll? then Finished else LoginGated(q.user, q.organization, gate)
      case Find(_, now) =>
        var found := FindValid(s.challenges, q.tokenHash, now);
        if found.Some? then VerifyFound(found.value, q.presented) else Finished
      case Load(_, accountActive) => if accountActive then VerifyLoaded(q.challenge, q.presented) else Finished
      case CheckTotp(_, correct) =>
        if q.presented.SixDigits? && correct then VerifyAccepted(q.challenge, Totp) else Finished
      case ListCodes(_) => VerifyScanning(q.challenge, Unused(CodesOf(s.codes, q.challenge.user)))
      case Compare(_, matches) =>
        if q.rows == [] then Finished
        else if matches then VerifyMatched(q.challenge, q.rows[0])
        else VerifyScanning(q.challenge, q.rows[1..])
      case ConsumeCode(_) =>
        if CodeOpen(CodesOf(s.codes, q.challenge.user), q.row.id)
        then VerifyAccepted(q.challenge, Recovery(q.row.id)) else Finished
      case ConsumeChallenge(_) =>
        if ChallengeOpen(s.challenges, q.challenge.id) then VerifyConsumed(q.challenge, q.via) else Finished
      case WriterCheck(_, correct, hashes) => if correct then WriterReady(q.user, hashes) else Finished
      case _ => Finished
  }

  /** What the step shows about its request. */
  function Noted(s: State, step: Step): Notes
    requires Enabled(s, step)
  {
    var n := s.notes;
    match step
    case Arrive(r, start) => if start.VerifyStart? then n.(presented := n.presented[r := start.tokenHash]) else n
    case Password(r, user, matches) => if matches then n.(passwords := n.passwords[r := user]) else n
    case GateCheck(r, enrolled, privileged, required) =>
      n.(gates := n.gates[r := GateFacts(enrolled, privileged, required)])
    case CheckTotp(r, correct) =>
      if s.requests[r].presented.SixDigits? && correct
      then n.(passes := n.passes[r := s.requests[r].challenge.user]) else n
    case Compare(r, matches) =>
      if matches && s.requests[r].rows != [] then n.(matched := n.matched[r := s.requests[r].rows[0].id]) else n
    case _ => n
  }

  /** What the step writes to the store. Confirming enrollment and regenerating codes both replace the
      user's whole set. */
  function Written(s: State, step: Step): State
    requires Enabled(s, step)
  {
    match step
    case CreateChallenge(r, id, tokenHash, expiresAt) =>
      var q := s.requests[r];
      s.(challenges := s.challenges[tokenHash := Challenge(id, q.user, q.organization, expiresAt, false)],
         created := s.created[id := Creation(r, q.user, q.organization, tokenHash)],
         issued := s.issued + {id})
    case LoginSession(r, id) =>
      var q := s.requests[r];
      s.(sessions := s.sessions + [Session(id, q.user, q.organization, PasswordOnly(r))],
         issued := s.issued + {id})
    case ConsumeCode(r) =>
      var q := s.requests[r];
      var user := q.challenge.user;
      if CodeOpen(CodesOf(s.codes, user), q.row.id) then
        s.(codes := s.codes[user := MarkUsed(CodesOf(s.codes, user), q.row.id)],
           accepted := s.accepted + [Acceptance(q.row.id, r, user)])
      else s
    case ConsumeChallenge(r) =>
      var q := s.requests[r];
      if ChallengeOpen(s.challenges, q.challenge.id) then
        s.(challenges := ChallengesConsumed(s.challenges, q.challenge.id),
           claims := s.claims + [Claim(q.challenge.id, r)])
      else s
    case VerifySession(r, id) =>
      var q := s.requests[r];
      var c := q.challenge;
      s.(sessions := s.sessions + [Session(id, c.user, c.organization, Verified(c.id, r, q.via))],
         issued := s.issued + {id})
    case ReplaceCodes(r, ids) =>
      var q := s.requests[r];
      s.(codes := s.codes[q.user := NewCodes(ids, q.hashes)],
         issuedTo := Assigned(s.issuedTo, ids, q.user),
         issued := s.issued + (set id | id in ids))
    case _ => s
  }

  function Apply(s: State, step: Step): State
    requires Enabled(s, step)
  {
    Written(s, step).(requests := s.requests[step.r := Next(s, step)], notes := Noted(s, step))
  }

  /** The state a sequence of steps leads to, if each step is enabled when it is taken. */
  function Run(steps: seq<Step>): Option<State> {
    if steps == [] then Some(Initial())
    else
      var before, step := Run(steps[..|steps| - 1]), steps[|steps| - 1];
      if before.Some? && Enabled(before.value, step) then Some(Apply(before.value, step)) else None
  }
}
