/** Every run told from its steps alone: what a request did itself, in order, and what the store showed
    it at each step, decide where it stands and what it left behind. */
module MfaTrace {
  import opened MfaProtocol
  import opened MfaSafety
  import opened Options

  /** The state step `k` is taken in. */
  function Before(steps: seq<Step>, k: nat): State
    requires k <= |steps|
  {
    var s := Run(steps[..k]); if s.Some? then s.value else Initial()
  }

  /** One request's own steps, in order. */
  function Own(steps: seq<Step>, r: Id): seq<Step> {
    if steps == [] then []
    else
      var last := steps[|steps| - 1];
      Own(steps[..|steps| - 1], r) + (if last.r == r then [last] else [])
  }

  // ---------------------------------------------------------------- what the store shows

  datatype Fact =
    | TokenOpens(tokenHash: Id, now: int, challenge: Challenge)
    | TokenRefused(tokenHash: Id, now: int)
    | CodesListed(user: Id, rows: seq<Code>)
    | Scanning(request: Id, rows: seq<Code>)
    | CodeLeft(user: Id, code: Id)
    | CodeSpent(user: Id, code: Id)
    | ChallengeLeft(challengeId: Id)
    | ChallengeSpent(challengeId: Id)

  predicate Fits(s: State, f: Fact) {
    match f
    case TokenOpens(h, now, c) => h in s.challenges && s.challenges[h] == c && !c.consumed && now < c.expiresAt
    case TokenRefused(h, now) =>
      h in s.challenges ==> s.challenges[h].consumed || s.challenges[h].expiresAt <= now
    case CodesListed(user, rows) => rows == (if user in s.codes then Unused(s.codes[user]) else [])
    case Scanning(r, rows) => r in s.requests && s.requests[r].VerifyScanning? && s.requests[r].rows == rows
    case CodeLeft(user, code) =>
      user in s.codes && exists i :: 0 <= i < |s.codes[user]| && s.codes[user][i].id == code && !s.codes[user][i].used
    case CodeSpent(user, code) =>
      user in s.codes ==>
        forall i :: 0 <= i < |s.codes[user]| && s.codes[user][i].id == code ==> s.codes[user][i].used
    case ChallengeLeft(id) => exists h :: h in s.challenges && s.challenges[h].id == id && !s.challenges[h].consumed
    case ChallengeSpent(id) => forall h :: h in s.challenges && s.challenges[h].id == id ==> s.challenges[h].consumed
  }

  /** The step was taken when the fact held. */
  ghost predicate SeenAt(steps: seq<Step>, step: Step, f: Fact) {
    exists k :: 0 <= k < |steps| && steps[k] == step && Fits(Before(steps, k), f)
  }

  // ---------------------------------------------------------------- how far a request's own steps `w` took it

  /** The password was right, the user has a membership, and the gate was asked. */
  predicate ReachedGate(r: Id, w: seq<Step>, user: Id, organization: Id) {
    && |w| >= 4 && w[0] == Arrive(r, LoginStart) && w[1] == Password(r, user, true)
    && w[2] == Membership(r, Some(organization)) && w[3].GateCheck? && w[3].r == r
  }

  predicate Asked(g: Step, gate: Gate) {
    g.GateCheck? && Allows(GateFacts(g.enrolled, g.privileged, g.required), gate)
  }

  /** The token presented opened the challenge, before it expired. */
  ghost predicate Found(steps: seq<Step>, r: Id, w: seq<Step>, c: Challenge, p: Presented) {
    && |w| >= 2 && w[0].Arrive? && w[0].r == r && w[0].start.VerifyStart? && w[0].start.presented == p
    && w[1].Find? && w[1].r == r && SeenAt(steps, w[1], TokenOpens(w[0].start.tokenHash, w[1].now, c))
  }

  /** ... and the account was active. */
  ghost predicate Loaded(steps: seq<Step>, r: Id, w: seq<Step>, c: Challenge, p: Presented) {
    Found(steps, r, w, c, p) && |w| >= 3 && w[2] == Load(r, true)
  }

  /** ... and the text presented matched none of the first `n` codes listed for the user. */
  ghost predicate Scanned(steps: seq<Step>, r: Id, w: seq<Step>, c: Challenge, rows: seq<Code>, n: nat) {
    && Loaded(steps, r, w, c, RecoveryShape) && |w| >= 4 + n && n <= |rows|
    && w[3] == ListCodes(r) && SeenAt(steps, w[3], CodesListed(c.user, rows))
    && (forall j :: 4 <= j < 4 + n ==> w[j] == Compare(r, false))
    && (forall j :: 0 <= j < n ==> SeenAt(steps, Compare(r, false), Scanning(r, rows[j..])))
  }

  /** ... and matched the next. */
  ghost predicate Matched(steps: seq<Step>, r: Id, w: seq<Step>, c: Challenge, rows: seq<Code>, n: nat) {
    && Scanned(steps, r, w, c, rows, n) && |w| >= 5 + n && n < |rows|
    && w[4 + n] == Compare(r, true) && SeenAt(steps, Compare(r, true), Scanning(r, rows[n..]))
  }

  ghost predicate LeftToScan(steps: seq<Step>, r: Id, w: seq<Step>, c: Challenge, n: nat, rest: seq<Code>) {
    exists rows: seq<Code> :: Scanned(steps, r, w, c, rows, n) && n <= |rows| && rest == rows[n..]
  }

  /** The first listed code that the text matched, after `n` that it did not match. */
  ghost predicate MatchIs(steps: seq<Step>, r: Id, w: seq<Step>, c: Challenge, n: nat, row: Code) {
    exists rows: seq<Code> :: Matched(steps, r, w, c, rows, n) && n < |rows| && rows[n] == row
  }

  ghost predicate FirstMatchIs(steps: seq<Step>, r: Id, w: seq<Step>, c: Challenge, n: nat, code: Id) {
    exists row: Code :: MatchIs(steps, r, w, c, n, row) && row.id == code
  }

  /** The first `length` steps got a second factor accepted: an authenticator code found correct, or the
      first listed recovery code that matched, consumed while it was left. */
  ghost predicate Accepted(steps: seq<Step>, r: Id, w: seq<Step>, c: Challenge, via: Via, length: nat) {
    && length <= |w|
    && match via
       case Totp => length == 4 && Loaded(steps, r, w, c, SixDigits) && w[3] == CheckTotp(r, true)
       case Recovery(code) =>
         && length >= 6 && FirstMatchIs(steps, r, w, c, length - 6, code)
         && w[length - 1] == ConsumeCode(r) && SeenAt(steps, ConsumeCode(r), CodeLeft(c.user, code))
  }

  /** ... and the step after claimed the challenge. */
  ghost predicate Claiming(steps: seq<Step>, r: Id, w: seq<Step>, c: Challenge, via: Via, length: nat) {
    && Accepted(steps, r, w, c, via, length) && |w| > length && w[length] == ConsumeChallenge(r)
    && SeenAt(steps, ConsumeChallenge(r), ChallengeLeft(c.id))
  }

  // ---------------------------------------------------------------- where a request stands

  /** The ways a login ends. */
  ghost predicate LoginEnded(r: Id, w: seq<Step>) {
    && |w| >= 2 && w[0] == Arrive(r, LoginStart) && w[1].Password? && w[1].r == r
    && (|| (|w| == 2 && !w[1].matches)
        || (|w| == 3 && w[1].matches && w[2] == Membership(r, None))
        || (|w| == 4 && w[2].Membership? && w[2].organization.Some?
            && ReachedGate(r, w, w[1].user, w[2].organization.value) && Asked(w[3], MustEnroll))
        || (|w| == 5 && w[2].Membership? && w[2].organization.Some?
            && ReachedGate(r, w, w[1].user, w[2].organization.value)
            && ((Asked(w[3], MustVerify) && w[4].CreateChallenge?) || (Asked(w[3], NoMfa) && w[4].LoginSession?))))
  }

  /** The ways a verification ends before a factor is accepted. */
  ghost predicate CheckEnded(steps: seq<Step>, r: Id, w: seq<Step>) {
    || (|w| == 2 && w[0].Arrive? && w[0].r == r && w[0].start.VerifyStart? && w[1].Find? && w[1].r == r
        && SeenAt(steps, w[1], TokenRefused(w[0].start.tokenHash, w[1].now)))
    || (exists c: Challenge, p: Presented :: Found(steps, r, w, c, p) && |w| == 3 && w[2] == Load(r, false))
    || (exists c: Challenge, p: Presented :: Loaded(steps, r, w, c, p) && |w| == 4 && w[3].CheckTotp?
          && (p.Malformed? || (p.SixDigits? && !w[3].correct)))
    || (exists c: Challenge, rows: seq<Code> ::
          Scanned(steps, r, w, c, rows, |rows|) && |w| == 5 + |rows| && w[4 + |rows|].Compare?)
    || (exists c: Challenge, rows: seq<Code>, n: nat ::
          Matched(steps, r, w, c, rows, n) && |w| == 6 + n && w[5 + n] == ConsumeCode(r)
          && n < |rows| && SeenAt(steps, ConsumeCode(r), CodeSpent(c.user, rows[n].id)))
  }

  /** The ways it ends after that: the challenge is gone, or the session is made. */
  ghost predicate GrantEnded(steps: seq<Step>, r: Id, w: seq<Step>) {
    || (exists c: Challenge, via: Via, n: nat ::
          Accepted(steps, r, w, c, via, n) && |w| == n + 1 && w[n] == ConsumeChallenge(r)
          && SeenAt(steps, ConsumeChallenge(r), ChallengeSpent(c.id)))
    || (exists c: Challenge, via: Via, n: nat ::
          Claiming(steps, r, w, c, via, n) && |w| == n + 2 && w[n + 1].VerifySession?)
  }

  ghost predicate WriterEnded(r: Id, w: seq<Step>) {
    && |w| >= 2 && w[0].Arrive? && w[0].r == r && w[0].start.WriterStart? && w[1].WriterCheck? && w[1].r == r
    && ((|w| == 2 && !w[1].correct) || (|w| == 3 && w[1].correct && w[2].ReplaceCodes?))
  }

  /** The request's own steps `w` take it to `q`, and no other way leads there. */
  ghost predicate Stands(steps: seq<Step>, r: Id, w: seq<Step>, q: Request) {
    match q
    case LoginStart => w == [Arrive(r, q)]
    case LoginPassed(user) => w == [Arrive(r, LoginStart), Password(r, user, true)]
    case LoginMember(user, org) => w == [Arrive(r, LoginStart), Password(r, user, true), Membership(r, Some(org))]
    case LoginGated(user, org, gate) =>
      |w| == 4 && ReachedGate(r, w, user, org) && !gate.MustEnroll? && Asked(w[3], gate)
    case VerifyStart(_, _) => w == [Arrive(r, q)]
    case VerifyFound(c, p) => |w| == 2 && Found(steps, r, w, c, p)
    case VerifyLoaded(c, p) => |w| == 3 && Loaded(steps, r, w, c, p)
    case VerifyScanning(c, rest) =>
      |w| >= 4 && LeftToScan(steps, r, w, c, |w| - 4, rest)
    case VerifyMatched(c, row) =>
      |w| >= 5 && MatchIs(steps, r, w, c, |w| - 5, row)
    case VerifyAccepted(c, via) => Accepted(steps, r, w, c, via, |w|)
    case VerifyConsumed(c, via) => |w| >= 1 && Claiming(steps, r, w, c, via, |w| - 1)
    case WriterStart(_) => w == [Arrive(r, q)]
    case WriterReady(user, hashes) => w == [Arrive(r, WriterStart(user)), WriterCheck(r, true, hashes)]
    case Finished => LoginEnded(r, w) || CheckEnded(steps, r, w) || GrantEnded(steps, r, w) || WriterEnded(r, w)
  }

  // ---------------------------------------------------------------- what was so stays so

  lemma OwnGrows(steps: seq<Step>, x: Step, r: Id)
    ensures Own(steps + [x], r) == if x.r == r then Own(steps, r) + [x] else Own(steps, r)
  {
    assert (steps + [x])[..|steps|] == steps;
    assert Own(steps, r) + [] == Own(steps, r);
  }

  lemma SeenStays(steps: seq<Step>, x: Step, step: Step, f: Fact)
    requires SeenAt(steps, step, f)
    ensures SeenAt(steps + [x], step, f)
  {
    hide Run, Fits;
    var k :| 0 <= k < |steps| && steps[k] == step && Fits(Before(steps, k), f);
    assert (steps + [x])[..k] == steps[..k] && (steps + [x])[k] == step;
  }

  lemma SeenNow(steps: seq<Step>, s: State, x: Step, f: Fact)
    requires Run(steps) == Some(s) && Fits(s, f)
    ensures SeenAt(steps + [x], x, f)
  {
    hide Run, Fits;
    assert (steps + [x])[..|steps|] == steps && (steps + [x])[|steps|] == x;
  }

  lemma FoundStays(steps: seq<Step>, x: Step, r: Id, w: seq<Step>, v: seq<Step>, c: Challenge, p: Presented)
    requires Found(steps, r, w, c, p) && w <= v
    ensures Found(steps + [x], r, v, c, p)
  {
    hide SeenAt;
    SeenStays(steps, x, w[1], TokenOpens(w[0].start.tokenHash, w[1].now, c));
  }

  lemma LoadedStays(steps: seq<Step>, x: Step, r: Id, w: seq<Step>, v: seq<Step>, c: Challenge, p: Presented)
    requires Loaded(steps, r, w, c, p) && w <= v
    ensures Loaded(steps + [x], r, v, c, p)
  {
    hide Found;
    FoundStays(steps, x, r, w, v, c, p);
  }

  lemma ScannedStays(steps: seq<Step>, x: Step, r: Id, w: seq<Step>, v: seq<Step>, c: Challenge, rows: seq<Code>,
                     n: nat)
    requires Scanned(steps, r, w, c, rows, n) && w <= v
    ensures Scanned(steps + [x], r, v, c, rows, n)
  {
    hide Loaded, SeenAt;
    LoadedStays(steps, x, r, w, v, c, RecoveryShape);
    SeenStays(steps, x, w[3], CodesListed(c.user, rows));
    forall j | 0 <= j < n ensures SeenAt(steps + [x], Compare(r, false), Scanning(r, rows[j..])) {
      SeenStays(steps, x, Compare(r, false), Scanning(r, rows[j..]));
    }
  }

  lemma MatchedStays(steps: seq<Step>, x: Step, r: Id, w: seq<Step>, v: seq<Step>, c: Challenge, rows: seq<Code>,
                     n: nat)
    requires Matched(steps, r, w, c, rows, n) && w <= v
    ensures Matched(steps + [x], r, v, c, rows, n)
  {
    hide Scanned, SeenAt;
    ScannedStays(steps, x, r, w, v, c, rows, n);
    SeenStays(steps, x, Compare(r, true), Scanning(r, rows[n..]));
  }

  lemma LeftToScanStays(steps: seq<Step>, x: Step, r: Id, w: seq<Step>, c: Challenge, n: nat, rest: seq<Code>)
    requires LeftToScan(steps, r, w, c, n, rest)
    ensures LeftToScan(steps + [x], r, w, c, n, rest)
  {
    var rows: seq<Code> :| Scanned(steps, r, w, c, rows, n) && n <= |rows| && rest == rows[n..];
    ScannedStays(steps, x, r, w, w, c, rows, n);
  }

  lemma MatchIsStays(steps: seq<Step>, x: Step, r: Id, w: seq<Step>, v: seq<Step>, c: Challenge, n: nat, row: Code)
    requires MatchIs(steps, r, w, c, n, row) && w <= v
    ensures MatchIs(steps + [x], r, v, c, n, row)
  {
    var rows: seq<Code> :| Matched(steps, r, w, c, rows, n) && n < |rows| && rows[n] == row;
    MatchedStays(steps, x, r, w, v, c, rows, n);
  }

  lemma AcceptedStays(steps: seq<Step>, x: Step, r: Id, w: seq<Step>, v: seq<Step>, c: Challenge, via: Via, length: nat)
    requires Accepted(steps, r, w, c, via, length) && w <= v
    ensures Accepted(steps + [x], r, v, c, via, length)
  {
    hide Loaded, SeenAt, MatchIs;
    match via
    case Totp => LoadedStays(steps, x, r, w, v, c, SixDigits);
    case Recovery(code) =>
      var row: Code :| MatchIs(steps, r, w, c, length - 6, row) && row.id == code;
      MatchIsStays(steps, x, r, w, v, c, length - 6, row);
      SeenStays(steps, x, ConsumeCode(r), CodeLeft(c.user, code));
  }

  lemma ClaimingStays(steps: seq<Step>, x: Step, r: Id, w: seq<Step>, v: seq<Step>, c: Challenge, via: Via, length: nat)
    requires Claiming(steps, r, w, c, via, length) && w <= v
    ensures Claiming(steps + [x], r, v, c, via, length)
  {
    hide Accepted, SeenAt;
    AcceptedStays(steps, x, r, w, v, c, via, length);
    SeenStays(steps, x, ConsumeChallenge(r), ChallengeLeft(c.id));
  }

  lemma CheckEndedStays(steps: seq<Step>, x: Step, r: Id, w: seq<Step>)
    requires CheckEnded(steps, r, w)
    ensures CheckEnded(steps + [x], r, w)
  {
    hide SeenAt, Found, Loaded, Scanned, Matched;
    if c: Challenge, p: Presented :| Found(steps, r, w, c, p) && |w| == 3 && w[2] == Load(r, false) {
      FoundStays(steps, x, r, w, w, c, p);
    } else if c: Challenge, p: Presented :| Loaded(steps, r, w, c, p) && |w| == 4 && w[3].CheckTotp?
                                             && (p.Malformed? || (p.SixDigits? && !w[3].correct)) {
      LoadedStays(steps, x, r, w, w, c, p);
    } else if c: Challenge, rows: seq<Code> :| Scanned(steps, r, w, c, rows, |rows|)
                                                 && |w| == 5 + |rows| && w[4 + |rows|].Compare? {
      ScannedStays(steps, x, r, w, w, c, rows, |rows|);
    } else if c: Challenge, rows: seq<Code>, n: nat :|
        Matched(steps, r, w, c, rows, n) && |w| == 6 + n && w[5 + n] == ConsumeCode(r)
        && n < |rows| && SeenAt(steps, ConsumeCode(r), CodeSpent(c.user, rows[n].id)) {
      MatchedStays(steps, x, r, w, w, c, rows, n);
      SeenStays(steps, x, ConsumeCode(r), CodeSpent(c.user, rows[n].id));
    } else {
      SeenStays(steps, x, w[1], TokenRefused(w[0].start.tokenHash, w[1].now));
    }
  }

  lemma GrantEndedStays(steps: seq<Step>, x: Step, r: Id, w: seq<Step>)
    requires GrantEnded(steps, r, w)
    ensures GrantEnded(steps + [x], r, w)
  {
    hide SeenAt, Accepted, Claiming;
    if c: Challenge, via: Via, n: nat :| Claiming(steps, r, w, c, via, n) && |w| == n + 2 && w[n + 1].VerifySession? {
      ClaimingStays(steps, x, r, w, w, c, via, n);
    } else {
      var c: Challenge, via: Via, n: nat :| Accepted(steps, r, w, c, via, n) && |w| == n + 1
        && w[n] == ConsumeChallenge(r) && SeenAt(steps, ConsumeChallenge(r), ChallengeSpent(c.id));
      AcceptedStays(steps, x, r, w, w, c, via, n);
      SeenStays(steps, x, ConsumeChallenge(r), ChallengeSpent(c.id));
    }
  }

  lemma StandsStays(steps: seq<Step>, x: Step, r: Id, w: seq<Step>, q: Request)
    requires Stands(steps, r, w, q)
    ensures Stands(steps + [x], r, w, q)
  {
    hide Found, Loaded, LeftToScan, MatchIs, Accepted, Claiming, CheckEnded, GrantEnded;
    match q
    case VerifyFound(c, p) => FoundStays(steps, x, r, w, w, c, p);
    case VerifyLoaded(c, p) => LoadedStays(steps, x, r, w, w, c, p);
    case VerifyScanning(c, rest) => LeftToScanStays(steps, x, r, w, c, |w| - 4, rest);
    case VerifyMatched(c, row) => MatchIsStays(steps, x, r, w, w, c, |w| - 5, row);
    case VerifyAccepted(c, via) => AcceptedStays(steps, x, r, w, w, c, via, |w|);
    case VerifyConsumed(c, via) => ClaimingStays(steps, x, r, w, w, c, via, |w| - 1);
    case Finished =>
      if CheckEnded(steps, r, w) {
        CheckEndedStays(steps, x, r, w);
      }
      if GrantEnded(steps, r, w) {
        GrantEndedStays(steps, x, r, w);
      }
    case _ =>
  }

  // ---------------------------------------------------------------- each step leads where it should

  /** The request stands where its own steps say, in the state the run so far leads to. */
  ghost predicate Ready(steps: seq<Step>, s: State, x: Step, w: seq<Step>) {
    && Run(steps) == Some(s) && Enabled(s, x)
    && (x.Arrive? ==> w == []) && (!x.Arrive? ==> Stands(steps, x.r, w, s.requests[x.r]))
  }

  lemma LoginStands(steps: seq<Step>, s: State, x: Step, w: seq<Step>)
    requires Ready(steps, s, x, w)
    requires x.Arrive? || x.Password? || x.Membership? || x.CreateChallenge? || x.LoginSession?
    ensures Stands(steps + [x], x.r, w + [x], Next(s, x))
  {
    hide Run, CheckEnded, GrantEnded, WriterEnded;
  }

  lemma GateStands(steps: seq<Step>, s: State, x: Step, w: seq<Step>)
    requires Ready(steps, s, x, w) && x.GateCheck?
    ensures Stands(steps + [x], x.r, w + [x], Next(s, x))
  {
    hide Run, CheckEnded, GrantEnded, WriterEnded;
  }

  lemma WriterStands(steps: seq<Step>, s: State, x: Step, w: seq<Step>)
    requires Ready(steps, s, x, w) && (x.WriterCheck? || x.ReplaceCodes?)
    ensures Stands(steps + [x], x.r, w + [x], Next(s, x))
  {
    hide Run, CheckEnded, GrantEnded, LoginEnded;
  }

  lemma FindStands(steps: seq<Step>, s: State, x: Step, w: seq<Step>)
    requires Ready(steps, s, x, w) && x.Find?
    ensures Stands(steps + [x], x.r, w + [x], Next(s, x))
  {
    hide Run, GrantEnded, WriterEnded, LoginEnded, SeenAt;
    var h := s.requests[x.r].tokenHash;
    if Fits(s, TokenRefused(h, x.now)) {
      SeenNow(steps, s, x, TokenRefused(h, x.now));
    } else {
      SeenNow(steps, s, x, TokenOpens(h, x.now, s.challenges[h]));
    }
  }

  lemma LoadStands(steps: seq<Step>, s: State, x: Step, w: seq<Step>)
    requires Ready(steps, s, x, w) && x.Load?
    ensures Stands(steps + [x], x.r, w + [x], Next(s, x))
  {
    hide Run, GrantEnded, WriterEnded, LoginEnded, Found;
    var q := s.requests[x.r];
    FoundStays(steps, x, x.r, w, w + [x], q.challenge, q.presented);
  }

  lemma TotpStands(steps: seq<Step>, s: State, x: Step, w: seq<Step>)
    requires Ready(steps, s, x, w) && x.CheckTotp?
    ensures Stands(steps + [x], x.r, w + [x], Next(s, x))
  {
    hide Run, GrantEnded, WriterEnded, LoginEnded, Loaded;
    var q := s.requests[x.r];
    LoadedStays(steps, x, x.r, w, w + [x], q.challenge, q.presented);
  }

  lemma ListTells(steps: seq<Step>, s: State, x: Step, w: seq<Step>, c: Challenge, rows: seq<Code>)
    requires Run(steps) == Some(s) && Enabled(s, x) && x.ListCodes? && |w| == 3
    requires Loaded(steps, x.r, w, c, RecoveryShape) && Fits(s, CodesListed(c.user, rows))
    ensures LeftToScan(steps + [x], x.r, w + [x], c, 0, rows)
  {
    hide Run, Enabled, Fits, Loaded, SeenAt;
    LoadedStays(steps, x, x.r, w, w + [x], c, RecoveryShape);
    SeenNow(steps, s, x, CodesListed(c.user, rows));
    assert Scanned(steps + [x], x.r, w + [x], c, rows, 0) && rows[0..] == rows;
  }

  lemma ListStands(steps: seq<Step>, s: State, x: Step, w: seq<Step>)
    requires Ready(steps, s, x, w) && x.ListCodes?
    ensures Stands(steps + [x], x.r, w + [x], Next(s, x))
  {
    hide Run, GrantEnded, WriterEnded, LoginEnded, CheckEnded, Loaded, LeftToScan;
    var q := s.requests[x.r];
    ListTells(steps, s, x, w, q.challenge, Next(s, x).rows);
  }

  /** One more comparison: the list is exhausted, or its next row matched, or it did not. */
  lemma CompareTells(steps: seq<Step>, r: Id, v: seq<Step>, c: Challenge, rows: seq<Code>, n: nat, matches: bool)
    requires Scanned(steps, r, v, c, rows, n) && |v| == 5 + n && v[4 + n] == Compare(r, matches)
    requires SeenAt(steps, Compare(r, matches), Scanning(r, rows[n..]))
    ensures n == |rows| ==> CheckEnded(steps, r, v)
    ensures n < |rows| && matches ==> MatchIs(steps, r, v, c, n, rows[n])
    ensures n < |rows| && !matches ==> LeftToScan(steps, r, v, c, n + 1, rows[n + 1..])
  {
    hide Loaded, SeenAt;
    if n < |rows| && matches {
      assert Matched(steps, r, v, c, rows, n);
    } else if n < |rows| {
      assert Scanned(steps, r, v, c, rows, n + 1);
    }
  }

  lemma ScanTells(steps: seq<Step>, s: State, x: Step, w: seq<Step>, c: Challenge, rest: seq<Code>, n: nat)
    requires Run(steps) == Some(s) && Enabled(s, x) && x.Compare? && |w| == 4 + n
    requires s.requests[x.r] == VerifyScanning(c, rest) && LeftToScan(steps, x.r, w, c, n, rest)
    ensures rest == [] ==> CheckEnded(steps + [x], x.r, w + [x])
    ensures rest != [] && x.matches ==> MatchIs(steps + [x], x.r, w + [x], c, n, rest[0])
    ensures rest != [] && !x.matches ==> LeftToScan(steps + [x], x.r, w + [x], c, n + 1, rest[1..])
  {
    hide Run, Scanned, MatchIs, CheckEnded, SeenAt;
    var rows: seq<Code> :| Scanned(steps, x.r, w, c, rows, n) && n <= |rows| && rest == rows[n..];
    ScannedStays(steps, x, x.r, w, w + [x], c, rows, n);
    SeenNow(steps, s, x, Scanning(x.r, rest));
    CompareTells(steps + [x], x.r, w + [x], c, rows, n, x.matches);
    if rest != [] {
      assert rest[0] == rows[n] && rest[1..] == rows[n + 1..];
    }
  }

  lemma CompareStands(steps: seq<Step>, s: State, x: Step, w: seq<Step>)
    requires Ready(steps, s, x, w) && x.Compare?
    ensures Stands(steps + [x], x.r, w + [x], Next(s, x))
  {
    hide Run, GrantEnded, WriterEnded, LoginEnded, LeftToScan, MatchIs, CheckEnded;
    var q := s.requests[x.r];
    ScanTells(steps, s, x, w, q.challenge, q.rows, |w| - 4);
    var n, v := |w| - 4, w + [x];
    assert |v| - 5 == n && |v| - 4 == n + 1;
  }

  lemma CodeIsAccepted(steps: seq<Step>, r: Id, v: seq<Step>, c: Challenge, n: nat, row: Code)
    requires |v| == n + 6 && MatchIs(steps, r, v, c, n, row) && v[n + 5] == ConsumeCode(r)
    requires SeenAt(steps, ConsumeCode(r), CodeLeft(c.user, row.id))
    ensures Accepted(steps, r, v, c, Recovery(row.id), |v|)
  {
    hide MatchIs, SeenAt;
    var length: nat := |v|;
    assert length - 6 == n;
    assert FirstMatchIs(steps, r, v, c, length - 6, row.id);
  }

  lemma CodeIsRefused(steps: seq<Step>, r: Id, v: seq<Step>, c: Challenge, n: nat, rows: seq<Code>)
    requires n < |rows| && |v| == n + 6 && Matched(steps, r, v, c, rows, n) && v[n + 5] == ConsumeCode(r)
    requires SeenAt(steps, ConsumeCode(r), CodeSpent(c.user, rows[n].id))
    ensures CheckEnded(steps, r, v)
  {
    hide Matched, SeenAt, Found, Loaded, Scanned;
  }

  lemma ConsumeCodeStands(steps: seq<Step>, s: State, x: Step, w: seq<Step>)
    requires Ready(steps, s, x, w) && x.ConsumeCode?
    ensures Stands(steps + [x], x.r, w + [x], Next(s, x))
  {
    hide Run, GrantEnded, WriterEnded, LoginEnded, CheckEnded, Accepted, Matched, SeenAt;
    var c, row, n := s.requests[x.r].challenge, s.requests[x.r].row, |w| - 5;
    var rows: seq<Code> :| Matched(steps, x.r, w, c, rows, n) && n < |rows| && rows[n] == row;
    var v := w + [x];
    MatchedStays(steps, x, x.r, w, v, c, rows, n);
    assert MatchIs(steps + [x], x.r, v, c, n, row) && x == ConsumeCode(x.r);
    if Fits(s, CodeLeft(c.user, row.id)) {
      SeenNow(steps, s, x, CodeLeft(c.user, row.id));
      CodeIsAccepted(steps + [x], x.r, v, c, n, row);
    } else {
      SeenNow(steps, s, x, CodeSpent(c.user, row.id));
      CodeIsRefused(steps + [x], x.r, v, c, n, rows);
    }
  }

  lemma ConsumeChallengeStands(steps: seq<Step>, s: State, x: Step, w: seq<Step>)
    requires Ready(steps, s, x, w) && x.ConsumeChallenge?
    ensures Stands(steps + [x], x.r, w + [x], Next(s, x))
  {
    hide Run, CheckEnded, WriterEnded, LoginEnded, Accepted, SeenAt;
    var c, via := s.requests[x.r].challenge, s.requests[x.r].via;
    AcceptedStays(steps, x, x.r, w, w + [x], c, via, |w|);
    if Fits(s, ChallengeLeft(c.id)) {
      SeenNow(steps, s, x, ChallengeLeft(c.id));
    } else {
      SeenNow(steps, s, x, ChallengeSpent(c.id));
    }
  }

  lemma VerifySessionStands(steps: seq<Step>, s: State, x: Step, w: seq<Step>)
    requires Ready(steps, s, x, w) && x.VerifySession?
    ensures Stands(steps + [x], x.r, w + [x], Next(s, x))
  {
    hide Run, CheckEnded, WriterEnded, LoginEnded, Claiming;
    var c, via := s.requests[x.r].challenge, s.requests[x.r].via;
    ClaimingStays(steps, x, x.r, w, w + [x], c, via, |w| - 1);
  }

  lemma NextStands(steps: seq<Step>, s: State, x: Step, w: seq<Step>)
    requires Ready(steps, s, x, w)
    ensures Stands(steps + [x], x.r, w + [x], Next(s, x))
  {
    hide Ready, Stands, Next;
    match x
    case GateCheck(_, _, _, _) => GateStands(steps, s, x, w);
    case WriterCheck(_, _, _) => WriterStands(steps, s, x, w);
    case ReplaceCodes(_, _) => WriterStands(steps, s, x, w);
    case Find(_, _) => FindStands(steps, s, x, w);
    case Load(_, _) => LoadStands(steps, s, x, w);
    case CheckTotp(_, _) => TotpStands(steps, s, x, w);
    case ListCodes(_) => ListStands(steps, s, x, w);
    case Compare(_, _) => CompareStands(steps, s, x, w);
    case ConsumeCode(_) => ConsumeCodeStands(steps, s, x, w);
    case ConsumeChallenge(_) => ConsumeChallengeStands(steps, s, x, w);
    case VerifySession(_, _) => VerifySessionStands(steps, s, x, w);
    case _ => LoginStands(steps, s, x, w);
  }

  // ---------------------------------------------------------------- what requests leave behind

  /** A session on the password alone comes from a login whose gate needed no second factor; any other
      from a request that found its challenge, showed a factor of the challenge's user and claimed it. */
  ghost predicate SessionMade(steps: seq<Step>, x: Session) {
    match x.origin
    case PasswordOnly(login) =>
      var w := Own(steps, login);
      && ReachedGate(login, w, x.user, x.organization) && Asked(w[3], NoMfa)
      && |w| >= 5 && w[4] == LoginSession(login, x.id)
    case Verified(c, r, via) => exists ch: Challenge, n: nat :: VerifiedBy(steps, x, ch, n)
  }

  ghost predicate VerifiedBy(steps: seq<Step>, x: Session, c: Challenge, n: nat)
    requires x.origin.Verified?
  {
    var r, w := x.origin.request, Own(steps, x.origin.request);
    && c.id == x.origin.challenge && c.user == x.user && c.organization == x.organization
    && Claiming(steps, r, w, c, x.origin.via, n) && |w| >= n + 2 && w[n + 1] == VerifySession(r, x.id)
  }

  /** A challenge comes from a login of an enrolled user, and is made for that user and token. */
  predicate ChallengeMade(steps: seq<Step>, id: Id, m: Creation) {
    var w := Own(steps, m.login);
    && ReachedGate(m.login, w, m.user, m.organization) && Asked(w[3], MustVerify)
    && |w| >= 5 && w[4].CreateChallenge? && w[4].id == id && w[4].tokenHash == m.tokenHash
  }

  /** A stored challenge says what its login asked for. */
  ghost predicate StoredAs(steps: seq<Step>, login: Id, h: Id, c: Challenge) {
    var w := Own(steps, login);
    ReachedGate(login, w, c.user, c.organization) && |w| >= 5 && w[4] == CreateChallenge(login, c.id, h, c.expiresAt)
  }

  /** An accepted code is the first of its user's that the text matched. */
  ghost predicate CodeAccepted(steps: seq<Step>, a: Acceptance) {
    exists c: Challenge, n: nat ::
      c.user == a.user && Accepted(steps, a.request, Own(steps, a.request), c, Recovery(a.code), n)
  }

  /** A code row was written by a confirmed enrollment or regeneration of its user. */
  predicate CodeMadeBy(steps: seq<Step>, user: Id, row: Code, writer: Id, j: nat) {
    var w := Own(steps, writer);
    && |w| >= 3 && w[0] == Arrive(writer, WriterStart(user)) && w[1].WriterCheck? && w[1].correct
    && w[2].ReplaceCodes? && j < |w[1].hashes| && j < |w[2].ids|
    && w[2].ids[j] == row.id && w[1].hashes[j] == row.hash
  }

  ghost predicate CodeMade(steps: seq<Step>, user: Id, row: Code) {
    exists writer: Id, j: nat :: CodeMadeBy(steps, user, row, writer, j)
  }

  /** What a step makes is there for good. */
  ghost predicate Left(s: State, step: Step) {
    match step
    case CreateChallenge(r, id, h, _) => id in s.created && s.created[id].login == r && s.created[id].tokenHash == h
    case LoginSession(r, id) =>
      exists i :: 0 <= i < |s.sessions| && s.sessions[i].id == id && s.sessions[i].origin == PasswordOnly(r)
    case VerifySession(r, id) =>
      exists i :: 0 <= i < |s.sessions| && s.sessions[i].id == id && s.sessions[i].origin.Verified?
                  && s.sessions[i].origin.request == r
    case _ => true
  }

  ghost predicate RequestsStand(steps: seq<Step>, s: State) {
    && (forall r :: r in s.requests ==> Stands(steps, r, Own(steps, r), s.requests[r]))
    && (forall r :: r !in s.requests ==> Own(steps, r) == [])
  }

  ghost predicate SessionsMade(steps: seq<Step>, s: State) {
    forall i :: 0 <= i < |s.sessions| ==> SessionMade(steps, s.sessions[i])
  }

  ghost predicate ChallengesMade(steps: seq<Step>, s: State) {
    && (forall c :: c in s.created ==> ChallengeMade(steps, c, s.created[c]))
    && (forall h :: h in s.challenges ==> exists login :: StoredAs(steps, login, h, s.challenges[h]))
  }

  ghost predicate CodesMade(steps: seq<Step>, s: State) {
    && (forall k :: 0 <= k < |s.accepted| ==> CodeAccepted(steps, s.accepted[k]))
    && (forall u, i :: u in s.codes && 0 <= i < |s.codes[u]| ==>
          CodeMade(steps, u, s.codes[u][i]))
  }

  ghost predicate AllLeft(steps: seq<Step>, s: State) {
    forall k :: 0 <= k < |steps| ==> Left(s, steps[k])
  }

  lemma RequestsStandStep(steps: seq<Step>, s: State, x: Step)
    requires Run(steps) == Some(s) && Enabled(s, x) && RequestsStand(steps, s)
    ensures RequestsStand(steps + [x], Apply(s, x))
  {
    hide Run, Enabled, Next, Noted, Stands;
    var t := Apply(s, x);
    assert t.requests == s.requests[x.r := Next(s, x)] by { AppliesNext(s, x); }
    ReadyNow(steps, s, x);
    NextStands(steps, s, x, Own(steps, x.r));
    forall r ensures Own(steps + [x], r) == if x.r == r then Own(steps, r) + [x] else Own(steps, r) {
      OwnGrows(steps, x, r);
    }
    forall r | r in t.requests && r != x.r ensures Stands(steps + [x], r, Own(steps + [x], r), t.requests[r]) {
      StandsStays(steps, x, r, Own(steps, r), s.requests[r]);
    }
  }

  lemma AppliesNext(s: State, x: Step)
    requires Enabled(s, x)
    ensures Apply(s, x).requests == s.requests[x.r := Next(s, x)]
  {
    hide Next, Noted, Written;
  }

  lemma ReadyNow(steps: seq<Step>, s: State, x: Step)
    requires Run(steps) == Some(s) && Enabled(s, x) && RequestsStand(steps, s)
    ensures Ready(steps, s, x, Own(steps, x.r))
  {
    hide Run, Stands, Own;
  }

  lemma OwnPrefix(steps: seq<Step>, x: Step, r: Id)
    ensures Own(steps, r) <= Own(steps + [x], r)
  {
    OwnGrows(steps, x, r);
  }

  lemma SessionMadeStays(steps: seq<Step>, x: Step, y: Session)
    requires SessionMade(steps, y)
    ensures SessionMade(steps + [x], y)
  {
    hide Own, Claiming;
    if y.origin.Verified? {
      var c: Challenge, n: nat :| VerifiedBy(steps, y, c, n);
      var r := y.origin.request;
      OwnPrefix(steps, x, r);
      ClaimingStays(steps, x, r, Own(steps, r), Own(steps + [x], r), c, y.origin.via, n);
      assert VerifiedBy(steps + [x], y, c, n);
    } else {
      OwnPrefix(steps, x, y.origin.login);
    }
  }

  lemma NewSession(steps: seq<Step>, s: State, x: Step, y: Session)
    requires Ready(steps, s, x, Own(steps, x.r))
    requires x.LoginSession? ==>
               y == Session(x.id, s.requests[x.r].user, s.requests[x.r].organization, PasswordOnly(x.r))
    requires x.VerifySession? ==>
               var q := s.requests[x.r];
               y == Session(x.id, q.challenge.user, q.challenge.organization, Verified(q.challenge.id, x.r, q.via))
    requires x.LoginSession? || x.VerifySession?
    ensures SessionMade(steps + [x], y)
  {
    hide Run, Own, Claiming;
    var w := Own(steps, x.r);
    OwnGrows(steps, x, x.r);
    if x.VerifySession? {
      var c, via := s.requests[x.r].challenge, s.requests[x.r].via;
      ClaimingStays(steps, x, x.r, w, w + [x], c, via, |w| - 1);
      assert VerifiedBy(steps + [x], y, c, |w| - 1);
    }
  }

  /** A step adds no session, or the one it makes. */
  lemma SessionsAfter(s: State, x: Step)
    requires Enabled(s, x)
    ensures var q := if x.r in s.requests then s.requests[x.r] else Finished;
            Apply(s, x).sessions == s.sessions +
              if x.LoginSession? then [Session(x.id, q.user, q.organization, PasswordOnly(x.r))]
              else if x.VerifySession? then
                [Session(x.id, q.challenge.user, q.challenge.organization, Verified(q.challenge.id, x.r, q.via))]
              else []
  {
    hide Next, Noted, ChallengeOpen, CodeOpen, CodesOf;
  }

  lemma SessionsMadeStep(steps: seq<Step>, s: State, x: Step)
    requires Run(steps) == Some(s) && Enabled(s, x) && RequestsStand(steps, s) && SessionsMade(steps, s)
    ensures SessionsMade(steps + [x], Apply(s, x))
  {
    var t := Apply(s, x);
    SessionsAfter(s, x);
    ReadyNow(steps, s, x);
    hide Run, Apply, Next, SessionMade, RequestsStand, Ready;
    forall i | 0 <= i < |t.sessions| ensures SessionMade(steps + [x], t.sessions[i]) {
      if i < |s.sessions| {
        SessionMadeStays(steps, x, s.sessions[i]);
      } else {
        NewSession(steps, s, x, t.sessions[i]);
      }
    }
  }

  lemma ChallengesAfter(s: State, x: Step)
    requires Enabled(s, x)
    ensures var t := Apply(s, x);
            if x.CreateChallenge? then
              var q := s.requests[x.r];
              && t.created == s.created[x.id := Creation(x.r, q.user, q.organization, x.tokenHash)]
              && t.challenges ==
                 s.challenges[x.tokenHash := Challenge(x.id, q.user, q.organization, x.expiresAt, false)]
            else
              && t.created == s.created && t.challenges.Keys == s.challenges.Keys
              && forall h :: h in s.challenges ==>
                   t.challenges[h] == s.challenges[h].(consumed := t.challenges[h].consumed)
  {
    hide Next, Noted, ChallengeOpen, CodeOpen, CodesOf;
  }

  lemma ChallengesMadeStep(steps: seq<Step>, s: State, x: Step)
    requires Run(steps) == Some(s) && Enabled(s, x) && RequestsStand(steps, s) && ChallengesMade(steps, s)
    ensures ChallengesMade(steps + [x], Apply(s, x))
  {
    hide Run, Apply, RequestsStand, Enabled, StoredAs, ChallengeMade;
    var t := Apply(s, x);
    forall c | c in t.created ensures ChallengeMade(steps + [x], c, t.created[c]) {
      CreatedStep(steps, s, x, c);
    }
    forall h | h in t.challenges ensures exists login :: StoredAs(steps + [x], login, h, t.challenges[h]) {
      var login := StoredStep(steps, s, x, h);
    }
  }

  lemma CreatedStep(steps: seq<Step>, s: State, x: Step, c: Id)
    requires Run(steps) == Some(s) && Enabled(s, x) && RequestsStand(steps, s) && c in Apply(s, x).created
    requires c in s.created ==> ChallengeMade(steps, c, s.created[c])
    ensures ChallengeMade(steps + [x], c, Apply(s, x).created[c])
  {
    hide Run, Apply, Next, RequestsStand, Ready, Own, StoredAs;
    ChallengesAfter(s, x);
    if x.CreateChallenge? && c == x.id {
      ReadyNow(steps, s, x);
      NewChallenge(steps, s, x);
    } else {
      OwnPrefix(steps, x, s.created[c].login);
    }
  }

  lemma StoredStep(steps: seq<Step>, s: State, x: Step, h: Id) returns (login: Id)
    requires Run(steps) == Some(s) && Enabled(s, x) && RequestsStand(steps, s) && h in Apply(s, x).challenges
    requires h in s.challenges ==> exists login :: StoredAs(steps, login, h, s.challenges[h])
    ensures StoredAs(steps + [x], login, h, Apply(s, x).challenges[h])
  {
    hide Run, Apply, Next, RequestsStand, Ready, Own, ChallengeMade;
    ChallengesAfter(s, x);
    if x.CreateChallenge? && h == x.tokenHash {
      ReadyNow(steps, s, x);
      NewChallenge(steps, s, x);
      login := x.r;
    } else {
      login :| StoredAs(steps, login, h, s.challenges[h]);
      OwnPrefix(steps, x, login);
    }
  }

  lemma NewChallenge(steps: seq<Step>, s: State, x: Step)
    requires Ready(steps, s, x, Own(steps, x.r)) && x.CreateChallenge?
    ensures var q := s.requests[x.r];
            && ChallengeMade(steps + [x], x.id, Creation(x.r, q.user, q.organization, x.tokenHash))
            && StoredAs(steps + [x], x.r, x.tokenHash,
                        Challenge(x.id, q.user, q.organization, x.expiresAt, false))
  {
    hide Run, Own;
    OwnGrows(steps, x, x.r);
  }

  /** A step accepts no code, or the one it consumes. */
  lemma AcceptedAfter(s: State, x: Step)
    requires Enabled(s, x)
    ensures var t := Apply(s, x);
            || t.accepted == s.accepted
            || (x.ConsumeCode?
                && var q := t.requests[x.r];
                   q.VerifyAccepted? && q.via.Recovery?
                   && t.accepted == s.accepted + [Acceptance(q.via.code, x.r, q.challenge.user)])
  {
    hide Noted, ChallengeOpen, CodeOpen, CodesOf;
  }

  lemma CodeAcceptedStays(steps: seq<Step>, x: Step, a: Acceptance)
    requires CodeAccepted(steps, a)
    ensures CodeAccepted(steps + [x], a)
  {
    hide Own, Accepted;
    var r := a.request;
    var c: Challenge, n: nat :| c.user == a.user && Accepted(steps, r, Own(steps, r), c, Recovery(a.code), n);
    OwnPrefix(steps, x, r);
    AcceptedStays(steps, x, r, Own(steps, r), Own(steps + [x], r), c, Recovery(a.code), n);
  }

  /** A step changes code rows only by marking them used or by writing a user's new set. */
  lemma CodesAfter(s: State, x: Step, u: Id, i: nat)
    requires Enabled(s, x) && u in Apply(s, x).codes && i < |Apply(s, x).codes[u]|
    ensures var t := Apply(s, x);
            || (u in s.codes && i < |s.codes[u]| && t.codes[u][i] == s.codes[u][i].(used := t.codes[u][i].used))
            || (x.ReplaceCodes? && u == s.requests[x.r].user && i < |x.ids| == |s.requests[x.r].hashes|
                && t.codes[u][i] == Code(x.ids[i], s.requests[x.r].hashes[i], false))
  {
    hide Next, Noted, ChallengeOpen, CodeOpen;
  }

  lemma NewCodeRow(steps: seq<Step>, s: State, x: Step, i: nat)
    requires Ready(steps, s, x, Own(steps, x.r)) && x.ReplaceCodes? && i < |x.ids| == |s.requests[x.r].hashes|
    ensures CodeMadeBy(steps + [x], s.requests[x.r].user, Code(x.ids[i], s.requests[x.r].hashes[i], false), x.r, i)
  {
    hide Run, Own, Ready, Stands;
    WriterWas(steps, s, x, Own(steps, x.r));
    OwnGrows(steps, x, x.r);
  }

  lemma WriterWas(steps: seq<Step>, s: State, x: Step, w: seq<Step>)
    requires Ready(steps, s, x, w) && x.ReplaceCodes?
    ensures x.r in s.requests && s.requests[x.r].WriterReady?
    ensures w == [Arrive(x.r, WriterStart(s.requests[x.r].user)), WriterCheck(x.r, true, s.requests[x.r].hashes)]
  {
    hide Run, Own, Found, Loaded, LeftToScan, MatchIs, Accepted, Claiming, LoginEnded, CheckEnded, GrantEnded;
  }

  lemma CodesMadeStep(steps: seq<Step>, s: State, x: Step)
    requires Run(steps) == Some(s) && Enabled(s, x) && RequestsStand(steps, s) && CodesMade(steps, s)
    requires RequestsStand(steps + [x], Apply(s, x))
    ensures CodesMade(steps + [x], Apply(s, x))
  {
    hide Run, Apply, RequestsStand, Enabled, CodeAccepted, CodeMade;
    var t := Apply(s, x);
    forall k | 0 <= k < |t.accepted| ensures CodeAccepted(steps + [x], t.accepted[k]) {
      AcceptanceStep(steps, s, x, k);
    }
    forall u, i | u in t.codes && 0 <= i < |t.codes[u]|
      ensures CodeMade(steps + [x], u, t.codes[u][i])
    {
      CodeRowStep(steps, s, x, u, i);
    }
  }

  lemma AcceptanceStep(steps: seq<Step>, s: State, x: Step, k: nat)
    requires Enabled(s, x) && RequestsStand(steps + [x], Apply(s, x)) && k < |Apply(s, x).accepted|
    requires k < |s.accepted| ==> CodeAccepted(steps, s.accepted[k])
    ensures CodeAccepted(steps + [x], Apply(s, x).accepted[k])
  {
    hide Apply, Enabled, Next, Own, Accepted, CodeAccepted, RequestsStand;
    var t := Apply(s, x);
    AcceptedAfter(s, x);
    if k < |s.accepted| {
      CodeAcceptedStays(steps, x, s.accepted[k]);
    } else {
      AppliesNext(s, x);
      AcceptedStands(steps + [x], t, x.r);
    }
  }

  lemma AcceptedStands(steps: seq<Step>, s: State, r: Id)
    requires RequestsStand(steps, s) && r in s.requests
    requires s.requests[r].VerifyAccepted? && s.requests[r].via.Recovery?
    ensures CodeAccepted(steps, Acceptance(s.requests[r].via.code, r, s.requests[r].challenge.user))
  {
    hide Own, Accepted;
    var c, via := s.requests[r].challenge, s.requests[r].via;
    assert Stands(steps, r, Own(steps, r), s.requests[r]);
    assert Accepted(steps, r, Own(steps, r), c, Recovery(via.code), |Own(steps, r)|);
  }

  lemma CodeRowStep(steps: seq<Step>, s: State, x: Step, u: Id, i: nat)
    requires Run(steps) == Some(s) && Enabled(s, x) && RequestsStand(steps, s) && CodesMade(steps, s)
    requires u in Apply(s, x).codes && i < |Apply(s, x).codes[u]|
    ensures CodeMade(steps + [x], u, Apply(s, x).codes[u][i])
  {
    hide Run, Apply, Next, RequestsStand, Ready, Own, CodeMadeBy, CodeAccepted;
    var t := Apply(s, x);
    CodesAfter(s, x, u, i);
    if u in s.codes && i < |s.codes[u]| && t.codes[u][i] == s.codes[u][i].(used := t.codes[u][i].used) {
      assert CodeMade(steps, u, s.codes[u][i]);
      var writer: Id, j: nat :| CodeMadeBy(steps, u, s.codes[u][i], writer, j);
      CodeMadeStays(steps, x, u, s.codes[u][i], t.codes[u][i], writer, j);
    } else {
      ReadyNow(steps, s, x);
      NewCodeRow(steps, s, x, i);
    }
  }

  lemma CodeMadeStays(steps: seq<Step>, x: Step, user: Id, row: Code, after: Code, writer: Id, j: nat)
    requires CodeMadeBy(steps, user, row, writer, j) && after == row.(used := after.used)
    ensures CodeMadeBy(steps + [x], user, after, writer, j)
  {
    hide Own;
    OwnPrefix(steps, x, writer);
  }

  lemma AllLeftStep(steps: seq<Step>, s: State, x: Step)
    requires Run(steps) == Some(s) && Enabled(s, x) && AllLeft(steps, s)
    ensures AllLeft(steps + [x], Apply(s, x))
  {
    hide Run, Apply, Inv, Enabled;
    RunKeepsInv(steps);
    NewChallengeId(s, x);
    var t := Apply(s, x);
    SessionsAfter(s, x);
    ChallengesAfter(s, x);
    assert s.sessions <= t.sessions;
    assert x.LoginSession? || x.VerifySession? ==> t.sessions[|s.sessions|].id == x.id;
    assert Left(t, x);
    forall k | 0 <= k < |steps + [x]| ensures Left(t, (steps + [x])[k]) {
      if k < |steps| {
        assert Left(s, steps[k]);
        LeftStays(s, t, steps[k]);
      }
    }
  }

  lemma NewChallengeId(s: State, x: Step)
    requires Inv(s) && Enabled(s, x)
    ensures x.CreateChallenge? ==> x.r in s.requests && s.requests[x.r].LoginGated? && x.id !in s.created
  {
    hide RequestsInv, CodesInv, ClaimsOnce, AcceptedOnce, CreatedInv, SessionsInv, ClaimsServed, StoredAt, Claimed;
  }

  lemma LeftStays(s: State, t: State, step: Step)
    requires Left(s, step) && s.sessions <= t.sessions
    requires forall c :: c in s.created ==> c in t.created && t.created[c] == s.created[c]
    ensures Left(t, step)
  {
    if step.LoginSession? {
      var i :| 0 <= i < |s.sessions| && s.sessions[i].id == step.id && s.sessions[i].origin == PasswordOnly(step.r);
      assert t.sessions[i] == s.sessions[i];
    } else if step.VerifySession? {
      var i :| 0 <= i < |s.sessions| && s.sessions[i].id == step.id && s.sessions[i].origin.Verified?
        && s.sessions[i].origin.request == step.r;
      assert t.sessions[i] == s.sessions[i];
    }
  }

  /** Every run, told from its steps: where each request stands, where each session, challenge, accepted
      code and code row comes from, and that what a step made is still there. */
  lemma {:induction false} EveryRunAccounted(steps: seq<Step>)
    requires Run(steps).Some?
    ensures var s := Run(steps).value;
            && RequestsStand(steps, s) && SessionsMade(steps, s) && ChallengesMade(steps, s) && CodesMade(steps, s)
            && AllLeft(steps, s)
  {
    hide Apply, RequestsStand, SessionsMade, ChallengesMade, CodesMade, AllLeft, Enabled;
    if steps == [] {
      NothingYet();
    } else {
      var init, x := steps[..|steps| - 1], steps[|steps| - 1];
      EveryRunAccounted(init);
      var s := Run(init).value;
      assert steps == init + [x];
      hide Run;
      RequestsStandStep(init, s, x);
      SessionsMadeStep(init, s, x);
      ChallengesMadeStep(init, s, x);
      CodesMadeStep(init, s, x);
      AllLeftStep(init, s, x);
    }
  }

  lemma NothingYet()
    ensures var s := Initial();
            && RequestsStand([], s) && SessionsMade([], s) && ChallengesMade([], s) && CodesMade([], s)
            && AllLeft([], s)
  {
  }

  // ---------------------------------------------------------------- told from single steps

  lemma {:induction false} OwnAre(steps: seq<Step>, r: Id, step: Step)
    ensures step in Own(steps, r) <==> step in steps && step.r == r
  {
    if steps != [] {
      OwnAre(steps[..|steps| - 1], r, step);
      assert steps == steps[..|steps| - 1] + [steps[|steps| - 1]];
    }
  }

  /** The request compared its text with the user's listed codes in turn, `code` being the first that
      matched. */
  ghost predicate MatchedInTurn(steps: seq<Step>, r: Id, user: Id, code: Id) {
    exists listed: seq<Code>, n: nat :: MatchedAt(steps, r, user, listed, n) && listed[n].id == code
  }

  /** Row `n` of the codes listed was the next to scan when a comparison came out true; each row before it
      was, when one came out false. */
  ghost predicate MatchedAt(steps: seq<Step>, r: Id, user: Id, listed: seq<Code>, n: nat) {
    && n < |listed| && SeenAt(steps, ListCodes(r), CodesListed(user, listed))
    && SeenAt(steps, Compare(r, true), Scanning(r, listed[n..]))
    && forall j :: 0 <= j < n ==> SeenAt(steps, Compare(r, false), Scanning(r, listed[j..]))
  }

  /** Behind every accepted code stands a true comparison with it, and only false ones before. */
  lemma AcceptedCodeMatched(steps: seq<Step>, k: nat)
    requires Run(steps).Some? && k < |Run(steps).value.accepted|
    ensures var a := Run(steps).value.accepted[k]; MatchedInTurn(steps, a.request, a.user, a.code)
  {
    EveryRunAccounted(steps);
    hide Run, Own, Accepted, MatchedInTurn, RequestsStand, SessionsMade, ChallengesMade, AllLeft;
    var a := Run(steps).value.accepted[k];
    assert CodeAccepted(steps, a);
    var c: Challenge, m: nat :|
      c.user == a.user && Accepted(steps, a.request, Own(steps, a.request), c, Recovery(a.code), m);
    AcceptedInTurn(steps, a.request, Own(steps, a.request), c, a.code, m);
  }

  lemma AcceptedInTurn(steps: seq<Step>, r: Id, w: seq<Step>, c: Challenge, code: Id, m: nat)
    requires Accepted(steps, r, w, c, Recovery(code), m)
    ensures MatchedInTurn(steps, r, c.user, code)
  {
    hide SeenAt, Loaded;
    var row: Code :| MatchIs(steps, r, w, c, m - 6, row) && row.id == code;
    var listed: seq<Code> :| Matched(steps, r, w, c, listed, m - 6) && m - 6 < |listed| && listed[m - 6] == row;
    var n: nat := m - 6;
    assert w[3] == ListCodes(r) && MatchedAt(steps, r, c.user, listed, n);
  }

  lemma MatchNeedsCompare(steps: seq<Step>, r: Id, user: Id, code: Id)
    requires MatchedInTurn(steps, r, user, code)
    ensures Compare(r, true) in steps
  {
  }

  /** A request none of whose comparisons came out true has no code accepted and gets no session by one. */
  lemma NoMatchNoCode(steps: seq<Step>, r: Id)
    requires Run(steps).Some? && Compare(r, true) !in steps
    ensures var s := Run(steps).value;
            && (forall k :: 0 <= k < |s.accepted| ==> s.accepted[k].request != r)
            && (forall i ::
                  0 <= i < |s.sessions| && s.sessions[i].origin.Verified? && s.sessions[i].origin.via.Recovery?
                  ==> s.sessions[i].origin.request != r)
  {
    var s := Run(steps).value;
    EveryRunIsSafe(steps);
    hide Run;
    forall k | 0 <= k < |s.accepted| ensures s.accepted[k].request != r {
      AcceptedCodeMatched(steps, k);
      MatchNeedsCompare(steps, s.accepted[k].request, s.accepted[k].user, s.accepted[k].code);
    }
    forall i | 0 <= i < |s.sessions| && s.sessions[i].origin.Verified? && s.sessions[i].origin.via.Recovery?
      ensures s.sessions[i].origin.request != r
    {
      assert SessionBacked(s, s.sessions[i]);
    }
  }

  /** A login takes at most five steps, and asks its gate once. */
  lemma LoginIsShort(steps: seq<Step>, r: Id, w: seq<Step>, q: Request)
    requires Stands(steps, r, w, q) && |w| >= 4 && w[0] == Arrive(r, LoginStart)
    ensures |w| <= 5 && (|w| == 5 ==> !w[4].GateCheck?)
  {
    hide SeenAt;
  }

  /** What a login's gate was asked decides: an enrolled user gets no session on the password alone, nor
      does a privileged one whose organization wants enrollment; and only an enrolled user gets a
      challenge. */
  lemma GateDecides(steps: seq<Step>, login: Id, enrolled: bool, privileged: bool, required: bool)
    requires Run(steps).Some? && GateCheck(login, enrolled, privileged, required) in steps
    ensures var s := Run(steps).value;
            && (forall i :: 0 <= i < |s.sessions| && s.sessions[i].origin == PasswordOnly(login) ==>
                  !enrolled && !(privileged && required))
            && (forall c :: c in s.created && s.created[c].login == login ==> enrolled)
  {
    hide Run, Own, RequestsStand, CodesMade, AllLeft;
    var s, g := Run(steps).value, GateCheck(login, enrolled, privileged, required);
    EveryRunAccounted(steps);
    OwnAre(steps, login, g);
    var w := Own(steps, login);
    if i :| 0 <= i < |s.sessions| && s.sessions[i].origin == PasswordOnly(login) {
      assert SessionMade(steps, s.sessions[i]);
      GateAskedOnce(steps, s, login, g);
    }
    if c :| c in s.created && s.created[c].login == login {
      assert ChallengeMade(steps, c, s.created[c]);
      GateAskedOnce(steps, s, login, g);
    }
  }

  lemma GateAskedOnce(steps: seq<Step>, s: State, login: Id, g: Step)
    requires RequestsStand(steps, s) && g in Own(steps, login) && g.GateCheck?
    requires var w := Own(steps, login);
             |w| >= 4 && w[0] == Arrive(login, LoginStart) && w[1].Password? && w[2].Membership? && w[3].GateCheck?
    ensures g == Own(steps, login)[3]
  {
    hide Own, Stands;
    var w := Own(steps, login);
    assert login in s.requests;
    LoginIsShort(steps, login, w, s.requests[login]);
    var i :| 0 <= i < |w| && w[i] == g;
  }

  /** Every session on the password alone and every challenge comes from a login that asked its gate and
      got the answer for it. */
  lemma GateWasAsked(steps: seq<Step>)
    requires Run(steps).Some?
    ensures var s := Run(steps).value;
            && (forall i :: 0 <= i < |s.sessions| && s.sessions[i].origin.PasswordOnly? ==>
                  exists p, q :: GateCheck(s.sessions[i].origin.login, false, p, q) in steps && !(p && q))
            && (forall c :: c in s.created ==> exists p, q :: GateCheck(s.created[c].login, true, p, q) in steps)
  {
    var s := Run(steps).value;
    EveryRunAccounted(steps);
    hide Run, Own, RequestsStand, CodesMade, AllLeft;
    forall i | 0 <= i < |s.sessions| && s.sessions[i].origin.PasswordOnly?
      ensures exists p, q :: GateCheck(s.sessions[i].origin.login, false, p, q) in steps && !(p && q)
    {
      var login := s.sessions[i].origin.login;
      assert SessionMade(steps, s.sessions[i]);
      var g := Own(steps, login)[3];
      OwnAre(steps, login, g);
      assert g == GateCheck(login, false, g.privileged, g.required);
    }
    forall c | c in s.created ensures exists p, q :: GateCheck(s.created[c].login, true, p, q) in steps {
      var login := s.created[c].login;
      assert ChallengeMade(steps, c, s.created[c]);
      var g := Own(steps, login)[3];
      OwnAre(steps, login, g);
      assert g == GateCheck(login, true, g.privileged, g.required);
    }
  }

  /** The request presented a token that opened the challenge, before it expired. */
  ghost predicate OpenedInTime(steps: seq<Step>, r: Id, c: Challenge) {
    exists h, now :: SeenAt(steps, Find(r, now), TokenOpens(h, now, c)) && now < c.expiresAt
  }

  /** The request behind a verified session opened its challenge before it expired, for an active account. */
  lemma VerifiedInTime(steps: seq<Step>, i: nat)
    requires Run(steps).Some? && i < |Run(steps).value.sessions| && Run(steps).value.sessions[i].origin.Verified?
    ensures var x := Run(steps).value.sessions[i];
            && Load(x.origin.request, true) in steps
            && exists c: Challenge ::
                 OpenedInTime(steps, x.origin.request, c) && c.id == x.origin.challenge && c.user == x.user
  {
    EveryRunAccounted(steps);
    hide Run, Own, RequestsStand, CodesMade, AllLeft, ChallengesMade, Accepted, OpenedInTime;
    var x := Run(steps).value.sessions[i];
    assert SessionMade(steps, x);
    var c: Challenge, n: nat :| VerifiedBy(steps, x, c, n);
    var r, w := x.origin.request, Own(steps, x.origin.request);
    AcceptedInTime(steps, r, w, c, x.origin.via, n);
    OwnAre(steps, r, Load(r, true));
  }

  lemma AcceptedInTime(steps: seq<Step>, r: Id, w: seq<Step>, c: Challenge, via: Via, n: nat)
    requires Accepted(steps, r, w, c, via, n)
    ensures Load(r, true) in w && OpenedInTime(steps, r, c)
  {
    hide SeenAt;
    var p := if via.Totp? then SixDigits else RecoveryShape;
    assert Loaded(steps, r, w, c, p);
    var h, now := w[0].start.tokenHash, w[1].now;
    assert w[1] == Find(r, now) && w[2] == Load(r, true);
    OpensBeforeExpiry(steps, w[1], h, now, c);
  }

  lemma OpensBeforeExpiry(steps: seq<Step>, step: Step, h: Id, now: int, c: Challenge)
    requires SeenAt(steps, step, TokenOpens(h, now, c))
    ensures now < c.expiresAt
  {
  }

  // ---------------------------------------------------------------- the notes are true

  ghost predicate NotesTrue(steps: seq<Step>, n: Notes) {
    && (forall r :: r in n.passwords ==> Password(r, n.passwords[r], true) in steps)
    && (forall r :: r in n.gates ==>
          GateCheck(r, n.gates[r].enrolled, n.gates[r].privileged, n.gates[r].required) in steps)
    && (forall r :: r in n.presented ==> exists p :: Arrive(r, VerifyStart(n.presented[r], p)) in steps)
    && (forall r :: r in n.passes ==> CheckTotp(r, true) in steps)
    && (forall r :: r in n.matched ==> Compare(r, true) in steps)
  }

  lemma NotesStay(steps: seq<Step>, x: Step, n: Notes)
    requires NotesTrue(steps, n)
    ensures NotesTrue(steps + [x], n)
  {
    forall r | r in n.presented ensures exists p :: Arrive(r, VerifyStart(n.presented[r], p)) in steps + [x] {
      var p :| Arrive(r, VerifyStart(n.presented[r], p)) in steps;
      assert Arrive(r, VerifyStart(n.presented[r], p)) in steps + [x];
    }
  }

  lemma NotesTrueStep(steps: seq<Step>, s: State, x: Step)
    requires Enabled(s, x) && NotesTrue(steps, s.notes)
    ensures NotesTrue(steps + [x], Noted(s, x))
  {
    NotesStay(steps, x, s.notes);
    assert x in steps + [x];
    if x.Arrive? && x.start.VerifyStart? {
      forall r | r in Noted(s, x).presented
        ensures exists p :: Arrive(r, VerifyStart(Noted(s, x).presented[r], p)) in steps + [x]
      {
        assert r == x.r ==> Arrive(r, VerifyStart(x.start.tokenHash, x.start.presented)) == x;
      }
    }
  }

  /** What safety rests on was shown: every note has its step in the run. */
  lemma {:induction false} NotesAreTrue(steps: seq<Step>)
    requires Run(steps).Some?
    ensures NotesTrue(steps, Run(steps).value.notes)
  {
    hide Next, Noted, NotesTrue, Enabled, Written;
    if steps == [] {
      NoNotes();
    } else {
      var init, x := steps[..|steps| - 1], steps[|steps| - 1];
      NotesAreTrue(init);
      NotesTrueStep(init, Run(init).value, x);
      assert steps == init + [x];
    }
  }

  lemma NoNotes()
    ensures NotesTrue([], Initial().notes)
  {
  }
}
