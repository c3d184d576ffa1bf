/** What no interleaving of logins, verifications and recovery-code writers can break. */
module MfaSafety {
  import opened MfaProtocol

  // ---------------------------------------------------------------- what is promised

  predicate SameChallenge(a: Origin, b: Origin) {
    a.Verified? && b.Verified? && a.challenge == b.challenge
  }

  predicate SameCode(a: Origin, b: Origin) {
    a.Verified? && b.Verified? && a.via.Recovery? && a.via == b.via
  }

  /** The password alone is for users without a second factor who need none; a challenge is for users
      with one. */
  predicate Allows(f: GateFacts, gate: Gate) {
    match gate
    case NoMfa => !f.enrolled && !(f.privileged && f.required)
    case MustVerify => f.enrolled
    case MustEnroll => !f.enrolled && f.privileged && f.required
  }

  /** The login behind a session proved this user's password, and what was known of it allows the gate. */
  predicate Backed(s: State, login: Id, user: Id, gate: Gate) {
    && login in s.notes.passwords && s.notes.passwords[login] == user
    && login in s.notes.gates && Allows(s.notes.gates[login], gate)
  }

  /** The request consumed the code its text was found to match, made for the user, or had an
      authenticator code of the user's found correct. */
  predicate FactorShown(s: State, r: Id, user: Id, via: Via) {
    match via
    case Totp => r in s.notes.passes && s.notes.passes[r] == user
    case Recovery(code) =>
      && Acceptance(code, r, user) in s.accepted && code in s.issuedTo && s.issuedTo[code] == user
      && r in s.notes.matched && s.notes.matched[r] == code
  }

  ghost predicate SessionBacked(s: State, x: Session) {
    match x.origin
    case PasswordOnly(login) => Backed(s, login, x.user, NoMfa)
    case Verified(c, r, via) =>
      && c in s.created
      && s.created[c].user == x.user && s.created[c].organization == x.organization
      && Backed(s, s.created[c].login, x.user, MustVerify)
      && r in s.notes.presented && s.notes.presented[r] == s.created[c].tokenHash
      && FactorShown(s, r, x.user, via)
  }

  ghost predicate Safe(s: State) {
    // Each challenge backs at most one session, and so does each recovery code.
    && (forall i, j :: 0 <= i < j < |s.sessions| ==>
          && !SameChallenge(s.sessions[i].origin, s.sessions[j].origin)
          && !SameCode(s.sessions[i].origin, s.sessions[j].origin))
    // Every session has its login, its password and its gate; a verified one came with the token of
    // its challenge and showed a second factor of its user's.
    && (forall i :: 0 <= i < |s.sessions| ==> SessionBacked(s, s.sessions[i]))
    // Distinct challenges come from distinct logins.
    && (forall c, d :: c in s.created && d in s.created && c != d ==> s.created[c].login != s.created[d].login)
    // Each code is accepted once, and each request has one code accepted.
    && (forall i, j :: 0 <= i < j < |s.accepted| ==>
          s.accepted[i].code != s.accepted[j].code && s.accepted[i].request != s.accepted[j].request)
  }

  // ---------------------------------------------------------------- what each request has done

  ghost predicate NoLogin(s: State, r: Id) {
    && (forall c :: c in s.created ==> s.created[c].login != r)
    && (forall i :: 0 <= i < |s.sessions| ==> s.sessions[i].origin != PasswordOnly(r))
  }

  ghost predicate NoAccept(s: State, r: Id) {
    forall i :: 0 <= i < |s.accepted| ==> s.accepted[i].request != r
  }

  ghost predicate NoClaim(s: State, r: Id) {
    forall i :: 0 <= i < |s.claims| ==> s.claims[i].request != r
  }

  ghost predicate NoSession(s: State, r: Id) {
    forall i :: 0 <= i < |s.sessions| ==> s.sessions[i].origin.Verified? ==> s.sessions[i].origin.request != r
  }

  predicate Known(s: State, c: Challenge) {
    && c.id in s.created
    && s.created[c.id].user == c.user && s.created[c.id].organization == c.organization
  }

  /** The challenge is known and stored under the token the request came with. */
  predicate KnownBy(s: State, r: Id, c: Challenge) {
    Known(s, c) && r in s.notes.presented && s.notes.presented[r] == s.created[c.id].tokenHash
  }

  ghost predicate ViaHeld(s: State, r: Id, user: Id, via: Via) {
    FactorShown(s, r, user, via) && (via.Totp? ==> NoAccept(s, r))
  }

  ghost predicate Untouched(s: State, r: Id) {
    NoLogin(s, r) && NoAccept(s, r) && NoClaim(s, r) && NoSession(s, r)
  }

  ghost predicate RequestInv(s: State, r: Id, q: Request) {
    match q
    case LoginPassed(user) => Untouched(s, r) && r in s.notes.passwords && s.notes.passwords[r] == user
    case LoginMember(user, _) => Untouched(s, r) && r in s.notes.passwords && s.notes.passwords[r] == user
    case LoginGated(user, _, gate) => Untouched(s, r) && Backed(s, r, user, gate)
    case VerifyStart(h, _) => Untouched(s, r) && r in s.notes.presented && s.notes.presented[r] == h
    case VerifyFound(c, _) => Untouched(s, r) && KnownBy(s, r, c)
    case VerifyLoaded(c, _) => Untouched(s, r) && KnownBy(s, r, c)
    case VerifyScanning(c, _) => Untouched(s, r) && KnownBy(s, r, c)
    case VerifyMatched(c, row) =>
      Untouched(s, r) && KnownBy(s, r, c) && r in s.notes.matched && s.notes.matched[r] == row.id
    case VerifyAccepted(c, via) =>
      NoLogin(s, r) && NoClaim(s, r) && NoSession(s, r) && KnownBy(s, r, c) && ViaHeld(s, r, c.user, via)
    case VerifyConsumed(c, via) =>
      && NoLogin(s, r) && NoSession(s, r) && KnownBy(s, r, c) && ViaHeld(s, r, c.user, via)
      && Claim(c.id, r) in s.claims
    case Finished => true
    case _ => Untouched(s, r)
  }

  // ---------------------------------------------------------------- the invariant

  ghost predicate RequestsInv(s: State) {
    && (forall r :: r in s.requests ==> RequestInv(s, r, s.requests[r]))
    && (forall r :: r !in s.requests ==> Untouched(s, r))
  }

  ghost predicate Claimed(claims: seq<Claim>, c: Id) {
    exists i :: 0 <= i < |claims| && claims[i].challenge == c
  }

  predicate StoredAt(s: State, h: Id, c: Challenge) {
    Known(s, c) && s.created[c.id].tokenHash == h
  }

  /** A challenge row is a created challenge, under its own token; it is consumed iff it was claimed. */
  ghost predicate ChallengesInv(s: State) {
    && (forall h :: h in s.challenges ==> StoredAt(s, h, s.challenges[h]))
    && (forall h :: h in s.challenges ==> (s.challenges[h].consumed <==> Claimed(s.claims, s.challenges[h].id)))
    && (forall c :: c in s.created ==> c in s.issued)
    && (forall i :: 0 <= i < |s.claims| ==> s.claims[i].challenge in s.created)
  }

  /** A code row is held by the user it was made for, once; an accepted code is used wherever it is
      stored and was accepted for that user. */
  ghost predicate CodesInv(codes: map<Id, seq<Code>>, accepted: seq<Acceptance>, issuedTo: map<Id, Id>,
                           issued: set<Id>)
  {
    && (forall u, i :: u in codes && 0 <= i < |codes[u]| ==>
          codes[u][i].id in issuedTo && issuedTo[codes[u][i].id] == u)
    && (forall u :: u in codes ==> DistinctRows(codes[u]))
    && (forall u, i, k :: u in codes && 0 <= i < |codes[u]| && 0 <= k < |accepted| && codes[u][i].id == accepted[k].code
          ==> codes[u][i].used)
    && (forall k :: 0 <= k < |accepted| ==>
          accepted[k].code in issuedTo && issuedTo[accepted[k].code] == accepted[k].user)
    && (forall id :: id in issuedTo ==> id in issued)
  }

  ghost predicate ClaimsOnce(claims: seq<Claim>) {
    forall i, j :: 0 <= i < j < |claims| ==>
      claims[i].challenge != claims[j].challenge && claims[i].request != claims[j].request
  }

  ghost predicate AcceptedOnce(accepted: seq<Acceptance>) {
    forall i, j :: 0 <= i < j < |accepted| ==>
      accepted[i].code != accepted[j].code && accepted[i].request != accepted[j].request
  }

  ghost predicate CreatedInv(s: State) {
    && (forall c :: c in s.created ==> Backed(s, s.created[c].login, s.created[c].user, MustVerify))
    && (forall c, d :: c in s.created && d in s.created && c != d ==> s.created[c].login != s.created[d].login)
  }

  ghost predicate SessionInv(s: State, x: Session) {
    SessionBacked(s, x) &&
    (x.origin.Verified? ==>
       && Claim(x.origin.challenge, x.origin.request) in s.claims
       && ViaHeld(s, x.origin.request, x.user, x.origin.via))
  }

  ghost predicate HasSession(sessions: seq<Session>, r: Id) {
    exists i :: 0 <= i < |sessions| && sessions[i].origin.Verified? && sessions[i].origin.request == r
  }

  /** A request that claimed a challenge is about to mint its session, or has. */
  ghost predicate Served(s: State, r: Id) {
    r in s.requests && (s.requests[r].VerifyConsumed? || (s.requests[r].Finished? && HasSession(s.sessions, r)))
  }

  ghost predicate ClaimsServed(s: State) {
    forall i :: 0 <= i < |s.claims| ==> Served(s, s.claims[i].request)
  }

  ghost predicate SessionsOnce(sessions: seq<Session>) {
    forall i, j :: 0 <= i < j < |sessions| ==> sessions[i].origin.Verified? ==> sessions[j].origin.Verified? ==>
      sessions[i].origin.request != sessions[j].origin.request
  }

  ghost predicate SessionsInv(s: State) {
    && (forall i :: 0 <= i < |s.sessions| ==> SessionInv(s, s.sessions[i]))
    && SessionsOnce(s.sessions)
  }

  ghost predicate Inv(s: State) {
    && RequestsInv(s) && ChallengesInv(s) && CodesInv(s.codes, s.accepted, s.issuedTo, s.issued)
    && ClaimsOnce(s.claims) && AcceptedOnce(s.accepted) && CreatedInv(s) && SessionsInv(s) && ClaimsServed(s)
  }

  lemma SamePair(s: State, x: Session, y: Session)
    requires SessionInv(s, x) && SessionInv(s, y) && ClaimsOnce(s.claims) && AcceptedOnce(s.accepted)
    requires x.origin.Verified? && y.origin.Verified? && x.origin.request != y.origin.request
    ensures !SameChallenge(x.origin, y.origin) && !SameCode(x.origin, y.origin)
  {
  }

  lemma InvIsSafe(s: State)
    requires Inv(s)
    ensures Safe(s)
  {
    forall i, j | 0 <= i < j < |s.sessions|
      ensures !SameChallenge(s.sessions[i].origin, s.sessions[j].origin)
      ensures !SameCode(s.sessions[i].origin, s.sessions[j].origin)
    {
      var a, b := s.sessions[i].origin, s.sessions[j].origin;
      assert SessionInv(s, s.sessions[i]) && SessionInv(s, s.sessions[j]);
      if a.Verified? && b.Verified? {
        SamePair(s, s.sessions[i], s.sessions[j]);
      }
    }
    forall i | 0 <= i < |s.sessions| ensures SessionBacked(s, s.sessions[i]) {
      assert SessionInv(s, s.sessions[i]);
    }
  }

  // ---------------------------------------------------------------- one request moves, the rest hold

  /** Only what is noted under `r` may differ. */
  ghost predicate SameBut<T>(before: map<Id, T>, after: map<Id, T>, r: Id) {
    forall x :: x in before && x != r ==> x in after && after[x] == before[x]
  }

  /** From `s` to `t` only request `r` acted: histories grow by its entries alone, and what a session
      or a challenge rests on is not rewritten. */
  ghost predicate ActedBy(s: State, t: State, r: Id) {
    && NoSession(s, r)
    && SameBut(s.notes.presented, t.notes.presented, r) && SameBut(s.notes.passes, t.notes.passes, r)
    && SameBut(s.notes.matched, t.notes.matched, r)
    && SameBut(s.notes.passwords, t.notes.passwords, r) && SameBut(s.notes.gates, t.notes.gates, r)
    && (NoLogin(s, r) || (t.notes.passwords == s.notes.passwords && t.notes.gates == s.notes.gates))
    && (forall x :: x in s.issuedTo ==> x in t.issuedTo && t.issuedTo[x] == s.issuedTo[x])
    && (forall c :: c in s.created ==> c in t.created && t.created[c] == s.created[c])
    && (forall c :: c in t.created ==> c in s.created || t.created[c].login == r)
    && s.accepted <= t.accepted
    && (forall i :: |s.accepted| <= i < |t.accepted| ==> t.accepted[i].request == r)
    && s.claims <= t.claims
    && (forall i :: |s.claims| <= i < |t.claims| ==> t.claims[i].request == r)
    && s.sessions <= t.sessions
    && (forall i :: |s.sessions| <= i < |t.sessions| ==> BelongsTo(t.sessions[i].origin, r))
  }

  predicate BelongsTo(o: Origin, r: Id) {
    if o.Verified? then o.request == r else o.login == r
  }

  lemma OthersUntouched(s: State, t: State, r: Id, x: Id)
    requires ActedBy(s, t, r) && x != r
    ensures NoLogin(s, x) ==> NoLogin(t, x)
    ensures NoAccept(s, x) ==> NoAccept(t, x)
    ensures NoClaim(s, x) ==> NoClaim(t, x)
    ensures NoSession(s, x) ==> NoSession(t, x)
  {
    forall i | 0 <= i < |t.sessions| && i < |s.sessions| ensures t.sessions[i] == s.sessions[i] {
    }
    forall i | 0 <= i < |t.claims| && i < |s.claims| ensures t.claims[i] == s.claims[i] {
    }
    forall i | 0 <= i < |t.accepted| && i < |s.accepted| ensures t.accepted[i] == s.accepted[i] {
    }
  }

  lemma OthersKeep(s: State, t: State, r: Id, x: Id, q: Request)
    requires ActedBy(s, t, r) && x != r && RequestInv(s, x, q)
    ensures RequestInv(t, x, q)
  {
    OthersUntouched(s, t, r, x);
    hide NoLogin, NoAccept, NoClaim, NoSession;
  }

  lemma RequestsKeep(s: State, t: State, r: Id, q: Request)
    requires RequestsInv(s) && ActedBy(s, t, r)
    requires t.requests == s.requests[r := q] && RequestInv(t, r, q)
    ensures RequestsInv(t)
  {
    hide RequestInv, ActedBy, NoLogin, NoAccept, NoClaim, NoSession;
    forall x | x in t.requests ensures RequestInv(t, x, t.requests[x]) {
      if x != r {
        OthersKeep(s, t, r, x, s.requests[x]);
      }
    }
    forall x | x !in t.requests ensures Untouched(t, x) {
      OthersUntouched(s, t, r, x);
    }
  }

  lemma SessionKeeps(s: State, t: State, r: Id, i: nat)
    requires ActedBy(s, t, r) && i < |s.sessions| && SessionInv(s, s.sessions[i])
    ensures SessionInv(t, s.sessions[i])
  {
  }

  lemma SessionsKeep(s: State, t: State, r: Id)
    requires ActedBy(s, t, r) && SessionsInv(s) && t.sessions == s.sessions
    ensures SessionsInv(t)
  {
    hide ActedBy, SessionInv, SessionsOnce;
    forall i | 0 <= i < |t.sessions| ensures SessionInv(t, t.sessions[i]) {
      SessionKeeps(s, t, r, i);
    }
  }

  lemma SessionsGrow(s: State, t: State, r: Id, x: Session)
    requires ActedBy(s, t, r) && SessionsInv(s) && t.sessions == s.sessions + [x]
    requires SessionInv(t, x) && NoSession(s, r) && BelongsTo(x.origin, r)
    ensures SessionsInv(t)
  {
    assert SessionsOnce(t.sessions);
    hide ActedBy, SessionInv, SessionsOnce;
    forall i | 0 <= i < |t.sessions| ensures SessionInv(t, t.sessions[i]) {
      if i < |s.sessions| {
        SessionKeeps(s, t, r, i);
      }
    }
  }

  lemma CreatedKeeps(s: State, t: State, r: Id)
    requires ActedBy(s, t, r) && CreatedInv(s) && t.created == s.created
    ensures CreatedInv(t)
  {
    forall c | c in t.created ensures Backed(t, t.created[c].login, t.created[c].user, MustVerify) {
      assert Backed(s, s.created[c].login, s.created[c].user, MustVerify);
    }
  }

  // ---------------------------------------------------------------- every step keeps the invariant

  /** A step that writes nothing moves one request, possibly noting what it proved. */
  lemma MoveKeeps(s: State, t: State, step: Step, q: Request)
    requires Inv(s) && NoSession(s, step.r) && NoClaim(s, step.r)
    requires t == s.(requests := s.requests[step.r := q], notes := t.notes) && OnlyNoted(s.notes, t.notes, step.r)
    requires NoLogin(s, step.r) || (t.notes.passwords == s.notes.passwords && t.notes.gates == s.notes.gates)
    requires RequestInv(t, step.r, q)
    ensures Inv(t)
  {
    hide RequestInv, RequestsInv, ChallengesInv, CodesInv, ClaimsOnce, AcceptedOnce, CreatedInv, SessionsInv;
    hide ClaimsServed, SameBut;
    var r := step.r;
    ChallengesIssuedMore(s, t, {});
    assert ActedBy(s, t, r) && NoClaim(t, r);
    RequestsKeep(s, t, r, q);
    SessionsKeep(s, t, r);
    CreatedKeeps(s, t, r);
    ClaimsKeep(s, t, r);
  }

  /** What other requests claimed is served as before; the acting request claimed nothing, or is
      served itself. */
  lemma ClaimsKeep(s: State, t: State, r: Id)
    requires ClaimsServed(s) && ActedBy(s, t, r)
    requires r in t.requests && t.requests == s.requests[r := t.requests[r]]
    requires NoClaim(t, r) || Served(t, r)
    ensures ClaimsServed(t)
  {
    forall i | 0 <= i < |t.claims| ensures Served(t, t.claims[i].request) {
      var x := t.claims[i].request;
      if x != r {
        assert i < |s.claims| && t.claims[i] == s.claims[i];
        SessionStays(s.sessions, t.sessions, x);
      }
    }
  }

  lemma SessionStays(before: seq<Session>, after: seq<Session>, r: Id)
    requires before <= after
    ensures HasSession(before, r) ==> HasSession(after, r)
  {
    if HasSession(before, r) {
      var i :| 0 <= i < |before| && before[i].origin.Verified? && before[i].origin.request == r;
      assert after[i] == before[i];
    }
  }

  lemma RequestAt(s: State, r: Id)
    requires Inv(s)
    ensures RequestOrNone(s, r)
  {
  }

  lemma CreationBacked(s: State, c: Id)
    requires CreatedInv(s) && c in s.created
    ensures Backed(s, s.created[c].login, s.created[c].user, MustVerify)
  {
  }

  /** A new challenge with a new id, created by a login that created none before. */
  lemma ChallengeAdded(s: State, t: State, tokenHash: Id, c: Challenge, login: Id)
    requires ChallengesInv(s) && CreatedInv(s) && c.id !in s.issued && !c.consumed
    requires NoLogin(s, login) && Backed(s, login, c.user, MustVerify)
    requires t.challenges == s.challenges[tokenHash := c] && t.claims == s.claims
    requires t.created == s.created[c.id := Creation(login, c.user, c.organization, tokenHash)]
    requires t.notes == s.notes && t.issued == s.issued + {c.id}
    ensures ChallengesInv(t) && CreatedInv(t) && c.id !in s.created
  {
    assert c.id !in s.created;
    forall x | x in t.created ensures Backed(t, t.created[x].login, t.created[x].user, MustVerify) {
      if x != c.id {
        assert Backed(s, s.created[x].login, s.created[x].user, MustVerify);
      }
    }
    assert !Claimed(s.claims, c.id);
    forall h | h in t.challenges
      ensures StoredAt(t, h, t.challenges[h])
      ensures t.challenges[h].consumed <==> Claimed(t.claims, t.challenges[h].id)
    {
      if h != tokenHash {
        assert StoredAt(s, h, s.challenges[h]);
      }
    }
  }

  lemma CodesIssuedMore(s: State, id: Id)
    requires CodesInv(s.codes, s.accepted, s.issuedTo, s.issued)
    ensures CodesInv(s.codes, s.accepted, s.issuedTo, s.issued + {id})
  {
  }

  lemma ChallengesIssuedMore(s: State, t: State, ids: set<Id>)
    requires ChallengesInv(s) && t.issued == s.issued + ids
    requires t.challenges == s.challenges && t.claims == s.claims && t.created == s.created
    ensures ChallengesInv(t)
  {
    forall h | h in t.challenges ensures StoredAt(t, h, t.challenges[h]) {
      assert StoredAt(s, h, s.challenges[h]);
    }
  }

  lemma CreateChallengeKeeps(s: State, step: Step)
    requires Inv(s) && step.CreateChallenge? && Enabled(s, step)
    ensures Inv(Apply(s, step))
  {
    hide RequestsInv, ChallengesInv, CodesInv, ClaimsOnce, AcceptedOnce, CreatedInv, SessionsInv, ClaimsServed;
    var t, r := Apply(s, step), step.r;
    var q := s.requests[r];
    RequestAt(s, r);
    CodesIssuedMore(s, step.id);
    ChallengeAdded(s, t, step.tokenHash, Challenge(step.id, q.user, q.organization, step.expiresAt, false), r);
    assert ActedBy(s, t, r) && NoClaim(t, r);
    hide ActedBy;
    RequestsKeep(s, t, r, Finished);
    SessionsKeep(s, t, r);
    ClaimsKeep(s, t, r);
  }

  lemma LoginSessionKeeps(s: State, step: Step)
    requires Inv(s) && step.LoginSession? && Enabled(s, step)
    ensures Inv(Apply(s, step))
  {
    hide RequestsInv, ChallengesInv, CodesInv, ClaimsOnce, AcceptedOnce, CreatedInv, SessionsInv, ClaimsServed;
    var t, r := Apply(s, step), step.r;
    RequestAt(s, r);
    CodesIssuedMore(s, step.id);
    ChallengesIssuedMore(s, t, {step.id});
    assert ActedBy(s, t, r) && NoClaim(t, r);
    var x := Session(step.id, s.requests[r].user, s.requests[r].organization, PasswordOnly(r));
    assert SessionInv(t, x);
    hide ActedBy, SessionInv;
    RequestsKeep(s, t, r, Finished);
    SessionsGrow(s, t, r, x);
    CreatedKeeps(s, t, r);
    ClaimsKeep(s, t, r);
  }

  lemma VerifySessionKeeps(s: State, step: Step)
    requires Inv(s) && step.VerifySession? && Enabled(s, step)
    ensures Inv(Apply(s, step))
  {
    hide RequestsInv, ChallengesInv, CodesInv, ClaimsOnce, AcceptedOnce, CreatedInv, SessionsInv, ClaimsServed;
    var t, r := Apply(s, step), step.r;
    var c, via := s.requests[r].challenge, s.requests[r].via;
    RequestAt(s, r);
    CodesIssuedMore(s, step.id);
    CreationBacked(s, c.id);
    ChallengesIssuedMore(s, t, {step.id});
    assert ActedBy(s, t, r);
    var x := Session(step.id, c.user, c.organization, Verified(c.id, r, via));
    assert SessionInv(t, x);
    assert t.sessions[|s.sessions|] == x && HasSession(t.sessions, r);
    hide ActedBy, SessionInv;
    RequestsKeep(s, t, r, Finished);
    SessionsGrow(s, t, r, x);
    CreatedKeeps(s, t, r);
    ClaimsKeep(s, t, r);
  }

  /** Taking an open code that nobody was given before. */
  lemma CodeTaken(codes: map<Id, seq<Code>>, accepted: seq<Acceptance>, issuedTo: map<Id, Id>, issued: set<Id>,
                  a: Acceptance)
    requires CodesInv(codes, accepted, issuedTo, issued) && AcceptedOnce(accepted)
    requires a.user in codes && CodeOpen(codes[a.user], a.code)
    requires forall i :: 0 <= i < |accepted| ==> accepted[i].request != a.request
    ensures CodesInv(codes[a.user := MarkUsed(codes[a.user], a.code)], accepted + [a], issuedTo, issued)
    ensures AcceptedOnce(accepted + [a])
    ensures a.code in issuedTo && issuedTo[a.code] == a.user
  {
    var i :| 0 <= i < |codes[a.user]| && codes[a.user][i].id == a.code && !codes[a.user][i].used;
  }

  lemma ConsumeCodeKeeps(s: State, step: Step)
    requires Inv(s) && step.ConsumeCode? && Enabled(s, step)
    requires CodeOpen(CodesOf(s.codes, s.requests[step.r].challenge.user), s.requests[step.r].row.id)
    ensures Inv(Apply(s, step))
  {
    hide RequestsInv, ChallengesInv, CodesInv, ClaimsOnce, AcceptedOnce, CreatedInv, SessionsInv, ClaimsServed;
    var t, r := Apply(s, step), step.r;
    var a := Acceptance(s.requests[r].row.id, r, s.requests[r].challenge.user);
    RequestAt(s, r);
    CodeTaken(s.codes, s.accepted, s.issuedTo, s.issued, a);
    assert ActedBy(s, t, r) && NoClaim(t, r);
    assert a == t.accepted[|s.accepted|];
    assert RequestInv(t, r, t.requests[r]);
    ChallengesIssuedMore(s, t, {});
    hide ActedBy, RequestInv;
    RequestsKeep(s, t, r, t.requests[r]);
    SessionsKeep(s, t, r);
    CreatedKeeps(s, t, r);
    ClaimsKeep(s, t, r);
  }

  /** Taking an open challenge that nobody took before. */
  lemma ChallengeTaken(s: State, t: State, c: Claim)
    requires ChallengesInv(s) && ClaimsOnce(s.claims)
    requires ChallengeOpen(s.challenges, c.challenge) && c.challenge in s.created
    requires t.challenges == ChallengesConsumed(s.challenges, c.challenge) && t.claims == s.claims + [c]
    requires t.created == s.created && t.issued == s.issued
    requires NoClaim(s, c.request)
    ensures ChallengesInv(t) && ClaimsOnce(t.claims)
  {
    var h :| h in s.challenges && s.challenges[h].id == c.challenge && !s.challenges[h].consumed;
    assert !Claimed(s.claims, c.challenge);
    ClaimedMore(s.claims, c);
    forall h | h in t.challenges
      ensures StoredAt(t, h, t.challenges[h])
      ensures t.challenges[h].consumed <==> Claimed(t.claims, t.challenges[h].id)
    {
      assert StoredAt(s, h, s.challenges[h]);
    }
  }

  lemma ClaimedMore(claims: seq<Claim>, c: Claim)
    ensures forall x :: Claimed(claims + [c], x) <==> Claimed(claims, x) || x == c.challenge
  {
    var after := claims + [c];
    assert after[|claims|] == c;
    forall x | Claimed(claims, x) ensures Claimed(after, x) {
      var i :| 0 <= i < |claims| && claims[i].challenge == x;
      assert after[i] == claims[i];
    }
  }

  lemma ConsumeChallengeKeeps(s: State, step: Step)
    requires Inv(s) && step.ConsumeChallenge? && Enabled(s, step)
    requires ChallengeOpen(s.challenges, s.requests[step.r].challenge.id)
    ensures Inv(Apply(s, step))
  {
    hide RequestsInv, ChallengesInv, CodesInv, ClaimsOnce, AcceptedOnce, CreatedInv, SessionsInv, ClaimsServed;
    var t, r := Apply(s, step), step.r;
    var c := Claim(s.requests[r].challenge.id, r);
    RequestAt(s, r);
    ChallengeTaken(s, t, c);
    assert ActedBy(s, t, r) && Served(t, r);
    assert c == t.claims[|s.claims|];
    assert RequestInv(t, r, t.requests[r]);
    hide ActedBy, RequestInv;
    RequestsKeep(s, t, r, t.requests[r]);
    SessionsKeep(s, t, r);
    CreatedKeeps(s, t, r);
    ClaimsKeep(s, t, r);
  }

  /** A replaced set is made of new codes of the user's own, and holds no code anyone was given. */
  lemma CodesReplaced(codes: map<Id, seq<Code>>, accepted: seq<Acceptance>, issuedTo: map<Id, Id>, issued: set<Id>,
                      user: Id, ids: seq<Id>, hashes: seq<Id>)
    requires CodesInv(codes, accepted, issuedTo, issued) && |ids| == |hashes| && Distinct(ids)
    requires forall id :: id in ids ==> id !in issued
    ensures CodesInv(codes[user := NewCodes(ids, hashes)], accepted, Assigned(issuedTo, ids, user),
              issued + (set id | id in ids))
    ensures forall id :: id in issuedTo ==>
              id in Assigned(issuedTo, ids, user) && Assigned(issuedTo, ids, user)[id] == issuedTo[id]
  {
    var rows := NewCodes(ids, hashes);
    assert forall i :: 0 <= i < |rows| ==> rows[i].id in ids;
  }

  lemma ReplaceCodesActs(s: State, t: State, step: Step)
    requires step.ReplaceCodes? && Enabled(s, step) && t == Apply(s, step) && RequestOrNone(s, step.r)
    requires forall id :: id in s.issuedTo ==> id in t.issuedTo && t.issuedTo[id] == s.issuedTo[id]
    ensures ActedBy(s, t, step.r) && NoClaim(t, step.r) && RequestInv(t, step.r, Finished)
  {
    hide NewCodes, Assigned, CodeOpen, ChallengeOpen, NoLogin, KnownBy, ViaHeld;
  }

  lemma ReplaceCodesKeeps(s: State, step: Step)
    requires Inv(s) && step.ReplaceCodes? && Enabled(s, step)
    ensures Inv(Apply(s, step))
  {
    hide RequestsInv, ChallengesInv, CodesInv, ClaimsOnce, AcceptedOnce, CreatedInv, SessionsInv, ClaimsServed;
    hide NewCodes, Assigned, ActedBy, RequestInv, RequestOrNone, NoClaim;
    var t, r := Apply(s, step), step.r;
    CodesReplaced(s.codes, s.accepted, s.issuedTo, s.issued, s.requests[r].user, step.ids, s.requests[r].hashes);
    RequestAt(s, r);
    ReplaceCodesActs(s, t, step);
    ChallengesIssuedMore(s, t, set id | id in step.ids);
    RequestsKeep(s, t, r, Finished);
    SessionsKeep(s, t, r);
    CreatedKeeps(s, t, r);
    ClaimsKeep(s, t, r);
  }

  predicate OnlyMoves(s: State, step: Step)
    requires Enabled(s, step)
  {
    match step
    case CreateChallenge(_, _, _, _) => false
    case LoginSession(_, _) => false
    case VerifySession(_, _) => false
    case ReplaceCodes(_, _) => false
    case ConsumeCode(r) => !CodeOpen(CodesOf(s.codes, s.requests[r].challenge.user), s.requests[r].row.id)
    case ConsumeChallenge(r) => !ChallengeOpen(s.challenges, s.requests[r].challenge.id)
    case _ => true
  }

  ghost predicate RequestOrNone(s: State, r: Id) {
    if r in s.requests then RequestInv(s, r, s.requests[r]) else Untouched(s, r)
  }

  ghost predicate OnlyNoted(before: Notes, after: Notes, r: Id) {
    && SameBut(before.passes, after.passes, r) && SameBut(before.presented, after.presented, r)
    && SameBut(before.passwords, after.passwords, r) && SameBut(before.gates, after.gates, r)
    && SameBut(before.matched, after.matched, r)
  }

  lemma NotedUnderRequest(s: State, step: Step)
    requires Enabled(s, step)
    ensures OnlyNoted(s.notes, Noted(s, step), step.r)
    ensures step.Password? || step.GateCheck? ||
            (Noted(s, step).passwords == s.notes.passwords && Noted(s, step).gates == s.notes.gates)
  {
  }

  lemma WritesNothing(s: State, step: Step)
    requires Enabled(s, step) && OnlyMoves(s, step)
    ensures Apply(s, step) == s.(requests := s.requests[step.r := Next(s, step)], notes := Noted(s, step))
  {
    hide Next, Noted;
  }

  /** A request that can still move has neither claimed a challenge nor got a session. */
  lemma NotServedYet(s: State, step: Step)
    requires Enabled(s, step) && OnlyMoves(s, step) && RequestOrNone(s, step.r)
    ensures NoSession(s, step.r) && NoClaim(s, step.r)
    ensures step.Password? || step.GateCheck? ==> NoLogin(s, step.r)
  {
    hide NoLogin, NoAccept, NoClaim, NoSession, ChallengeOpen, CodeOpen, KnownBy, ViaHeld, Backed;
  }

  lemma SameFacts(s: State, t: State, r: Id)
    requires t == s.(requests := t.requests, notes := t.notes)
    ensures NoLogin(t, r) <==> NoLogin(s, r)
    ensures NoAccept(t, r) <==> NoAccept(s, r)
    ensures NoClaim(t, r) <==> NoClaim(s, r)
    ensures NoSession(t, r) <==> NoSession(s, r)
    ensures t.notes.presented == s.notes.presented ==> forall c :: KnownBy(t, r, c) <==> KnownBy(s, r, c)
  {
  }

  lemma ArriveNext(s: State, t: State, step: Step)
    requires Enabled(s, step) && step.Arrive? && RequestOrNone(s, step.r)
    requires t == s.(requests := t.requests, notes := Noted(s, step))
    ensures RequestInv(t, step.r, Next(s, step))
  {
    hide NoLogin, NoAccept, NoClaim, NoSession, KnownBy, ViaHeld, Backed;
    SameFacts(s, t, step.r);
  }

  lemma LoginNext(s: State, t: State, step: Step)
    requires Enabled(s, step) && (step.Password? || step.Membership? || step.GateCheck?) && RequestOrNone(s, step.r)
    requires t == s.(requests := t.requests, notes := Noted(s, step))
    ensures RequestInv(t, step.r, Next(s, step))
  {
    hide NoLogin, NoAccept, NoClaim, NoSession, KnownBy, ViaHeld;
    SameFacts(s, t, step.r);
  }

  lemma FindNext(s: State, t: State, step: Step)
    requires Enabled(s, step) && step.Find? && RequestOrNone(s, step.r)
    requires t == s.(requests := t.requests, notes := Noted(s, step))
    requires forall h :: h in s.challenges ==> StoredAt(s, h, s.challenges[h])
    ensures RequestInv(t, step.r, Next(s, step))
  {
    hide NoLogin, NoAccept, NoClaim, NoSession, ViaHeld, Backed;
    SameFacts(s, t, step.r);
  }

  lemma TotpNext(s: State, t: State, step: Step)
    requires Enabled(s, step) && step.CheckTotp? && RequestOrNone(s, step.r)
    requires t == s.(requests := t.requests, notes := Noted(s, step))
    ensures RequestInv(t, step.r, Next(s, step))
  {
    hide NoLogin, NoAccept, NoClaim, NoSession, Backed;
    SameFacts(s, t, step.r);
  }

  lemma ScanNext(s: State, t: State, step: Step)
    requires Enabled(s, step) && (step.Load? || step.ListCodes? || step.Compare?) && RequestOrNone(s, step.r)
    requires t == s.(requests := t.requests, notes := Noted(s, step))
    ensures RequestInv(t, step.r, Next(s, step))
  {
    hide NoLogin, NoAccept, NoClaim, NoSession, KnownBy, ViaHeld, Backed;
    SameFacts(s, t, step.r);
  }

  lemma RefusedNext(s: State, t: State, step: Step)
    requires Enabled(s, step) && OnlyMoves(s, step) && RequestOrNone(s, step.r)
    requires step.ConsumeCode? || step.ConsumeChallenge?
    requires t == s.(requests := t.requests, notes := Noted(s, step))
    ensures RequestInv(t, step.r, Next(s, step))
  {
    hide NoLogin, NoAccept, NoClaim, NoSession, KnownBy, ViaHeld, Backed;
    SameFacts(s, t, step.r);
  }

  lemma WriterNext(s: State, t: State, step: Step)
    requires Enabled(s, step) && step.WriterCheck? && RequestOrNone(s, step.r)
    requires t == s.(requests := t.requests, notes := Noted(s, step))
    ensures RequestInv(t, step.r, Next(s, step))
  {
    hide NoLogin, NoAccept, NoClaim, NoSession, KnownBy, ViaHeld, Backed;
    SameFacts(s, t, step.r);
  }

  lemma MovedNext(s: State, t: State, step: Step)
    requires Enabled(s, step) && OnlyMoves(s, step) && RequestOrNone(s, step.r)
    requires t == s.(requests := t.requests, notes := Noted(s, step))
    requires forall h :: h in s.challenges ==> StoredAt(s, h, s.challenges[h])
    ensures RequestInv(t, step.r, Next(s, step))
  {
    hide RequestOrNone, Enabled, StoredAt, RequestInv, Noted, Next;
    match step
    case Arrive(_, _) => ArriveNext(s, t, step);
    case Password(_, _, _) => LoginNext(s, t, step);
    case Membership(_, _) => LoginNext(s, t, step);
    case GateCheck(_, _, _, _) => LoginNext(s, t, step);
    case Find(_, _) => FindNext(s, t, step);
    case CheckTotp(_, _) => TotpNext(s, t, step);
    case Load(_, _) => ScanNext(s, t, step);
    case ListCodes(_) => ScanNext(s, t, step);
    case Compare(_, _) => ScanNext(s, t, step);
    case ConsumeCode(_) => RefusedNext(s, t, step);
    case ConsumeChallenge(_) => RefusedNext(s, t, step);
    case WriterCheck(_, _, _) => WriterNext(s, t, step);
  }

  lemma StepKeepsInv(s: State, step: Step)
    requires Inv(s) && Enabled(s, step)
    ensures Inv(Apply(s, step))
  {
    assert forall h :: h in s.challenges ==> StoredAt(s, h, s.challenges[h]);
    hide Inv, Apply, RequestInv, RequestOrNone, ActedBy;
    if OnlyMoves(s, step) {
      RequestAt(s, step.r);
      WritesNothing(s, step);
      NotedUnderRequest(s, step);
      NotServedYet(s, step);
      MovedNext(s, Apply(s, step), step);
      MoveKeeps(s, Apply(s, step), step, Next(s, step));
    } else {
      match step
      case CreateChallenge(_, _, _, _) => CreateChallengeKeeps(s, step);
      case LoginSession(_, _) => LoginSessionKeeps(s, step);
      case VerifySession(_, _) => VerifySessionKeeps(s, step);
      case ReplaceCodes(_, _) => ReplaceCodesKeeps(s, step);
      case ConsumeCode(_) => ConsumeCodeKeeps(s, step);
      case ConsumeChallenge(_) => ConsumeChallengeKeeps(s, step);
    }
  }

  lemma {:induction false} RunKeepsInv(steps: seq<Step>)
    requires Run(steps).Some?
    ensures Inv(Run(steps).value)
  {
    if steps != [] {
      RunKeepsInv(steps[..|steps| - 1]);
      StepKeepsInv(Run(steps[..|steps| - 1]).value, steps[|steps| - 1]);
    }
  }

  /** Under every interleaving: sessions inject into challenges, challenges into password-proving
      logins, recovery sessions into accepted codes, and accepted codes into requests. */
  lemma EveryRunIsSafe(steps: seq<Step>)
    requires Run(steps).Some?
    ensures Safe(Run(steps).value)
  {
    RunKeepsInv(steps);
    InvIsSafe(Run(steps).value);
  }

  // ---------------------------------------------------------------- consequences

  /** The challenges behind the verified sessions. */
  function SpentOn(sessions: seq<Session>): set<Id> {
    if sessions == [] then {}
    else
      var o := sessions[|sessions| - 1].origin;
      SpentOn(sessions[..|sessions| - 1]) + (if o.Verified? then {o.challenge} else {})
  }

  function VerifiedSessions(sessions: seq<Session>): nat {
    if sessions == [] then 0
    else VerifiedSessions(sessions[..|sessions| - 1]) + (if sessions[|sessions| - 1].origin.Verified? then 1 else 0)
  }

  lemma {:induction false} SpentOnIs(sessions: seq<Session>, c: Id)
    ensures c in SpentOn(sessions) <==>
            exists i :: 0 <= i < |sessions| && sessions[i].origin.Verified? && sessions[i].origin.challenge == c
  {
    if sessions != [] {
      var n := |sessions| - 1;
      SpentOnIs(sessions[..n], c);
      assert forall i :: 0 <= i < n ==> sessions[..n][i] == sessions[i];
    }
  }

  lemma {:induction false} VerifiedAreSpent(sessions: seq<Session>)
    requires forall i, j :: 0 <= i < j < |sessions| ==> !SameChallenge(sessions[i].origin, sessions[j].origin)
    ensures |SpentOn(sessions)| == VerifiedSessions(sessions)
  {
    if sessions != [] {
      var n := |sessions| - 1;
      VerifiedAreSpent(sessions[..n]);
      var o := sessions[n].origin;
      if o.Verified? {
        SpentOnIs(sessions[..n], o.challenge);
        assert forall i :: 0 <= i < n ==> !SameChallenge(sessions[..n][i].origin, o);
        assert o.challenge !in SpentOn(sessions[..n]);
      }
    }
  }

  lemma SubsetSize<T>(a: set<T>, b: set<T>)
    requires a <= b
    ensures |a| <= |b|
  {
    assert b == a + (b - a);
  }

  /** However many verifications race, they never mint more sessions than logins made challenges. */
  lemma SessionsAtMostChallenges(steps: seq<Step>)
    requires Run(steps).Some?
    ensures var s := Run(steps).value; VerifiedSessions(s.sessions) <= |s.created|
  {
    var s := Run(steps).value;
    EveryRunIsSafe(steps);
    VerifiedAreSpent(s.sessions);
    forall c | c in SpentOn(s.sessions) ensures c in s.created.Keys {
      SpentOnIs(s.sessions, c);
      var i :| 0 <= i < |s.sessions| && s.sessions[i].origin.Verified? && s.sessions[i].origin.challenge == c;
      assert SessionBacked(s, s.sessions[i]);
    }
    SubsetSize(SpentOn(s.sessions), s.created.Keys);
  }

  // ---------------------------------------------------------------- what a spent code buys

  predicate BoughtBy(x: Session, a: Acceptance) {
    x.origin.Verified? && x.origin.request == a.request && x.origin.via == Recovery(a.code)
  }

  /** Once the request is over, a spent recovery code has bought a session exactly when the request
      went on to claim its challenge. */
  lemma CodeBuysSession(steps: seq<Step>, k: nat)
    requires Run(steps).Some? && k < |Run(steps).value.accepted|
    requires var s := Run(steps).value;
             var r := s.accepted[k].request; r in s.requests && s.requests[r].Finished?
    ensures var s := Run(steps).value;
            (exists i :: 0 <= i < |s.sessions| && BoughtBy(s.sessions[i], s.accepted[k])) <==>
            (exists j :: 0 <= j < |s.claims| && s.claims[j].request == s.accepted[k].request)
  {
    RunKeepsInv(steps);
    hide Run;
    BoughtIffClaimed(Run(steps).value, k);
  }

  lemma BoughtIffClaimed(s: State, k: nat)
    requires Inv(s) && k < |s.accepted|
    requires s.accepted[k].request in s.requests && s.requests[s.accepted[k].request].Finished?
    ensures (exists i :: 0 <= i < |s.sessions| && BoughtBy(s.sessions[i], s.accepted[k])) <==>
            (exists j :: 0 <= j < |s.claims| && s.claims[j].request == s.accepted[k].request)
  {
    hide RequestsInv, ChallengesInv, CodesInv, ClaimsOnce, CreatedInv, SessionBacked, FactorShown;
    var a := s.accepted[k];
    if i :| 0 <= i < |s.sessions| && BoughtBy(s.sessions[i], a) {
      assert SessionInv(s, s.sessions[i]);
    }
    if j :| 0 <= j < |s.claims| && s.claims[j].request == a.request {
      assert Served(s, a.request);
      var i :| 0 <= i < |s.sessions| && s.sessions[i].origin.Verified? && s.sessions[i].origin.request == a.request;
      assert SessionInv(s, s.sessions[i]);
      OneFactor(s, s.sessions[i], a);
    }
  }

  lemma OneFactor(s: State, x: Session, a: Acceptance)
    requires x.origin.Verified? && x.origin.request == a.request && a in s.accepted && AcceptedOnce(s.accepted)
    requires ViaHeld(s, a.request, x.user, x.origin.via)
    ensures BoughtBy(x, a)
  {
  }

  /** The consume step claims the challenge exactly when the challenge is still stored under its token
      and nobody claimed it before; otherwise the request ends. */
  lemma ConsumeDecides(steps: seq<Step>, r: Id)
    requires Run(steps).Some?
    requires var s := Run(steps).value; r in s.requests && s.requests[r].VerifyAccepted?
    ensures var s := Run(steps).value;
            var c := s.requests[r].challenge;
            var q := Apply(s, ConsumeChallenge(r)).requests[r];
            && c.id in s.created
            && (q.VerifyConsumed? <==>
                  && s.created[c.id].tokenHash in s.challenges
                  && s.challenges[s.created[c.id].tokenHash].id == c.id
                  && !Claimed(s.claims, c.id))
            && (q.VerifyConsumed? || q.Finished?)
  {
    RunKeepsInv(steps);
    hide Run, Apply, Claimed, RequestsInv, ChallengesInv, CodesInv, ClaimsOnce, AcceptedOnce, CreatedInv, SessionsInv;
    hide ClaimsServed, ChallengeOpen;
    var s := Run(steps).value;
    RequestAt(s, r);
    OpenIff(s, s.requests[r].challenge);
    ConsumeNext(s, r);
  }

  lemma ConsumeNext(s: State, r: Id)
    requires r in s.requests && s.requests[r].VerifyAccepted?
    ensures var q := s.requests[r];
            Apply(s, ConsumeChallenge(r)).requests[r] ==
            if ChallengeOpen(s.challenges, q.challenge.id) then VerifyConsumed(q.challenge, q.via) else Finished
  {
    hide ChallengeOpen, Noted, Written;
  }

  lemma OpenIff(s: State, c: Challenge)
    requires ChallengesInv(s) && Known(s, c)
    ensures var h := s.created[c.id].tokenHash;
            ChallengeOpen(s.challenges, c.id) <==>
            h in s.challenges && s.challenges[h].id == c.id && !Claimed(s.claims, c.id)
  {
    hide Claimed;
    if h :| h in s.challenges && s.challenges[h].id == c.id {
      assert StoredAt(s, h, s.challenges[h]);
    }
  }
}
