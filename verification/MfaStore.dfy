/** The in-memory identity store's part in multi-factor authentication.

    Each method is one atomic step of MfaProtocol and changes the rows as that step says: `TakeStep`
    and `Replay` hold the store to the protocol along every run. `VerifyMfaCode` is the handler's code
    check when nothing interleaves with it. */
module MfaStore {
  import opened MfaProtocol
  import opened MfaSafety
  import opened Options

  lemma {:induction false} UnusedAre(rows: seq<Code>, row: Code)
    ensures row in Unused(rows) <==> row in rows && !row.used
  {
    if rows != [] {
      UnusedAre(rows[1..], row);
      assert rows == [rows[0]] + rows[1..];
    }
  }

  /** Listing keeps the unused rows in their order. */
  lemma {:induction false} UnusedInOrder(a: seq<Code>, b: seq<Code>, row: Code)
    ensures Unused(a + b) == Unused(a) + Unused(b)
    ensures Unused([row]) == if row.used then [] else [row]
    ensures Unused([]) == []
  {
    if a == [] {
      assert a + b == b;
      assert [row][1..] == [];
    } else {
      UnusedInOrder(a[1..], b, row);
      assert (a + b)[1..] == a[1..] + b;
    }
  }

  /** The first matching row of a list; its length when none matches. */
  function FirstMatch(rows: seq<Code>, matches: Id -> bool): (k: nat)
    ensures k <= |rows| && (k < |rows| ==> matches(rows[k].hash))
    ensures forall j :: 0 <= j < k ==> !matches(rows[j].hash)
  {
    if rows == [] then 0 else if matches(rows[0].hash) then 0 else 1 + FirstMatch(rows[1..], matches)
  }

  /** Marking an open code used takes exactly that code off the unused list. */
  lemma {:induction false} MarkUsedTakesOne(rows: seq<Code>, id: Id)
    requires DistinctRows(rows)
    ensures |Unused(MarkUsed(rows, id))| == |Unused(rows)| - (if CodeOpen(rows, id) then 1 else 0)
    ensures forall row :: row in Unused(MarkUsed(rows, id)) <==> row in Unused(rows) && row.id != id
  {
    if rows != [] {
      var head, tail := rows[0], rows[1..];
      MarkUsedTakesOne(tail, id);
      assert MarkUsed(rows, id)[1..] == MarkUsed(tail, id);
      assert forall i :: 0 <= i < |tail| ==> tail[i] == rows[i + 1];
      if CodeOpen(tail, id) {
        var i :| 0 <= i < |tail| && tail[i].id == id && !tail[i].used;
        assert rows[i + 1].id == id && !rows[i + 1].used;
      }
      assert forall i :: 0 < i < |rows| ==> rows[i] == tail[i - 1];
      if head.id == id {
        forall row | row in Unused(tail) ensures row.id != id {
          UnusedAre(tail, row);
        }
      }
    }
  }

  lemma InvFitsStore(s: State)
    requires Inv(s)
    ensures DistinctChallenges(s.challenges) && forall u :: u in s.codes ==> DistinctRows(s.codes[u])
  {
    hide RequestsInv, ClaimsOnce, AcceptedOnce, CreatedInv, SessionsInv, ClaimsServed, Claimed;
    forall g, h | g in s.challenges && h in s.challenges && g != h
      ensures s.challenges[g].id != s.challenges[h].id
    {
      assert StoredAt(s, g, s.challenges[g]) && StoredAt(s, h, s.challenges[h]);
    }
  }

  /** Every state the protocol reaches is one the store can hold: no two stored challenges share an id
      and no user has a code row twice. */
  lemma RunsFitStore(steps: seq<Step>)
    requires Run(steps).Some?
    ensures var s := Run(steps).value;
            DistinctChallenges(s.challenges) && forall u :: u in s.codes ==> DistinctRows(s.codes[u])
  {
    RunKeepsInv(steps);
    InvFitsStore(Run(steps).value);
  }

  class InMemoryIdentityStore {
    var challenges: map<Id, Challenge>  // by token hash
    var hashes: seq<Id>                 // their iteration order
    var codes: map<Id, seq<Code>>       // by user

    ghost predicate Valid()
      reads this
    {
      && (forall h :: h in hashes <==> h in challenges)
      && DistinctChallenges(challenges)
      && (forall u :: u in codes ==> DistinctRows(codes[u]))
    }

    constructor ()
      ensures Valid() && challenges == map[] && codes == map[]
    {
      challenges, hashes, codes := map[], [], map[];
    }

    method CreateMfaChallenge(tokenHash: Id, c: Challenge)
      requires Valid() && forall h :: h in challenges ==> challenges[h].id != c.id
      modifies this`challenges, this`hashes
      ensures Valid() && challenges == old(challenges)[tokenHash := c]
    {
      if tokenHash !in challenges {
        hashes := hashes + [tokenHash];
      }
      challenges := challenges[tokenHash := c];
    }

    method FindValidMfaChallenge(tokenHash: Id, now: int) returns (c: Option<Challenge>)
      ensures c == FindValid(challenges, tokenHash, now)
    {
      if tokenHash !in challenges {
        return None;
      }
      var row := challenges[tokenHash];
      if row.consumed || row.expiresAt <= now {
        return None;
      }
      return Some(row);
    }

    /** Test and set: at most one caller is ever told it consumed a challenge. */
    method ConsumeMfaChallenge(id: Id) returns (consumed: bool)
      requires Valid()
      modifies this`challenges
      ensures Valid() && consumed == old(ChallengeOpen(challenges, id))
      ensures challenges == if consumed then ChallengesConsumed(old(challenges), id) else old(challenges)
      ensures !ChallengeOpen(challenges, id)
    {
      for i := 0 to |hashes|
        invariant challenges == old(challenges)
        invariant forall j :: 0 <= j < i ==> hashes[j] in challenges
        invariant forall j :: 0 <= j < i ==> challenges[hashes[j]].id != id || challenges[hashes[j]].consumed
      {
        var h := hashes[i];
        assert h in hashes;
        if challenges[h].id == id && !challenges[h].consumed {
          challenges := challenges[h := challenges[h].(consumed := true)];
          assert challenges == ChallengesConsumed(old(challenges), id);
          return true;
        }
      }
      return false;
    }

    method ListUnusedRecoveryCodes(user: Id) returns (rows: seq<Code>)
      ensures rows == Unused(CodesOf(codes, user))
    {
      rows := Unused(CodesOf(codes, user));
    }

    method ReplaceRecoveryCodes(user: Id, ids: seq<Id>, hashes: seq<Id>)
      requires Valid() && |ids| == |hashes| && Distinct(ids)
      modifies this`codes
      ensures Valid() && codes == old(codes)[user := NewCodes(ids, hashes)]
      ensures |codes[user]| == |ids| && forall i :: 0 <= i < |ids| ==> codes[user][i] == Code(ids[i], hashes[i], false)
    {
      codes := codes[user := NewCodes(ids, hashes)];
    }

    /** Test and set on one user's row. */
    method ConsumeRecoveryCode(id: Id, user: Id) returns (consumed: bool)
      requires Valid()
      modifies this`codes
      ensures Valid() && consumed == CodeOpen(CodesOf(old(codes), user), id)
      ensures codes == if consumed then old(codes)[user := MarkUsed(CodesOf(old(codes), user), id)] else old(codes)
    {
      if user !in codes {
        return false;
      }
      var rows := codes[user];
      for i := 0 to |rows|
        invariant codes == old(codes)
        invariant forall j :: 0 <= j < i ==> rows[j].id != id
      {
        if rows[i].id == id {
          if rows[i].used {
            return false;
          }
          codes := codes[user := rows[i := rows[i].(used := true)]];
          assert rows[i := rows[i].(used := true)] == MarkUsed(rows, id);
          return true;
        }
      }
      return false;
    }

    /** Six digits go to the TOTP check, a recovery shape to the codes: the first unused row that
        matches is consumed, and no other, however many rows match. */
    method VerifyMfaCode(user: Id, presented: Presented, totpCorrect: bool, matches: Id -> bool)
      returns (accepted: bool)
      requires Valid()
      modifies this`codes
      ensures Valid()
      ensures var unused := Unused(CodesOf(old(codes), user));
              var k := FirstMatch(unused, matches);
              match presented
              case SixDigits => accepted == totpCorrect && codes == old(codes)
              case Malformed => !accepted && codes == old(codes)
              case RecoveryShape =>
                if k < |unused| then
                  && accepted
                  && codes == old(codes)[user := MarkUsed(CodesOf(old(codes), user), unused[k].id)]
                else !accepted && codes == old(codes)
      ensures |Unused(CodesOf(codes, user))| ==
              |Unused(CodesOf(old(codes), user))| - (if accepted && presented.RecoveryShape? then 1 else 0)
    {
      if presented.SixDigits? {
        return totpCorrect;
      }
      if presented.Malformed? {
        return false;
      }
      var unused := ListUnusedRecoveryCodes(user);
      for i := 0 to |unused|
        invariant codes == old(codes) && i <= FirstMatch(unused, matches)
      {
        var row := unused[i];
        if !matches(row.hash) {
          continue;
        }
        UnusedAre(CodesOf(codes, user), row);
        MarkUsedTakesOne(CodesOf(codes, user), row.id);
        accepted := ConsumeRecoveryCode(row.id, user);
        return;
      }
      return false;
    }

    ghost predicate Holds(s: State)
      reads this
    {
      challenges == s.challenges && codes == s.codes
    }

    /** One protocol step: the call the handler makes on the store at that point, and where what the
        call returns takes the request. */
    method TakeStep(s: State, step: Step) returns (next: Request)
      requires Valid() && Holds(s) && Inv(s) && Enabled(s, step)
      modifies this
      ensures Valid() && Holds(Apply(s, step)) && next == Next(s, step)
    {
      hide Inv, Noted, ChallengeOpen, CodeOpen, ChallengesConsumed, MarkUsed, NewCodes, Unused, FindValid;
      StoreWrites(s, step);
      if step.Find? {
        var q := s.requests[step.r];
        var found := FindValidMfaChallenge(q.tokenHash, step.now);
        next := if found.Some? then VerifyFound(found.value, q.presented) else Finished;
      } else if step.ListCodes? {
        var q := s.requests[step.r];
        var rows := ListUnusedRecoveryCodes(q.challenge.user);
        next := VerifyScanning(q.challenge, rows);
      } else if step.ConsumeCode? || step.ConsumeChallenge? {
        next := Consume(s, step);
      } else {
        next := Next(s, step);
        hide Next;
        if step.CreateChallenge? {
          var q := s.requests[step.r];
          CreateMfaChallenge(step.tokenHash, Challenge(step.id, q.user, q.organization, step.expiresAt, false));
        } else if step.ReplaceCodes? {
          ReplaceRecoveryCodes(s.requests[step.r].user, step.ids, s.requests[step.r].hashes);
        }
      }
    }

    method Consume(s: State, step: Step) returns (next: Request)
      requires Valid() && Holds(s) && Inv(s) && Enabled(s, step)
      requires step.ConsumeCode? || step.ConsumeChallenge?
      modifies this
      ensures Valid() && Holds(Apply(s, step)) && next == Next(s, step)
    {
      hide Inv, Noted, ChallengeOpen, CodeOpen, ChallengesConsumed, MarkUsed;
      StoreWrites(s, step);
      var q := s.requests[step.r];
      if step.ConsumeCode? {
        var consumed := ConsumeRecoveryCode(q.row.id, q.challenge.user);
        next := if consumed then VerifyAccepted(q.challenge, Recovery(q.row.id)) else Finished;
      } else {
        var consumed := ConsumeMfaChallenge(q.challenge.id);
        next := if consumed then VerifyConsumed(q.challenge, q.via) else Finished;
      }
    }

    /** The store follows the protocol along any run. */
    method Replay(steps: seq<Step>)
      requires Valid() && challenges == map[] && codes == map[] && Run(steps).Some?
      modifies this
      ensures Valid() && Holds(Run(steps).value)
    {
      hide Apply, Enabled, Inv;
      var s := Initial();
      assert steps[..|steps|] == steps;
      for i := 0 to |steps|
        invariant Valid() && Holds(s) && Run(steps[..i]) == Some(s)
      {
        RunPrefix(steps, i + 1);
        assert steps[..i + 1][..i] == steps[..i];
        RunKeepsInv(steps[..i]);
        var _ := TakeStep(s, steps[i]);
        s := Apply(s, steps[i]);
      }
    }
  }

  lemma {:induction false} RunPrefix(steps: seq<Step>, n: nat)
    requires Run(steps).Some? && n <= |steps|
    ensures Run(steps[..n]).Some?
    decreases |steps|
  {
    if n == |steps| {
      assert steps[..n] == steps;
    } else {
      RunPrefix(steps[..|steps| - 1], n);
      assert steps[..|steps| - 1][..n] == steps[..n];
    }
  }

  /** What a step leaves in the two tables, by the store operation it amounts to. */
  lemma StoreWrites(s: State, step: Step)
    requires Inv(s) && Enabled(s, step)
    ensures var t := Apply(s, step);
            match step
            case CreateChallenge(r, id, tokenHash, expiresAt) =>
              && t.codes == s.codes && (forall h :: h in s.challenges ==> s.challenges[h].id != id)
              && t.challenges == s.challenges[tokenHash :=
                   Challenge(id, s.requests[r].user, s.requests[r].organization, expiresAt, false)]
            case ConsumeCode(r) =>
              var user, id := s.requests[r].challenge.user, s.requests[r].row.id;
              && t.challenges == s.challenges
              && t.codes == if CodeOpen(CodesOf(s.codes, user), id)
                            then s.codes[user := MarkUsed(CodesOf(s.codes, user), id)] else s.codes
            case ConsumeChallenge(r) =>
              && t.codes == s.codes
              && t.challenges == if ChallengeOpen(s.challenges, s.requests[r].challenge.id)
                                 then ChallengesConsumed(s.challenges, s.requests[r].challenge.id) else s.challenges
            case ReplaceCodes(r, ids) =>
              && t.challenges == s.challenges
              && t.codes == s.codes[s.requests[r].user := NewCodes(ids, s.requests[r].hashes)]
            case _ => t.challenges == s.challenges && t.codes == s.codes
  {
    hide RequestsInv, CodesInv, ClaimsOnce, AcceptedOnce, CreatedInv, SessionsInv, ClaimsServed, Claimed;
    hide Next, Noted, ChallengeOpen, CodeOpen, ChallengesConsumed, MarkUsed, NewCodes;
    if step.CreateChallenge? {
      forall h | h in s.challenges ensures s.challenges[h].id != step.id {
        assert StoredAt(s, h, s.challenges[h]);
      }
    }
  }
}
