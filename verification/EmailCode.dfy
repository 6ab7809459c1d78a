/**
 Email verification codes of one operator: one row, bound to the applicant session that
 asked for it, with an attempt cap, a lifetime and a resend cooldown.  Times are
 nanoseconds on one clock that never runs backwards.
 */
module EmailCode {
  import opened Wrappers

  const SECOND: int := 1_000_000_000
  const CODE_TTL: int := 600 * SECOND
  const MAX_ATTEMPTS: nat := 5
  const RESEND_COOLDOWN: int := 30 * SECOND

  datatype CodeRow = CodeRow(code: string, attempts: nat, session: string, expires: int, created: int)

  datatype Answer =
    | Issued | Verified
    | EmptySession | SessionActive | RateLimited
    | NotFound | CodeExpired | SessionMismatch | TooManyAttempts | CodeMismatch

  datatype Call =
    | Issue(session: string, code: string, now: int)
    | Check(session: string, code: string, now: int)

  datatype Reply = Reply(row: Option<CodeRow>, answer: Answer)

  function Serve(row: Option<CodeRow>, call: Call): Reply {
    match call
    case Issue(session, code, now) =>
      if session == "" then Reply(row, EmptySession)
      else if row.Some? && now < row.value.expires && row.value.session != session then Reply(row, SessionActive)
      else if row.Some? && now < row.value.expires && now - row.value.created < RESEND_COOLDOWN then Reply(row, RateLimited)
      else Reply(Some(CodeRow(code, 0, session, now + CODE_TTL, now)), Issued)
    case Check(session, code, now) =>
      if row.None? then Reply(row, NotFound)
      else if now > row.value.expires then Reply(None, CodeExpired)
      else if row.value.session != session then Reply(row, SessionMismatch)
      else if row.value.attempts >= MAX_ATTEMPTS then Reply(row, TooManyAttempts)
      else if row.value.code != code then Reply(Some(row.value.(attempts := row.value.attempts + 1)), CodeMismatch)
      else Reply(None, Verified)
  }

  /** The stored row, updated in place by the two calls. */
  class Verifier {
    var row: Option<CodeRow>
    var emailVerified: bool

    constructor ()
      ensures row == None && !emailVerified
    {
      row, emailVerified := None, false;
    }

    method IssueEmailCode(session: string, newCode: string, now: int) returns (answer: Answer)
      modifies this
      ensures Reply(row, answer) == Serve(old(row), Issue(session, newCode, now))
      ensures emailVerified == old(emailVerified)
    {
      if session == "" {
        return EmptySession;
      }
      if row.Some? {
        var live := now < row.value.expires;
        if live && row.value.session != session {
          return SessionActive;
        }
        if live && row.value.session == session && now - row.value.created < RESEND_COOLDOWN {
          return RateLimited;
        }
      }
      row := Some(CodeRow(newCode, 0, session, now + CODE_TTL, now));
      answer := Issued;
    }

    method CheckEmailCode(session: string, code: string, now: int) returns (answer: Answer)
      modifies this
      ensures Reply(row, answer) == Serve(old(row), Check(session, code, now))
      ensures emailVerified == (old(emailVerified) || answer.Verified?)
    {
      if row.None? {
        return NotFound;
      }
      if now > row.value.expires {
        row := None;
        return CodeExpired;
      }
      if row.value.session != session {
        return SessionMismatch;
      }
      if row.value.attempts >= MAX_ATTEMPTS {
        return TooManyAttempts;
      }
      if row.value.code != code {
        row := Some(row.value.(attempts := row.value.attempts + 1));
        return CodeMismatch;
      }
      emailVerified := true;
      row := None;
      answer := Verified;
    }
  }

  // ---------------------------------------------------------------------------
  // Runs
  // ---------------------------------------------------------------------------

  /** rows[i] is the stored row just before calls[i]. */
  ghost predicate IsRun(rows: seq<Option<CodeRow>>, calls: seq<Call>) {
    && |rows| == |calls| + 1
    && rows[0] == None
    && (forall i | 0 <= i < |calls| :: rows[i + 1] == Serve(rows[i], calls[i]).row)
    && (forall i, j | 0 <= i < j < |calls| :: calls[i].now <= calls[j].now)
  }

  ghost predicate Answers(rows: seq<Option<CodeRow>>, calls: seq<Call>, i: nat, answer: Answer)
    requires i < |calls| < |rows|
  {
    Serve(rows[i], calls[i]).answer == answer
  }

  /** No call strictly between i and j gets the answer. */
  ghost predicate NoneBetween(rows: seq<Option<CodeRow>>, calls: seq<Call>, i: nat, j: nat, answer: Answer)
    requires j <= |calls| < |rows|
  {
    forall k: nat | i < k < j :: !Answers(rows, calls, k, answer)
  }

  /** The wrong guesses counted after call i and before call j. */
  ghost function WrongGuesses(rows: seq<Option<CodeRow>>, calls: seq<Call>, i: nat, j: nat): nat
    requires i < j <= |calls| < |rows|
  {
    if j == i + 1 then 0
    else WrongGuesses(rows, calls, i, j - 1) + if Answers(rows, calls, j - 1, CodeMismatch) then 1 else 0
  }

  lemma {:induction false} AttemptsCountGuesses(rows: seq<Option<CodeRow>>, calls: seq<Call>, i: nat, j: nat)
    requires IsRun(rows, calls) && i < j <= |calls|
    requires Answers(rows, calls, i, Issued) && NoneBetween(rows, calls, i, j, Issued)
    ensures WrongGuesses(rows, calls, i, j) <= MAX_ATTEMPTS
    ensures rows[j].Some? ==> rows[j].value.attempts == WrongGuesses(rows, calls, i, j)
  {
    assert rows[i + 1] == Serve(rows[i], calls[i]).row;
    if j > i + 1 {
      AttemptsCountGuesses(rows, calls, i, j - 1);
      assert !Answers(rows, calls, j - 1, Issued);
      assert rows[j] == Serve(rows[j - 1], calls[j - 1]).row;
    }
  }

  /** At most five wrong guesses count against one issued code, and after five even the right code is refused. */
  lemma FiveGuessesPerCode(rows: seq<Option<CodeRow>>, calls: seq<Call>, i: nat, j: nat)
    requires IsRun(rows, calls) && i < j < |calls|
    requires Answers(rows, calls, i, Issued) && NoneBetween(rows, calls, i, j, Issued)
    ensures WrongGuesses(rows, calls, i, j) <= MAX_ATTEMPTS
    ensures WrongGuesses(rows, calls, i, j) == MAX_ATTEMPTS ==> !Answers(rows, calls, j, Verified)
  {
    AttemptsCountGuesses(rows, calls, i, j);
  }

  /** However many calls other sessions make while a code is live, its row is untouched. */
  lemma {:induction false} OtherSessionsHarmless(rows: seq<Option<CodeRow>>, calls: seq<Call>, i: nat, j: nat)
    requires IsRun(rows, calls) && i <= j <= |calls| && rows[i].Some?
    requires forall k | i <= k < j :: calls[k].session != rows[i].value.session && calls[k].now < rows[i].value.expires
    ensures rows[j] == rows[i]
  {
    if i < j {
      OtherSessionsHarmless(rows, calls, i, j - 1);
      assert rows[j] == Serve(rows[j - 1], calls[j - 1]).row;
    }
  }

  lemma {:induction false} GoneUntilReissued(rows: seq<Option<CodeRow>>, calls: seq<Call>, i: nat, j: nat)
    requires IsRun(rows, calls) && i <= j <= |calls| && rows[i].None?
    requires forall k: nat | i <= k < j :: !Answers(rows, calls, k, Issued)
    ensures rows[j].None?
  {
    if i < j {
      GoneUntilReissued(rows, calls, i, j - 1);
      assert !Answers(rows, calls, j - 1, Issued);
      assert rows[j] == Serve(rows[j - 1], calls[j - 1]).row;
    }
  }

  /** Each issued code verifies at most once: between two successes a new code was issued. */
  lemma CodeVerifiesOnce(rows: seq<Option<CodeRow>>, calls: seq<Call>, i: nat, j: nat)
    requires IsRun(rows, calls) && i < j < |calls|
    requires Answers(rows, calls, i, Verified) && Answers(rows, calls, j, Verified)
    ensures exists k: nat :: i < k < j && Answers(rows, calls, k, Issued)
  {
    assert rows[i + 1] == Serve(rows[i], calls[i]).row;
    if forall k: nat | i + 1 <= k < j :: !Answers(rows, calls, k, Issued) {
      GoneUntilReissued(rows, calls, i + 1, j);
    }
  }

  lemma {:induction false} AnchorHolds(rows: seq<Option<CodeRow>>, calls: seq<Call>, i: nat, j: nat)
    requires IsRun(rows, calls) && i < j <= |calls|
    requires Answers(rows, calls, i, Issued) && NoneBetween(rows, calls, i, j, Verified)
    ensures rows[j].Some? ==> rows[j].value.created >= calls[i].now && rows[j].value.expires == rows[j].value.created + CODE_TTL
    ensures rows[j].None? ==> calls[j - 1].now >= calls[i].now + CODE_TTL
  {
    assert rows[i + 1] == Serve(rows[i], calls[i]).row;
    if j > i + 1 {
      AnchorHolds(rows, calls, i, j - 1);
      assert rows[j] == Serve(rows[j - 1], calls[j - 1]).row;
      assert !Answers(rows, calls, j - 1, Verified);
      assert calls[j - 2].now <= calls[j - 1].now;
    }
  }

  /** Two issues with no success between them are at least thirty seconds apart, whichever sessions ask. */
  lemma IssuesAreSpaced(rows: seq<Option<CodeRow>>, calls: seq<Call>, i: nat, j: nat)
    requires IsRun(rows, calls) && i < j < |calls|
    requires Answers(rows, calls, i, Issued) && Answers(rows, calls, j, Issued) && NoneBetween(rows, calls, i, j, Verified)
    ensures calls[j].now - calls[i].now >= RESEND_COOLDOWN
  {
    AnchorHolds(rows, calls, i, j);
    assert calls[j - 1].now <= calls[j].now;
  }

  // ---------------------------------------------------------------------------
  // The answers, from the calls alone
  // ---------------------------------------------------------------------------

  /** i is the last issue before j, and no check succeeded since. */
  ghost predicate LastIssue(rows: seq<Option<CodeRow>>, calls: seq<Call>, i: nat, j: nat)
    requires j <= |calls| < |rows|
  {
    i < j && Answers(rows, calls, i, Issued) && NoneBetween(rows, calls, i, j, Issued) && NoneBetween(rows, calls, i, j, Verified)
  }

  /** Checks between i and j that come from the session of call i with another code. */
  ghost function OtherCodes(calls: seq<Call>, i: nat, j: nat): nat
    requires i < j <= |calls|
  {
    if j == i + 1 then 0
    else OtherCodes(calls, i, j - 1) +
         if calls[j - 1].Check? && calls[j - 1].session == calls[i].session && calls[j - 1].code != calls[i].code then 1 else 0
  }

  /** What the row holds after the issue at i, while no code is issued or verified: the call's own fields, until it has expired. */
  ghost predicate HoldsIssue(row: Option<CodeRow>, calls: seq<Call>, i: nat, j: nat)
    requires i < j <= |calls|
  {
    if row.None? then calls[j - 1].now > calls[i].now + 600_000_000_000
    else
      && row.value.code == calls[i].code && row.value.session == calls[i].session
      && row.value.created == calls[i].now && row.value.expires == calls[i].now + 600_000_000_000
      && (calls[j - 1].now <= calls[i].now + 600_000_000_000 ==>
            row.value.attempts == if OtherCodes(calls, i, j) < 5 then OtherCodes(calls, i, j) else 5)
  }

  lemma {:induction false} RowHoldsIssue(rows: seq<Option<CodeRow>>, calls: seq<Call>, i: nat, j: nat)
    requires IsRun(rows, calls) && j <= |calls| && LastIssue(rows, calls, i, j)
    ensures HoldsIssue(rows[j], calls, i, j)
  {
    assert rows[i + 1] == Serve(rows[i], calls[i]).row;
    if j > i + 1 {
      RowHoldsIssue(rows, calls, i, j - 1);
      assert rows[j] == Serve(rows[j - 1], calls[j - 1]).row;
      assert !Answers(rows, calls, j - 1, Issued) && !Answers(rows, calls, j - 1, Verified);
      assert calls[j - 2].now <= calls[j - 1].now;
    }
  }

  /** Without such an issue there is no row. */
  lemma {:induction false} NoIssueNoRow(rows: seq<Option<CodeRow>>, calls: seq<Call>, j: nat) returns (i: int)
    requires IsRun(rows, calls) && j <= |calls|
    ensures (i >= 0 && LastIssue(rows, calls, i, j)) || (i == -1 && rows[j].None? && forall k: nat :: !LastIssue(rows, calls, k, j))
  {
    if j == 0 {
      i := -1;
    } else {
      assert rows[j] == Serve(rows[j - 1], calls[j - 1]).row;
      if Answers(rows, calls, j - 1, Issued) {
        i := j - 1;
      } else {
        i := NoIssueNoRow(rows, calls, j - 1);
        if Answers(rows, calls, j - 1, Verified) {
          i := -1;
          assert forall k: nat | LastIssue(rows, calls, k, j) :: k < j - 1;
        } else if i == -1 {
          forall k: nat ensures !LastIssue(rows, calls, k, j) {
            assert LastIssue(rows, calls, k, j) && k < j - 1 ==> LastIssue(rows, calls, k, j - 1);
          }
        }
      }
    }
  }

  /** The check at j is right: session, code and time are those of the last issue, and five other codes were not tried before. */
  ghost predicate RightCheck(rows: seq<Option<CodeRow>>, calls: seq<Call>, i: nat, j: nat)
    requires j < |calls| < |rows|
  {
    && LastIssue(rows, calls, i, j) && calls[j].Check?
    && calls[j].session == calls[i].session && calls[j].code == calls[i].code
    && calls[j].now <= calls[i].now + 600_000_000_000
    && OtherCodes(calls, i, j) < 5
  }

  /** In every run a check verifies the email exactly when it is right. */
  lemma VerifiedExactlyWhen(rows: seq<Option<CodeRow>>, calls: seq<Call>, j: nat)
    requires IsRun(rows, calls) && j < |calls|
    ensures Answers(rows, calls, j, Verified) <==> exists i: nat :: RightCheck(rows, calls, i, j)
  {
    var i := NoIssueNoRow(rows, calls, j);
    if i >= 0 {
      RowHoldsIssue(rows, calls, i, j);
      assert calls[j - 1].now <= calls[j].now;
      if Answers(rows, calls, j, Verified) {
        assert RightCheck(rows, calls, i, j);
      }
      if k: nat :| RightCheck(rows, calls, k, j) {
        OneLastIssue(rows, calls, i, k, j);
      }
    }
  }

  lemma OneLastIssue(rows: seq<Option<CodeRow>>, calls: seq<Call>, i: nat, k: nat, j: nat)
    requires j <= |calls| < |rows| && LastIssue(rows, calls, i, j) && LastIssue(rows, calls, k, j)
    ensures i == k
  {
  }

  /** The issue at i keeps another one at j away: it is live and of another session, or thirty seconds have not passed. */
  ghost predicate Blocks(rows: seq<Option<CodeRow>>, calls: seq<Call>, i: nat, j: nat)
    requires j < |calls| < |rows|
  {
    && LastIssue(rows, calls, i, j)
    && calls[j].now < calls[i].now + 600_000_000_000
    && (calls[j].session != calls[i].session || calls[j].now - calls[i].now < 30_000_000_000)
  }

  /** In every run a code is issued exactly when the session is named and no earlier issue blocks it. */
  lemma IssuedExactlyWhen(rows: seq<Option<CodeRow>>, calls: seq<Call>, j: nat)
    requires IsRun(rows, calls) && j < |calls|
    ensures Answers(rows, calls, j, Issued) <==>
            calls[j].Issue? && calls[j].session != "" && forall i: nat :: !Blocks(rows, calls, i, j)
  {
    var i := NoIssueNoRow(rows, calls, j);
    if i >= 0 {
      RowHoldsIssue(rows, calls, i, j);
      assert calls[j - 1].now <= calls[j].now;
      forall k: nat ensures Blocks(rows, calls, k, j) ==> k == i {
        if LastIssue(rows, calls, k, j) {
          OneLastIssue(rows, calls, i, k, j);
        }
      }
      var last: nat := i;
      assert Blocks(rows, calls, last, j) ==> !Answers(rows, calls, j, Issued);
      assert !Blocks(rows, calls, last, j) && calls[j].Issue? && calls[j].session != "" ==> Answers(rows, calls, j, Issued);
    }
  }

  /** Why a check or an issue is refused, while the last issued code is live. */
  lemma RefusedBecause(rows: seq<Option<CodeRow>>, calls: seq<Call>, i: nat, j: nat)
    requires IsRun(rows, calls) && j < |calls| && LastIssue(rows, calls, i, j)
    ensures calls[j].Check? && calls[j].now <= calls[i].now + 600_000_000_000 ==>
              Answers(rows, calls, j,
                      if calls[j].session != calls[i].session then SessionMismatch
                      else if OtherCodes(calls, i, j) >= 5 then TooManyAttempts
                      else if calls[j].code != calls[i].code then CodeMismatch else Verified)
    ensures calls[j].Issue? && calls[j].session != "" && calls[j].now < calls[i].now + 600_000_000_000 ==>
              Answers(rows, calls, j,
                      if calls[j].session != calls[i].session then SessionActive
                      else if calls[j].now - calls[i].now < 30_000_000_000 then RateLimited else Issued)
  {
    RowHoldsIssue(rows, calls, i, j);
    assert calls[j - 1].now <= calls[j].now;
  }
}
