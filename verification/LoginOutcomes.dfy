/** What every operation on an account answers and leaves behind, as conditions on the account row. */
module LoginOutcomes {
  import opened Options
  import opened LoginLockout

  // ---------------------------------------------------------------------------------------------
  // Conditions
  // ---------------------------------------------------------------------------------------------

  /** Locked, or due to be. */
  predicate Barred(row: Row) {
    row.status == Some(Locked) || (row.failCount.Some? && row.failCount.value >= 5)
  }

  predicate Closed(row: Row) {
    row.status in {Some(Pending), Some(Inactive), Some(Deleted)}
  }

  predicate Fits(row: Row, password: string, compare: Compare) {
    row.password.Some? && row.password.value != "" && compare(password, row.password.value)
  }

  /** The password was changed less than 90 days ago, or it is not known when. */
  predicate Fresh(row: Row, now: int) {
    row.changedAt.Some? ==> now - row.changedAt.value < 90 * 86_400_000
  }

  predicate Admitted(row: Row, password: string, now: int, compare: Compare) {
    !Barred(row) && !Closed(row) && Fits(row, password, compare) && Fresh(row, now)
  }

  predicate Registered(row: Row) {
    row.otpSecretKey.Some? && row.lastLoginAt
  }

  /** What the next step needs: the claims of the tokens, or for a second factor its key or the name to register it. */
  predicate Prepared(row: Row) {
    if row.secondFactor then Registered(row) || row.named else row.claims
  }

  lemma FreshIsNotExpired(row: Row, now: int)
    ensures Fresh(row, now) <==> !Expired(row, now)
  {
  }

  /** Each answer of a login, with the exact condition on the row. */
  lemma LoginOutcomeExactly(row: Row, password: string, now: int, secret: string, compare: Compare)
    ensures var outcome := PlanOf(row, Login(password, now, secret), compare).outcome;
            var admitted := Admitted(row, password, now, compare);
            && (outcome == Tokens <==> admitted && !row.secondFactor && row.claims)
            && (outcome == SecondFactorNeeded <==> admitted && row.secondFactor && Prepared(row))
            && (outcome == Refused(InvalidTokenClaims) <==> admitted && !Prepared(row))
            && (outcome == Refused(AccountLocked) <==> Barred(row))
            && (outcome == Refused(AccountPending) <==> !Barred(row) && row.status == Some(Pending))
            && (outcome == Refused(AccountInactive) <==> !Barred(row) && row.status == Some(Inactive))
            && (outcome == Refused(AccountDeleted) <==> !Barred(row) && row.status == Some(Deleted))
            && (outcome == Refused(InvalidCredentials)
                <==> !Barred(row) && !Closed(row) && !Fits(row, password, compare))
            && (outcome == Refused(PasswordExpired)
                <==> !Barred(row) && !Closed(row) && Fits(row, password, compare) && !Fresh(row, now))
  {
    FreshIsNotExpired(row, now);
  }

  /** Each answer of the second factor and of a password change. */
  lemma OtherOutcomesExactly(row: Row, accepted: bool, password: string, hash: string, now: int, compare: Compare)
    ensures var outcome := PlanOf(row, VerifyTwoFactor(accepted), compare).outcome;
            var hasKey := row.otpSecretKey.Some? && row.otpSecretKey.value != "";
            && (outcome == Tokens <==> hasKey && accepted && row.claims)
            && (outcome == Refused(InvalidTokenClaims) <==> hasKey && accepted && !row.claims)
            && (outcome == Refused(InvalidOtp) <==> hasKey && !accepted)
            && (outcome == Refused(InvalidCredentials) <==> !hasKey)
    ensures var outcome := PlanOf(row, ChangePassword(password, hash, now), compare).outcome;
            && (outcome == Changed <==> Fits(row, password, compare))
            && (outcome == Refused(InvalidCredentials) <==> !Fits(row, password, compare))
  {
  }

  // ---------------------------------------------------------------------------------------------
  // Effects
  // ---------------------------------------------------------------------------------------------

  function Result(a: Account, op: Operation, compare: Compare): Account {
    ExecAll(a, PlanOf(a.row, op, compare).statements)
  }

  lemma {:induction false} BarredLogin(a: Account, password: string, now: int, secret: string, compare: Compare)
    requires Barred(a.row)
    ensures Result(a, Login(password, now, secret), compare)
         == Account(a.row.(status := Some(Locked)),
                    a.history + [HistoryRow(if a.row.failCount.Some? then a.row.failCount.value else 5, Some(Locked),
                                            false)])
  {
    var record := RecordFailure(if a.row.failCount.Some? then a.row.failCount.value else 5, Some(Locked));
    if a.row.status == Some(Locked) {
      assert LockedPlan(a.row).statements == [record];
      ExecOne(a, record);
    } else {
      assert LockedPlan(a.row).statements == [LockAccount, record];
      ExecTwo(a, LockAccount, record);
    }
  }

  lemma {:induction false} WrongLogin(a: Account, password: string, now: int, secret: string, compare: Compare)
    requires !Barred(a.row) && !Closed(a.row) && !Fits(a.row, password, compare)
    ensures var n := if a.row.failCount.Some? then a.row.failCount.value + 1 else 1;
            var status := if n >= 5 then Some(Locked) else a.row.status;
            Result(a, Login(password, now, secret), compare)
            == Account(a.row.(failCount := if a.row.failCount.Some? then Some(n) else None, status := status),
                       a.history + [HistoryRow(n, status, false)])
  {
    var n := Failures(a.row) + 1;
    if n >= 5 {
      ExecThree(a, IncrementFailCount, LockAccount, RecordFailure(n, Some(Locked)));
    } else {
      ExecTwo(a, IncrementFailCount, RecordFailure(n, a.row.status));
    }
  }

  /** A success resets the counter and is recorded. */
  function Succeeded(a: Account): Account {
    Account(a.row.(failCount := Some(0), lastLoginAt := true), a.history + [HistoryRow(0, a.row.status, true)])
  }

  lemma {:induction false} AdmittedLogin(a: Account, password: string, now: int, secret: string, compare: Compare)
    requires Admitted(a.row, password, now, compare)
    ensures Result(a, Login(password, now, secret), compare)
         == if !a.row.secondFactor then (if a.row.claims then Succeeded(a) else a)
            else a.(row := a.row.(failCount := Some(0),
                                  otpSecretKey := if Registered(a.row) then a.row.otpSecretKey else Some(secret)))
  {
    FreshIsNotExpired(a.row, now);
    if a.row.secondFactor {
      ExecOne(a, ResetFailCount);
      ExecTwo(a, ResetFailCount, UpdateOtpSecretKey(secret));
    } else {
      ExecOne(a, RecordSuccess(a.row.status));
    }
  }

  /** What a login leaves behind: a lock and a failure; a failure that is counted and may lock; a success; or a second
      factor that has begun, with a new key unless one is registered.  In all other cases nothing changes. */
  lemma LoginEffect(a: Account, password: string, now: int, secret: string, compare: Compare)
    ensures var b, row := Result(a, Login(password, now, secret), compare), a.row;
            var n := if row.failCount.Some? then row.failCount.value + 1 else 1;
            var status := if n >= 5 then Some(Locked) else row.status;
            if Barred(row) then
              b == Account(row.(status := Some(Locked)),
                           a.history + [HistoryRow(if row.failCount.Some? then n - 1 else 5, Some(Locked), false)])
            else if Closed(row) then b == a
            else if !Fits(row, password, compare) then
              b == Account(row.(failCount := if row.failCount.Some? then Some(n) else None, status := status),
                           a.history + [HistoryRow(n, status, false)])
            else if !Fresh(row, now) then b == a
            else if row.secondFactor then
              b == a.(row := row.(failCount := Some(0),
                                  otpSecretKey := if Registered(row) then row.otpSecretKey else Some(secret)))
            else b == if row.claims then Succeeded(a) else a
  {
    if Barred(a.row) {
      BarredLogin(a, password, now, secret, compare);
    } else if Closed(a.row) || (Fits(a.row, password, compare) && !Fresh(a.row, now)) {
      RefusedLogin(a, password, now, secret, compare);
    } else if !Fits(a.row, password, compare) {
      WrongLogin(a, password, now, secret, compare);
    } else {
      AdmittedLogin(a, password, now, secret, compare);
    }
  }

  lemma RefusedLogin(a: Account, password: string, now: int, secret: string, compare: Compare)
    requires !Barred(a.row) && (Closed(a.row) || (Fits(a.row, password, compare) && !Fresh(a.row, now)))
    ensures Result(a, Login(password, now, secret), compare) == a
  {
    FreshIsNotExpired(a.row, now);
  }

  /** The second factor records a success or changes nothing; a password change sets the password and its date. */
  lemma {:induction false} OtherEffects(a: Account, accepted: bool, password: string, hash: string, now: int,
                                        compare: Compare)
    ensures Result(a, VerifyTwoFactor(accepted), compare)
         == if HasKeyAndClaims(a.row) && accepted then Succeeded(a) else a
    ensures Result(a, ChangePassword(password, hash, now), compare)
         == if Fits(a.row, password, compare) then a.(row := a.row.(password := Some(hash), changedAt := Some(now)))
            else a
  {
    ExecOne(a, RecordSuccess(a.row.status));
    ExecOne(a, UpdatePassword(hash, now));
  }

  /** A password that was changed lets its user in for 90 days, if nothing else is in the way. */
  lemma ChangedPasswordLastsNinetyDays(a: Account, password: string, hash: string, at: int, next: string, now: int,
                                       compare: Compare)
    requires Fits(a.row, password, compare) && !Barred(a.row) && !Closed(a.row) && hash != "" && compare(next, hash)
    ensures var b := Result(a, ChangePassword(password, hash, at), compare);
            Admitted(b.row, next, now, compare) <==> now - at < 90 * 86_400_000
  {
    OtherEffects(a, false, password, hash, at, compare);
  }

  // ---------------------------------------------------------------------------------------------
  // Pending, inactive and deleted accounts
  // ---------------------------------------------------------------------------------------------

  function ClosedError(row: Row): AuthError
    requires Closed(row)
  {
    if row.status == Some(Pending) then AccountPending
    else if row.status == Some(Inactive) then AccountInactive
    else AccountDeleted
  }

  /** A login changes such an account exactly if it has five failures: the account is then a locked one. */
  lemma ClosedAccountChangesExactly(a: Account, password: string, now: int, secret: string, compare: Compare)
    requires Closed(a.row)
    ensures var b := Result(a, Login(password, now, secret), compare);
            && (b != a <==> a.row.failCount.Some? && a.row.failCount.value >= 5)
            && (b != a ==> b.row == a.row.(status := Some(Locked)))
            && (b == a ==> PlanOf(a.row, Login(password, now, secret), compare).outcome == Refused(ClosedError(a.row)))
  {
    LoginEffect(a, password, now, secret, compare);
    LoginOutcomeExactly(a.row, password, now, secret, compare);
    if Barred(a.row) {
      BarredLogin(a, password, now, secret, compare);
      assert Result(a, Login(password, now, secret), compare).row.status == Some(Locked) != a.row.status;
    }
  }

  /** What stays of a closed account. */
  ghost predicate StaysClosed(a: Account, b: Account) {
    && b.row.status == a.row.status && !Barred(b.row)
    && b.row.otpSecretKey == a.row.otpSecretKey && b.row.claims == a.row.claims
  }

  lemma ClosedStep(a: Account, op: Operation, compare: Compare)
    requires Closed(a.row) && !Barred(a.row)
    ensures StaysClosed(a, Result(a, op, compare))
    ensures PlanOf(a.row, op, compare).outcome == Tokens <==> op == VerifyTwoFactor(true) && HasKeyAndClaims(a.row)
  {
    match op
    case Login(password, now, secret) => ClosedAccountChangesExactly(a, password, now, secret, compare);
    case VerifyTwoFactor(accepted) => OtherEffects(a, accepted, "", "", 0, compare);
    case ChangePassword(password, hash, now) => OtherEffects(a, false, password, hash, now, compare);
  }

  /** In every run from such an account it stays what it is, and only a second factor with an accepted code can get
      tokens for it. */
  lemma {:induction false} TokensOfTheClosedExactly(a: Account, ops: seq<Operation>, compare: Compare)
    requires Closed(a.row) && !Barred(a.row)
    ensures StaysClosed(a, After(a, ops, compare))
    ensures TokenPairs(a, ops, compare) == if HasKeyAndClaims(a.row) then AcceptedCodes(ops) else 0
  {
    if ops != [] {
      var init := ops[..|ops| - 1];
      TokensOfTheClosedExactly(a, init, compare);
      ClosedStep(After(a, init, compare), ops[|ops| - 1], compare);
    }
  }

  /** So no login in such a run gets tokens or changes anything, and each is told why. */
  lemma {:induction false} ClosedAccountsLogNobodyIn(a: Account, ops: seq<Operation>, password: string, now: int,
                                                     secret: string, compare: Compare)
    requires Closed(a.row) && !Barred(a.row)
    ensures var login := Login(password, now, secret);
            && After(a, ops + [login], compare) == After(a, ops, compare)
            && LastPlan(a, ops + [login], compare).outcome == Refused(ClosedError(a.row))
  {
    TokensOfTheClosedExactly(a, ops, compare);
    AfterSnoc(a, ops, Login(password, now, secret), compare);
    ClosedAccountChangesExactly(After(a, ops, compare), password, now, secret, compare);
  }
}
