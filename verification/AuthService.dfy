/** The authentication service over its tables: each operation reads one account row and updates it statement by
    statement. */
module AuthService {
  import opened Options
  import opened LoginLockout

  type Id = nat

  /** The account table, each row with the login history of its account. */
  class AccountService {
    var accounts: map<Id, Account>

    constructor (rows: map<Id, Account>)
      ensures accounts == rows
    {
      accounts := rows;
    }

    /** An update touches the row with the id, if there is one. */
    method Update(id: Id, s: Statement)
      modifies this
      ensures accounts == if id in old(accounts) then old(accounts)[id := Exec(old(accounts)[id], s)] else old(accounts)
    {
      if id in accounts {
        accounts := accounts[id := Exec(accounts[id], s)];
      }
    }
  }

  class Service {
    const accounts: AccountService
    const compare: Compare

    constructor (accounts: AccountService, compare: Compare)
      ensures this.accounts == accounts && this.compare == compare
    {
      this.accounts, this.compare := accounts, compare;
    }

    /** The tables after an operation has read the row of the account and done what the row decides. */
    ghost function Done(rows: map<Id, Account>, id: Id, op: Operation): map<Id, Account>
      requires id in rows
    {
      rows[id := ExecAll(rows[id], PlanOf(rows[id].row, op, compare).statements)]
    }

    method HandleLockedLogin(id: Id)
      requires id in accounts.accounts
      modifies accounts
      ensures var a := old(accounts.accounts)[id];
              accounts.accounts == old(accounts.accounts)[id := ExecAll(a, LockedPlan(a.row).statements)]
    {
      var a := accounts.accounts[id];
      var failCount := if a.row.failCount.Some? then a.row.failCount.value else MAX_FAIL_COUNT;
      if a.row.status != Some(Locked) {
        accounts.Update(id, LockAccount);
        ExecTwo(a, LockAccount, RecordFailure(failCount, Some(Locked)));
      } else {
        ExecOne(a, RecordFailure(failCount, Some(Locked)));
      }
      accounts.Update(id, RecordFailure(failCount, Some(Locked)));
    }

    method HandleFailedLogin(id: Id, newFailCount: int)
      requires id in accounts.accounts && newFailCount == Failures(accounts.accounts[id].row) + 1
      modifies accounts
      ensures var a := old(accounts.accounts)[id];
              accounts.accounts == old(accounts.accounts)[id := ExecAll(a, WrongPasswordPlan(a.row).statements)]
    {
      var a := accounts.accounts[id];
      accounts.Update(id, IncrementFailCount);
      var status := if newFailCount >= MAX_FAIL_COUNT then Some(Locked) else a.row.status;
      if newFailCount >= MAX_FAIL_COUNT {
        accounts.Update(id, LockAccount);
        ExecThree(a, IncrementFailCount, LockAccount, RecordFailure(newFailCount, status));
      } else {
        ExecTwo(a, IncrementFailCount, RecordFailure(newFailCount, status));
      }
      accounts.Update(id, RecordFailure(newFailCount, status));
    }

    method IssueTokens(id: Id, row: Row) returns (outcome: Outcome)
      requires id in accounts.accounts && row == accounts.accounts[id].row
      modifies accounts
      ensures var a := old(accounts.accounts)[id];
              && accounts.accounts == old(accounts.accounts)[id := ExecAll(a, TokensPlan(a.row).statements)]
              && outcome == TokensPlan(a.row).outcome
    {
      var a := accounts.accounts[id];
      if !row.claims {
        return Refused(InvalidTokenClaims);
      }
      accounts.Update(id, RecordSuccess(row.status));
      ExecOne(a, RecordSuccess(row.status));
      return Tokens;
    }

    /** `secret` is the generated secret key, which is registered if there is none. */
    method StartSecondFactor(id: Id, row: Row, secret: string) returns (outcome: Outcome)
      requires id in accounts.accounts && row == accounts.accounts[id].row
      modifies accounts
      ensures var a := old(accounts.accounts)[id];
              && accounts.accounts
                  == old(accounts.accounts)[id := ExecAll(a, SecondFactorPlan(a.row, secret).statements)]
              && outcome == SecondFactorPlan(a.row, secret).outcome
    {
      var a := accounts.accounts[id];
      ExecOne(a, ResetFailCount);
      ExecTwo(a, ResetFailCount, UpdateOtpSecretKey(secret));
      accounts.Update(id, ResetFailCount);
      if row.otpSecretKey.Some? && row.lastLoginAt {
        return SecondFactorNeeded;
      }
      accounts.Update(id, UpdateOtpSecretKey(secret));
      return if row.named then SecondFactorNeeded else Refused(InvalidTokenClaims);
    }

    /** A login for the account that was found under its name and user type, if any. */
    method Login(found: Option<Id>, password: string, now: int, secret: string) returns (outcome: Outcome)
      requires found.Some? ==> found.value in accounts.accounts
      modifies accounts
      ensures found.None? ==> accounts.accounts == old(accounts.accounts) && outcome == Refused(InvalidCredentials)
      ensures found.Some? ==>
        && accounts.accounts == old(Done(accounts.accounts, found.value, Operation.Login(password, now, secret)))
        && outcome
            == PlanOf(old(accounts.accounts)[found.value].row, Operation.Login(password, now, secret), compare).outcome
    {
      if found.None? {
        return Refused(InvalidCredentials);
      }
      var id := found.value;
      var row := accounts.accounts[id].row;
      var failCount := if row.failCount.Some? then row.failCount.value else 0;
      if row.status == Some(Locked) || failCount >= MAX_FAIL_COUNT {
        HandleLockedLogin(id);
        return Refused(AccountLocked);
      }
      var statusError := StatusError(row.status);
      if statusError.Some? {
        return Refused(statusError.value);
      }
      if row.password.None? || row.password.value == "" || !compare(password, row.password.value) {
        HandleFailedLogin(id, failCount + 1);
        return Refused(InvalidCredentials);
      }
      if row.changedAt.Some? && (now - row.changedAt.value) / MS_PER_DAY >= PASSWORD_EXPIRY_DAYS {
        return Refused(PasswordExpired);
      }
      if row.secondFactor {
        outcome := StartSecondFactor(id, row, secret);
      } else {
        outcome := IssueTokens(id, row);
      }
    }

    /** The second factor for the account that a valid token names; the account may be gone. */
    method VerifyTwoFactor(id: Id, codeAccepted: bool) returns (outcome: Outcome)
      modifies accounts
      ensures id !in old(accounts.accounts) ==>
        accounts.accounts == old(accounts.accounts) && outcome == Refused(InvalidCredentials)
      ensures id in old(accounts.accounts) ==>
        && accounts.accounts == old(Done(accounts.accounts, id, Operation.VerifyTwoFactor(codeAccepted)))
        && outcome == PlanOf(old(accounts.accounts)[id].row, Operation.VerifyTwoFactor(codeAccepted), compare).outcome
    {
      if id !in accounts.accounts {
        return Refused(InvalidCredentials);
      }
      var row := accounts.accounts[id].row;
      if row.otpSecretKey.None? || row.otpSecretKey.value == "" {
        return Refused(InvalidCredentials);
      }
      if !codeAccepted {
        return Refused(InvalidOtp);
      }
      outcome := IssueTokens(id, row);
    }

    method ChangePassword(id: Id, password: string, hash: string, now: int) returns (outcome: Outcome)
      modifies accounts
      ensures id !in old(accounts.accounts) ==>
        accounts.accounts == old(accounts.accounts) && outcome == Refused(InvalidCredentials)
      ensures id in old(accounts.accounts) ==>
        && accounts.accounts == old(Done(accounts.accounts, id, Operation.ChangePassword(password, hash, now)))
        && outcome
            == PlanOf(old(accounts.accounts)[id].row, Operation.ChangePassword(password, hash, now), compare).outcome
    {
      if id !in accounts.accounts {
        return Refused(InvalidCredentials);
      }
      var a := accounts.accounts[id];
      if a.row.password.None? || a.row.password.value == "" || !compare(password, a.row.password.value) {
        return Refused(InvalidCredentials);
      }
      accounts.Update(id, UpdatePassword(hash, now));
      ExecOne(a, UpdatePassword(hash, now));
      return Changed;
    }
  }
}
