/** Login, second factor and password change of one account.  Every operation reads the account row once; what it
    then writes is a list of statements that this row decides. */
module LoginLockout {
  import opened Options

  const MAX_FAIL_COUNT := 5
  const PASSWORD_EXPIRY_DAYS := 90
  const MS_PER_DAY := 24 * 60 * 60 * 1000

  datatype Status = Active | Locked | Pending | Inactive | Deleted | Other

  /** The columns that matter.  `secondFactor` says that the user type needs one, `named` that a name for its
      registration is there, `claims` that all claims of a token are. */
  datatype Row = Row(status: Option<Status>, failCount: Option<int>, password: Option<string>, changedAt: Option<int>,
                     otpSecretKey: Option<string>, lastLoginAt: bool, secondFactor: bool, named: bool, claims: bool)

  datatype HistoryRow = HistoryRow(failCount: int, status: Option<Status>, success: bool)

  /** An account and its rows of the login history. */
  datatype Account = Account(row: Row, history: seq<HistoryRow>)

  datatype Statement =
    | IncrementFailCount
    | LockAccount
    | ResetFailCount
    | UpdateOtpSecretKey(secret: string)
    | UpdatePassword(hash: string, at: int)
    | RecordSuccess(status: Option<Status>)
    | RecordFailure(failCount: int, status: Option<Status>)

  datatype AuthError = InvalidCredentials | AccountLocked | AccountPending | AccountInactive | AccountDeleted
    | PasswordExpired | InvalidOtp | InvalidTokenClaims

  datatype Outcome = Tokens | SecondFactorNeeded | Changed | Refused(error: AuthError)

  datatype Operation =
    | Login(password: string, now: int, secret: string)
    | VerifyTwoFactor(codeAccepted: bool)
    | ChangePassword(password: string, hash: string, now: int)

  /** Whether a password fits a stored one. */
  type Compare = (string, string) -> bool

  datatype Plan = Plan(statements: seq<Statement>, outcome: Outcome)

  // ---------------------------------------------------------------------------------------------
  // Statements
  // ---------------------------------------------------------------------------------------------

  /** The effect of a statement; NULL + 1 is NULL. */
  function Exec(a: Account, s: Statement): Account {
    match s
    case IncrementFailCount =>
      a.(row := a.row.(failCount := if a.row.failCount.Some? then Some(a.row.failCount.value + 1) else None))
    case LockAccount => a.(row := a.row.(status := Some(Locked)))
    case ResetFailCount => a.(row := a.row.(failCount := Some(0)))
    case UpdateOtpSecretKey(secret) => a.(row := a.row.(otpSecretKey := Some(secret)))
    case UpdatePassword(hash, at) => a.(row := a.row.(password := Some(hash), changedAt := Some(at)))
    case RecordSuccess(status) =>
      Account(a.row.(failCount := Some(0), lastLoginAt := true), a.history + [HistoryRow(0, status, true)])
    case RecordFailure(failCount, status) => a.(history := a.history + [HistoryRow(failCount, status, false)])
  }

  function ExecAll(a: Account, statements: seq<Statement>): Account {
    if statements == [] then a
    else Exec(ExecAll(a, statements[..|statements| - 1]), statements[|statements| - 1])
  }

  // ---------------------------------------------------------------------------------------------
  // Operations
  // ---------------------------------------------------------------------------------------------

  function Failures(row: Row): int {
    if row.failCount.Some? then row.failCount.value else 0
  }

  predicate LockedOut(row: Row) {
    row.status == Some(Locked) || Failures(row) >= MAX_FAIL_COUNT
  }

  predicate PasswordFits(row: Row, password: string, compare: Compare) {
    row.password.Some? && row.password.value != "" && compare(password, row.password.value)
  }

  predicate Expired(row: Row, now: int) {
    row.changedAt.Some? && (now - row.changedAt.value) / MS_PER_DAY >= PASSWORD_EXPIRY_DAYS
  }

  function StatusError(status: Option<Status>): Option<AuthError> {
    match status
    case Some(Pending) => Some(AccountPending)
    case Some(Inactive) => Some(AccountInactive)
    case Some(Deleted) => Some(AccountDeleted)
    case Some(Locked) => Some(AccountLocked)
    case _ => None
  }

  function LockedPlan(row: Row): Plan {
    Plan((if row.status != Some(Locked) then [LockAccount] else [])
         + [RecordFailure(if row.failCount.Some? then row.failCount.value else MAX_FAIL_COUNT, Some(Locked))],
         Refused(AccountLocked))
  }

  function WrongPasswordPlan(row: Row): Plan {
    var failures := Failures(row) + 1;
    Plan(if failures >= MAX_FAIL_COUNT
         then [IncrementFailCount, LockAccount, RecordFailure(failures, Some(Locked))]
         else [IncrementFailCount, RecordFailure(failures, row.status)],
         Refused(InvalidCredentials))
  }

  /** `secret` is the secret key for the case that none is registered yet. */
  function SecondFactorPlan(row: Row, secret: string): Plan {
    if row.otpSecretKey.Some? && row.lastLoginAt then Plan([ResetFailCount], SecondFactorNeeded)
    else
      Plan([ResetFailCount, UpdateOtpSecretKey(secret)],
           if row.named then SecondFactorNeeded else Refused(InvalidTokenClaims))
  }

  function TokensPlan(row: Row): Plan {
    if row.claims then Plan([RecordSuccess(row.status)], Tokens) else Plan([], Refused(InvalidTokenClaims))
  }

  function LoginPlan(row: Row, password: string, now: int, secret: string, compare: Compare): Plan {
    if LockedOut(row) then LockedPlan(row)
    else if StatusError(row.status).Some? then Plan([], Refused(StatusError(row.status).value))
    else if !PasswordFits(row, password, compare) then WrongPasswordPlan(row)
    else if Expired(row, now) then Plan([], Refused(PasswordExpired))
    else if row.secondFactor then SecondFactorPlan(row, secret)
    else TokensPlan(row)
  }

  /** What an operation does after it has read the row. */
  function PlanOf(row: Row, op: Operation, compare: Compare): Plan {
    match op
    case Login(password, now, secret) => LoginPlan(row, password, now, secret, compare)
    case VerifyTwoFactor(accepted) =>
      if row.otpSecretKey.None? || row.otpSecretKey.value == "" then Plan([], Refused(InvalidCredentials))
      else if !accepted then Plan([], Refused(InvalidOtp))
      else TokensPlan(row)
    case ChangePassword(password, hash, now) =>
      if !PasswordFits(row, password, compare) then Plan([], Refused(InvalidCredentials))
      else Plan([UpdatePassword(hash, now)], Changed)
  }

  // ---------------------------------------------------------------------------------------------
  // One operation after the other
  // ---------------------------------------------------------------------------------------------

  function After(a: Account, ops: seq<Operation>, compare: Compare): Account {
    if ops == [] then a
    else
      var before := After(a, ops[..|ops| - 1], compare);
      ExecAll(before, PlanOf(before.row, ops[|ops| - 1], compare).statements)
  }

  /** The plan of the last operation of a run. */
  function LastPlan(a: Account, ops: seq<Operation>, compare: Compare): Plan
    requires ops != []
  {
    PlanOf(After(a, ops[..|ops| - 1], compare).row, ops[|ops| - 1], compare)
  }

  predicate WrongPassword(p: Plan) {
    IncrementFailCount in p.statements
  }

  predicate Resets(p: Plan) {
    ResetFailCount in p.statements || p.outcome == Tokens
  }

  /** The wrong passwords since the last reset of the counter. */
  function Streak(a: Account, ops: seq<Operation>, compare: Compare): nat {
    if ops == [] then 0
    else
      var plan, before := LastPlan(a, ops, compare), Streak(a, ops[..|ops| - 1], compare);
      if WrongPassword(plan) then before + 1 else if Resets(plan) then 0 else before
  }

  /** At some point of the run there were five wrong passwords without a reset between them. */
  predicate FiveInARow(a: Account, ops: seq<Operation>, compare: Compare) {
    ops != [] && (FiveInARow(a, ops[..|ops| - 1], compare) || Streak(a, ops, compare) >= MAX_FAIL_COUNT)
  }

  lemma {:induction false} ExecOne(a: Account, s: Statement)
    ensures ExecAll(a, [s]) == Exec(a, s)
  {
    assert [s][..0] == [];
  }

  lemma {:induction false} ExecSnoc(a: Account, statements: seq<Statement>, s: Statement)
    ensures ExecAll(a, statements + [s]) == Exec(ExecAll(a, statements), s)
  {
    assert (statements + [s])[..|statements|] == statements;
  }

  lemma {:induction false} ExecTwo(a: Account, s: Statement, t: Statement)
    ensures ExecAll(a, [s, t]) == Exec(Exec(a, s), t)
  {
    assert [s, t] == [s] + [t];
    ExecSnoc(a, [s], t);
    ExecOne(a, s);
  }

  lemma {:induction false} ExecThree(a: Account, s: Statement, t: Statement, u: Statement)
    ensures ExecAll(a, [s, t, u]) == Exec(Exec(Exec(a, s), t), u)
  {
    assert [s, t, u] == [s, t] + [u];
    ExecSnoc(a, [s, t], u);
    ExecTwo(a, s, t);
  }

  /** The effect of a plan on counter and status, and what it counts as. */
  ghost predicate Does(a: Account, p: Plan, failCount: Option<int>, status: Option<Status>, wrong: bool, resets: bool) {
    && ExecAll(a, p.statements).row.failCount == failCount && ExecAll(a, p.statements).row.status == status
    && (WrongPassword(p) <==> wrong) && (Resets(p) <==> resets)
  }

  lemma LockedPlanDoes(a: Account)
    ensures Does(a, LockedPlan(a.row), a.row.failCount, Some(Locked), false, false)
  {
    var record := RecordFailure(if a.row.failCount.Some? then a.row.failCount.value else MAX_FAIL_COUNT, Some(Locked));
    if a.row.status == Some(Locked) {
      assert LockedPlan(a.row).statements == [record];
      ExecOne(a, record);
    } else {
      assert LockedPlan(a.row).statements == [LockAccount, record];
      ExecTwo(a, LockAccount, record);
    }
  }

  function Incremented(failCount: Option<int>): Option<int> {
    if failCount.Some? then Some(failCount.value + 1) else None
  }

  lemma WrongPasswordPlanDoes(a: Account)
    ensures Does(a, WrongPasswordPlan(a.row), Incremented(a.row.failCount),
                 if Failures(a.row) + 1 >= MAX_FAIL_COUNT then Some(Locked) else a.row.status, true, false)
  {
    var n := Failures(a.row) + 1;
    if n >= MAX_FAIL_COUNT {
      ExecThree(a, IncrementFailCount, LockAccount, RecordFailure(n, Some(Locked)));
    } else {
      ExecTwo(a, IncrementFailCount, RecordFailure(n, a.row.status));
    }
  }

  lemma SecondFactorPlanDoes(a: Account, secret: string)
    ensures Does(a, SecondFactorPlan(a.row, secret), Some(0), a.row.status, false, true)
  {
    var update := UpdateOtpSecretKey(secret);
    ExecOne(a, ResetFailCount);
    ExecTwo(a, ResetFailCount, update);
    assert ResetFailCount in [ResetFailCount] && ResetFailCount in [ResetFailCount, update];
  }

  lemma TokensPlanDoes(a: Account)
    ensures Does(a, TokensPlan(a.row), if a.row.claims then Some(0) else a.row.failCount, a.row.status, false,
                 a.row.claims)
  {
    ExecOne(a, RecordSuccess(a.row.status));
  }

  lemma OtherPlansDo(a: Account, hash: string, now: int, error: AuthError)
    ensures Does(a, Plan([], Refused(error)), a.row.failCount, a.row.status, false, false)
    ensures Does(a, Plan([UpdatePassword(hash, now)], Changed), a.row.failCount, a.row.status, false, false)
  {
    ExecOne(a, UpdatePassword(hash, now));
  }

  /** Counter and status after an operation. */
  lemma PlanDoes(a: Account, op: Operation, compare: Compare)
    ensures var plan := PlanOf(a.row, op, compare);
            var wrong, resets := WrongPassword(plan), Resets(plan);
            && Does(a, plan,
                    if wrong then Incremented(a.row.failCount) else if resets then Some(0) else a.row.failCount,
                    if (op.Login? && LockedOut(a.row)) || (wrong && Failures(a.row) + 1 >= MAX_FAIL_COUNT)
                    then Some(Locked) else a.row.status, wrong, resets)
            && (wrong ==> !LockedOut(a.row))
  {
    LockedPlanDoes(a);
    WrongPasswordPlanDoes(a);
    TokensPlanDoes(a);
    match op
    case Login(password, now, secret) =>
      SecondFactorPlanDoes(a, secret);
      if StatusError(a.row.status).Some? {
        OtherPlansDo(a, "", 0, StatusError(a.row.status).value);
      }
      OtherPlansDo(a, "", 0, PasswordExpired);
    case VerifyTwoFactor(accepted) =>
      OtherPlansDo(a, "", 0, InvalidCredentials);
      OtherPlansDo(a, "", 0, InvalidOtp);
    case ChangePassword(password, hash, now) =>
      OtherPlansDo(a, hash, now, InvalidCredentials);
  }

  /** The counter counts the wrong passwords since its last reset, and the account is locked exactly if there once
      were five without a reset between them. */
  lemma {:induction false} LockedExactlyAfterFive(a: Account, ops: seq<Operation>, compare: Compare)
    requires a.row.failCount == Some(0) && a.row.status != Some(Locked)
    ensures var b, streak := After(a, ops, compare), Streak(a, ops, compare);
            && b.row.failCount == Some(streak) && streak <= MAX_FAIL_COUNT
            && (b.row.status == Some(Locked) <==> FiveInARow(a, ops, compare))
  {
    if ops != [] {
      var init, op := ops[..|ops| - 1], ops[|ops| - 1];
      LockedExactlyAfterFive(a, init, compare);
      OneMoreOperation(After(a, init, compare), op, compare, Streak(a, init, compare), FiveInARow(a, init, compare));
    }
  }

  lemma {:induction false} OneMoreOperation(a: Account, op: Operation, compare: Compare, streak: nat, five: bool)
    requires a.row.failCount == Some(streak) && streak <= MAX_FAIL_COUNT
    requires (a.row.status == Some(Locked) <==> five) && (streak >= MAX_FAIL_COUNT ==> five)
    ensures var plan := PlanOf(a.row, op, compare);
            var b := ExecAll(a, plan.statements);
            var after := if WrongPassword(plan) then streak + 1 else if Resets(plan) then 0 else streak;
            && b.row.failCount == Some(after) && after <= MAX_FAIL_COUNT
            && (b.row.status == Some(Locked) <==> five || after >= MAX_FAIL_COUNT)
  {
    PlanDoes(a, op, compare);
  }

  /** Whatever the account: no operation unlocks it. */
  lemma {:induction false} LockedForGood(a: Account, ops: seq<Operation>, more: seq<Operation>, compare: Compare)
    requires After(a, ops, compare).row.status == Some(Locked)
    ensures After(a, ops + more, compare).row.status == Some(Locked)
  {
    if more == [] {
      assert ops + more == ops;
    } else {
      var init, op := more[..|more| - 1], more[|more| - 1];
      assert (ops + more)[..|ops + more| - 1] == ops + init;
      LockedForGood(a, ops, init, compare);
      PlanDoes(After(a, ops + init, compare), op, compare);
    }
  }

  // ---------------------------------------------------------------------------------------------
  // The history
  // ---------------------------------------------------------------------------------------------

  function Rows(history: seq<HistoryRow>, success: bool): nat {
    if history == [] then 0
    else Rows(history[..|history| - 1], success) + if history[|history| - 1].success == success then 1 else 0
  }

  /** An operation that counts as a failed login: a wrong password, or a login that meets a lock. */
  predicate FailedLogin(p: Plan) {
    WrongPassword(p) || p.outcome == Refused(AccountLocked)
  }

  /** The operations of a run that issued tokens. */
  function TokenPairs(a: Account, ops: seq<Operation>, compare: Compare): nat {
    if ops == [] then 0
    else TokenPairs(a, ops[..|ops| - 1], compare) + if LastPlan(a, ops, compare).outcome == Tokens then 1 else 0
  }

  /** The failed logins of a run. */
  function FailedLogins(a: Account, ops: seq<Operation>, compare: Compare): nat {
    if ops == [] then 0
    else FailedLogins(a, ops[..|ops| - 1], compare) + if FailedLogin(LastPlan(a, ops, compare)) then 1 else 0
  }

  lemma {:induction false} RowsSnoc(history: seq<HistoryRow>, r: HistoryRow, success: bool)
    ensures Rows(history + [r], success) == Rows(history, success) + if r.success == success then 1 else 0
  {
    assert (history + [r])[..|history|] == history;
  }

  datatype Kind = Increments | SuccessRows | FailureRows

  predicate Is(s: Statement, kind: Kind) {
    match kind
    case Increments => s == IncrementFailCount
    case SuccessRows => s.RecordSuccess?
    case FailureRows => s.RecordFailure?
  }

  /** Statements of a kind in a list. */
  function Number(statements: seq<Statement>, kind: Kind): nat {
    if statements == [] then 0
    else Number(statements[..|statements| - 1], kind) + if Is(statements[|statements| - 1], kind) then 1 else 0
  }

  lemma {:induction false} NumberConcat(a: seq<Statement>, b: seq<Statement>, kind: Kind)
    ensures Number(a + b, kind) == Number(a, kind) + Number(b, kind)
  {
    if b == [] {
      assert a + b == a;
    } else {
      assert (a + b)[..|a + b| - 1] == a + b[..|b| - 1];
      NumberConcat(a, b[..|b| - 1], kind);
    }
  }

  lemma {:induction false} NumberOne(s: Statement, kind: Kind)
    ensures Number([s], kind) == if Is(s, kind) then 1 else 0
  {
    assert [s][..0] == [];
  }

  lemma {:induction false} NumberTwo(s: Statement, t: Statement, kind: Kind)
    ensures Number([s, t], kind) == (if Is(s, kind) then 1 else 0) + (if Is(t, kind) then 1 else 0)
  {
    assert [s, t][..1] == [s];
    NumberOne(s, kind);
  }

  lemma {:induction false} NumberThree(s: Statement, t: Statement, u: Statement, kind: Kind)
    ensures Number([s, t, u], kind)
         == (if Is(s, kind) then 1 else 0) + (if Is(t, kind) then 1 else 0) + (if Is(u, kind) then 1 else 0)
  {
    assert [s, t, u][..2] == [s, t];
    NumberTwo(s, t, kind);
  }

  /** The statements of a plan by kind. */
  lemma {:induction false} PlanNumbers(row: Row, op: Operation, compare: Compare, kind: Kind)
    ensures var statements := PlanOf(row, op, compare).statements;
            |statements| <= 3
            && Number(statements, kind) == (if |statements| > 0 && Is(statements[0], kind) then 1 else 0)
               + (if |statements| > 1 && Is(statements[1], kind) then 1 else 0)
               + (if |statements| > 2 && Is(statements[2], kind) then 1 else 0)
  {
    var statements := PlanOf(row, op, compare).statements;
    if |statements| == 1 {
      NumberOne(statements[0], kind);
      assert statements == [statements[0]];
    } else if |statements| == 2 {
      NumberTwo(statements[0], statements[1], kind);
      assert statements == [statements[0], statements[1]];
    } else if |statements| == 3 {
      NumberThree(statements[0], statements[1], statements[2], kind);
      assert statements == [statements[0], statements[1], statements[2]];
    }
  }

  lemma {:induction false} ExecAllRows(a: Account, statements: seq<Statement>)
    ensures Rows(ExecAll(a, statements).history, true) == Rows(a.history, true) + Number(statements, SuccessRows)
    ensures Rows(ExecAll(a, statements).history, false) == Rows(a.history, false) + Number(statements, FailureRows)
  {
    if statements != [] {
      var n := |statements| - 1;
      ExecAllRows(a, statements[..n]);
      ExecRows(ExecAll(a, statements[..n]), statements[n], true);
      ExecRows(ExecAll(a, statements[..n]), statements[n], false);
    }
  }

  lemma {:induction false} ExecRows(a: Account, s: Statement, success: bool)
    ensures Rows(Exec(a, s).history, success)
         == Rows(a.history, success) + if Is(s, if success then SuccessRows else FailureRows) then 1 else 0
  {
    match s
    case RecordSuccess(status) => RowsSnoc(a.history, HistoryRow(0, status, true), success);
    case RecordFailure(failCount, status) => RowsSnoc(a.history, HistoryRow(failCount, status, false), success);
    case _ =>
  }

  /** A plan records a success exactly if it issues tokens, and a failure exactly if it is a failed login. */
  lemma PlanRecords(row: Row, op: Operation, compare: Compare)
    ensures var plan := PlanOf(row, op, compare);
            && Number(plan.statements, SuccessRows) == (if plan.outcome == Tokens then 1 else 0)
            && Number(plan.statements, FailureRows) == (if FailedLogin(plan) then 1 else 0)
  {
    PlanNumbers(row, op, compare, SuccessRows);
    PlanNumbers(row, op, compare, FailureRows);
  }

  lemma {:induction false} HistoryEffect(a: Account, op: Operation, compare: Compare)
    ensures var plan := PlanOf(a.row, op, compare);
            var b := ExecAll(a, plan.statements);
            && Rows(b.history, true) == Rows(a.history, true) + (if plan.outcome == Tokens then 1 else 0)
            && Rows(b.history, false) == Rows(a.history, false) + (if FailedLogin(plan) then 1 else 0)
  {
    PlanRecords(a.row, op, compare);
    ExecAllRows(a, PlanOf(a.row, op, compare).statements);
  }

  /** The history has one row for every token pair that login and second factor issued, and one for every failed
      login. */
  lemma {:induction false} HistoryTellsTheRun(a: Account, ops: seq<Operation>, compare: Compare)
    ensures var b := After(a, ops, compare);
            && Rows(b.history, true) == Rows(a.history, true) + TokenPairs(a, ops, compare)
            && Rows(b.history, false) == Rows(a.history, false) + FailedLogins(a, ops, compare)
  {
    if ops != [] {
      HistoryTellsTheRun(a, ops[..|ops| - 1], compare);
      HistoryEffect(After(a, ops[..|ops| - 1], compare), ops[|ops| - 1], compare);
    }
  }

  // ---------------------------------------------------------------------------------------------
  // A locked account
  // ---------------------------------------------------------------------------------------------

  predicate HasKeyAndClaims(row: Row) {
    row.otpSecretKey.Some? && row.otpSecretKey.value != "" && row.claims
  }

  /** The second factors with an accepted code. */
  function AcceptedCodes(ops: seq<Operation>): nat {
    if ops == [] then 0
    else AcceptedCodes(ops[..|ops| - 1]) + if ops[|ops| - 1] == VerifyTwoFactor(true) then 1 else 0
  }

  /** What an operation leaves of a locked account. */
  ghost predicate Stays(a: Account, statements: seq<Statement>, failCount: Option<int>) {
    var b := ExecAll(a, statements).row;
    b.status == a.row.status && b.otpSecretKey == a.row.otpSecretKey && b.claims == a.row.claims
    && b.failCount == failCount
  }

  lemma OneStatementStays(a: Account, failCount: int, status: Option<Status>, hash: string, at: int)
    ensures Stays(a, [], a.row.failCount)
    ensures Stays(a, [RecordFailure(failCount, status)], a.row.failCount)
    ensures Stays(a, [RecordSuccess(status)], Some(0))
    ensures Stays(a, [UpdatePassword(hash, at)], a.row.failCount)
  {
    ExecOne(a, RecordFailure(failCount, status));
    ExecOne(a, RecordSuccess(status));
    ExecOne(a, UpdatePassword(hash, at));
  }

  lemma LockedPlans(row: Row, op: Operation, compare: Compare)
    requires row.status == Some(Locked)
    ensures var plan := PlanOf(row, op, compare);
            var issues := op == VerifyTwoFactor(true) && HasKeyAndClaims(row);
            && (plan.outcome == Tokens <==> issues) && (issues ==> plan.statements == [RecordSuccess(row.status)])
            && (!issues ==> || plan.statements == []
                            || (|plan.statements| == 1 && plan.statements[0].RecordFailure?)
                            || (|plan.statements| == 1 && plan.statements[0].UpdatePassword?))
  {
  }

  /** No login gets past the lock, but the second factor does not ask for it; it resets the counter. */
  lemma LockedOperation(a: Account, op: Operation, compare: Compare)
    requires a.row.status == Some(Locked)
    ensures var plan := PlanOf(a.row, op, compare);
            && (plan.outcome == Tokens <==> op == VerifyTwoFactor(true) && HasKeyAndClaims(a.row))
            && Stays(a, plan.statements, if plan.outcome == Tokens then Some(0) else a.row.failCount)
  {
    var statements := PlanOf(a.row, op, compare).statements;
    LockedPlans(a.row, op, compare);
    if statements == [] {
      OneStatementStays(a, 0, None, "", 0);
    } else {
      assert statements == [statements[0]];
      match statements[0]
      case RecordFailure(failCount, status) => OneStatementStays(a, failCount, status, "", 0);
      case UpdatePassword(hash, at) => OneStatementStays(a, 0, None, hash, at);
      case RecordSuccess(status) => OneStatementStays(a, 0, status, "", 0);
    }
  }

  /** A locked account gets a token pair for every accepted code if it has a secret key and its claims, and else none;
      it stays locked, and a token pair sets its counter to zero. */
  lemma {:induction false} TokensOfTheLockedExactly(a: Account, ops: seq<Operation>, compare: Compare)
    requires a.row.status == Some(Locked)
    ensures var b, n := After(a, ops, compare).row, TokenPairs(a, ops, compare);
            && n == (if HasKeyAndClaims(a.row) then AcceptedCodes(ops) else 0)
            && b.status == Some(Locked) && b.failCount == (if n > 0 then Some(0) else a.row.failCount)
            && b.otpSecretKey == a.row.otpSecretKey && b.claims == a.row.claims
  {
    if ops != [] {
      var init := ops[..|ops| - 1];
      TokensOfTheLockedExactly(a, init, compare);
      LockedOperation(After(a, init, compare), ops[|ops| - 1], compare);
    }
  }

  // ---------------------------------------------------------------------------------------------
  // A counter that is NULL
  // ---------------------------------------------------------------------------------------------

  predicate WrongLogin(op: Operation, row: Row, compare: Compare) {
    op.Login? && !PasswordFits(row, op.password, compare)
  }

  lemma WrongLoginsPlan(row: Row, op: Operation, compare: Compare)
    requires WrongLogin(op, row, compare) && StatusError(row.status).None? && Failures(row) < MAX_FAIL_COUNT
    ensures PlanOf(row, op, compare) == WrongPasswordPlan(row)
  {
  }

  lemma IncrementedRow(a: Account, failCount: int, status: Option<Status>)
    ensures Exec(Exec(a, IncrementFailCount), RecordFailure(failCount, status)).row
         == a.row.(failCount := Incremented(a.row.failCount))
    ensures Exec(Exec(Exec(a, IncrementFailCount), LockAccount), RecordFailure(failCount, status)).row
         == a.row.(failCount := Incremented(a.row.failCount), status := Some(Locked))
  {
  }

  lemma {:induction false} OneWrongPassword(a: Account)
    ensures ExecAll(a, WrongPasswordPlan(a.row).statements).row
         == a.row.(failCount := Incremented(a.row.failCount),
                   status := if Failures(a.row) + 1 >= MAX_FAIL_COUNT then Some(Locked) else a.row.status)
  {
    var n := Failures(a.row) + 1;
    if n >= MAX_FAIL_COUNT {
      ExecThree(a, IncrementFailCount, LockAccount, RecordFailure(n, Some(Locked)));
      IncrementedRow(a, n, Some(Locked));
    } else {
      ExecTwo(a, IncrementFailCount, RecordFailure(n, a.row.status));
      IncrementedRow(a, n, a.row.status);
    }
  }

  lemma {:induction false} WrongPasswords(a: Account, ops: seq<Operation>, compare: Compare)
    requires |ops| < MAX_FAIL_COUNT && (forall op <- ops :: WrongLogin(op, a.row, compare))
    requires StatusError(a.row.status).None? && (a.row.failCount == None || a.row.failCount == Some(0))
    ensures After(a, ops, compare).row
         == if a.row.failCount.Some? then a.row.(failCount := Some(|ops|)) else a.row
  {
    if ops != [] {
      var init, op := ops[..|ops| - 1], ops[|ops| - 1];
      assert op in ops && forall o <- init :: o in ops;
      WrongPasswords(a, init, compare);
      WrongLoginsPlan(After(a, init, compare).row, op, compare);
      OneWrongPassword(After(a, init, compare));
    }
  }

  /** Five wrong passwords in a row lock an account exactly if its counter is not NULL to begin with. */
  lemma {:induction false} FiveWrongPasswordsLockExactly(a: Account, ops: seq<Operation>, compare: Compare)
    requires |ops| == MAX_FAIL_COUNT && forall op <- ops :: WrongLogin(op, a.row, compare)
    requires StatusError(a.row.status).None? && (a.row.failCount == None || a.row.failCount == Some(0))
    ensures var row := After(a, ops, compare).row;
            && (row.status == Some(Locked) <==> a.row.failCount.Some?)
            && row == if a.row.failCount.None? then a.row
                      else a.row.(failCount := Some(MAX_FAIL_COUNT), status := Some(Locked))
  {
    var init, op := ops[..|ops| - 1], ops[|ops| - 1];
    assert op in ops && forall o <- init :: o in ops;
    WrongPasswords(a, init, compare);
    WrongLoginsPlan(After(a, init, compare).row, op, compare);
    OneWrongPassword(After(a, init, compare));
  }

  /** However many wrong passwords there are, an account with a counter of NULL is not locked. */
  lemma {:induction false} NullNeverLocks(a: Account, ops: seq<Operation>, compare: Compare)
    requires a.row.failCount == None && StatusError(a.row.status).None?
    requires forall op <- ops :: WrongLogin(op, a.row, compare)
    ensures After(a, ops, compare).row == a.row
  {
    if ops != [] {
      var init, op := ops[..|ops| - 1], ops[|ops| - 1];
      assert op in ops && forall o <- init :: o in ops;
      NullNeverLocks(a, init, compare);
      WrongLoginsPlan(After(a, init, compare).row, op, compare);
      OneWrongPassword(After(a, init, compare));
    }
  }

  /** An account with two factors, and the right password among the wrong ones. */
  const KEYED := Row(Some(Active), Some(0), Some("right"), None, Some("key"), true, true, true, true)
  const WRONG := Login("wrong", 0, "")

  lemma {:induction false} AfterSnoc(a: Account, ops: seq<Operation>, op: Operation, compare: Compare)
    ensures LastPlan(a, ops + [op], compare) == PlanOf(After(a, ops, compare).row, op, compare)
    ensures After(a, ops + [op], compare)
         == ExecAll(After(a, ops, compare), LastPlan(a, ops + [op], compare).statements)
  {
    assert (ops + [op])[..|ops + [op]| - 1] == ops;
  }

  lemma RightPassword(compare: Compare)
    requires compare("right", "right")
    ensures PlanOf(KEYED, Login("right", 0, ""), compare) == Plan([ResetFailCount], SecondFactorNeeded)
    ensures ExecAll(Account(KEYED, []), [ResetFailCount]) == Account(KEYED, [])
  {
    ExecOne(Account(KEYED, []), ResetFailCount);
  }

  /** The code after the wrong passwords `ops`. */
  lemma {:induction false} CodeAfterTheLock(ops: seq<Operation>, compare: Compare)
    requires |ops| == MAX_FAIL_COUNT && forall op <- ops :: WrongLogin(op, KEYED, compare)
    ensures var a, all := Account(KEYED, []), ops + [VerifyTwoFactor(true)];
            && After(a, ops, compare).row.status == Some(Locked)
            && LastPlan(a, all, compare).outcome == Tokens
            && After(a, all, compare).row.status == Some(Locked) && After(a, all, compare).row.failCount == Some(0)
  {
    var a := Account(KEYED, []);
    FiveWrongPasswordsLockExactly(a, ops, compare);
    AfterSnoc(a, ops, VerifyTwoFactor(true), compare);
    LockedOperation(After(a, ops, compare), VerifyTwoFactor(true), compare);
  }

  /** A run in which the right password is followed by five wrong ones and then by the code: the account is locked and
      gets its tokens all the same. */
  lemma TokensWhileLocked(compare: Compare)
    requires forall p, stored :: compare(p, stored) <==> p == stored
    ensures var a, right := Account(KEYED, []), Login("right", 0, "");
            var wrong := [WRONG, WRONG, WRONG, WRONG, WRONG];
            var all := wrong + [VerifyTwoFactor(true)];
            && PlanOf(a.row, right, compare).outcome == SecondFactorNeeded
            && ExecAll(a, PlanOf(a.row, right, compare).statements) == a
            && After(a, wrong, compare).row.status == Some(Locked)
            && LastPlan(a, all, compare).outcome == Tokens
            && After(a, all, compare).row.status == Some(Locked) && After(a, all, compare).row.failCount == Some(0)
  {
    RightPassword(compare);
    CodeAfterTheLock([WRONG, WRONG, WRONG, WRONG, WRONG], compare);
  }
}
