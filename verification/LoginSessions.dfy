/** Operations on one account at the same time: every session reads the row when it begins, and its statements
    then come in between those of the others. */
module LoginSessions {
  import opened Options
  import opened LoginLockout

  /** `sessions` holds what each session still has to write, `log` what was written, `begun` all plans. */
  datatype World = World(account: Account, sessions: seq<seq<Statement>>, log: seq<Statement>, begun: seq<Plan>)

  datatype Event = Begin(op: Operation) | Execute(session: nat)

  function Init(a: Account): World {
    World(a, [], [], [])
  }

  /** One step; a session that has nothing left to write takes none. */
  function Step(w: World, e: Event, compare: Compare): World {
    match e
    case Begin(op) =>
      var plan := PlanOf(w.account.row, op, compare);
      w.(sessions := w.sessions + [plan.statements], begun := w.begun + [plan])
    case Execute(i) =>
      if i < |w.sessions| && w.sessions[i] != [] then
        var s := w.sessions[i][0];
        w.(account := Exec(w.account, s), sessions := w.sessions[i := w.sessions[i][1..]], log := w.log + [s])
      else w
  }

  function Run(w: World, events: seq<Event>, compare: Compare): World {
    if events == [] then w else Step(Run(w, events[..|events| - 1], compare), events[|events| - 1], compare)
  }

  predicate Quiet(w: World) {
    forall i: nat | i < |w.sessions| :: w.sessions[i] == []
  }

  // ---------------------------------------------------------------------------------------------
  // Nothing is lost
  // ---------------------------------------------------------------------------------------------

  function Pending(sessions: seq<seq<Statement>>, kind: Kind): nat {
    if sessions == [] then 0
    else Pending(sessions[..|sessions| - 1], kind) + Number(sessions[|sessions| - 1], kind)
  }

  function Planned(plans: seq<Plan>, kind: Kind): nat {
    if plans == [] then 0
    else Planned(plans[..|plans| - 1], kind) + Number(plans[|plans| - 1].statements, kind)
  }

  lemma {:induction false} PendingAfter(sessions: seq<seq<Statement>>, i: nat, kind: Kind)
    requires i < |sessions| && sessions[i] != []
    ensures Pending(sessions, kind)
         == Pending(sessions[i := sessions[i][1..]], kind) + if Is(sessions[i][0], kind) then 1 else 0
    decreases |sessions|
  {
    var n, s := |sessions| - 1, sessions[i];
    var after := sessions[i := s[1..]];
    if i == n {
      NumberConcat([s[0]], s[1..], kind);
      NumberOne(s[0], kind);
      assert s == [s[0]] + s[1..] && after[..n] == sessions[..n];
    } else {
      PendingAfter(sessions[..n], i, kind);
      assert after[..n] == sessions[..n][i := s[1..]];
    }
  }

  lemma {:induction false} QuietHasNothingPending(sessions: seq<seq<Statement>>, kind: Kind)
    requires forall i: nat | i < |sessions| :: sessions[i] == []
    ensures Pending(sessions, kind) == 0
  {
    if sessions != [] {
      QuietHasNothingPending(sessions[..|sessions| - 1], kind);
    }
  }

  lemma {:induction false} PlannedSnoc(plans: seq<Plan>, p: Plan, kind: Kind)
    ensures Planned(plans + [p], kind) == Planned(plans, kind) + Number(p.statements, kind)
  {
    assert (plans + [p])[..|plans|] == plans;
  }

  lemma {:induction false} PendingSnoc(sessions: seq<seq<Statement>>, s: seq<Statement>, kind: Kind)
    ensures Pending(sessions + [s], kind) == Pending(sessions, kind) + Number(s, kind)
  {
    assert (sessions + [s])[..|sessions|] == sessions;
  }

  /** The account is what the log made of it, and what was planned is written or still to be written. */
  ghost predicate Kept(w: World, a: Account, kind: Kind) {
    && w.account == ExecAll(a, w.log)
    && Number(w.log, kind) + Pending(w.sessions, kind) == Planned(w.begun, kind)
  }

  lemma StepKeeps(w: World, a: Account, e: Event, compare: Compare, kind: Kind)
    requires Kept(w, a, kind)
    ensures Kept(Step(w, e, compare), a, kind)
  {
    match e
    case Begin(op) =>
      var plan := PlanOf(w.account.row, op, compare);
      PlannedSnoc(w.begun, plan, kind);
      PendingSnoc(w.sessions, plan.statements, kind);
    case Execute(i) =>
      if i < |w.sessions| && w.sessions[i] != [] {
        var s := w.sessions[i][0];
        PendingAfter(w.sessions, i, kind);
        NumberConcat(w.log, [s], kind);
        NumberOne(s, kind);
        ExecSnoc(a, w.log, s);
      }
  }

  lemma {:induction false} RunKeeps(a: Account, events: seq<Event>, compare: Compare, kind: Kind)
    ensures Kept(Run(Init(a), events, compare), a, kind)
  {
    if events == [] {
    } else {
      var n := |events| - 1;
      RunKeeps(a, events[..n], compare, kind);
      StepKeeps(Run(Init(a), events[..n], compare), a, events[n], compare, kind);
    }
  }

  // ---------------------------------------------------------------------------------------------
  // The counter
  // ---------------------------------------------------------------------------------------------

  predicate IsReset(s: Statement) {
    s == ResetFailCount || s.RecordSuccess?
  }

  /** The statement that an event writes, if any. */
  function Written(w: World, e: Event): Option<Statement> {
    if e.Execute? && e.session < |w.sessions| && w.sessions[e.session] != []
    then Some(w.sessions[e.session][0]) else None
  }

  /** The last event of the run writes the increment of session `i`. */
  predicate WritesIncrement(a: Account, events: seq<Event>, compare: Compare, i: nat) {
    && events != []
    && events[|events| - 1] == Execute(i)
    && Written(Run(Init(a), events[..|events| - 1], compare), Execute(i)) == Some(IncrementFailCount)
  }

  predicate WritesReset(a: Account, events: seq<Event>, compare: Compare) {
    && events != []
    && var s := Written(Run(Init(a), events[..|events| - 1], compare), events[|events| - 1]);
       s.Some? && IsReset(s.value)
  }

  /** The increment of session `i` was written, and no reset since then. */
  predicate CountsStill(a: Account, events: seq<Event>, compare: Compare, i: nat) {
    && events != []
    && (WritesIncrement(a, events, compare, i)
        || (CountsStill(a, events[..|events| - 1], compare, i) && !WritesReset(a, events, compare)))
  }

  /** The sessions that met a wrong password, and whose increment was written after the last reset. */
  function StillCounted(a: Account, events: seq<Event>, compare: Compare): set<nat> {
    var begun := Run(Init(a), events, compare).begun;
    set i: nat | i < |begun| && WrongPassword(begun[i]) && CountsStill(a, events, compare, i)
  }

  /** Only the first statement that a session still has to write can be an increment, and only after a wrong
      password. */
  ghost predicate Incrementing(w: World) {
    && |w.sessions| == |w.begun|
    && (forall i: nat, j: nat | i < |w.sessions| && j < |w.sessions[i]| ::
          w.sessions[i][j] == IncrementFailCount ==> j == 0 && WrongPassword(w.begun[i]))
  }

  lemma PlanIncrementsFirst(row: Row, op: Operation, compare: Compare)
    ensures var plan := PlanOf(row, op, compare);
            forall j: nat | j < |plan.statements| ::
              plan.statements[j] == IncrementFailCount ==> j == 0 && WrongPassword(plan)
  {
  }

  lemma StepIncrements(w: World, e: Event, compare: Compare)
    requires Incrementing(w)
    ensures Incrementing(Step(w, e, compare))
  {
    if e.Begin? {
      PlanIncrementsFirst(w.account.row, e.op, compare);
    }
  }

  lemma {:induction false} RunIncrements(a: Account, events: seq<Event>, compare: Compare)
    ensures Incrementing(Run(Init(a), events, compare))
  {
    if events != [] {
      RunIncrements(a, events[..|events| - 1], compare);
      StepIncrements(Run(Init(a), events[..|events| - 1], compare), events[|events| - 1], compare);
    }
  }

  /** A session that counts has met a wrong password and has no increment left to write. */
  lemma {:induction false} CountedIsWritten(a: Account, events: seq<Event>, compare: Compare, i: nat)
    requires CountsStill(a, events, compare, i)
    ensures var w := Run(Init(a), events, compare);
            && i < |w.begun| == |w.sessions| && WrongPassword(w.begun[i]) && IncrementFailCount !in w.sessions[i]
  {
    var init := events[..|events| - 1];
    RunIncrements(a, init, compare);
    if !WritesIncrement(a, events, compare, i) {
      CountedIsWritten(a, init, compare, i);
    }
  }

  /** What one more event does to the counted sessions. */
  lemma NextCounted(a: Account, events: seq<Event>, compare: Compare)
    requires events != []
    ensures var init, e := events[..|events| - 1], events[|events| - 1];
            var s := Written(Run(Init(a), init, compare), e);
            StillCounted(a, events, compare)
            == (if s.Some? && IsReset(s.value) then {} else StillCounted(a, init, compare))
            + if s == Some(IncrementFailCount) then {e.session} else {}
  {
    var init, e := events[..|events| - 1], events[|events| - 1];
    var s := Written(Run(Init(a), init, compare), e);
    forall i: nat
      ensures i in StillCounted(a, events, compare) <==> CountsStill(a, events, compare, i)
      ensures i in StillCounted(a, init, compare) <==> CountsStill(a, init, compare, i)
    {
      if CountsStill(a, events, compare, i) {
        CountedIsWritten(a, events, compare, i);
      }
      if CountsStill(a, init, compare, i) {
        CountedIsWritten(a, init, compare, i);
      }
    }
  }

  lemma {:induction false} NewlyCounted(a: Account, events: seq<Event>, compare: Compare, i: nat)
    requires Written(Run(Init(a), events, compare), Execute(i)) == Some(IncrementFailCount)
    ensures i !in StillCounted(a, events, compare)
  {
    if CountsStill(a, events, compare, i) {
      CountedIsWritten(a, events, compare, i);
    }
  }

  lemma StepCounter(w: World, e: Event, compare: Compare, counted: nat)
    requires w.account.row.failCount == Some(counted)
    ensures var s := Written(w, e);
            Step(w, e, compare).account.row.failCount
            == Some((if s.Some? && IsReset(s.value) then 0 else counted)
                    + if s == Some(IncrementFailCount) then 1 else 0)
  {
  }

  lemma SizeAfter(before: set<nat>, after: set<nat>, i: nat, reset: bool, increment: bool)
    requires after == (if reset then {} else before) + (if increment then {i} else {}) && (increment ==> i !in before)
    ensures |after| == (if reset then 0 else |before|) + if increment then 1 else 0
  {
  }

  lemma {:induction false} NextSize(a: Account, events: seq<Event>, compare: Compare, init: seq<Event>,
                                    s: Option<Statement>)
    requires events != [] && init == events[..|events| - 1]
    requires s == Written(Run(Init(a), init, compare), events[|events| - 1])
    ensures |StillCounted(a, events, compare)|
         == (if s.Some? && IsReset(s.value) then 0 else |StillCounted(a, init, compare)|)
            + if s == Some(IncrementFailCount) then 1 else 0
  {
    var e := events[|events| - 1];
    NextCounted(a, events, compare);
    var i := if e.Execute? then e.session else 0;
    if s == Some(IncrementFailCount) {
      NewlyCounted(a, init, compare, i);
    }
    SizeAfter(StillCounted(a, init, compare), StillCounted(a, events, compare), i, s.Some? && IsReset(s.value),
              s == Some(IncrementFailCount));
  }

  /** No increment is lost, however the sessions are interleaved: the counter is the number of sessions that met
      a wrong password and wrote their increment after the last reset. */
  lemma {:induction false} NoIncrementIsLost(a: Account, events: seq<Event>, compare: Compare)
    requires a.row.failCount == Some(0)
    ensures Run(Init(a), events, compare).account.row.failCount == Some(|StillCounted(a, events, compare)|)
  {
    if events != [] {
      var init, e := events[..|events| - 1], events[|events| - 1];
      var w := Run(Init(a), init, compare);
      NoIncrementIsLost(a, init, compare);
      NextSize(a, events, compare, init, Written(w, e));
      StepCounter(w, e, compare, |StillCounted(a, init, compare)|);
    }
  }

  /** Every wrong password of a session that is done was written at some point. */
  lemma {:induction false} WrongPasswordIsWritten(a: Account, events: seq<Event>, compare: Compare, i: nat)
    requires var w := Run(Init(a), events, compare);
             i < |w.begun| == |w.sessions| && WrongPassword(w.begun[i]) && IncrementFailCount !in w.sessions[i]
    ensures exists n: nat | n <= |events| :: WritesIncrement(a, events[..n], compare, i)
  {
    if events != [] {
      var init, e := events[..|events| - 1], events[|events| - 1];
      var w := Run(Init(a), init, compare);
      assert events[..|events|] == events;
      RunIncrements(a, init, compare);
      if !WritesIncrement(a, events, compare, i) {
        if e == Execute(i) && w.sessions[i] != [] {
          assert w.sessions[i] == [w.sessions[i][0]] + w.sessions[i][1..];
        }
        WrongPasswordIsWritten(a, init, compare, i);
        var n: nat :| n <= |init| && WritesIncrement(a, init[..n], compare, i);
        assert init[..n] == events[..n];
      }
    }
  }

  function WrongPasswords(plans: seq<Plan>): nat {
    if plans == [] then 0
    else WrongPasswords(plans[..|plans| - 1]) + if WrongPassword(plans[|plans| - 1]) then 1 else 0
  }

  function TokenPairs(plans: seq<Plan>): nat {
    if plans == [] then 0
    else TokenPairs(plans[..|plans| - 1]) + if plans[|plans| - 1].outcome == Tokens then 1 else 0
  }

  function FailedLogins(plans: seq<Plan>): nat {
    if plans == [] then 0
    else FailedLogins(plans[..|plans| - 1]) + if FailedLogin(plans[|plans| - 1]) then 1 else 0
  }

  /** A plan writes an increment for a wrong password, and a row for tokens or for a failed login. */
  predicate RegularPlan(p: Plan) {
    && Number(p.statements, Increments) == (if WrongPassword(p) then 1 else 0)
    && Number(p.statements, SuccessRows) == (if p.outcome == Tokens then 1 else 0)
    && Number(p.statements, FailureRows) == (if FailedLogin(p) then 1 else 0)
  }

  lemma PlansAreRegular(row: Row, op: Operation, compare: Compare)
    ensures RegularPlan(PlanOf(row, op, compare))
  {
    PlanNumbers(row, op, compare, Increments);
    PlanRecords(row, op, compare);
  }

  lemma {:induction false} RegularPlansAddUp(plans: seq<Plan>)
    requires forall p <- plans :: RegularPlan(p)
    ensures Planned(plans, Increments) == WrongPasswords(plans)
    ensures Planned(plans, SuccessRows) == TokenPairs(plans)
    ensures Planned(plans, FailureRows) == FailedLogins(plans)
  {
    if plans != [] {
      RegularPlansAddUp(plans[..|plans| - 1]);
      assert RegularPlan(plans[|plans| - 1]);
    }
  }

  lemma {:induction false} RunsPlanRegularly(a: Account, events: seq<Event>, compare: Compare)
    ensures forall p <- Run(Init(a), events, compare).begun :: RegularPlan(p)
  {
    if events != [] {
      var w, e := Run(Init(a), events[..|events| - 1], compare), events[|events| - 1];
      RunsPlanRegularly(a, events[..|events| - 1], compare);
      if e.Begin? {
        PlansAreRegular(w.account.row, e.op, compare);
      }
    }
  }

  lemma {:induction false} RunIsRegular(a: Account, events: seq<Event>, compare: Compare)
    ensures var plans := Run(Init(a), events, compare).begun;
            && Planned(plans, Increments) == WrongPasswords(plans)
            && Planned(plans, SuccessRows) == TokenPairs(plans)
            && Planned(plans, FailureRows) == FailedLogins(plans)
  {
    RunsPlanRegularly(a, events, compare);
    RegularPlansAddUp(Run(Init(a), events, compare).begun);
  }

  /** When all sessions have written what they had to, the history has a row for every token pair and for every
      failed login, and the log has an increment for every wrong password. */
  lemma {:induction false} QuietHistoryTellsTheRun(a: Account, events: seq<Event>, compare: Compare)
    requires Quiet(Run(Init(a), events, compare))
    ensures var w := Run(Init(a), events, compare);
            && Rows(w.account.history, true) == Rows(a.history, true) + TokenPairs(w.begun)
            && Rows(w.account.history, false) == Rows(a.history, false) + FailedLogins(w.begun)
            && Number(w.log, Increments) == WrongPasswords(w.begun)
  {
    var w := Run(Init(a), events, compare);
    RunIsRegular(a, events, compare);
    RunKeeps(a, events, compare, Increments);
    RunKeeps(a, events, compare, SuccessRows);
    RunKeeps(a, events, compare, FailureRows);
    QuietHasNothingPending(w.sessions, Increments);
    QuietHasNothingPending(w.sessions, SuccessRows);
    QuietHasNothingPending(w.sessions, FailureRows);
    ExecAllRows(a, w.log);
  }

  // ---------------------------------------------------------------------------------------------
  // The lock
  // ---------------------------------------------------------------------------------------------

  /** No step unlocks an account. */
  lemma {:induction false} LockedStays(w: World, events: seq<Event>, compare: Compare)
    requires w.account.row.status == Some(Locked)
    ensures Run(w, events, compare).account.row.status == Some(Locked)
  {
    if events != [] {
      LockedStays(w, events[..|events| - 1], compare);
      StepStaysLocked(Run(w, events[..|events| - 1], compare), events[|events| - 1], compare);
    }
  }

  lemma StepStaysLocked(w: World, e: Event, compare: Compare)
    requires w.account.row.status == Some(Locked)
    ensures Step(w, e, compare).account.row.status == Some(Locked)
  {
  }

  predicate NoneResets(plans: seq<Plan>) {
    forall p <- plans :: !Resets(p)
  }

  /** A plan that sets the lock. */
  predicate Locks(p: Plan) {
    LockAccount in p.statements
  }

  predicate SomeLocks(plans: seq<Plan>) {
    exists p <- plans :: Locks(p)
  }

  lemma SomeLocksSnoc(plans: seq<Plan>, p: Plan)
    ensures SomeLocks(plans + [p]) <==> SomeLocks(plans) || Locks(p)
  {
    assert (plans + [p])[|plans|] == p;
    if q :| q in plans && Locks(q) {
      assert q in plans + [p];
    }
  }

  /** The logins that set the lock: those that read a count of five or more and no lock yet, or a count of four
      and have the wrong password. */
  predicate LockDue(row: Row, op: Operation, compare: Compare) {
    && op.Login? && row.status != Some(Locked)
    && (|| Failures(row) >= MAX_FAIL_COUNT
        || (Failures(row) == MAX_FAIL_COUNT - 1 && StatusError(row.status).None? && WrongLogin(op, row, compare)))
  }

  lemma LocksExactlyWhenDue(row: Row, op: Operation, compare: Compare)
    ensures Locks(PlanOf(row, op, compare)) <==> LockDue(row, op, compare)
  {
    var plan := PlanOf(row, op, compare);
    if LockDue(row, op, compare) {
      assert plan == if Failures(row) >= MAX_FAIL_COUNT then LockedPlan(row) else WrongPasswordPlan(row);
      assert plan.statements[if Failures(row) >= MAX_FAIL_COUNT then 0 else 1] == LockAccount;
    }
  }

  predicate LocksPending(sessions: seq<seq<Statement>>) {
    exists i: nat | i < |sessions| :: LockAccount in sessions[i]
  }

  predicate ResetsPending(sessions: seq<seq<Statement>>) {
    exists i: nat | i < |sessions| :: exists s <- sessions[i] :: IsReset(s)
  }

  /** What holds as long as nothing resets the counter: it has what the log has, and a lock is only planned, or set,
      after five wrong passwords. */
  ghost predicate Counting(w: World) {
    && w.account.row.failCount == Some(Number(w.log, Increments))
    && (w.account.row.status == Some(Locked) || LocksPending(w.sessions) ==> WrongPasswords(w.begun) >= MAX_FAIL_COUNT)
    && !ResetsPending(w.sessions)
  }

  lemma PlanWithoutReset(row: Row, op: Operation, compare: Compare)
    requires !Resets(PlanOf(row, op, compare))
    ensures forall s <- PlanOf(row, op, compare).statements :: !IsReset(s)
    ensures LockAccount in PlanOf(row, op, compare).statements ==>
              Failures(row) + (if WrongPassword(PlanOf(row, op, compare)) then 1 else 0) >= MAX_FAIL_COUNT
  {
  }

  lemma SessionsSnoc(sessions: seq<seq<Statement>>, s: seq<Statement>)
    ensures LocksPending(sessions + [s]) <==> LocksPending(sessions) || LockAccount in s
    ensures ResetsPending(sessions + [s]) <==> ResetsPending(sessions) || exists t <- s :: IsReset(t)
  {
    var all := sessions + [s];
    assert all[|sessions|] == s && forall i: nat | i < |sessions| :: all[i] == sessions[i];
  }

  lemma SessionsAfter(sessions: seq<seq<Statement>>, i: nat)
    requires i < |sessions| && sessions[i] != []
    ensures LocksPending(sessions)
       <==> LocksPending(sessions[i := sessions[i][1..]]) || sessions[i][0] == LockAccount
    ensures ResetsPending(sessions[i := sessions[i][1..]]) ==> ResetsPending(sessions)
    ensures IsReset(sessions[i][0]) ==> ResetsPending(sessions)
  {
    var after := sessions[i := sessions[i][1..]];
    assert sessions[i][0] in sessions[i];
    if j: nat :| j < |after| && LockAccount in after[j] {
      assert LockAccount in sessions[j];
    }
    if j: nat :| j < |sessions| && LockAccount in sessions[j] && sessions[i][0] != LockAccount {
      assert sessions[i] == [sessions[i][0]] + sessions[i][1..];
      assert LockAccount in after[j];
    }
    if j: nat, s :| j < |after| && s in after[j] && IsReset(s) {
      assert s in sessions[j];
    }
  }

  /** The lock is set, or still to be set, exactly if some session planned it. */
  ghost predicate LockingAsPlanned(w: World) {
    w.account.row.status == Some(Locked) || LocksPending(w.sessions) <==> SomeLocks(w.begun)
  }

  lemma StepLocks(w: World, e: Event, compare: Compare)
    requires LockingAsPlanned(w)
    ensures LockingAsPlanned(Step(w, e, compare))
  {
    match e
    case Begin(op) =>
      var plan := PlanOf(w.account.row, op, compare);
      SessionsSnoc(w.sessions, plan.statements);
      SomeLocksSnoc(w.begun, plan);
    case Execute(i) =>
      if i < |w.sessions| && w.sessions[i] != [] {
        SessionsAfter(w.sessions, i);
      }
  }

  lemma {:induction false} RunLocks(a: Account, events: seq<Event>, compare: Compare)
    requires a.row.status != Some(Locked)
    ensures LockingAsPlanned(Run(Init(a), events, compare))
  {
    if events != [] {
      RunLocks(a, events[..|events| - 1], compare);
      StepLocks(Run(Init(a), events[..|events| - 1], compare), events[|events| - 1], compare);
    }
  }

  /** Event number `k` begins a login that is to set the lock. */
  predicate LockDueAt(a: Account, events: seq<Event>, compare: Compare, k: nat)
    requires k < |events|
  {
    events[k].Begin? && LockDue(Run(Init(a), events[..k], compare).account.row, events[k].op, compare)
  }

  lemma DueSnoc(a: Account, events: seq<Event>, compare: Compare, n: nat)
    requires |events| == n + 1
    ensures (exists k: nat | k < |events| :: LockDueAt(a, events, compare, k))
       <==> (exists k: nat | k < n :: LockDueAt(a, events[..n], compare, k)) || LockDueAt(a, events, compare, n)
  {
    forall k: nat | k < n ensures LockDueAt(a, events, compare, k) <==> LockDueAt(a, events[..n], compare, k) {
      assert events[..n][..k] == events[..k];
    }
  }

  lemma StepPlansLocks(w: World, e: Event, compare: Compare)
    ensures SomeLocks(Step(w, e, compare).begun)
       <==> SomeLocks(w.begun) || (e.Begin? && LockDue(w.account.row, e.op, compare))
  {
    if e.Begin? {
      LocksExactlyWhenDue(w.account.row, e.op, compare);
      SomeLocksSnoc(w.begun, PlanOf(w.account.row, e.op, compare));
    }
  }

  lemma {:induction false} PlannedExactlyWhenDue(a: Account, events: seq<Event>, compare: Compare)
    ensures SomeLocks(Run(Init(a), events, compare).begun)
       <==> exists k: nat | k < |events| :: LockDueAt(a, events, compare, k)
  {
    if events != [] {
      var n := |events| - 1;
      PlannedExactlyWhenDue(a, events[..n], compare);
      DueSnoc(a, events, compare, n);
      StepPlansLocks(Run(Init(a), events[..n], compare), events[n], compare);
    }
  }

  /** When all sessions are done, the account is locked exactly if one of them planned to lock it; and that is
      exactly if some login read a count of five or more, or a count of four with the wrong password.  It does
      not matter how the sessions were interleaved, whether any of them reset the counter, or what the count
      came to in the end. */
  lemma {:induction false} LockedExactlyWhenDue(a: Account, events: seq<Event>, compare: Compare)
    requires a.row.status != Some(Locked) && Quiet(Run(Init(a), events, compare))
    ensures var w := Run(Init(a), events, compare);
            && (w.account.row.status == Some(Locked) <==> SomeLocks(w.begun))
            && (w.account.row.status == Some(Locked)
                <==> exists k: nat | k < |events| :: LockDueAt(a, events, compare, k))
  {
    RunLocks(a, events, compare);
    PlannedExactlyWhenDue(a, events, compare);
    assert !LocksPending(Run(Init(a), events, compare).sessions);
  }

  lemma BeginCounts(w: World, op: Operation, compare: Compare)
    requires Counting(w) && !Resets(PlanOf(w.account.row, op, compare))
    requires Number(w.log, Increments) <= WrongPasswords(w.begun)
    ensures Counting(Step(w, Begin(op), compare))
  {
    var plan := PlanOf(w.account.row, op, compare);
    PlanWithoutReset(w.account.row, op, compare);
    SessionsSnoc(w.sessions, plan.statements);
    assert (w.begun + [plan])[..|w.begun|] == w.begun;
  }

  /** One statement that does not reset is written, and `sessions` are left. */
  lemma StatementCounts(w: World, s: Statement, sessions: seq<seq<Statement>>)
    requires Counting(w) && !IsReset(s) && !ResetsPending(sessions)
    requires LocksPending(w.sessions) <==> LocksPending(sessions) || s == LockAccount
    ensures Counting(w.(account := Exec(w.account, s), sessions := sessions, log := w.log + [s]))
  {
    NumberConcat(w.log, [s], Increments);
    NumberOne(s, Increments);
  }

  lemma ExecuteCounts(w: World, i: nat, compare: Compare)
    requires Counting(w)
    ensures Counting(Step(w, Execute(i), compare))
  {
    if i < |w.sessions| && w.sessions[i] != [] {
      SessionsAfter(w.sessions, i);
      StatementCounts(w, w.sessions[i][0], w.sessions[i := w.sessions[i][1..]]);
    }
  }

  lemma {:induction false} LogIsPlanned(a: Account, events: seq<Event>, compare: Compare)
    ensures var w := Run(Init(a), events, compare);
            && Number(w.log, Increments) <= WrongPasswords(w.begun)
            && (Quiet(w) ==> Number(w.log, Increments) == WrongPasswords(w.begun))
  {
    var w := Run(Init(a), events, compare);
    RunKeeps(a, events, compare, Increments);
    RunIsRegular(a, events, compare);
    if Quiet(w) {
      QuietHasNothingPending(w.sessions, Increments);
    }
  }

  lemma {:induction false} RunCounts(a: Account, events: seq<Event>, compare: Compare)
    requires a.row.failCount == Some(0) && a.row.status != Some(Locked)
    requires NoneResets(Run(Init(a), events, compare).begun)
    ensures Counting(Run(Init(a), events, compare))
  {
    if events != [] {
      var init, e := events[..|events| - 1], events[|events| - 1];
      var w := Run(Init(a), init, compare);
      assert forall p <- w.begun :: p in Step(w, e, compare).begun;
      RunCounts(a, init, compare);
      LogIsPlanned(a, init, compare);
      match e
      case Begin(op) =>
        assert PlanOf(w.account.row, op, compare) in Step(w, e, compare).begun;
        BeginCounts(w, op, compare);
      case Execute(i) =>
        ExecuteCounts(w, i, compare);
    }
  }

  /** However the sessions are interleaved: afterwards logins are refused exactly if some login was to set the
      lock, or five wrong passwords were written after the last reset. */
  lemma {:induction false} ConcurrentLockoutExactly(a: Account, events: seq<Event>, compare: Compare)
    requires a.row.failCount == Some(0) && a.row.status != Some(Locked)
    requires Quiet(Run(Init(a), events, compare))
    ensures LockedOut(Run(Init(a), events, compare).account.row)
       <==> || (exists k: nat | k < |events| :: LockDueAt(a, events, compare, k))
            || |StillCounted(a, events, compare)| >= MAX_FAIL_COUNT
  {
    LockedExactlyWhenDue(a, events, compare);
    NoIncrementIsLost(a, events, compare);
  }

  /** If no session resets the counter, then that is exactly if there were at least five wrong passwords. */
  lemma {:induction false} FiveWrongPasswordsLockOut(a: Account, events: seq<Event>, compare: Compare)
    requires a.row.failCount == Some(0) && a.row.status != Some(Locked)
    requires NoneResets(Run(Init(a), events, compare).begun) && Quiet(Run(Init(a), events, compare))
    ensures var w := Run(Init(a), events, compare);
            LockedOut(w.account.row) <==> WrongPasswords(w.begun) >= MAX_FAIL_COUNT
  {
    RunCounts(a, events, compare);
    LogIsPlanned(a, events, compare);
  }

  /** So the lock may come late: two sessions that both read the count 3 leave it at 5 without a lock, and only the
      next login sets it. */
  lemma LockMayComeLate(a: Account, wrong: Operation, compare: Compare)
    requires a.row.failCount == Some(3) && a.row.status == Some(Active) && WrongLogin(wrong, a.row, compare)
    ensures var events := [Begin(wrong), Begin(wrong), Execute(0), Execute(0), Execute(1), Execute(1)];
            var w := Run(Init(a), events, compare);
            && Quiet(w) && w.account.row.failCount == Some(5) && w.account.row.status == Some(Active)
            && PlanOf(w.account.row, wrong, compare).outcome == Refused(AccountLocked)
            && LockAccount in PlanOf(w.account.row, wrong, compare).statements
  {
    var plan := PlanOf(a.row, wrong, compare);
    var w0 := Init(a);
    var w1 := Step(w0, Begin(wrong), compare);
    var w2 := Step(w1, Begin(wrong), compare);
    var w3 := Step(w2, Execute(0), compare);
    var w4 := Step(w3, Execute(0), compare);
    var w5 := Step(w4, Execute(1), compare);
    var w6 := Step(w5, Execute(1), compare);
    assert plan.statements == [IncrementFailCount, RecordFailure(4, Some(Active))];
    assert w2.sessions == [plan.statements, plan.statements];
    RunOfSix(w0, Begin(wrong), Begin(wrong), Execute(0), Execute(0), Execute(1), Execute(1), compare);
  }

  lemma {:induction false} RunOfSix(w: World, a: Event, b: Event, c: Event, d: Event, e: Event, f: Event,
                                    compare: Compare)
    ensures Run(w, [a, b, c, d, e, f], compare)
         == var two := Step(Step(w, a, compare), b, compare);
            Step(Step(Step(Step(two, c, compare), d, compare), e, compare), f, compare)
  {
    assert [] + [a] == [a] && [a] + [b] == [a, b] && [a, b] + [c] == [a, b, c];
    RunSnoc(w, [], a, compare);
    RunSnoc(w, [a], b, compare);
    RunSnoc(w, [a, b], c, compare);
    RunSnoc(w, [a, b, c], d, compare);
    RunSnoc(w, [a, b, c, d], e, compare);
    RunSnoc(w, [a, b, c, d, e], f, compare);
    assert [a, b, c] + [d] == [a, b, c, d] && [a, b, c, d] + [e] == [a, b, c, d, e];
    assert [a, b, c, d, e] + [f] == [a, b, c, d, e, f];
  }

  lemma {:induction false} RunSnoc(w: World, events: seq<Event>, e: Event, compare: Compare)
    ensures Run(w, events + [e], compare) == Step(Run(w, events, compare), e, compare)
  {
    assert (events + [e])[..|events|] == events;
  }
}
