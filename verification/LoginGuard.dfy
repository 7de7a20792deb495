/** src/auth/login-guard.ts: a lock per email after repeated failures. Times are milliseconds. */
module LoginGuard {
  import opened Outcomes
  import opened JsStrings

  const MAX_FAILED_ATTEMPTS: nat := 5
  const LOCKOUT_MS := 15 * 60000

  datatype AttemptRow = AttemptRow(failedCount: nat, lockedUntil: Option<int>)

  /** The check before an attempt: None when it throws, else the row it leaves. */
  function Checked(row: Option<AttemptRow>, now: int): Option<Option<AttemptRow>> {
    if row.None? || row.value.lockedUntil.None? then Some(row)
    else if row.value.lockedUntil.value > now then None
    else Some(None)
  }

  function Failed(row: Option<AttemptRow>, now: int): AttemptRow {
    var failed := (if row.Some? then row.value.failedCount else 0) + 1;
    AttemptRow(failed, if failed >= MAX_FAILED_ATTEMPTS then Some(now + LOCKOUT_MS) else None)
  }

  type Attempts = map<string, AttemptRow>

  function RowOf(rows: Attempts, email: string): Option<AttemptRow> {
    if email in rows then Some(rows[email]) else None
  }

  function WithRow(rows: Attempts, email: string, row: Option<AttemptRow>): Attempts {
    if row.Some? then rows[email := row.value] else rows - {email}
  }

  /** A call of the guard. */
  datatype Call = Check(email: string, now: int) | Failure(email: string, now: int) | Success(email: string)

  /** The row a call is about: the check takes the email as it is given. */
  function KeyOf(call: Call): string {
    if call.Check? then call.email else Lower(call.email)
  }

  /** Does the call return? Only a check of a locked email throws. */
  predicate Allowed(row: Option<AttemptRow>, call: Call) {
    call.Check? ==> Checked(row, call.now).Some?
  }

  function RowAfter(row: Option<AttemptRow>, call: Call): Option<AttemptRow> {
    match call
    case Check(_, now) => if Checked(row, now).Some? then Checked(row, now).value else row
    case Failure(_, now) => Some(Failed(row, now))
    case Success(_) => None
  }

  function After(rows: Attempts, call: Call): Attempts {
    WithRow(rows, KeyOf(call), RowAfter(RowOf(rows, KeyOf(call)), call))
  }

  /** The count stays within the limit, and a lock time is there exactly when it is reached. */
  ghost predicate LawfulRow(row: Option<AttemptRow>) {
    row.Some? ==> row.value.failedCount <= MAX_FAILED_ATTEMPTS
                  && (row.value.lockedUntil.Some? <==> row.value.failedCount == MAX_FAILED_ATTEMPTS)
  }

  class LoginGuard {
    var rows: Attempts

    constructor ()
      ensures rows == map[]
    {
      rows := map[];
    }

    /** False when the program throws; an expired lock is removed with its count. */
    method AssertNotLocked(email: string, now: int) returns (allowed: bool)
      modifies this
      ensures allowed == Checked(RowOf(old(rows), email), now).Some?
      ensures rows == After(old(rows), Check(email, now))
    {
      var row := RowOf(rows, email);
      if row.None? || row.value.lockedUntil.None? {
        assert rows == WithRow(rows, email, row);
        return true;
      }
      if row.value.lockedUntil.value > now {
        return false;
      }
      rows := rows - {email};
      allowed := true;
    }

    method RecordFailure(email: string, now: int)
      modifies this
      ensures rows == After(old(rows), Failure(email, now))
      ensures RowOf(rows, Lower(email)) == Some(Failed(RowOf(old(rows), Lower(email)), now))
    {
      var normalized := Lower(email);
      var row := RowOf(rows, normalized);
      var failed := (if row.Some? then row.value.failedCount else 0) + 1;
      var lockedUntil := if failed >= MAX_FAILED_ATTEMPTS then Some(now + LOCKOUT_MS) else None;
      rows := rows[normalized := AttemptRow(failed, lockedUntil)];
    }

    method RecordSuccess(email: string)
      modifies this
      ensures rows == After(old(rows), Success(email))
    {
      rows := rows - {Lower(email)};
    }
  }

  /** A success drops the row, so that the next five failures are let through again: a call after it is checked as on the first day. */
  lemma SuccessForgets(rows: Attempts, email: string, now: int)
    requires Lower(email) == email
    ensures var after := After(rows, Success(email));
            && RowOf(after, email) == None
            && Allowed(RowOf(after, email), Check(email, now)) && After(after, Check(email, now)) == after
            && RowOf(After(after, Failure(email, now)), email) == Some(AttemptRow(1, None))
  {
    hide Lower;
  }

  /** A check lets a call through iff no lock lasts; it keeps the count unless a lock has expired. */
  lemma LockHoldsExactly(rows: Attempts, email: string, now: int)
    ensures var row, after := RowOf(rows, email), RowOf(After(rows, Check(email, now)), email);
            var locked := row.Some? && row.value.lockedUntil.Some?;
            && (Allowed(row, Check(email, now)) <==> !(locked && row.value.lockedUntil.value > now))
            && after == if locked && row.value.lockedUntil.value <= now then None else row
  {
  }

  // ---------------------------------------------------------------- many emails

  ghost function AfterAll(rows: Attempts, calls: seq<Call>): Attempts {
    if calls == [] then rows else After(AfterAll(rows, calls[..|calls| - 1]), calls[|calls| - 1])
  }

  /** Which of one email's calls were let through, in order. */
  ghost function OutcomesOf(rows: Attempts, calls: seq<Call>, email: string): seq<bool> {
    if calls == [] then []
    else
      var front, call := calls[..|calls| - 1], calls[|calls| - 1];
      if KeyOf(call) == email then OutcomesOf(rows, front, email) + [Allowed(RowOf(AfterAll(rows, front), email), call)]
      else OutcomesOf(rows, front, email)
  }

  /** The calls about one email alone. */
  ghost function Only(calls: seq<Call>, email: string): seq<Call> {
    if calls == [] then []
    else
      var front, call := Only(calls[..|calls| - 1], email), calls[|calls| - 1];
      if KeyOf(call) == email then front + [call] else front
  }

  lemma RowAfterCall(rows: Attempts, call: Call, email: string)
    ensures RowOf(After(rows, call), email) == if KeyOf(call) == email then RowAfter(RowOf(rows, email), call) else RowOf(rows, email)
  {
    hide KeyOf, RowAfter;
  }

  lemma OneCallMore(rows: Attempts, calls: seq<Call>, call: Call, email: string)
    requires KeyOf(call) == email
    ensures AfterAll(rows, calls + [call]) == After(AfterAll(rows, calls), call)
    ensures OutcomesOf(rows, calls + [call], email) == OutcomesOf(rows, calls, email) + [Allowed(RowOf(AfterAll(rows, calls), email), call)]
  {
    assert (calls + [call])[..|calls|] == calls;
  }

  /** Calls for other emails, mixed in as they may be, change neither an email's row nor which of its calls are let through. */
  lemma {:induction false} EmailsAreIndependent(rows: Attempts, calls: seq<Call>, email: string)
    ensures RowOf(AfterAll(rows, calls), email) == RowOf(AfterAll(rows, Only(calls, email)), email)
    ensures OutcomesOf(rows, calls, email) == OutcomesOf(rows, Only(calls, email), email)
  {
    if calls != [] {
      hide After, KeyOf, Allowed, RowAfter, RowOf;
      var front, call := calls[..|calls| - 1], calls[|calls| - 1];
      EmailsAreIndependent(rows, front, email);
      RowAfterCall(AfterAll(rows, front), call, email);
      if KeyOf(call) == email {
        OneCallMore(rows, Only(front, email), call, email);
        RowAfterCall(AfterAll(rows, Only(front, email)), call, email);
      }
    }
  }

  // ---------------------------------------------------------------- a run of wrong guesses

  /** A guess that fails: the clock when it is checked, and when the failure is written. */
  datatype Guess = Guess(checkedAt: int, failedAt: int)

  ghost predicate InOrder(guesses: seq<Guess>) {
    && (forall i :: 0 <= i < |guesses| ==> guesses[i].checkedAt <= guesses[i].failedAt)
    && (forall i, j :: 0 <= i < j < |guesses| ==> guesses[i].failedAt <= guesses[j].checkedAt)
  }

  /** The row after the guesses, and the times of those that were let through. */
  datatype Run = Run(row: Option<AttemptRow>, recorded: seq<int>)

  ghost function RunOf(start: Option<AttemptRow>, guesses: seq<Guess>): Run {
    if guesses == [] then Run(start, [])
    else
      var before, guess := RunOf(start, guesses[..|guesses| - 1]), guesses[|guesses| - 1];
      var checked := Checked(before.row, guess.checkedAt);
      if checked.None? then before
      else Run(Some(Failed(checked.value, guess.failedAt)), before.recorded + [guess.failedAt])
  }

  function CountOf(row: Option<AttemptRow>): nat {
    if row.Some? then row.value.failedCount else 0
  }

  ghost predicate Ascending(times: seq<int>) {
    forall i, j :: 0 <= i < j < |times| ==> times[i] <= times[j]
  }

  /** Any six guesses that were let through span at least one lockout. */
  ghost predicate SixSpanLockout(times: seq<int>) {
    forall i :: 0 <= i < |times| - 5 ==> times[i] + LOCKOUT_MS <= times[i + 5]
  }

  /** How the row remembers the latest guesses: those since the last lock, or the lock itself. */
  ghost predicate Remembers(run: Run, start: Option<AttemptRow>) {
    var c, n := CountOf(run.row), |run.recorded|;
    && LawfulRow(run.row)
    && (n == 0 ==> run.row == start)
    && (n > 0 ==> c > 0)
    && (n > 0 && c == MAX_FAILED_ATTEMPTS ==> run.row.value.lockedUntil == Some(run.recorded[n - 1] + LOCKOUT_MS))
    && (c < MAX_FAILED_ATTEMPTS && n > c > 0 ==> run.recorded[n - c - 1] + LOCKOUT_MS <= run.recorded[n - c])
  }

  /** A new guess comes a lockout after the fifth one before it. */
  lemma GapHolds(start: Option<AttemptRow>, before: Run, guess: Guess)
    requires Remembers(before, start) && Ascending(before.recorded) && |before.recorded| >= 5
    requires Checked(before.row, guess.checkedAt).Some? && guess.checkedAt <= guess.failedAt
    requires before.recorded[|before.recorded| - 1] <= guess.checkedAt
    ensures before.recorded[|before.recorded| - 5] + LOCKOUT_MS <= guess.failedAt
  {
    var c, n := CountOf(before.row), |before.recorded|;
    if c == MAX_FAILED_ATTEMPTS {
      assert before.recorded[n - 5] <= before.recorded[n - 1];
    } else {
      assert n - 5 == n - c - 1 || before.recorded[n - 5] <= before.recorded[n - c - 1];
      assert n - c == n - 1 || before.recorded[n - c] <= before.recorded[n - 1];
    }
  }

  lemma TimesGrow(times: seq<int>, t: int)
    requires Ascending(times) && SixSpanLockout(times)
    requires |times| > 0 ==> times[|times| - 1] <= t
    requires |times| >= 5 ==> times[|times| - 5] + LOCKOUT_MS <= t
    ensures Ascending(times + [t]) && SixSpanLockout(times + [t])
  {
    forall i | 0 <= i < |times| ensures times[i] <= t {
    }
  }

  lemma RowRemembers(start: Option<AttemptRow>, before: Run, checked: Option<AttemptRow>, guess: Guess)
    requires Remembers(before, start) && LawfulRow(start)
    requires Checked(before.row, guess.checkedAt) == Some(checked) && guess.checkedAt <= guess.failedAt
    ensures Remembers(Run(Some(Failed(checked, guess.failedAt)), before.recorded + [guess.failedAt]), start)
  {
    hide Ascending, SixSpanLockout;
  }

  lemma GuessStep(start: Option<AttemptRow>, before: Run, checked: Option<AttemptRow>, guess: Guess)
    requires Remembers(before, start) && LawfulRow(start) && Ascending(before.recorded) && SixSpanLockout(before.recorded)
    requires Checked(before.row, guess.checkedAt) == Some(checked) && guess.checkedAt <= guess.failedAt
    requires |before.recorded| > 0 ==> before.recorded[|before.recorded| - 1] <= guess.checkedAt
    ensures var after := Run(Some(Failed(checked, guess.failedAt)), before.recorded + [guess.failedAt]);
            Remembers(after, start) && Ascending(after.recorded) && SixSpanLockout(after.recorded)
  {
    hide Remembers, Ascending, SixSpanLockout, Checked;
    RowRemembers(start, before, checked, guess);
    if |before.recorded| >= 5 {
      GapHolds(start, before, guess);
    }
    TimesGrow(before.recorded, guess.failedAt);
  }

  /** Over a whole run: lawful rows, and every six let through span a lockout. */
  lemma {:induction false} RunIsGuarded(start: Option<AttemptRow>, guesses: seq<Guess>)
    requires LawfulRow(start) && InOrder(guesses)
    ensures var run := RunOf(start, guesses);
            && Remembers(run, start) && Ascending(run.recorded) && SixSpanLockout(run.recorded)
            && (|run.recorded| > 0 ==> |guesses| > 0 && run.recorded[|run.recorded| - 1] <= guesses[|guesses| - 1].failedAt)
  {
    if guesses != [] {
      var n := |guesses| - 1;
      assert InOrder(guesses[..n]);
      hide Remembers, Ascending, SixSpanLockout, LawfulRow, Checked, Failed;
      RunIsGuarded(start, guesses[..n]);
      var before := RunOf(start, guesses[..n]);
      var checked := Checked(before.row, guesses[n].checkedAt);
      if n > 0 {
        assert guesses[..n][n - 1] == guesses[n - 1];
      }
      if checked.Some? {
        GuessStep(start, before, checked.value, guesses[n]);
      }
    }
  }

  lemma {:induction false} FivesSpread(times: seq<int>, k: nat)
    requires SixSpanLockout(times) && 5 * k < |times|
    ensures times[0] + k * LOCKOUT_MS <= times[5 * k]
  {
    if k > 0 {
      FivesSpread(times, k - 1);
      assert times[5 * (k - 1)] + LOCKOUT_MS <= times[5 * (k - 1) + 5];
    }
  }

  lemma Periods(span: int, k: nat)
    requires span >= k * LOCKOUT_MS
    ensures span / LOCKOUT_MS >= k
  {
  }

  /**
   * Without a success, from any lawful row and under any clock, the guesses let through
   * within a span number at most 5 times one more than the lockouts the span holds; the
   * count never exceeds 5, and the account is locked exactly when it is 5.
   */
  lemma GuessesAreBounded(start: Option<AttemptRow>, guesses: seq<Guess>)
    requires LawfulRow(start) && InOrder(guesses)
    ensures LawfulRow(RunOf(start, guesses).row)
    ensures var times := RunOf(start, guesses).recorded;
            times != [] ==> |times| <= 5 * ((times[|times| - 1] - times[0]) / LOCKOUT_MS + 1)
  {
    RunIsGuarded(start, guesses);
    var times := RunOf(start, guesses).recorded;
    if times != [] {
      var k := (|times| - 1) / 5;
      FivesSpread(times, k);
      assert times[5 * k] <= times[|times| - 1];
      Periods(times[|times| - 1] - times[0], k);
    }
  }

  /** The guard's calls for these guesses: a check each, and a failure when it is let through. */
  ghost function CallsOf(start: Option<AttemptRow>, guesses: seq<Guess>, email: string): seq<Call> {
    if guesses == [] then []
    else
      var front, guess := guesses[..|guesses| - 1], guesses[|guesses| - 1];
      CallsOf(start, front, email) + [Check(email, guess.checkedAt)]
      + if Checked(RunOf(start, front).row, guess.checkedAt).Some? then [Failure(email, guess.failedAt)] else []
  }

  lemma {:induction false} GuessesAreCalls(rows: Attempts, guesses: seq<Guess>, email: string)
    requires Lower(email) == email
    ensures RowOf(AfterAll(rows, CallsOf(RowOf(rows, email), guesses, email)), email) == RunOf(RowOf(rows, email), guesses).row
  {
    if guesses != [] {
      hide After, Lower, RowOf, WithRow;
      var front, guess := guesses[..|guesses| - 1], guesses[|guesses| - 1];
      GuessesAreCalls(rows, front, email);
      var start := RowOf(rows, email);
      var earlier, check, failure := CallsOf(start, front, email), Check(email, guess.checkedAt), Failure(email, guess.failedAt);
      OneCallMore(rows, earlier, check, email);
      RowAfterCall(AfterAll(rows, earlier), check, email);
      OneCallMore(rows, earlier + [check], failure, email);
      RowAfterCall(AfterAll(rows, earlier + [check]), failure, email);
      assert earlier + [check] + [] == earlier + [check];
    }
  }

  /** The bound and the law of the row hold for an email whatever calls for other emails come in between. */
  lemma MixedGuessesAreBounded(rows: Attempts, calls: seq<Call>, email: string, guesses: seq<Guess>)
    requires Lower(email) == email && LawfulRow(RowOf(rows, email)) && InOrder(guesses)
    requires Only(calls, email) == CallsOf(RowOf(rows, email), guesses, email)
    ensures LawfulRow(RowOf(AfterAll(rows, calls), email))
    ensures RowOf(AfterAll(rows, calls), email) == RunOf(RowOf(rows, email), guesses).row
    ensures var times := RunOf(RowOf(rows, email), guesses).recorded;
            times != [] ==> |times| <= 5 * ((times[|times| - 1] - times[0]) / LOCKOUT_MS + 1)
  {
    hide AfterAll, Only, CallsOf, RunOf, LawfulRow, InOrder;
    EmailsAreIndependent(rows, calls, email);
    GuessesAreCalls(rows, guesses, email);
    GuessesAreBounded(RowOf(rows, email), guesses);
  }

  // ---------------------------------------------------------------- the bound is reached

  function Burst(k: nat): seq<Guess> {
    var t := k * LOCKOUT_MS;
    [Guess(t, t), Guess(t, t), Guess(t, t), Guess(t, t), Guess(t, t)]
  }

  function Bursts(q: nat): (g: seq<Guess>)
  {
    if q == 0 then Burst(0) else Bursts(q - 1) + Burst(q)
  }

  lemma OneMore(start: Option<AttemptRow>, guesses: seq<Guess>, guess: Guess)
    ensures var before := RunOf(start, guesses);
            var checked := Checked(before.row, guess.checkedAt);
            RunOf(start, guesses + [guess]) ==
              if checked.None? then before
              else Run(Some(Failed(checked.value, guess.failedAt)), before.recorded + [guess.failedAt])
  {
    assert (guesses + [guess])[..|guesses|] == guesses;
  }

  /** Five guesses at the moment a lock expires are all let through. */
  lemma BurstIsRecorded(guesses: seq<Guess>, k: nat)
    requires var row := RunOf(None, guesses).row; row.None? || row.value.lockedUntil == Some(k * LOCKOUT_MS)
    ensures var before, after, t := RunOf(None, guesses), RunOf(None, guesses + Burst(k)), k * LOCKOUT_MS;
            && after.row == Some(AttemptRow(5, Some((k + 1) * LOCKOUT_MS)))
            && after.recorded == before.recorded + [t, t, t, t, t]
  {
    hide RunOf;
    var t := k * LOCKOUT_MS;
    var g := Guess(t, t);
    OneMore(None, guesses, g);
    OneMore(None, guesses + [g], g);
    OneMore(None, guesses + [g] + [g], g);
    OneMore(None, guesses + [g] + [g] + [g], g);
    OneMore(None, guesses + [g] + [g] + [g] + [g], g);
    assert guesses + Burst(k) == guesses + [g] + [g] + [g] + [g] + [g];
  }

  lemma {:induction false} BurstsAreRecorded(q: nat)
    ensures var run := RunOf(None, Bursts(q));
            && run.row == Some(AttemptRow(5, Some((q + 1) * LOCKOUT_MS)))
            && |run.recorded| == 5 * (q + 1) && run.recorded[0] == 0 && run.recorded[|run.recorded| - 1] == q * LOCKOUT_MS
  {
    hide RunOf;
    if q == 0 {
      NoGuess();
      assert [] + Burst(0) == Burst(0);
      BurstIsRecorded([], 0);
    } else {
      BurstsAreRecorded(q - 1);
      BurstIsRecorded(Bursts(q - 1), q);
    }
  }

  lemma {:induction false} BurstsInOrder(q: nat)
    ensures InOrder(Bursts(q)) && forall i :: 0 <= i < |Bursts(q)| ==> Bursts(q)[i].failedAt <= q * LOCKOUT_MS
  {
    if q > 0 {
      BurstsInOrder(q - 1);
      hide InOrder, Bursts;
      BurstFollows(Bursts(q - 1), q);
      BurstsUnfold(q);
    }
  }

  lemma BurstsUnfold(q: nat)
    requires q > 0
    ensures Bursts(q) == Bursts(q - 1) + Burst(q)
  {
  }

  lemma BurstFollows(guesses: seq<Guess>, q: nat)
    requires q > 0 && InOrder(guesses) && forall i :: 0 <= i < |guesses| ==> guesses[i].failedAt <= (q - 1) * LOCKOUT_MS
    ensures InOrder(guesses + Burst(q))
    ensures forall i :: 0 <= i < |guesses + Burst(q)| ==> (guesses + Burst(q))[i].failedAt <= q * LOCKOUT_MS
  {
    var t, burst := q * LOCKOUT_MS, Burst(q);
    assert forall i :: 0 <= i < |burst| ==> burst[i] == Guess(t, t);
    hide Burst;
  }

  lemma NoGuess()
    ensures RunOf(None, []) == Run(None, [])
  {
  }

  /** For every number of lockouts some run lets through as many guesses as the bound allows. */
  lemma BoundIsReached(q: nat) returns (guesses: seq<Guess>)
    ensures InOrder(guesses)
    ensures var times := RunOf(None, guesses).recorded;
            && times != [] && times[|times| - 1] - times[0] == q * LOCKOUT_MS
            && |times| == 5 * ((times[|times| - 1] - times[0]) / LOCKOUT_MS + 1)
  {
    guesses := Bursts(q);
    BurstsAreRecorded(q);
    BurstsInOrder(q);
    assert q * LOCKOUT_MS / LOCKOUT_MS == q;
  }
}
