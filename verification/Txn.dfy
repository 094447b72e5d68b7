/** Taking and releasing the write lock within one time budget (src/store/txn.rs).
    Times are nanoseconds; the clock, the replies of SQLite and the random bits come
    from the environment. */
module Txn {
  import opened Values

  const MS := 1_000_000
  const BACKOFF_MIN := 5 * MS
  const BACKOFF_MAX := 250 * MS

  /** What SQLite answers to one attempt; `CannotCap`: setting the busy handler failed. */
  datatype Reply = Done | Busy(code: int) | Locked(code: int) | Failed | CannotCap

  datatype LockError = StillBusy(waitedMs: nat, code: int) | LockedError(code: int) | Other

  /** One attempt as the environment plays it: the time until the busy handler is set, the time
      the statement takes under each setting of the handler, the time until the clock is read
      again, random bits for the jitter, and how much longer than asked the process sleeps. */
  datatype Turn = Turn(reply: Reply, before: nat, takes: nat -> nat, after: nat, bits: nat, oversleep: nat)

  /** One call of `retry_busy_on`. */
  datatype Run = Run(turns: nat -> Turn, started: nat, deadlineMs: nat, busyMs: nat)

  function DeadlineAfter(started: nat, deadlineMs: nat): nat {
    started + deadlineMs * MS
  }

  function Deadline(run: Run): nat {
    DeadlineAfter(run.started, run.deadlineMs)
  }

  function Min(a: nat, b: nat): nat {
    if a <= b then a else b
  }

  function Left(deadline: nat, now: nat): nat {
    if now <= deadline then deadline - now else 0
  }

  /** Whole milliseconds. */
  function ElapsedMs(started: nat, now: nat): nat
    requires started <= now
  {
    (now - started) / MS
  }

  /** 75 to 125 percent. */
  function JitterPct(bits: nat): nat {
    75 + bits % 51
  }

  function Jitter(pause: nat, bits: nat): nat {
    pause * JitterPct(bits) / 100
  }

  /** The pause after attempt `k`: doubling up to the maximum. */
  function Backoff(k: nat): nat {
    if k == 0 then BACKOFF_MIN else Min(Backoff(k - 1) * 2, BACKOFF_MAX)
  }

  // ---------- The moments of attempt number k ----------

  function StartOf(run: Run, k: nat): (t: nat)
    ensures run.started <= t
    decreases k, 0
  {
    if k == 0 then run.started
    else CheckedAt(run, k - 1) + Slept(run, k - 1) + run.turns(k - 1).oversleep
  }

  function SetAt(run: Run, k: nat): (t: nat)
    ensures run.started <= t
    decreases k, 1
  {
    StartOf(run, k) + run.turns(k).before
  }

  /** How long the busy handler may wait. */
  function CapOf(run: Run, k: nat): nat
    decreases k, 2
  {
    Min(run.busyMs * MS, Left(Deadline(run), SetAt(run, k)))
  }

  /** The statement runs only when the busy handler could be set. */
  function CheckedAt(run: Run, k: nat): (t: nat)
    ensures run.started <= t
    decreases k, 3
  {
    var turn := run.turns(k);
    SetAt(run, k) + (if turn.reply.CannotCap? then 0 else turn.takes(CapOf(run, k))) + turn.after
  }

  function Slept(run: Run, k: nat): nat
    decreases k, 4
  {
    Min(Jitter(Backoff(k), run.turns(k).bits), Left(Deadline(run), CheckedAt(run, k)))
  }

  /** Attempt `k` found the lock busy and the deadline has not passed. */
  predicate Continues(run: Run, k: nat) {
    run.turns(k).reply.Busy? && CheckedAt(run, k) < Deadline(run)
  }

  function ResultOf(run: Run, k: nat): Result<(), LockError> {
    match run.turns(k).reply
    case Done => Ok(())
    case Busy(code) => Err(StillBusy(ElapsedMs(run.started, CheckedAt(run, k)), code))
    case Locked(code) => Err(LockedError(code))
    case Failed => Err(Other)
    case CannotCap => Err(Other)
  }

  /** What the last reply means to the caller. */
  ghost predicate Means(reply: Reply, r: Result<(), LockError>) {
    && (r.Ok? <==> reply == Done)
    && (forall code: int :: r == Err(LockedError(code)) <==> reply == Locked(code))
    && (r == Err(Other) <==> reply == Failed || reply == CannotCap)
    && (r.Err? && r.error.StillBusy? <==> reply.Busy?)
    && (r.Err? && r.error.StillBusy? ==> reply == Busy(r.error.code))
  }

  /** The call makes exactly these attempts. */
  ghost predicate Makes(run: Run, attempts: nat) {
    attempts >= 1 && (forall k :: 0 <= k < attempts - 1 ==> Continues(run, k)) && !Continues(run, attempts - 1)
  }

  /** Every reply but the last was busy, the last one is what the caller is told, and busy is
      reported only past the deadline, with the whole milliseconds waited. */
  lemma ResultMeans(run: Run, attempts: nat)
    requires Makes(run, attempts)
    ensures OnlyBusyBefore(run.turns, attempts - 1)
    ensures Means(run.turns(attempts - 1).reply, ResultOf(run, attempts - 1))
    ensures Waited(ResultOf(run, attempts - 1), CheckedAt(run, attempts - 1) - run.started, run.deadlineMs)
  {
    forall k | 0 <= k < attempts - 1 ensures run.turns(k).reply.Busy? {
      assert Continues(run, k);
    }
  }

  ghost predicate OnlyBusyBefore(turns: nat -> Turn, n: nat) {
    forall k :: 0 <= k < n ==> turns(k).reply.Busy?
  }

  predicate Waited(r: Result<(), LockError>, elapsed: int, deadlineMs: nat) {
    r.Err? && r.error.StillBusy? ==>
      && elapsed >= deadlineMs * 1_000_000
      && r.error.waitedMs * 1_000_000 <= elapsed < (r.error.waitedMs + 1) * 1_000_000
  }

  /** The busy-handler settings under which the statements of a call run. */
  function Caps(run: Run, n: nat): seq<nat> {
    if n == 0 then [] else Caps(run, n - 1) + if run.turns(n - 1).reply.CannotCap? then [] else [CapOf(run, n - 1)]
  }

  /** The first `n` attempts ran their statements under exactly these settings. */
  ghost predicate RanUnder(handlers: seq<nat>, earlier: seq<nat>, run: Run, n: nat) {
    handlers == earlier + Caps(run, n)
  }

  lemma {:induction false} BackoffRange(k: nat)
    ensures BACKOFF_MIN <= Backoff(k) <= BACKOFF_MAX
  {
    if k > 0 {
      BackoffRange(k - 1);
    }
  }

  /** Every pause is 75 to 125 percent of the backoff, and every whole percentage occurs. */
  lemma JitterRange(pause: nat, bits: nat)
    ensures pause * 75 / 100 <= Jitter(pause, bits) <= pause * 125 / 100
    ensures forall pct :: 75 <= pct <= 125 ==> Jitter(pause, pct - 75) == pause * pct / 100
  {
    var pct := JitterPct(bits);
    assert pause * 75 <= pause * pct <= pause * 125 by {
      MulMono(pause, 75, pct);
      MulMono(pause, pct, 125);
    }
  }

  lemma MulMono(a: nat, b: nat, c: nat)
    requires b <= c
    ensures a * b <= a * c
  {
  }

  /** Time moves on with every retry. */
  lemma RetryTakesTime(run: Run, k: nat)
    requires Continues(run, k)
    ensures StartOf(run, k) < StartOf(run, k + 1) && StartOf(run, k) < Deadline(run)
  {
    BackoffRange(k);
    JitterRange(Backoff(k), run.turns(k).bits);
    assert StartOf(run, k) <= SetAt(run, k) <= CheckedAt(run, k);
    assert StartOf(run, k + 1) == CheckedAt(run, k) + Slept(run, k) + run.turns(k).oversleep;
  }

  // ---------- The loop ----------

  class Connection {
    // The process's clock.
    var now: nat
    var busyTimeout: nat
    // A transaction is open.
    var open: bool
    var commits: nat
    var rollbacks: nat
    // The busy handler in force at each statement run so far.
    ghost var handlers: seq<nat>

    constructor (now: nat, busyTimeout: nat)
      ensures this.now == now && this.busyTimeout == busyTimeout && !open && commits == 0 && rollbacks == 0
      ensures handlers == []
    {
      this.now, this.busyTimeout := now, busyTimeout;
      open, commits, rollbacks := false, 0, 0;
      handlers := [];
    }

    /** Run one statement: it may wait as long as the busy handler now in force lets it. */
    method Execute(turn: Turn)
      modifies this`now, this`handlers
      ensures now == old(now) + turn.takes(busyTimeout)
      ensures handlers == old(handlers) + [busyTimeout]
    {
      now := now + turn.takes(busyTimeout);
      handlers := handlers + [busyTimeout];
    }

    method ExecuteRollback()
      modifies this`open, this`rollbacks
      ensures !open && rollbacks == old(rollbacks) + 1
    {
      open := false;
      rollbacks := rollbacks + 1;
    }
  }

  /** Cap the busy handler to what is left, run the statement, read the clock. */
  method Attempt(conn: Connection, busyMs: nat, deadline: nat, turn: Turn, ghost run: Run, ghost k: nat,
                 ghost earlier: seq<nat>)
    requires conn.now == StartOf(run, k) && turn == run.turns(k) && deadline == Deadline(run) && busyMs == run.busyMs
    requires RanUnder(conn.handlers, earlier, run, k)
    modifies conn`now, conn`busyTimeout, conn`handlers
    ensures conn.now == CheckedAt(run, k)
    ensures RanUnder(conn.handlers, earlier, run, k + 1)
  {
    conn.now := conn.now + turn.before;
    if !turn.reply.CannotCap? {
      conn.busyTimeout := Min(busyMs * MS, Left(deadline, conn.now));
      conn.Execute(turn);
    }
    conn.now := conn.now + turn.after;
  }

  /** Sleep a jittered pause, at most to the deadline. */
  method Pause(conn: Connection, deadline: nat, backoff: nat, turn: Turn, ghost run: Run, ghost k: nat)
    requires Continues(run, k) && conn.now == CheckedAt(run, k)
    requires turn == run.turns(k) && deadline == Deadline(run) && backoff == Backoff(k)
    modifies conn`now
    ensures conn.now == StartOf(run, k + 1) && StartOf(run, k) < conn.now && StartOf(run, k) < deadline
  {
    RetryTakesTime(run, k);
    var remaining := deadline - conn.now;
    conn.now := conn.now + Min(Jitter(backoff, turn.bits), remaining) + turn.oversleep;
  }

  /** The loop of `retry_busy_on`: attempts follow one another until one is not busy or the deadline
      has passed, and every statement runs under a handler capped to what is left. */
  method RetryLoop(conn: Connection, busyMs: nat, deadlineMs: nat, turns: nat -> Turn)
    returns (r: Result<(), LockError>, attempts: nat)
    modifies conn`now, conn`busyTimeout, conn`handlers
    ensures var run := Run(turns, old(conn.now), deadlineMs, busyMs);
      Makes(run, attempts) && r == ResultOf(run, attempts - 1)
      && conn.now == CheckedAt(run, attempts - 1)
      && RanUnder(conn.handlers, old(conn.handlers), run, attempts)
  {
    ghost var run := Run(turns, conn.now, deadlineMs, busyMs);
    ghost var earlier := conn.handlers;
    var started := conn.now;
    var deadline := DeadlineAfter(started, deadlineMs);
    var backoff := BACKOFF_MIN;
    attempts := 0;
    while true
      invariant backoff == Backoff(attempts)
      invariant conn.now == StartOf(run, attempts)
      invariant RanUnder(conn.handlers, earlier, run, attempts)
      invariant forall k :: 0 <= k < attempts ==> Continues(run, k)
      decreases Left(deadline, conn.now)
    {
      var turn := turns(attempts);
      attempts := attempts + 1;
      Attempt(conn, busyMs, deadline, turn, run, attempts - 1, earlier);
      match turn.reply {
        case Done =>
          r := Ok(());
          break;
        case Busy(code) =>
          if conn.now >= deadline {
            r := Err(StillBusy(ElapsedMs(started, conn.now), code));
            break;
          }
          Pause(conn, deadline, backoff, turn, run, attempts - 1);
          backoff := Min(backoff * 2, BACKOFF_MAX);
        case Locked(code) =>
          r := Err(LockedError(code));
          break;
        case Failed =>
          r := Err(Other);
          break;
        case CannotCap =>
          r := Err(Other);
          break;
      }
    }
  }

  /** `retry_busy_on` with a connection whose busy handler it caps: the answer is what the last
      reply means, and the handler is restored. */
  method RetryBusyOn(conn: Connection, busyMs: nat, deadlineMs: nat, turns: nat -> Turn)
    returns (r: Result<(), LockError>, attempts: nat)
    modifies conn`now, conn`busyTimeout, conn`handlers
    ensures var run := Run(turns, old(conn.now), deadlineMs, busyMs);
      Makes(run, attempts) && r == ResultOf(run, attempts - 1)
      && conn.now == CheckedAt(run, attempts - 1)
      && RanUnder(conn.handlers, old(conn.handlers), run, attempts)
    ensures conn.busyTimeout == busyMs * MS
    ensures attempts >= 1 && Means(turns(attempts - 1).reply, r)
    ensures OnlyBusyBefore(turns, attempts - 1) && Waited(r, conn.now - old(conn.now), deadlineMs)
  {
    ghost var run := Run(turns, conn.now, deadlineMs, busyMs);
    r, attempts := RetryLoop(conn, busyMs, deadlineMs, turns);
    conn.busyTimeout := busyMs * MS;
    ResultMeans(run, attempts);
  }

  // ---------- Bounds ----------

  /** The least time the first `k` pauses take together, jitter and all. */
  function SleptAtLeast(k: nat): nat {
    if k == 0 then 0 else SleptAtLeast(k - 1) + Backoff(k - 1) * 75 / 100
  }

  /** Before a retry the earlier pauses were taken in full. */
  lemma {:induction false} PausesAddUp(run: Run, k: nat)
    requires forall j :: 0 <= j <= k ==> Continues(run, j)
    ensures run.started + SleptAtLeast(k) <= CheckedAt(run, k) < Deadline(run)
  {
    assert Continues(run, k);
    if k > 0 {
      PausesAddUp(run, k - 1);
      JitterRange(Backoff(k - 1), run.turns(k - 1).bits);
      assert StartOf(run, k) == CheckedAt(run, k - 1) + Slept(run, k - 1) + run.turns(k - 1).oversleep;
      assert StartOf(run, k) <= CheckedAt(run, k);
    }
  }

  /** The backoff doubles from 5 ms up to 250 ms. */
  lemma {:induction false} BackoffDoubles(k: nat)
    ensures Backoff(0) == 5_000_000 && Backoff(1) == 10_000_000 && Backoff(2) == 20_000_000
    ensures Backoff(3) == 40_000_000 && Backoff(4) == 80_000_000 && Backoff(5) == 160_000_000
    ensures k >= 6 ==> Backoff(k) == 250_000_000
  {
    assert Backoff(2) == Min(Backoff(1) * 2, BACKOFF_MAX);
    assert Backoff(3) == Min(Backoff(2) * 2, BACKOFF_MAX);
    assert Backoff(4) == Min(Backoff(3) * 2, BACKOFF_MAX);
    assert Backoff(5) == Min(Backoff(4) * 2, BACKOFF_MAX);
    assert Backoff(6) == Min(Backoff(5) * 2, BACKOFF_MAX);
    if k > 6 {
      BackoffDoubles(k - 1);
    }
  }

  lemma {:induction false} SleepGrows(k: nat)
    ensures 187_500_000 * k <= SleptAtLeast(k) + 888_750_000
  {
    if k > 0 {
      BackoffDoubles(k - 1);
      if k <= 6 {
        SleptAtFirst();
      } else {
        SleepGrows(k - 1);
      }
    }
  }

  lemma SleptAtFirst()
    ensures SleptAtLeast(1) == 3_750_000 && SleptAtLeast(2) == 11_250_000 && SleptAtLeast(3) == 26_250_000
    ensures SleptAtLeast(4) == 56_250_000 && SleptAtLeast(5) == 116_250_000 && SleptAtLeast(6) == 236_250_000
  {
    BackoffDoubles(0);
    assert SleptAtLeast(2) == SleptAtLeast(1) + Backoff(1) * 75 / 100;
    assert SleptAtLeast(3) == SleptAtLeast(2) + Backoff(2) * 75 / 100;
    assert SleptAtLeast(4) == SleptAtLeast(3) + Backoff(3) * 75 / 100;
    assert SleptAtLeast(5) == SleptAtLeast(4) + Backoff(4) * 75 / 100;
    assert SleptAtLeast(6) == SleptAtLeast(5) + Backoff(5) * 75 / 100;
  }

  /** Whatever the lock and the jitter do, the deadline bounds the number of attempts: one
      attempt per 187.5 ms of budget and a constant. */
  lemma AttemptsAreBounded(run: Run, attempts: nat)
    requires Makes(run, attempts)
    ensures attempts >= 2 ==> SleptAtLeast(attempts - 2) < run.deadlineMs * MS
    ensures 1 <= attempts <= (run.deadlineMs * MS + 888_750_000) / 187_500_000 + 2
  {
    if attempts >= 2 {
      PausesAddUp(run, attempts - 2);
      SleepGrows(attempts - 2);
    }
  }

  /** A pause is the jittered backoff, or what is left until the deadline if that is less. */
  lemma PauseExact(run: Run, k: nat)
    requires Continues(run, k)
    ensures var pause, left := Jitter(Backoff(k), run.turns(k).bits), Deadline(run) - CheckedAt(run, k);
      0 < Slept(run, k) && Slept(run, k) == if pause <= left then pause else left
  {
    BackoffRange(k);
    JitterRange(Backoff(k), run.turns(k).bits);
  }

  /** The deadline is so many milliseconds after the start. Each statement of the call, one for
      each attempt, runs with the handler set to the configured wait or to what is left until the
      deadline, whichever is less; so neither the handler nor a pause is ever asked to wait past it. */
  lemma NothingWaitsPastTheDeadline(run: Run, attempts: nat, k: nat)
    requires Makes(run, attempts) && k < |Caps(run, attempts)|
    ensures |Caps(run, attempts)| == if run.turns(attempts - 1).reply.CannotCap? then attempts - 1 else attempts
    ensures Caps(run, attempts)[k] == CapOf(run, k)
    ensures Deadline(run) == run.started + run.deadlineMs * 1_000_000
    ensures CapOf(run, k) == if SetAt(run, k) + run.busyMs * 1_000_000 <= Deadline(run) then run.busyMs * 1_000_000
                             else if SetAt(run, k) <= Deadline(run) then Deadline(run) - SetAt(run, k)
                             else 0
    ensures Continues(run, k) ==> 0 < Slept(run, k) && CheckedAt(run, k) + Slept(run, k) <= Deadline(run)
  {
    if Continues(run, k) {
      PauseExact(run, k);
    }
    CapsOfRetries(run, attempts - 1);
  }

  lemma {:induction false} CapsOfRetries(run: Run, n: nat)
    requires forall k :: 0 <= k < n ==> Continues(run, k)
    ensures |Caps(run, n)| == n && forall k :: 0 <= k < n ==> Caps(run, n)[k] == CapOf(run, k)
  {
    if n > 0 {
      CapsOfRetries(run, n - 1);
      assert Continues(run, n - 1);
    }
  }

  /** Busy is reported exactly when the last attempt was busy, and only once the whole
      deadline has been waited. */
  lemma BusyOnlyAfterTheDeadline(run: Run, attempts: nat)
    requires Makes(run, attempts)
    ensures var r := ResultOf(run, attempts - 1);
      && (r.Err? && r.error.StillBusy? <==> run.turns(attempts - 1).reply.Busy?)
      && (r.Err? && r.error.StillBusy? ==>
            CheckedAt(run, attempts - 1) >= Deadline(run) && r.error.waitedMs >= run.deadlineMs)
  {
    if run.turns(attempts - 1).reply.Busy? {
      var waited := CheckedAt(run, attempts - 1) - run.started;
      assert waited >= run.deadlineMs * MS;
      assert waited / MS >= run.deadlineMs;
    }
  }

  /** The environment is late by at most `slack` at each point, and SQLite honours whatever busy
      handler is in force to within `slack`. */
  ghost predicate Prompt(run: Run, attempts: nat, slack: nat) {
    forall k :: 0 <= k < attempts ==>
      var turn := run.turns(k);
      turn.before <= slack && Honours(turn.takes, slack) && turn.after <= slack && turn.oversleep <= slack
  }

  ghost predicate Honours(takes: nat -> nat, slack: nat) {
    forall cap: nat :: takes(cap) <= cap + slack
  }

  /** With a prompt environment the call returns by the deadline, give or take four delays. */
  lemma ReturnsByTheDeadline(run: Run, attempts: nat, slack: nat)
    requires Makes(run, attempts) && Prompt(run, attempts, slack)
    ensures CheckedAt(run, attempts - 1) <= Deadline(run) + 4 * slack
  {
    var k := attempts - 1;
    if k > 0 {
      assert Continues(run, k - 1);
      assert StartOf(run, k) == CheckedAt(run, k - 1) + Slept(run, k - 1) + run.turns(k - 1).oversleep;
    }
    assert SetAt(run, k) <= Deadline(run) + 2 * slack;
    assert SetAt(run, k) + CapOf(run, k) <= Deadline(run) + 2 * slack;
  }

  // ---------- Write transactions ----------

  class WriteTxn {
    const conn: Connection
    // When the wait for the lock started.
    const started: nat
    const deadlineMs: nat
    const busyMs: nat
    var done: bool

    /** After BEGIN IMMEDIATE has gone through. */
    constructor (conn: Connection, started: nat, deadlineMs: nat, busyMs: nat)
      ensures this.conn == conn && this.started == started && this.deadlineMs == deadlineMs && this.busyMs == busyMs
      ensures !done
    {
      this.conn, this.started, this.deadlineMs, this.busyMs := conn, started, deadlineMs, busyMs;
      done := false;
    }

    function RemainingMs(now: nat): nat
      requires started <= now
    {
      Left(deadlineMs, (now - started) / MS)
    }

    /** `commit`, which consumes the transaction: a refused COMMIT is retried in what is left of
        the budget, and when it fails for good the drop rolls back. */
    method Commit(pause: nat, turns: nat -> Turn) returns (r: Result<(), LockError>, attempts: nat, ghost run: Run)
      requires !done && conn.open && started <= conn.now
      modifies this`done, conn
      ensures var waited := (old(conn.now) - started) / 1_000_000;
        run == Run(turns, old(conn.now) + pause, if waited <= deadlineMs then deadlineMs - waited else 0, busyMs)
      ensures Makes(run, attempts) && r == ResultOf(run, attempts - 1) && conn.now == CheckedAt(run, attempts - 1)
      ensures Means(turns(attempts - 1).reply, r)
      ensures RanUnder(conn.handlers, old(conn.handlers), run, attempts)
      ensures done && !conn.open
      ensures conn.commits == old(conn.commits) + (if turns(attempts - 1).reply == Done then 1 else 0)
      ensures conn.rollbacks == old(conn.rollbacks) + (if turns(attempts - 1).reply == Done then 0 else 1)
    {
      var remaining := RemainingMs(conn.now);
      conn.now := conn.now + pause;
      run := Run(turns, conn.now, remaining, busyMs);
      r, attempts := RetryBusyOn(conn, busyMs, remaining, turns);
      if r.Ok? {
        conn.open := false;
        conn.commits := conn.commits + 1;
        done := true;
      }
      Drop();
    }

    /** `rollback`, which consumes the transaction; the drop that follows does nothing more. */
    method Rollback()
      requires !done
      modifies this`done, conn`open, conn`rollbacks
      ensures done && !conn.open && conn.rollbacks == old(conn.rollbacks) + 1
    {
      done := true;
      conn.ExecuteRollback();
      Drop();
    }

    method Drop()
      modifies this`done, conn`open, conn`rollbacks
      ensures done
      ensures old(done) ==> conn.open == old(conn.open) && conn.rollbacks == old(conn.rollbacks)
      ensures !old(done) ==> !conn.open && conn.rollbacks == old(conn.rollbacks) + 1
    {
      if !done {
        done := true;
        conn.ExecuteRollback();
      }
    }
  }

  /** `begin`: on success the transaction is open, otherwise nothing is. */
  method Begin(conn: Connection, deadlineMs: nat, busyMs: nat, pause: nat, turns: nat -> Turn)
    returns (r: Result<WriteTxn, LockError>, attempts: nat)
    requires !conn.open
    modifies conn
    ensures var run := Run(turns, old(conn.now) + pause, deadlineMs, busyMs);
      && Makes(run, attempts) && conn.now == CheckedAt(run, attempts - 1)
      && RanUnder(conn.handlers, old(conn.handlers), run, attempts)
      && (r.Ok? <==> ResultOf(run, attempts - 1).Ok?)
      && (r.Err? ==> ResultOf(run, attempts - 1) == Err(r.error))
    ensures r.Ok? <==> turns(attempts - 1).reply == Done
    ensures r.Err? ==> Means(turns(attempts - 1).reply, Err(r.error))
    ensures conn.open <==> turns(attempts - 1).reply == Done
    ensures conn.commits == old(conn.commits) && conn.rollbacks == old(conn.rollbacks)
    ensures r.Ok? ==>
      && fresh(r.value) && r.value.conn == conn && !r.value.done
      && r.value.started == old(conn.now) && r.value.deadlineMs == deadlineMs && r.value.busyMs == busyMs
  {
    var started := conn.now;
    conn.now := conn.now + pause;
    var begun, n := RetryBusyOn(conn, busyMs, deadlineMs, turns);
    attempts := n;
    if begun.Err? {
      return Err(begun.error), attempts;
    }
    conn.open := true;
    var txn := new WriteTxn(conn, started, deadlineMs, busyMs);
    r := Ok(txn);
  }

  /** BEGIN and COMMIT share one budget: the deadline of a COMMIT asked for within the budget is
      the one BEGIN started from, to within the millisecond that `RemainingMs` truncates and the
      time until the retry loop reads the clock; asked for later, it gets no time to wait. */
  lemma CommitSharesTheBudget(begun: nat, deadlineMs: nat, asked: nat, pause: nat, run: Run)
    requires begun <= asked && run.started == asked + pause
    requires run.deadlineMs == Left(deadlineMs, (asked - begun) / MS)
    ensures asked < begun + deadlineMs * MS ==>
      begun + deadlineMs * MS + pause <= Deadline(run) < begun + deadlineMs * MS + pause + MS
    ensures asked >= begun + deadlineMs * MS ==> Deadline(run) == asked + pause
  {
    var waited := (asked - begun) / MS;
    assert waited * MS <= asked - begun < (waited + 1) * MS;
  }

  /** A transaction whose work ends within the budget is over, committed or rolled back, by the
      deadline its BEGIN started from, give or take one millisecond and the delays. */
  lemma TransactionWithinBudget(begun: nat, deadlineMs: nat, asked: nat, pause: nat, run: Run, attempts: nat, slack: nat)
    requires begun <= asked < begun + deadlineMs * MS && run.started == asked + pause && pause <= slack
    requires run.deadlineMs == Left(deadlineMs, (asked - begun) / MS)
    requires Makes(run, attempts) && Prompt(run, attempts, slack)
    ensures CheckedAt(run, attempts - 1) < begun + deadlineMs * MS + MS + 5 * slack
  {
    CommitSharesTheBudget(begun, deadlineMs, asked, pause, run);
    ReturnsByTheDeadline(run, attempts, slack);
  }
}
