/** Delivery retries of a replication event (`log.rs`): back-off, dead-lettering and replay. */
module RetryPolicy {
  import opened Common

  datatype Status = Pending | Failed | DeadLetter

  /** An event's row: failed attempts so far, and the time before which it is not tried again. */
  datatype Row = Row(status: Status, attempts: nat, retryAt: Option<int>)

  const RETENTION := 7 * 86_400  // seconds that tombstones are kept

  function Pow2(n: nat): nat {
    if n == 0 then 1 else 2 * Pow2(n - 1)
  }

  /** `(1 << attempts.min(10)).min(3600)` */
  function Backoff(attempts: nat): nat {
    var delay := Pow2(if attempts < 10 then attempts else 10);
    if delay < 3600 then delay else 3600
  }

  function Limit(maxAttempts: nat): nat {
    if maxAttempts < 1 then 1 else maxAttempts
  }

  /** A failure recorded at `now`. */
  function AfterFailure(row: Row, maxAttempts: nat, now: int): Row {
    var attempts := row.attempts + 1;
    if attempts >= Limit(maxAttempts) then Row(DeadLetter, attempts, row.retryAt)
    else Row(Failed, attempts, Some(now + Backoff(attempts)))
  }

  /** An event that fails `n` times, each attempt made the moment it is due; the row and the time afterwards. */
  function FailTimes(row: Row, maxAttempts: nat, now: int, n: nat): (Row, int)
    decreases n
  {
    if n == 0 then (row, now)
    else
      var next := AfterFailure(row, maxAttempts, now);
      FailTimes(next, maxAttempts, if next.status == Failed && next.retryAt.Some? then next.retryAt.value else now, n - 1)
  }

  const Fresh := Row(Pending, 0, None)

  /** Scheduled delay after failures `from + 1 .. from + n`. */
  function TotalBackoff(from: nat, n: nat): nat
    decreases n
  {
    if n == 0 then 0 else Backoff(from + 1) + TotalBackoff(from + 1, n - 1)
  }

  lemma PowersOfTwo()
    ensures Pow2(10) == 1024 && Pow2(9) == 512 && Pow2(8) == 256 && Pow2(7) == 128 && Pow2(6) == 64
    ensures Pow2(5) == 32 && Pow2(4) == 16 && Pow2(3) == 8 && Pow2(2) == 4 && Pow2(1) == 2
  {
    assert Pow2(1) == 2 && Pow2(3) == 8 && Pow2(5) == 32 && Pow2(7) == 128 && Pow2(9) == 512;
  }

  /** The one-hour cap is never reached: the exponent stops at 1024 seconds. */
  lemma BackoffIsBounded(attempts: nat)
    ensures Backoff(attempts) <= 1024
    ensures attempts >= 10 ==> Backoff(attempts) == 1024
    ensures attempts < 10 ==> Backoff(attempts) == Pow2(attempts)
  {
    PowersOfTwo();
    SmallPowers(attempts);
  }

  lemma SmallPowers(n: nat)
    ensures n <= 10 ==> Pow2(n) <= 1024
  {
    PowersOfTwo();
    if n <= 10 {
      assert n in {0, 1, 2, 3, 4, 5, 6, 7, 8, 9, 10};
    }
  }

  // ---------------------------------------------------------------- when an event is given up

  /** Below the limit every failure leaves the event scheduled; the schedule adds up. */
  lemma {:induction false} FailuresAddUp(row: Row, maxAttempts: nat, now: int, n: nat)
    requires row.attempts + n < Limit(maxAttempts)
    ensures var (r, t) := FailTimes(row, maxAttempts, now, n);
      r.attempts == row.attempts + n && t == now + TotalBackoff(row.attempts, n) && (n > 0 ==> r.status == Failed)
    decreases n
  {
    if n > 0 {
      var next := AfterFailure(row, maxAttempts, now);
      FailuresAddUp(next, maxAttempts, next.retryAt.value, n - 1);
    }
  }

  lemma {:induction false} FailLast(row: Row, maxAttempts: nat, now: int, n: nat)
    requires n > 0
    ensures FailTimes(row, maxAttempts, now, n) ==
      var (r, t) := FailTimes(row, maxAttempts, now, n - 1);
      var next := AfterFailure(r, maxAttempts, t);
      (next, if next.status == Failed && next.retryAt.Some? then next.retryAt.value else t)
    decreases n
  {
    if n > 1 {
      var next := AfterFailure(row, maxAttempts, now);
      FailLast(next, maxAttempts, if next.status == Failed && next.retryAt.Some? then next.retryAt.value else now, n - 1);
    }
  }

  /**
   * An event that keeps failing is dead-lettered at exactly the limit's failure and not before, having been
   * scheduled for the sum of the back-offs between.
   */
  lemma DeadLetteredAtLimit(maxAttempts: nat, now: int, n: nat)
    requires 0 < n <= Limit(maxAttempts)
    ensures var (r, t) := FailTimes(Fresh, maxAttempts, now, n);
      && (r.status == DeadLetter <==> n == Limit(maxAttempts))
      && r.attempts == n
      && (n == Limit(maxAttempts) ==> t == now + TotalBackoff(0, n - 1))
  {
    FailuresAddUp(Fresh, maxAttempts, now, n - 1);
    FailLast(Fresh, maxAttempts, now, n);
  }

  /** The delivery query takes the row: not given up, and its retry time is past or it has none. */
  predicate Due(row: Row, now: int) {
    row.status != DeadLetter && (row.retryAt.None? || row.retryAt.value <= now)
  }

  /** Replaying a dead letter starts the same count again. */
  function Replayed(row: Row): Row {
    if row.status == DeadLetter then Fresh else row
  }

  lemma ReplayRestarts(row: Row, maxAttempts: nat, now: int)
    requires row.status == DeadLetter
    ensures var (r, t) := FailTimes(Replayed(row), maxAttempts, now, Limit(maxAttempts));
      r.status == DeadLetter && t == now + TotalBackoff(0, Limit(maxAttempts) - 1)
  {
    DeadLetteredAtLimit(maxAttempts, now, Limit(maxAttempts));
  }

  // ---------------------------------------------------------------- how long that takes

  lemma {:induction false} LateBackoff(from: nat, n: nat)
    requires from >= 9
    ensures TotalBackoff(from, n) == 1024 * n
    decreases n
  {
    if n > 0 {
      BackoffIsBounded(from + 1);
      LateBackoff(from + 1, n - 1);
    }
  }

  lemma {:induction false} BackoffAtMost(from: nat, n: nat)
    ensures TotalBackoff(from, n) <= 1024 * n
    decreases n
  {
    if n > 0 {
      BackoffIsBounded(from + 1);
      BackoffAtMost(from + 1, n - 1);
    }
  }

  /** The first nine delays double; the rest are all 1024 seconds. */
  lemma LongBackoff(n: nat)
    requires n >= 9
    ensures TotalBackoff(0, n) == 1022 + 1024 * (n - 9)
  {
    PowersOfTwo();
    LateBackoff(9, n - 9);
    assert TotalBackoff(8, n - 8) == 512 + TotalBackoff(9, n - 9);
    assert TotalBackoff(7, n - 7) == 256 + TotalBackoff(8, n - 8);
    assert TotalBackoff(6, n - 6) == 128 + TotalBackoff(7, n - 7);
    assert TotalBackoff(5, n - 5) == 64 + TotalBackoff(6, n - 6);
    assert TotalBackoff(4, n - 4) == 32 + TotalBackoff(5, n - 5);
    assert TotalBackoff(3, n - 3) == 16 + TotalBackoff(4, n - 4);
    assert TotalBackoff(2, n - 2) == 8 + TotalBackoff(3, n - 3);
    assert TotalBackoff(1, n - 1) == 4 + TotalBackoff(2, n - 2);
    assert TotalBackoff(0, n) == 2 + TotalBackoff(1, n - 1);
  }

  /** With the default of 20 attempts an event is scheduled for 11,262 seconds in all. */
  lemma DefaultBackoff()
    ensures TotalBackoff(0, Limit(20) - 1) == 11_262
  {
    LongBackoff(19);
  }

  /** Events are given up before tombstones expire exactly when at most 599 attempts are allowed. */
  lemma GivenUpBeforeTombstonesExpireIff(maxAttempts: nat)
    ensures TotalBackoff(0, Limit(maxAttempts) - 1) < RETENTION <==> maxAttempts <= 599
  {
    var n := Limit(maxAttempts) - 1;
    if n >= 9 {
      LongBackoff(n);
    } else {
      BackoffAtMost(0, n);
    }
  }

  // ---------------------------------------------------------------- the log in code

  class RetryLog {
    var rows: map<string, Row>

    /** A failed delivery of an event; an unknown event id changes nothing. */
    method MarkFailed(event: string, maxAttempts: nat, now: int)
      modifies this
      ensures event in old(rows) ==> rows == old(rows)[event := AfterFailure(old(rows)[event], maxAttempts, now)]
      ensures event !in old(rows) ==> rows == old(rows)
      ensures event in old(rows) ==> event in rows && rows[event].attempts == old(rows)[event].attempts + 1
      ensures event in old(rows) ==>
        rows[event].status == if rows[event].attempts >= Limit(maxAttempts) then DeadLetter else Failed
      ensures event in old(rows) && rows[event].status == Failed ==>
        rows[event].retryAt == Some(now + Backoff(rows[event].attempts))
      ensures rows - {event} == old(rows) - {event}
    {
      var attempts := (if event in rows then rows[event].attempts else 0) + 1;
      if event in rows {
        if attempts >= (if maxAttempts < 1 then 1 else maxAttempts) {
          rows := rows[event := rows[event].(status := DeadLetter, attempts := attempts)];
        } else {
          rows := rows[event := Row(Failed, attempts, Some(now + Backoff(attempts)))];
        }
      }
    }

    method ReplayDeadLetter(event: string) returns (replayed: bool)
      modifies this
      ensures replayed <==> event in old(rows) && old(rows)[event].status == DeadLetter
      ensures rows == if replayed then old(rows)[event := Replayed(old(rows)[event])] else old(rows)
      ensures replayed ==> event in rows && rows[event].status == Pending && rows[event].attempts == 0
      ensures replayed ==> forall now: int :: Due(rows[event], now)
      ensures rows - {event} == old(rows) - {event}
    {
      replayed := event in rows && rows[event].status == DeadLetter;
      if replayed { rows := rows[event := Row(Pending, 0, None)]; }
    }
  }
}
