/**
 What a retried send promises, said without the loop: from the trace of outcomes alone, how many
 attempts are made, what comes back and what it reports.
 */
module RetryPromises {
  import opened Prelude
  import opened Retrying

  predicate ConnectFailed(o: Outcome) {
    o.Failed? && o.connecting
  }

  predicate ReadFailed(o: Outcome) {
    o.Failed? && !o.connecting
  }

  predicate Answered(o: Outcome) {
    o.Replied?
  }

  /** Those of the first `n` attempts that came out so. */
  function Among(t: Trace, n: nat, p: Outcome -> bool): set<nat> {
    set i: nat | i < n && p(t.outcome(i))
  }

  /** Attempt `n` is the last one: its answer is wanted, or as many have failed as may. */
  predicate IsLast(r: Retry, t: Trace, n: nat) {
    var o := t.outcome(n);
    || (o.Replied? && o.response.status !in r.statusForcelist)
    || n >= r.total
    || (ConnectFailed(o) && |Among(t, n, ConnectFailed)| >= r.connect)
    || (ReadFailed(o) && |Among(t, n, ReadFailed)| >= r.read)
    || (o.Replied? && |Among(t, n, Answered)| >= r.status)
  }

  predicate InTime(r: Retry, t: Trace, n: nat) {
    r.totalTimeout.Some? ==> t.elapsed(n) <= r.totalTimeout.value
  }

  /** One entry of the history: a status in digits or the message of a failure, and how long it took. */
  predicate Records(entry: (string, real), t: Trace, i: nat) {
    && entry.1 == t.millis(i)
    && match t.outcome(i)
       case Replied(response) => Spells(entry.0, response.status)
       case Failed(_, message) => entry.0 == message
  }

  /** What a retried send comes back with behind its last attempt `n`. */
  predicate ComesBack(r: Retry, t: Trace, n: nat, result: Result<Pending, SendError>) {
    var last := t.outcome(n);
    if last.Replied? && !(last.response.status in r.statusForcelist && r.raiseOnStatus) then
      && result.Ok? && result.value.response == last.response
      && result.value.numRetries == |result.value.history| == n
      && forall i | 0 <= i < n :: Records(result.value.history[i], t, i + 1)
    else
      result == Err(MaxRetriesExceeded(n, |Among(t, n, ConnectFailed)|, |Among(t, n, ReadFailed)|,
                                       |Among(t, n, Answered)|))
  }

  /** What one attempt comes back with when there are to be no retries. */
  predicate ComesBackPlain(t: Trace, result: Result<Pending, SendError>) {
    match t.outcome(0)
    case Replied(response) => result == Ok(Pending(response, 0, []))
    case Failed(_, message) => result == Err(TransportError(message))
  }

  /** The whole promise of a send under a retry policy. */
  predicate Promised(
    r: Retry, retryable: bool, replayable: bool, t: Trace, result: Result<Pending, SendError>, attempts: nat) {
    && (forall i | 0 <= i < attempts :: InTime(r, t, i))
    && (attempts > 0 ==> replayable)
    && (attempts > 1 ==> retryable)
    && (retryable ==> forall i | 0 <= i < attempts - 1 :: !IsLast(r, t, i))
    && if result == Err(TotalTimeout(attempts)) then
         !InTime(r, t, attempts) && (attempts > 0 ==> retryable && !IsLast(r, t, attempts - 1))
       else if !replayable then
         attempts == 0 && InTime(r, t, 0) && result == Err(CannotReplay)
       else if !retryable then
         attempts == 1 && ComesBackPlain(t, result)
       else
         attempts > 0 && IsLast(r, t, attempts - 1) && ComesBack(r, t, attempts - 1, result)
  }

  // ---------------------------------------------------------------- the loop keeps it

  lemma AmongMore(t: Trace, n: nat, p: Outcome -> bool)
    ensures |Among(t, n + 1, p)| == |Among(t, n, p)| + if p(t.outcome(n)) then 1 else 0
  {
    var before, now := Among(t, n, p), Among(t, n + 1, p);
    if p(t.outcome(n)) {
      assert now == before + {n};
    } else {
      assert now == before;
    }
  }

  lemma {:induction false} EarlierIsAmong(t: Trace, n: nat)
    ensures Earlier(t, n, Connect) == |Among(t, n, ConnectFailed)|
    ensures Earlier(t, n, Read) == |Among(t, n, ReadFailed)|
    ensures Earlier(t, n, Status) == |Among(t, n, Answered)|
  {
    if n == 0 {
      assert Among(t, 0, ConnectFailed) == Among(t, 0, ReadFailed) == Among(t, 0, Answered) == {};
    } else {
      EarlierIsAmong(t, n - 1);
      AmongMore(t, n - 1, ConnectFailed);
      AmongMore(t, n - 1, ReadFailed);
      AmongMore(t, n - 1, Answered);
    }
  }

  lemma StopsIsLast(r: Retry, t: Trace, n: nat)
    ensures Stops(r, true, t, n) <==> IsLast(r, t, n)
  {
    EarlierIsAmong(t, n);
    hide Earlier, Among;
  }

  lemma LabelRecords(t: Trace, i: nat)
    ensures Records((Label(t.outcome(i)), t.millis(i)), t, i)
  {
    if t.outcome(i).Replied? {
      var status := t.outcome(i).response.status;
      DecimalSpells(Decimal(status), status);
    }
    hide Spells, Decimal;
  }

  lemma {:induction false} RetriesRecord(t: Trace, n: nat)
    ensures var history := Retries(t, n + 1);
            |history| == n && forall i | 0 <= i < n :: Records(history[i], t, i + 1)
  {
    if n > 0 {
      RetriesRecord(t, n - 1);
      LabelRecords(t, n);
      hide Records, Label;
      assert Retries(t, n + 1) == Retries(t, n) + [(Label(t.outcome(n)), t.millis(n))];
    }
  }

  lemma EndingComesBack(r: Retry, t: Trace, n: nat)
    ensures ComesBack(r, t, n, Ending(r, true, t, n))
  {
    EarlierIsAmong(t, n);
    RetriesRecord(t, n);
    hide Earlier, Among, Retries, Records;
  }

  /** From attempt `i` on, when no earlier one was the last and all were made in time. */
  lemma {:induction false} RunFrom(r: Retry, retryable: bool, replayable: bool, t: Trace, i: nat)
    requires forall j | 0 <= j < i :: InTime(r, t, j) && !IsLast(r, t, j)
    requires i > 0 ==> retryable && replayable
    ensures var (result, attempts) := Run(r, retryable, replayable, t, i);
            Promised(r, retryable, replayable, t, result, attempts)
    decreases r.total - i
  {
    Turn(r, retryable, replayable, t, i);
    StopsIsLast(r, t, i);
    hide Run, IsLast, Among;
    if InTime(r, t, i) && replayable {
      if !retryable {
        assert i == 0;
      } else if IsLast(r, t, i) {
        EndingComesBack(r, t, i);
        hide ComesBack, Ending;
      } else {
        RunFrom(r, retryable, replayable, t, i + 1);
      }
    }
  }

  /**
   A send under a retry policy, for every trace of outcomes: it makes no attempt out of time, none
   behind the first that is the last, and none at all of a body that cannot be replayed; it reports
   running out of time exactly when it does.  Otherwise what comes back is told by the last attempt:
   a reply that is wanted, or that need not raise, with one entry for each retry; else how many
   attempts failed, and of which kind.
   */
  lemma SendKeepsPromise(r: Retry, verb: string, replayable: bool, t: Trace)
    ensures var (result, attempts) := Run(r, Retryable(r, verb), replayable, t, 0);
            Promised(r, verb in r.allowedMethods, replayable, t, result, attempts)
  {
    RunFrom(r, verb in r.allowedMethods, replayable, t, 0);
    hide Run, Promised;
  }

  /** The longer of two times, up to a limit. */
  predicate LongerUpTo(sleep: real, a: real, b: real, limit: real) {
    && sleep <= limit
    && (sleep < limit ==> sleep in {a, b} && sleep >= a && sleep >= b)
    && (sleep == limit ==> a >= limit || b >= limit)
  }

  /**
   The sleep before attempt `i`: the computed backoff or what the previous response asks for,
   whichever is longer, up to the maximum.  A header that is no number counts for nothing, and
   without one, behind a failure or under a policy that disregards it, zero is asked for.
   */
  lemma SleepIsAsked(r: Retry, t: Trace, i: nat)
    requires i > 0
    ensures var computed, sleep := Jittered(r, Term(r, i - 1), t.jitter(i)), Backoff(r, t, i);
            var o := t.outcome(i - 1);
            if r.respectRetryAfter && o.Replied? && o.response.retryAfter.Some? then
              match o.response.retryAfter.value
              case Finite(s) => LongerUpTo(sleep, computed, s, r.backoffMax)
              case Infinite(positive) =>
                if positive then sleep == r.backoffMax else LongerUpTo(sleep, computed, computed, r.backoffMax)
              case NotANumber => LongerUpTo(sleep, computed, computed, r.backoffMax)
            else LongerUpTo(sleep, computed, 0.0, r.backoffMax)
  {
    hide Term, Jittered;
  }
}
