/**
 The retry state machine of the transport. The network is a trace: what attempt `i`
 comes back with, how much time has passed when it is considered, how long it took
 and which jitter was drawn. Times and factors are exact reals.
 */
module Retrying {
  import opened Prelude

  type i32 = x: int | -0x8000_0000 <= x < 0x8000_0000

  datatype FailureKind = Connect | Read | Status

  /** A `Retry-After` value as `f32` parsing gives it. */
  datatype Seconds = Finite(s: real) | Infinite(positive: bool) | NotANumber

  datatype Response = Response(
    status: nat, retryAfter: Option<Seconds>, location: Option<string>, cookies: map<string, string>)

  datatype Outcome = Replied(response: Response) | Failed(connecting: bool, message: string)

  datatype Trace = Trace(
    outcome: nat -> Outcome, elapsed: nat -> real, millis: nat -> real, jitter: nat -> real)

  datatype Retry = Retry(
    total: i32, connect: i32, read: i32, status: i32,
    backoffFactor: real, backoffMax: real, backoffJitter: real,
    statusForcelist: set<nat>, allowedMethods: set<string>,
    respectRetryAfter: bool, raiseOnStatus: bool, totalTimeout: Option<real>)

  datatype SendError =
    | TotalTimeout(retries: nat)
    | MaxRetriesExceeded(total: int, connect: int, read: int, status: int)
    | TransportError(message: string)
    | CannotReplay

  type History = seq<(string, real)>

  datatype Pending = Pending(response: Response, numRetries: nat, history: History)

  class RetryCounts {
    var total: i32
    var connect: i32
    var read: i32
    var status: i32

    constructor ()
      ensures total == connect == read == status == 0
    {
      total, connect, read, status := 0, 0, 0, 0;
    }

    method Record(kind: FailureKind)
      requires total < 0x7FFF_FFFF && Of(kind) < 0x7FFF_FFFF
      modifies this
      ensures total == old(total) + 1
      ensures forall k :: Of(k) == old(Of(k)) + if k == kind then 1 else 0
    {
      total := total + 1;
      match kind
      case Connect => connect := connect + 1;
      case Read => read := read + 1;
      case Status => status := status + 1;
    }

    function Of(kind: FailureKind): i32
      reads this
    {
      match kind
      case Connect => connect
      case Read => read
      case Status => status
    }
  }

  function Cap(r: Retry, kind: FailureKind): i32 {
    match kind
    case Connect => r.connect
    case Read => r.read
    case Status => r.status
  }

  method AllowsAnother(r: Retry, kind: FailureKind, used: RetryCounts) returns (allowed: bool)
    ensures allowed <==> used.total < r.total && used.Of(kind) < Cap(r, kind)
  {
    if used.total >= r.total {
      return false;
    }
    match kind
    case Connect => allowed := used.connect < r.connect;
    case Read => allowed := used.read < r.read;
    case Status => allowed := used.status < r.status;
  }

  // ---------------------------------------------------------------- when a run stops

  function KindOf(o: Outcome): FailureKind {
    match o
    case Replied(_) => Status
    case Failed(connecting, _) => if connecting then Connect else Read
  }

  /** A response outside the forcelist ends the run. */
  predicate IsFinal(r: Retry, o: Outcome) {
    o.Replied? && o.response.status !in r.statusForcelist
  }

  /** How many of the first `i` attempts failed with this kind. */
  function Earlier(t: Trace, i: nat, kind: FailureKind): nat {
    if i == 0 then 0 else Earlier(t, i - 1, kind) + if KindOf(t.outcome(i - 1)) == kind then 1 else 0
  }

  /** Attempt `i` is the last: it is final, or the failures before it have used up a cap. */
  predicate Stops(r: Retry, retryable: bool, t: Trace, i: nat) {
    || !retryable
    || IsFinal(r, t.outcome(i))
    || i >= r.total
    || Earlier(t, i, KindOf(t.outcome(i))) >= Cap(r, KindOf(t.outcome(i)))
  }

  predicate TimedOut(r: Retry, t: Trace, i: nat) {
    r.totalTimeout.Some? && t.elapsed(i) > r.totalTimeout.value
  }

  /** The first attempt at or behind `i` that stops the run. */
  function FirstStop(r: Retry, retryable: bool, t: Trace, i: nat): (n: nat)
    ensures n >= i && Stops(r, retryable, t, n)
    ensures forall j :: i <= j < n ==> !Stops(r, retryable, t, j)
    ensures n <= i || n <= r.total
    decreases r.total - i
  {
    if Stops(r, retryable, t, i) then i else FirstStop(r, retryable, t, i + 1)
  }

  lemma {:induction false} EarlierAddsUp(t: Trace, i: nat)
    ensures Earlier(t, i, Connect) + Earlier(t, i, Read) + Earlier(t, i, Status) == i
  {
    if i > 0 {
      EarlierAddsUp(t, i - 1);
    }
  }

  // ---------------------------------------------------------------- backoff

  function Pow2(n: nat): nat {
    if n == 0 then 1 else 2 * Pow2(n - 1)
  }

  function Max(a: real, b: real): real {
    if a < b then b else a
  }

  function Min(a: real, b: real): real {
    if a < b then a else b
  }

  /** `min(max(calculated, retryAfter), limit)` with the `f32` rules: NaN loses every comparison. */
  function Clamp(calculated: real, retryAfter: Seconds, limit: real): real {
    match retryAfter
    case Finite(s) => Min(Max(calculated, s), limit)
    case Infinite(positive) => if positive then limit else Min(calculated, limit)
    case NotANumber => Min(calculated, limit)
  }

  /** What a backoff is moved by at most under jitter `j`. */
  function Share(calculated: real, j: real): real {
    calculated * j
  }

  function Moved(calculated: real, draw: real, j: real): real {
    calculated * (1.0 + draw * j)
  }

  function Jittered(r: Retry, calculated: real, draw: real): real {
    if r.backoffJitter > 0.0 then Max(Moved(calculated, draw, r.backoffJitter), 0.0) else calculated
  }

  function RetryAfter(r: Retry, previous: Outcome): Seconds {
    if r.respectRetryAfter && previous.Replied? && previous.response.retryAfter.Some? then
      previous.response.retryAfter.value
    else Finite(0.0)
  }

  /** The uncapped geometric term: `factor * 2^n`. */
  function Term(r: Retry, n: nat): real {
    r.backoffFactor * Pow2(n) as real
  }

  /** The sleep before attempt `i`. */
  function Backoff(r: Retry, t: Trace, i: nat): real
    requires i > 0
  {
    Clamp(Jittered(r, Term(r, i - 1), t.jitter(i)), RetryAfter(r, t.outcome(i - 1)), r.backoffMax)
  }

  lemma TermNonNegative(r: Retry, n: nat)
    requires r.backoffFactor >= 0.0
    ensures Term(r, n) >= 0.0
  {
  }

  lemma BackoffBounded(r: Retry, t: Trace, i: nat)
    requires i > 0 && r.backoffFactor >= 0.0 && r.backoffMax >= 0.0
    ensures 0.0 <= Backoff(r, t, i) <= r.backoffMax
  {
    hide Term;
    TermNonNegative(r, i - 1);
  }

  /** Jitter moves a backoff by at most its own share, and never below zero. */
  lemma JitterBounded(r: Retry, calculated: real, draw: real)
    requires calculated >= 0.0 && -1.0 <= draw <= 1.0
    ensures var share := Share(calculated, Max(r.backoffJitter, 0.0));
            Max(calculated - share, 0.0) <= Jittered(r, calculated, draw) <= calculated + share
  {
    hide Share, Moved;
    var j := Max(r.backoffJitter, 0.0);
    ShareSign(calculated, j);
    MovedWithin(calculated, draw, j);
  }

  lemma ShareSign(calculated: real, j: real)
    requires calculated >= 0.0 && j >= 0.0
    ensures Share(calculated, j) >= 0.0
  {
  }

  lemma MovedWithin(calculated: real, draw: real, j: real)
    requires calculated >= 0.0 && -1.0 <= draw <= 1.0 && j >= 0.0
    ensures calculated - Share(calculated, j) <= Moved(calculated, draw, j) <= calculated + Share(calculated, j)
  {
    hide Share, Moved;
    ShareSign(calculated, j);
    MovedByShare(calculated, draw, j);
    Within(Share(calculated, j), draw);
  }

  /** The product `a * b`, so that a proof can speak of it without arithmetic on it. */
  function Times(a: real, b: real): real {
    a * b
  }

  lemma MovedByShare(calculated: real, draw: real, j: real)
    ensures Moved(calculated, draw, j) == calculated + Times(draw, Share(calculated, j))
  {
    Distribute(calculated, 1.0, draw * j);
    Reassociate(calculated, draw, j);
  }

  /**
   Jitter spreads evenly: a draw of zero changes nothing, and above zero two sleeps differ by their
   draws' difference times the share; at the lowest draw the whole share is taken off.
   */
  lemma JitterSpreads(r: Retry, calculated: real, draw: real, other: real)
    requires calculated >= 0.0 && r.backoffJitter >= 0.0
    ensures Jittered(r, calculated, 0.0) == calculated
    ensures var share := Share(calculated, r.backoffJitter);
            var a, b := Jittered(r, calculated, draw), Jittered(r, calculated, other);
            && a >= 0.0 && (a > 0.0 && b > 0.0 ==> a - b == (draw - other) * share)
            && Jittered(r, calculated, -1.0) == Max(calculated - share, 0.0)
  {
    hide Share, Moved;
    var j := r.backoffJitter;
    var share := Share(calculated, j);
    MovedByShare(calculated, draw, j);
    MovedByShare(calculated, other, j);
    MovedByShare(calculated, 0.0, j);
    MovedByShare(calculated, -1.0, j);
    Distribute(share, draw, -other);
    ByOne(share);
    if j == 0.0 {
      NoShare(calculated);
    }
  }

  lemma NoShare(calculated: real)
    ensures Share(calculated, 0.0) == 0.0
  {
  }

  lemma Reassociate(a: real, b: real, c: real)
    ensures a * (b * c) == b * (a * c)
  {
  }

  lemma Within(share: real, draw: real)
    requires share >= 0.0 && -1.0 <= draw <= 1.0
    ensures -share <= Times(draw, share) <= share
  {
    AtMost(draw, 1.0, share);
    AtMost(-1.0, draw, share);
    ByOne(share);
    hide Times;
  }

  lemma ByOne(a: real)
    ensures Times(1.0, a) == a && Times(-1.0, a) == -a
  {
  }

  lemma AtMost(a: real, b: real, c: real)
    requires a <= b && c >= 0.0
    ensures Times(a, c) <= Times(b, c)
  {
    assert (b - a) * c >= 0.0;
    assert b * c == a * c + (b - a) * c;
  }

  function Total(sleeps: seq<real>): real {
    if sleeps == [] then 0.0 else Total(sleeps[..|sleeps| - 1]) + sleeps[|sleeps| - 1]
  }

  function Sleeps(r: Retry, t: Trace, n: nat): (sleeps: seq<real>)
    ensures |sleeps| == n
    ensures forall i :: 0 <= i < n ==> sleeps[i] == Backoff(r, t, i + 1)
  {
    if n == 0 then [] else Sleeps(r, t, n - 1) + [Backoff(r, t, n)]
  }

  lemma SleepsSnoc(r: Retry, t: Trace, n: nat)
    ensures Sleeps(r, t, n + 1) == Sleeps(r, t, n) + [Backoff(r, t, n + 1)]
    ensures Total(Sleeps(r, t, n + 1)) == Total(Sleeps(r, t, n)) + Backoff(r, t, n + 1)
  {
    var sleeps := Sleeps(r, t, n + 1);
    assert sleeps[..n] == Sleeps(r, t, n);
  }

  lemma Distribute(a: real, b: real, c: real)
    ensures a * (b + c) == a * b + a * c
  {
  }

  /** The sum of the first `n` uncapped terms: `factor * (2^n - 1)`. */
  function Series(r: Retry, n: nat): real {
    r.backoffFactor * (Pow2(n) - 1) as real
  }

  lemma Doubling(r: Retry, n: nat)
    ensures Term(r, n + 1) == Term(r, n) + Term(r, n)
    ensures Series(r, n + 1) == Series(r, n) + Term(r, n)
  {
    var power := Pow2(n) as real;
    assert Pow2(n + 1) as real == power + power;
    Distribute(r.backoffFactor, power, power);
    assert (Pow2(n + 1) - 1) as real == (Pow2(n) - 1) as real + power;
    Distribute(r.backoffFactor, (Pow2(n) - 1) as real, power);
  }

  /** Nothing but the capped geometric term is left of a backoff without jitter and `Retry-After`. */
  lemma PlainBackoff(r: Retry, t: Trace, n: nat)
    requires r.backoffFactor >= 0.0 && r.backoffMax >= 0.0 && r.backoffJitter <= 0.0
    requires RetryAfter(r, t.outcome(n)) == Finite(0.0)
    ensures Backoff(r, t, n + 1) == Min(Term(r, n), r.backoffMax)
  {
    hide Term;
    TermNonNegative(r, n);
    assert n + 1 - 1 == n;
  }

  lemma NoBackoff(r: Retry, t: Trace)
    ensures Total(Sleeps(r, t, 0)) == 0.0 && Series(r, 0) == 0.0
  {
  }

  /**
   Without jitter and `Retry-After`, the sleeps are a capped geometric series: at most
   `n * max` and at most `factor * (2^n - 1)`, which is exact while the cap is not reached.
   */
  lemma {:induction false} TotalBackoff(r: Retry, t: Trace, n: nat)
    requires r.backoffFactor >= 0.0 && r.backoffMax >= 0.0 && r.backoffJitter <= 0.0
    requires forall i: nat ::
      r.respectRetryAfter && t.outcome(i).Replied? ==> t.outcome(i).response.retryAfter == None
    ensures Total(Sleeps(r, t, n)) <= n as real * r.backoffMax
    ensures Total(Sleeps(r, t, n)) <= Series(r, n)
    ensures n > 0 && Term(r, n - 1) <= r.backoffMax ==> Total(Sleeps(r, t, n)) == Series(r, n)
    decreases n
  {
    hide Backoff, Sleeps, Total, Term, Series;
    if n == 0 {
      NoBackoff(r, t);
    } else {
      var m := n - 1;
      TotalBackoff(r, t, m);
      SleepsSnoc(r, t, m);
      PlainBackoff(r, t, m);
      Doubling(r, m);
      TimesOneMore(m, r.backoffMax);
      if m > 0 {
        Doubling(r, m - 1);
        TermNonNegative(r, m - 1);
      } else {
        NoBackoff(r, t);
      }
    }
  }

  lemma TimesOneMore(m: nat, limit: real)
    ensures (m + 1) as real * limit == m as real * limit + limit
  {
    assert (m + 1) as real == m as real + 1.0;
  }

  // ---------------------------------------------------------------- the loop

  function Label(o: Outcome): string {
    match o
    case Replied(response) => Decimal(response.status)
    case Failed(_, message) => message
  }

  /** The telemetry of the retries among the first `attempts` attempts. */
  function Retries(t: Trace, attempts: nat): History {
    if attempts <= 1 then []
    else Retries(t, attempts - 1) + [(Label(t.outcome(attempts - 1)), t.millis(attempts - 1))]
  }

  lemma {:induction false} RetriesLength(t: Trace, attempts: nat)
    ensures |Retries(t, attempts)| == if attempts <= 1 then 0 else attempts - 1
  {
    if attempts > 1 {
      RetriesLength(t, attempts - 1);
    }
  }

  /** What a run whose last attempt is number `n` comes back with. */
  function Ending(r: Retry, retryable: bool, t: Trace, n: nat): Result<Pending, SendError> {
    var used := MaxRetriesExceeded(n, Earlier(t, n, Connect), Earlier(t, n, Read), Earlier(t, n, Status));
    match t.outcome(n)
    case Replied(response) =>
      if !retryable then Ok(Pending(response, 0, []))
      else if response.status in r.statusForcelist && r.raiseOnStatus then Err(used)
      else Ok(Pending(response, n, Retries(t, n + 1)))
    case Failed(_, message) =>
      if !retryable then Err(TransportError(message)) else Err(used)
  }

  lemma OneMore(r: Retry, t: Trace, i: nat)
    ensures forall kind ::
      Earlier(t, i + 1, kind) == Earlier(t, i, kind) + if KindOf(t.outcome(i)) == kind then 1 else 0
    ensures Retries(t, i + 1) == if i == 0 then [] else Retries(t, i) + [(Label(t.outcome(i)), t.millis(i))]
    ensures i > 0 ==> Sleeps(r, t, i) == Sleeps(r, t, i - 1) + [Backoff(r, t, i)]
  {
  }

  lemma NothingYet(r: Retry, t: Trace)
    ensures Retries(t, 0) == [] && Sleeps(r, t, 0) == []
    ensures forall kind :: Earlier(t, 0, kind) == 0
  {
  }

  predicate Retryable(r: Retry, verb: string) {
    verb in r.allowedMethods
  }

  /** A run and the number of attempts it made, from the turn that considers attempt `i`. */
  function Run(r: Retry, retryable: bool, replayable: bool, t: Trace, i: nat): (Result<Pending, SendError>, nat)
    decreases r.total - i
  {
    if TimedOut(r, t, i) then (Err(TotalTimeout(i)), i)
    else if !replayable then (Err(CannotReplay), i)
    else if Stops(r, retryable, t, i) then (Ending(r, retryable, t, i), i + 1)
    else Run(r, retryable, replayable, t, i + 1)
  }

  /**
   The run ends at the first attempt that stops it, unless the time budget ends it before
   that attempt is made: `attempts` is exact in every case.
   */
  lemma {:induction false} RunIsExact(r: Retry, retryable: bool, t: Trace, i: nat)
    ensures var (result, attempts) := Run(r, retryable, true, t, i);
            var n := FirstStop(r, retryable, t, i);
            && i <= attempts <= n + 1
            && (forall j :: i <= j < attempts ==> !TimedOut(r, t, j))
            && (attempts == n + 1 ==> result == Ending(r, retryable, t, n))
            && (attempts <= n ==> TimedOut(r, t, attempts) && result == Err(TotalTimeout(attempts)))
    decreases r.total - i
  {
    if !TimedOut(r, t, i) && !Stops(r, retryable, t, i) {
      RunIsExact(r, retryable, t, i + 1);
    }
  }

  /** Within the time budget a replayable request makes exactly `n + 1` attempts; negative caps allow one. */
  lemma ExactAttempts(r: Retry, retryable: bool, t: Trace)
    requires forall i: nat :: !TimedOut(r, t, i)
    ensures var n := FirstStop(r, retryable, t, 0);
            Run(r, retryable, true, t, 0) == (Ending(r, retryable, t, n), n + 1)
            && n <= (if r.total < 0 then 0 else r.total)
            && (r.total < 0 || (r.connect < 0 && r.read < 0 && r.status < 0) ==> n == 0)
  {
    RunIsExact(r, retryable, t, 0);
  }

  /** A response reports as many retries as its history holds, and one fewer than the attempts. */
  lemma {:induction false} RunTelemetry(r: Retry, retryable: bool, replayable: bool, t: Trace, i: nat)
    requires i > 0 ==> retryable
    ensures var (result, attempts) := Run(r, retryable, replayable, t, i);
            && attempts <= i + 1 + (if r.total < i then 0 else r.total - i)
            && (result.Ok? ==> result.value.numRetries == |result.value.history| == attempts - 1)
            && (result.Ok? && !retryable ==> attempts == 1)
    decreases r.total - i
  {
    if !TimedOut(r, t, i) && replayable {
      if Stops(r, retryable, t, i) {
        RetriesLength(t, i + 1);
      } else {
        RunTelemetry(r, retryable, replayable, t, i + 1);
      }
    }
  }

  lemma Turn(r: Retry, retryable: bool, replayable: bool, t: Trace, i: nat)
    ensures Run(r, retryable, replayable, t, i)
         == if TimedOut(r, t, i) then (Err(TotalTimeout(i)), i)
            else if !replayable then (Err(CannotReplay), i)
            else if Stops(r, retryable, t, i) then (Ending(r, retryable, t, i), i + 1)
            else Run(r, retryable, replayable, t, i + 1)
  {
  }

  /** The sleep before attempt `i`, from the response of the one before it, if there was one. */
  method BackoffBefore(r: Retry, t: Trace, i: nat, previous: Option<Response>) returns (sleep: real)
    requires i > 0
    requires previous == if t.outcome(i - 1).Replied? then Some(t.outcome(i - 1).response) else None
    ensures sleep == Backoff(r, t, i)
  {
    hide Term, Moved;
    var retryAfter := Finite(0.0);
    if r.respectRetryAfter && previous.Some? && previous.value.retryAfter.Some? {
      retryAfter := previous.value.retryAfter.value;
    }
    var calculated := Term(r, i - 1);
    if r.backoffJitter > 0.0 {
      calculated := Max(Moved(calculated, t.jitter(i), r.backoffJitter), 0.0);
    }
    sleep := Clamp(calculated, retryAfter, r.backoffMax);
  }

  /** Attempt `i` and its telemetry; it ends the run unless it is to be retried. */
  method Attempt(r: Retry, t: Trace, i: nat, retryable: bool, history: History)
    returns (ended: Option<Result<Pending, SendError>>, longer: History, current: Option<Response>)
    requires (i > 0 ==> retryable) && history == Retries(t, i)
    ensures ended.Some? <==> !retryable || IsFinal(r, t.outcome(i))
    ensures ended.Some? ==> ended.value == Ending(r, retryable, t, i)
    ensures ended.None? ==> longer == Retries(t, i + 1)
    ensures ended.None? ==> current == if t.outcome(i).Replied? then Some(t.outcome(i).response) else None
  {
    hide Earlier, Retries;
    NothingYet(r, t);
    OneMore(r, t, i);
    longer, current := history, None;
    match t.outcome(i) {
      case Replied(response) =>
        if !retryable {
          return Some(Ok(Pending(response, 0, []))), longer, current;
        }
        if i > 0 {
          longer := longer + [(Decimal(response.status), t.millis(i))];
        }
        if response.status !in r.statusForcelist {
          return Some(Ok(Pending(response, i, longer))), longer, current;
        }
        current := Some(response);
      case Failed(connecting, message) =>
        if !retryable {
          return Some(Err(TransportError(message))), longer, current;
        }
        if i > 0 {
          longer := longer + [(message, t.millis(i))];
        }
    }
    ended := None;
  }

  method SendWithRetries(r: Retry, verb: string, replayable: bool, t: Trace)
    returns (result: Result<Pending, SendError>, attempts: nat, sleeps: seq<real>)
    ensures (result, attempts) == Run(r, Retryable(r, verb), replayable, t, 0)
    ensures sleeps == Sleeps(r, t, if attempts == 0 then 0 else attempts - 1)
  {
    hide Earlier, Retries, Sleeps, Backoff, Run, Ending, KindOf, Cap;
    NothingYet(r, t);
    var retryable := verb in r.allowedMethods;
    var used := new RetryCounts();
    var history: History := [];
    var current: Option<Response> := None;
    attempts, sleeps := 0, [];
    while true
      invariant fresh(used) && Tallies(used, t, attempts)
      invariant Run(r, retryable, replayable, t, attempts) == Run(r, Retryable(r, verb), replayable, t, 0)
      invariant attempts > 0 ==> retryable && replayable && attempts <= r.total
      invariant history == Retries(t, attempts)
      invariant current == if attempts > 0 && t.outcome(attempts - 1).Replied?
                           then Some(t.outcome(attempts - 1).response) else None
      invariant sleeps == Sleeps(r, t, if attempts == 0 then 0 else attempts - 1)
      decreases r.total - attempts
    {
      var attempt := used.total;
      Turn(r, retryable, replayable, t, attempt);
      if r.totalTimeout.Some? && t.elapsed(attempt) > r.totalTimeout.value {
        return Err(TotalTimeout(attempt)), attempts, sleeps;
      }
      OneMore(r, t, attempt);
      if attempt > 0 {
        var sleep := BackoffBefore(r, t, attempt, current);
        sleeps := sleeps + [sleep];
      }
      if !replayable {
        return Err(CannotReplay), attempts, sleeps;
      }
      attempts := attempts + 1;
      var ended;
      ended, history, current := Attempt(r, t, attempt, retryable, history);
      if ended.Some? {
        return ended.value, attempts, sleeps;
      }
      var again := CountFailure(r, t, attempt, used);
      if !again {
        break;
      }
    }
    result := GiveUp(r, t, attempts - 1, used, current, history);
  }

  /** The counters after `i` failed attempts. */
  ghost predicate Tallies(used: RetryCounts, t: Trace, i: nat)
    reads used
  {
    used.total == i && forall kind :: used.Of(kind) == Earlier(t, i, kind)
  }

  /** After failed attempt `i`: whether there is another, and if so the failure counts. */
  method CountFailure(r: Retry, t: Trace, i: nat, used: RetryCounts) returns (again: bool)
    requires Tallies(used, t, i)
    modifies used
    ensures again <==> i < r.total && Earlier(t, i, KindOf(t.outcome(i))) < Cap(r, KindOf(t.outcome(i)))
    ensures Tallies(used, t, if again then i + 1 else i)
  {
    hide Earlier, KindOf, Cap;
    EarlierAddsUp(t, i);
    OneMore(r, t, i);
    var kind := KindOf(t.outcome(i));
    again := AllowsAnother(r, kind, used);
    if again {
      used.Record(kind);
    }
  }

  /** Behind the loop: no further attempt is allowed. */
  method GiveUp(r: Retry, t: Trace, n: nat, used: RetryCounts, current: Option<Response>, history: History)
    returns (result: Result<Pending, SendError>)
    requires Tallies(used, t, n)
    requires current == if t.outcome(n).Replied? then Some(t.outcome(n).response) else None
    requires history == Retries(t, n + 1)
    ensures result == Ending(r, true, t, n)
  {
    hide Earlier, Retries;
    assert used.connect == used.Of(Connect) && used.read == used.Of(Read) && used.status == used.Of(Status);
    if current.Some? {
      if current.value.status in r.statusForcelist && r.raiseOnStatus {
        return Err(MaxRetriesExceeded(used.total, used.connect, used.read, used.status));
      }
      return Ok(Pending(current.value, used.total, history));
    }
    result := Err(MaxRetriesExceeded(used.total, used.connect, used.read, used.status));
  }
}
