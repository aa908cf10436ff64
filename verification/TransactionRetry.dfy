/** Transactions with bounded retries, app/repositories/database_repository.go. */
module TransactionRetry {
  import opened Wrappers
  import opened Int64

  // ─── Backoff ────────────────────────────────────────────────────────────────

  /** 50 ms in nanoseconds. */
  const BASE_DELAY: int := 50_000_000

  const BASE_BACKOFFS: seq<int> := [50_000_000, 100_000_000, 200_000_000, 400_000_000, 800_000_000]

  function Pow2(n: nat): nat {
    if n == 0 then 1 else 2 * Pow2(n - 1)
  }

  /** The intended wait after attempt `i + 1`. */
  function Delay(i: nat): int { BASE_DELAY * Pow2(i) }

  function Delays(n: nat): (r: seq<int>)
    ensures |r| == n && forall i :: 0 <= i < n ==> r[i] == Wrap(Delay(i))
  {
    seq(n, i requires 0 <= i < n => Wrap(Delay(i)))
  }

  lemma WrapDouble(x: int)
    ensures Wrap(Wrap(x) * 2) == Wrap(x * 2)
  {
    var k := (x + TWO_TO_THE_63) / TWO_TO_THE_64;
    assert Wrap(x) == x - k * TWO_TO_THE_64;
    assert (x * 2 + TWO_TO_THE_63 - 2 * k * TWO_TO_THE_64) % TWO_TO_THE_64 == (x * 2 + TWO_TO_THE_63) % TWO_TO_THE_64;
  }

  /** The first five delays are a table; later ones double the last one, wrapping. */
  method TransactionRetryBackoffs(maxRetries: int) returns (backoffs: seq<int>)
    requires maxRetries >= 1
    ensures backoffs == Delays(maxRetries)
  {
    assert Delay(0) == 50_000_000 && Delay(1) == 100_000_000 && Delay(2) == 200_000_000;
    assert Delay(3) == 400_000_000 && Delay(4) == 800_000_000;
    if maxRetries <= |BASE_BACKOFFS| {
      return BASE_BACKOFFS[..maxRetries];
    }
    backoffs := BASE_BACKOFFS;
    var last := BASE_BACKOFFS[|BASE_BACKOFFS| - 1];
    while |backoffs| < maxRetries
      invariant 5 <= |backoffs| <= maxRetries
      invariant last == Wrap(Delay(|backoffs| - 1))
      invariant backoffs == Delays(|backoffs|)
    {
      WrapDouble(Delay(|backoffs| - 1));
      last := Wrap(last * 2);
      backoffs := backoffs + [last];
    }
  }

  lemma {:induction false} Pow2Monotone(m: nat, n: nat)
    requires m <= n
    ensures Pow2(m) <= Pow2(n)
    decreases n
  {
    if m < n {
      Pow2Monotone(m, n - 1);
    }
  }

  lemma {:induction false} Pow2Split(m: nat, n: nat)
    ensures Pow2(m + n) == Pow2(m) * Pow2(n)
  {
    if n > 0 {
      Pow2Split(m, n - 1);
      var x, y := Pow2(m), Pow2(n - 1);
      assert Pow2(m + n) == 2 * Pow2(m + (n - 1)) && Pow2(n) == 2 * y;
      hide Pow2;
      assert 2 * (x * y) == x * (2 * y);
    }
  }

  /** A delay is 50 ms doubled `i` times exactly up to `i = 37`; after that int64 overflows. */
  lemma DelayFitsIff(i: nat)
    ensures Wrap(Delay(i)) == Delay(i) <==> i <= 37
  {
    assert Pow2(37) == 0x20_0000_0000 && Pow2(38) == 0x40_0000_0000 by {
      assert Pow2(4) == 16;
      Pow2Split(4, 4);
      Pow2Split(8, 8);
      Pow2Split(16, 16);
      Pow2Split(32, 4);
    }
    if i <= 37 {
      Pow2Monotone(i, 37);
    } else {
      Pow2Monotone(38, i);
    }
  }

  function Sum(xs: seq<int>): int {
    if xs == [] then 0 else Sum(xs[..|xs| - 1]) + xs[|xs| - 1]
  }

  /** Waiting after the first `n` attempts takes 50 ms × (2ⁿ − 1) in all. */
  lemma {:induction false} SumOfDelays(n: nat)
    requires n <= 38
    ensures Sum(Delays(n)) == BASE_DELAY * (Pow2(n) - 1)
  {
    if n > 0 {
      SumOfDelays(n - 1);
      assert Delays(n)[..n - 1] == Delays(n - 1);
      DelayFitsIff(n - 1);
    }
  }

  // ─── The retry loop ─────────────────────────────────────────────────────────

  /**
   * `Panicked` is the error made of a recovered panic. Its text matches no retryable pattern
   * of either dialect.
   */
  datatype Failure = DbError(code: int, retryable: bool) | Panicked | Cancelled | ContextRequired

  predicate IsRetryable(f: Failure) { f.DbError? && f.retryable }

  datatype Reply = Done | Failed(f: Failure) | Panic

  /** What the database, the transaction body and the context do at each attempt. */
  datatype Script = Script(
    begin: nat -> Reply,
    body: nat -> Reply,
    commit: nat -> Reply,
    cancelledAtTop: nat -> bool,
    cancelledBeforeCommit: nat -> bool,
    cancelledInWait: nat -> bool)

  datatype Event =
    | Begin
    | BeginFailed(f: Failure)
    | BeginPanicked
    | BodyDone
    | BodyFailed(f: Failure)
    | Commit
    | CommitFailed(f: Failure)
    | CommitPanicked
    | Rollback
    | Waited(delay: int)
    | SawCancelled

  /** How a run ends: with an error or nil, or in a panic that only the body's would be spared. */
  datatype Ending = Returned(err: Option<Failure>) | Panicking

  /** What a trace allows next. */
  datatype Phase =
    | Closed            // no transaction is open
    | Open              // the body is running
    | Ready             // the body succeeded
    | MustRollback      // a body or a commit failed
    | MustAbandon       // cancellation was seen with the transaction open
    | Abandoned         // cancellation was seen and nothing is open
    | Committed
    | Unwound           // begin panicked: nothing is open, nothing follows
    | Leaked            // Commit panicked: the transaction is left open, nothing follows
    | Broken

  function Next(p: Phase, e: Event): Phase {
    match (p, e)
    case (Closed, Begin) => Open
    case (Closed, BeginFailed(_)) => Closed
    case (Closed, BeginPanicked) => Unwound
    case (Closed, Waited(_)) => Closed
    case (Closed, SawCancelled) => Abandoned
    case (Open, BodyDone) => Ready
    case (Open, BodyFailed(_)) => MustRollback
    case (Ready, Commit) => Committed
    case (Ready, CommitFailed(_)) => MustRollback
    case (Ready, CommitPanicked) => Leaked
    case (Ready, SawCancelled) => MustAbandon
    case (MustRollback, Rollback) => Closed
    case (MustAbandon, Rollback) => Abandoned
    case _ => Broken
  }

  function PhaseOf(trace: seq<Event>): Phase {
    if trace == [] then Closed else Next(PhaseOf(trace[..|trace| - 1]), trace[|trace| - 1])
  }

  predicate IsAttempt(e: Event) { e.Begin? || e.BeginFailed? || e.BeginPanicked? }

  function Attempts(trace: seq<Event>): nat {
    if trace == [] then 0
    else Attempts(trace[..|trace| - 1]) + if IsAttempt(trace[|trace| - 1]) then 1 else 0
  }

  function Waits(trace: seq<Event>): seq<int> {
    if trace == [] then []
    else Waits(trace[..|trace| - 1]) + if trace[|trace| - 1].Waited? then [trace[|trace| - 1].delay] else []
  }

  /** The failure recorded last, if any. */
  function LastFailure(trace: seq<Event>): Option<Failure> {
    if trace == [] then None
    else
      match trace[|trace| - 1]
      case BeginFailed(f) => Some(f)
      case BodyFailed(f) => Some(f)
      case CommitFailed(f) => Some(f)
      case _ => LastFailure(trace[..|trace| - 1])
  }

  lemma Snoc(trace: seq<Event>, e: Event)
    ensures PhaseOf(trace + [e]) == Next(PhaseOf(trace), e)
    ensures Attempts(trace + [e]) == Attempts(trace) + if IsAttempt(e) then 1 else 0
    ensures Waits(trace + [e]) == Waits(trace) + if e.Waited? then [e.delay] else []
    ensures LastFailure(trace + [e]) ==
      match e
      case BeginFailed(f) => Some(f)
      case BodyFailed(f) => Some(f)
      case CommitFailed(f) => Some(f)
      case _ => LastFailure(trace)
  {
    assert (trace + [e])[..|trace|] == trace;
  }

  // ─── What the script makes happen ───────────────────────────────────────────

  function BodyFailure(s: Script, attempt: nat): Option<Failure> {
    match s.body(attempt)
    case Done => None
    case Failed(f) => Some(f)
    case Panic => Some(Panicked)
  }

  function BodyEvents(s: Script, attempt: nat): seq<Event> {
    var failure := BodyFailure(s, attempt);
    if failure.None? then [BodyDone] else [BodyFailed(failure.value), Rollback]
  }

  function CommitEvents(s: Script, attempt: nat): seq<Event> {
    if s.cancelledBeforeCommit(attempt) then [SawCancelled, Rollback]
    else
      match s.commit(attempt)
      case Done => [Commit]
      case Failed(f) => [CommitFailed(f), Rollback]
      case Panic => [CommitPanicked]
  }

  function TryEvents(s: Script, attempt: nat): seq<Event> {
    if s.cancelledAtTop(attempt) then [SawCancelled]
    else
      match s.begin(attempt)
      case Failed(f) => [BeginFailed(f)]
      case Panic => [BeginPanicked]
      case Done =>
        [Begin] + BodyEvents(s, attempt) + if BodyFailure(s, attempt).Some? then [] else CommitEvents(s, attempt)
  }

  /** An attempt ends the run, or fails with an error that may be retried. */
  datatype Verdict = Final(ending: Ending) | Fails(failure: Failure)

  function CommitVerdict(s: Script, attempt: nat): Verdict {
    if s.cancelledBeforeCommit(attempt) then Final(Returned(Some(Cancelled)))
    else
      match s.commit(attempt)
      case Done => Final(Returned(None))
      case Failed(f) => Fails(f)
      case Panic => Final(Panicking)
  }

  function TryVerdict(s: Script, attempt: nat): Verdict {
    if s.cancelledAtTop(attempt) then Final(Returned(Some(Cancelled)))
    else
      match s.begin(attempt)
      case Failed(f) => Fails(f)
      case Panic => Final(Panicking)
      case Done =>
        var failure := BodyFailure(s, attempt);
        if failure.Some? then Fails(failure.value) else CommitVerdict(s, attempt)
  }

  /** The verdict on attempt `attempt` is the last word when `most` attempts are allowed. */
  predicate IsLast(v: Verdict, most: nat, attempt: nat) {
    v.Final? || !IsRetryable(v.failure) || attempt >= most
  }

  function EndingOf(v: Verdict): Ending {
    match v
    case Final(ending) => ending
    case Fails(f) => Returned(Some(f))
  }

  /** All events from attempt `attempt` on, when `most` attempts are allowed. */
  function RunEvents(s: Script, most: nat, attempt: nat): seq<Event>
    requires 1 <= attempt
    decreases most - attempt
  {
    TryEvents(s, attempt) +
    if IsLast(TryVerdict(s, attempt), most, attempt) then []
    else if s.cancelledInWait(attempt) then [SawCancelled]
    else [Waited(Wrap(Delay(attempt - 1)))] + RunEvents(s, most, attempt + 1)
  }

  function RunEnding(s: Script, most: nat, attempt: nat): Ending
    requires 1 <= attempt
    decreases most - attempt
  {
    if IsLast(TryVerdict(s, attempt), most, attempt) then EndingOf(TryVerdict(s, attempt))
    else if s.cancelledInWait(attempt) then Returned(Some(Cancelled))
    else RunEnding(s, most, attempt + 1)
  }

  /** What follows an attempt: nothing, a wait cut short by cancellation, or a wait and the rest. */
  lemma RunStep(s: Script, most: nat, attempt: nat, before: seq<Event>)
    requires 1 <= attempt <= most
    ensures
      var tried, all := before + TryEvents(s, attempt), before + RunEvents(s, most, attempt);
      var verdict := TryVerdict(s, attempt);
      if IsLast(verdict, most, attempt) then all == tried && RunEnding(s, most, attempt) == EndingOf(verdict)
      else if s.cancelledInWait(attempt) then
        all == tried + [SawCancelled] && RunEnding(s, most, attempt) == Returned(Some(Cancelled))
      else
        && all == tried + [Waited(Wrap(Delay(attempt - 1)))] + RunEvents(s, most, attempt + 1)
        && RunEnding(s, most, attempt) == RunEnding(s, most, attempt + 1)
  {
    hide TryEvents, TryVerdict, IsLast, Delay, Wrap;
  }

  /** `trace` is what the run has done before attempt `attempt`. */
  ghost predicate OnCourse(s: Script, most: nat, attempt: nat, trace: seq<Event>)
    requires 1 <= attempt
  {
    && trace + RunEvents(s, most, attempt) == RunEvents(s, most, 1)
    && RunEnding(s, most, attempt) == RunEnding(s, most, 1)
  }

  ghost predicate RunIs(s: Script, most: nat, ending: Ending, trace: seq<Event>) {
    ending == RunEnding(s, most, 1) && trace == RunEvents(s, most, 1)
  }

  lemma CourseStep(s: Script, most: nat, attempt: nat, trace: seq<Event>)
    requires 1 <= attempt <= most && OnCourse(s, most, attempt, trace)
    ensures var tried, verdict := trace + TryEvents(s, attempt), TryVerdict(s, attempt);
      if IsLast(verdict, most, attempt) then RunIs(s, most, EndingOf(verdict), tried)
      else if s.cancelledInWait(attempt) then RunIs(s, most, Returned(Some(Cancelled)), tried + [SawCancelled])
      else OnCourse(s, most, attempt + 1, tried + [Waited(Wrap(Delay(attempt - 1)))])
  {
    RunStep(s, most, attempt, trace);
    hide RunEvents, RunEnding, TryEvents, TryVerdict, IsLast, Delay, Wrap;
  }

  function Most(maxRetries: int): nat {
    if maxRetries <= 0 then 1 else maxRetries
  }

  // ─── The methods ────────────────────────────────────────────────────────────

  /** Runs the body; a failed or panicking one is rolled back before its error is returned. */
  method WithTransactionRecovery(s: Script, attempt: nat) returns (err: Option<Failure>, events: seq<Event>)
    ensures err == BodyFailure(s, attempt) && events == BodyEvents(s, attempt)
  {
    match s.body(attempt) {
      case Done =>
        return None, [BodyDone];
      case Failed(f) =>
        err := Some(f);
      case Panic =>
        err := Some(Panicked);
    }
    events := [BodyFailed(err.value), Rollback];
  }

  /** `_Retry`: whether another attempt follows, after waiting, or the final error. */
  method Retry(s: Script, attempt: nat, maxRetries: nat, backoff: int, err: Failure)
    returns (again: bool, finalErr: Failure, events: seq<Event>)
    ensures again <==> IsRetryable(err) && attempt != maxRetries && !s.cancelledInWait(attempt)
    ensures again ==> events == [Waited(backoff)]
    ensures !IsRetryable(err) || attempt == maxRetries ==> events == [] && finalErr == err
    ensures IsRetryable(err) && attempt != maxRetries && !again ==> events == [SawCancelled] && finalErr == Cancelled
  {
    if !IsRetryable(err) || attempt == maxRetries {
      return false, err, [];
    }
    if s.cancelledInWait(attempt) {
      return false, Cancelled, [SawCancelled];
    }
    return true, err, [Waited(backoff)];
  }

  /**
   * One pass of the source's loop up to its retry decision. Only the body's panic is recovered;
   * one of `begin` or of `Commit` goes through.
   */
  method TryOnce(s: Script, attempt: nat) returns (verdict: Verdict, events: seq<Event>)
    ensures events == TryEvents(s, attempt) && verdict == TryVerdict(s, attempt)
  {
    if s.cancelledAtTop(attempt) {
      return Final(Returned(Some(Cancelled))), [SawCancelled];
    }
    match s.begin(attempt) {
      case Failed(f) =>
        return Fails(f), [BeginFailed(f)];
      case Panic =>
        return Final(Panicking), [BeginPanicked];
      case Done =>
    }
    var err, body := WithTransactionRecovery(s, attempt);
    events := [Begin] + body;
    if err.Some? {
      return Fails(err.value), events;
    }
    if s.cancelledBeforeCommit(attempt) {
      return Final(Returned(Some(Cancelled))), events + [SawCancelled, Rollback];
    }
    match s.commit(attempt) {
      case Failed(f) =>
        return Fails(f), events + [CommitFailed(f), Rollback];
      case Panic =>
        return Final(Panicking), events + [CommitPanicked];
      case Done =>
        return Final(Returned(None)), events + [Commit];
    }
  }

  /** One iteration of the source's loop: another attempt follows, or the run is over. */
  method Iterate(s: Script, attempt: nat, most: nat, backoff: int, before: seq<Event>)
    returns (again: bool, ending: Ending, trace: seq<Event>)
    requires 1 <= attempt <= most && backoff == Wrap(Delay(attempt - 1))
    requires OnCourse(s, most, attempt, before)
    ensures again ==> attempt < most && OnCourse(s, most, attempt + 1, trace)
    ensures !again ==> RunIs(s, most, ending, trace)
  {
    CourseStep(s, most, attempt, before);
    hide TryEvents, TryVerdict, OnCourse, RunIs, Wrap, Delay;
    var verdict, events := TryOnce(s, attempt);
    trace := before + events;
    if verdict.Final? {
      return false, verdict.ending, trace;
    }
    var finalErr;
    again, finalErr, events := Retry(s, attempt, most, backoff, verdict.failure);
    trace := trace + events;
    ending := Returned(Some(finalErr));
  }

  method WithTransactionRetryContext(hasContext: bool, maxRetries: int, s: Script)
    returns (ending: Ending, trace: seq<Event>)
    ensures !hasContext ==> ending == Returned(Some(ContextRequired)) && trace == []
    ensures hasContext ==> RunIs(s, if maxRetries <= 0 then 1 else maxRetries, ending, trace)
  {
    if !hasContext {
      return Returned(Some(ContextRequired)), [];
    }
    var most := Most(maxRetries);
    var backoffs := TransactionRetryBackoffs(most);
    trace := [];
    assert OnCourse(s, most, 1, trace);
    hide OnCourse, RunIs, Wrap, Delay;
    var attempt := 1;
    while attempt <= most
      invariant 1 <= attempt <= most
      invariant OnCourse(s, most, attempt, trace)
      decreases most - attempt
    {
      var again;
      again, ending, trace := Iterate(s, attempt, most, backoffs[attempt - 1], trace);
      if !again {
        return;
      }
      attempt := attempt + 1;
    }
    // The last attempt always returns: the source's final `return lastErr` is dead code.
    assert false;
  }

  // ─── Every run is disciplined ───────────────────────────────────────────────

  lemma BodyDisciplined(s: Script, attempt: nat, before: seq<Event>)
    requires PhaseOf(before) == Open
    ensures var trace := before + BodyEvents(s, attempt);
      && PhaseOf(trace) == (if BodyFailure(s, attempt).None? then Ready else Closed)
      && Attempts(trace) == Attempts(before) && Waits(trace) == Waits(before)
      && (BodyFailure(s, attempt).Some? ==> LastFailure(trace) == BodyFailure(s, attempt))
  {
    var failure := BodyFailure(s, attempt);
    if failure.None? {
      Snoc(before, BodyDone);
    } else {
      Snoc2(before, BodyFailed(failure.value), Rollback);
    }
  }

  lemma Snoc2(trace: seq<Event>, d: Event, e: Event)
    ensures trace + [d, e] == trace + [d] + [e]
    ensures PhaseOf(trace + [d, e]) == Next(Next(PhaseOf(trace), d), e)
    ensures !d.Waited? && !e.Waited? ==> Waits(trace + [d, e]) == Waits(trace)
    ensures !IsAttempt(d) && !IsAttempt(e) ==> Attempts(trace + [d, e]) == Attempts(trace)
    ensures (d.BodyFailed? || d.CommitFailed?) && e.Rollback? ==> LastFailure(trace + [d, e]) == Some(d.f)
  {
    assert trace + [d, e] == trace + [d] + [e];
    Snoc(trace, d);
    Snoc(trace + [d], e);
  }

  /** How a run that ended so leaves the trace. */
  function PhaseAfter(ending: Ending, committing: bool): Phase {
    match ending
    case Returned(None) => Committed
    case Returned(Some(_)) => Abandoned
    case Panicking => if committing then Leaked else Unwound
  }

  lemma CommitDisciplined(s: Script, attempt: nat, before: seq<Event>)
    requires PhaseOf(before) == Ready
    ensures var trace, verdict := before + CommitEvents(s, attempt), CommitVerdict(s, attempt);
      && Attempts(trace) == Attempts(before) && Waits(trace) == Waits(before)
      && match verdict
         case Final(ending) => PhaseOf(trace) == PhaseAfter(ending, true)
         case Fails(f) => PhaseOf(trace) == Closed && LastFailure(trace) == Some(f)
  {
    if s.cancelledBeforeCommit(attempt) {
      Snoc2(before, SawCancelled, Rollback);
    } else {
      match s.commit(attempt) {
        case Done => Snoc(before, Commit);
        case Failed(f) => Snoc2(before, CommitFailed(f), Rollback);
        case Panic => Snoc(before, CommitPanicked);
      }
    }
  }

  lemma TryDisciplined(s: Script, attempt: nat, before: seq<Event>)
    requires PhaseOf(before) == Closed
    ensures var trace, verdict := before + TryEvents(s, attempt), TryVerdict(s, attempt);
      && Waits(trace) == Waits(before) && Attempts(trace) <= Attempts(before) + 1
      && match verdict
         case Final(ending) => PhaseOf(trace) == PhaseAfter(ending, s.begin(attempt).Done?)
         case Fails(f) =>
           PhaseOf(trace) == Closed && LastFailure(trace) == Some(f) && Attempts(trace) == Attempts(before) + 1
  {
    hide PhaseOf, Attempts, Waits, LastFailure;
    if s.cancelledAtTop(attempt) {
      Snoc(before, SawCancelled);
    } else {
      match s.begin(attempt) {
        case Failed(f) => Snoc(before, BeginFailed(f));
        case Panic => Snoc(before, BeginPanicked);
        case Done => BegunDisciplined(s, attempt, before);
      }
    }
  }

  lemma BegunDisciplined(s: Script, attempt: nat, before: seq<Event>)
    requires PhaseOf(before) == Closed && !s.cancelledAtTop(attempt) && s.begin(attempt).Done?
    ensures var trace, verdict := before + TryEvents(s, attempt), TryVerdict(s, attempt);
      && Waits(trace) == Waits(before) && Attempts(trace) == Attempts(before) + 1
      && match verdict
         case Final(ending) => PhaseOf(trace) == PhaseAfter(ending, true)
         case Fails(f) => PhaseOf(trace) == Closed && LastFailure(trace) == Some(f)
  {
    hide PhaseOf, Attempts, Waits, LastFailure;
    var begun, body := before + [Begin], BodyEvents(s, attempt);
    Snoc(before, Begin);
    BodyDisciplined(s, attempt, begun);
    if BodyFailure(s, attempt).Some? {
      assert before + TryEvents(s, attempt) == begun + body;
    } else {
      CommitDisciplined(s, attempt, begun + body);
      assert before + TryEvents(s, attempt) == begun + body + CommitEvents(s, attempt);
    }
  }

  /** How a run ended, in terms of its trace. */
  ghost predicate Outcome(ending: Ending, trace: seq<Event>, most: nat) {
    match PhaseOf(trace)
    case Committed => ending == Returned(None)
    case Abandoned => ending == Returned(Some(Cancelled))
    case Closed =>
      && LastFailure(trace).Some? && ending == Returned(LastFailure(trace))
      && (IsRetryable(LastFailure(trace).value) ==> Attempts(trace) == most)
    case Unwound => ending == Panicking
    case Leaked => ending == Panicking
    case _ => false
  }

  /** Disciplined, ended as returned, and within the bounds on attempts and waits. */
  ghost predicate GoodRun(ending: Ending, trace: seq<Event>, most: nat) {
    && Outcome(ending, trace, most)
    && Attempts(trace) <= most
    && |Waits(trace)| < most
    && Waits(trace) <= Delays(most)
  }

  lemma DelaysGrow(most: nat, attempt: nat)
    requires 1 <= attempt <= most
    ensures Delays(most)[..attempt] == Delays(most)[..attempt - 1] + [Wrap(Delay(attempt - 1))]
  {
    hide Wrap, Delay;
  }

  lemma RunEnds(ending: Ending, trace: seq<Event>, most: nat, attempt: nat)
    requires 1 <= attempt <= most && Attempts(trace) <= attempt && Waits(trace) == Delays(most)[..attempt - 1]
    requires Outcome(ending, trace, most)
    ensures GoodRun(ending, trace, most)
  {
  }

  /** An attempt that ends the run with an error does so because of cancellation. */
  lemma FinalError(s: Script, attempt: nat)
    ensures var v := TryVerdict(s, attempt);
      v.Final? && v.ending.Returned? && v.ending.err.Some? ==> v.ending.err == Some(Cancelled)
  {
  }

  lemma OutcomeOf(v: Verdict, trace: seq<Event>, most: nat, attempt: nat, committing: bool)
    requires attempt <= most && IsLast(v, most, attempt)
    requires
      match v
      case Final(e) =>
        PhaseOf(trace) == PhaseAfter(e, committing) && (e.Returned? && e.err.Some? ==> e.err == Some(Cancelled))
      case Fails(f) => PhaseOf(trace) == Closed && LastFailure(trace) == Some(f) && Attempts(trace) == attempt
    ensures Outcome(EndingOf(v), trace, most)
  {
    hide PhaseOf, LastFailure, Attempts;
  }

  lemma LastWord(s: Script, most: nat, attempt: nat, before: seq<Event>)
    requires 1 <= attempt <= most && IsLast(TryVerdict(s, attempt), most, attempt)
    requires PhaseOf(before) == Closed && Attempts(before) == attempt - 1
    ensures Outcome(EndingOf(TryVerdict(s, attempt)), before + TryEvents(s, attempt), most)
  {
    TryDisciplined(s, attempt, before);
    FinalError(s, attempt);
    hide *;
    OutcomeOf(TryVerdict(s, attempt), before + TryEvents(s, attempt), most, attempt, s.begin(attempt).Done?);
  }

  lemma NotLast(v: Verdict, most: nat, attempt: nat)
    requires !IsLast(v, most, attempt)
    ensures v.Fails? && attempt < most
  {
  }

  lemma {:induction false} RunFrom(s: Script, most: nat, attempt: nat, before: seq<Event>)
    requires 1 <= attempt <= most
    requires PhaseOf(before) == Closed && Attempts(before) == attempt - 1
      && Waits(before) == Delays(most)[..attempt - 1]
    ensures GoodRun(RunEnding(s, most, attempt), before + RunEvents(s, most, attempt), most)
    decreases most - attempt
  {
    hide *;
    var tried, verdict := before + TryEvents(s, attempt), TryVerdict(s, attempt);
    TryDisciplined(s, attempt, before);
    RunStep(s, most, attempt, before);
    if IsLast(verdict, most, attempt) {
      LastWord(s, most, attempt, before);
      RunEnds(EndingOf(verdict), tried, most, attempt);
    } else {
      NotLast(verdict, most, attempt);
      if s.cancelledInWait(attempt) {
        WaitCutShort(tried, most, attempt);
      } else {
        WaitGoesOn(tried, most, attempt);
        RunFrom(s, most, attempt + 1, tried + [Waited(Wrap(Delay(attempt - 1)))]);
      }
    }
  }

  lemma WaitGoesOn(tried: seq<Event>, most: nat, attempt: nat)
    requires 1 <= attempt <= most && Attempts(tried) == attempt && Waits(tried) == Delays(most)[..attempt - 1]
    requires PhaseOf(tried) == Closed
    ensures var trace := tried + [Waited(Wrap(Delay(attempt - 1)))];
      PhaseOf(trace) == Closed && Attempts(trace) == attempt && Waits(trace) == Delays(most)[..attempt]
  {
    Snoc(tried, Waited(Wrap(Delay(attempt - 1))));
    DelaysGrow(most, attempt);
    hide PhaseOf, Attempts, Waits, Delays, Delay, Wrap;
  }

  lemma WaitCutShort(tried: seq<Event>, most: nat, attempt: nat)
    requires 1 <= attempt <= most && Attempts(tried) <= attempt && Waits(tried) == Delays(most)[..attempt - 1]
    requires PhaseOf(tried) == Closed
    ensures GoodRun(Returned(Some(Cancelled)), tried + [SawCancelled], most)
  {
    Snoc(tried, SawCancelled);
    hide PhaseOf, Attempts, Waits, LastFailure, Delays;
  }

  /**
   * Whatever the database, the body, the panics and the context do, the run is a disciplined
   * trace (see `PhaseOf`) that leaves no transaction open unless its Commit panicked, makes at
   * most `max(1, maxRetries)` attempts, waits by the backoff list between them, and returns nil
   * iff it committed, the cancellation iff it saw one, and otherwise the error of its last
   * attempt; only a panic of begin or Commit goes through.
   */
  lemma EveryRunIsGood(s: Script, maxRetries: int)
    ensures GoodRun(RunEnding(s, Most(maxRetries), 1), RunEvents(s, Most(maxRetries), 1), Most(maxRetries))
  {
    var most := Most(maxRetries);
    assert [] + RunEvents(s, most, 1) == RunEvents(s, most, 1);
    RunFrom(s, most, 1, []);
  }

  // ─── What discipline means ──────────────────────────────────────────────────

  function Count(trace: seq<Event>, e: Event): nat {
    if trace == [] then 0
    else Count(trace[..|trace| - 1], e) + if trace[|trace| - 1] == e then 1 else 0
  }

  predicate IsOpen(p: Phase) { p == Open || p == Ready || p == MustRollback || p == MustAbandon || p == Leaked }

  /**
   * In a disciplined trace transactions opened are transactions committed or rolled back,
   * except for the one that is open, and only the last event can be a successful commit.
   */
  lemma {:induction false} OpenedAreClosed(trace: seq<Event>)
    requires PhaseOf(trace) != Broken
    ensures Count(trace, Begin) ==
      Count(trace, Commit) + Count(trace, Rollback) + if IsOpen(PhaseOf(trace)) then 1 else 0
    ensures Count(trace, Commit) == if PhaseOf(trace) == Committed then 1 else 0
    ensures PhaseOf(trace) == Committed <==> trace != [] && trace[|trace| - 1] == Commit
    ensures PhaseOf(trace) == Leaked <==> trace != [] && trace[|trace| - 1] == CommitPanicked
    decreases |trace|
  {
    if trace != [] {
      OpenedAreClosed(trace[..|trace| - 1]);
    }
  }

  /** Once cancellation was seen, no later event begins or commits anything. */
  lemma {:induction false} NothingAfterCancellation(trace: seq<Event>, i: nat, j: nat)
    requires PhaseOf(trace) != Broken && i < j < |trace| && trace[i] == SawCancelled
    ensures trace[j] == Rollback && j == |trace| - 1
    decreases |trace|
  {
    var n := |trace| - 1;
    var before := trace[..n];
    CancelledPhase(before, i);
  }

  lemma {:induction false} CancelledPhase(trace: seq<Event>, i: nat)
    requires PhaseOf(trace) != Broken && i < |trace| && trace[i] == SawCancelled
    ensures PhaseOf(trace) == MustAbandon || PhaseOf(trace) == Abandoned
    ensures i < |trace| - 1 ==> PhaseOf(trace) == Abandoned && trace[|trace| - 1] == Rollback
    decreases |trace|
  {
    var n := |trace| - 1;
    if i < n {
      CancelledPhase(trace[..n], i);
    }
  }

  /** For at most 39 attempts nothing overflows, and a run waits at most 50 ms × (2^(n−1) − 1). */
  lemma {:induction false} TotalWait(trace: seq<Event>, most: nat)
    requires 1 <= most <= 39
    requires |Waits(trace)| < most && Waits(trace) <= Delays(most)
    ensures Sum(Waits(trace)) <= BASE_DELAY * (Pow2(most - 1) - 1)
  {
    var n := |Waits(trace)|;
    assert Waits(trace) == Delays(n);
    SumOfDelays(n);
    Pow2Monotone(n, most - 1);
  }

  /**
   * On every run: nil is returned iff the last event is a commit, which is the only one; and
   * every transaction begun was committed or rolled back exactly once, except that the one
   * whose Commit panicked, and no other, is left open.
   */
  lemma NilIffCommitted(s: Script, maxRetries: int)
    ensures var ending, trace := RunEnding(s, Most(maxRetries), 1), RunEvents(s, Most(maxRetries), 1);
      var leaked := trace != [] && trace[|trace| - 1] == CommitPanicked;
      && (ending == Returned(None) <==> trace != [] && trace[|trace| - 1] == Commit)
      && Count(trace, Commit) == (if ending == Returned(None) then 1 else 0)
      && Count(trace, Begin) == Count(trace, Commit) + Count(trace, Rollback) + (if leaked then 1 else 0)
      && (leaked ==> ending == Panicking)
  {
    EveryRunIsGood(s, maxRetries);
    OpenedAreClosed(RunEvents(s, Most(maxRetries), 1));
  }

  // ─── Runs in terms of the script alone ──────────────────────────────────────

  /** Attempt `a` begins its transaction. */
  predicate Begins(s: Script, a: nat) { !s.cancelledAtTop(a) && s.begin(a) == Done }

  /** Attempt `a` gets as far as its Commit. */
  predicate Commits(s: Script, a: nat) { Begins(s, a) && s.body(a) == Done && !s.cancelledBeforeCommit(a) }

  predicate Succeeds(s: Script, a: nat) { Commits(s, a) && s.commit(a) == Done }

  predicate SeesCancellation(s: Script, a: nat) {
    s.cancelledAtTop(a) || (Begins(s, a) && s.body(a) == Done && s.cancelledBeforeCommit(a))
  }

  predicate PanicsThrough(s: Script, a: nat) {
    (!s.cancelledAtTop(a) && s.begin(a) == Panic) || (Commits(s, a) && s.commit(a) == Panic)
  }

  /** Attempt `a` fails with `f`: at begin, in the body, whose panic is an error too, or at Commit. */
  predicate FailsWith(s: Script, a: nat, f: Failure) {
    || (!s.cancelledAtTop(a) && s.begin(a) == Failed(f))
    || (Begins(s, a) && s.body(a) == Failed(f))
    || (Begins(s, a) && s.body(a) == Panic && f == Panicked)
    || (Commits(s, a) && s.commit(a) == Failed(f))
  }

  /** Attempt `a` fails with a retryable database error and its wait is not cut short. */
  ghost predicate Retried(s: Script, a: nat) {
    (exists code :: FailsWith(s, a, DbError(code, true))) && !s.cancelledInWait(a)
  }

  /** The events of an attempt, case by case. */
  lemma AttemptEvents(s: Script, a: nat)
    ensures
      var e := TryEvents(s, a);
      && (s.cancelledAtTop(a) ==> e == [SawCancelled])
      && (!s.cancelledAtTop(a) && s.begin(a).Failed? ==> e == [BeginFailed(s.begin(a).f)])
      && (!s.cancelledAtTop(a) && s.begin(a) == Panic ==> e == [BeginPanicked])
      && (Begins(s, a) && s.body(a).Failed? ==> e == [Begin, BodyFailed(s.body(a).f), Rollback])
      && (Begins(s, a) && s.body(a) == Panic ==> e == [Begin, BodyFailed(Panicked), Rollback])
      && (Begins(s, a) && s.body(a) == Done && s.cancelledBeforeCommit(a) ==>
            e == [Begin, BodyDone, SawCancelled, Rollback])
      && (Commits(s, a) && s.commit(a).Failed? ==> e == [Begin, BodyDone, CommitFailed(s.commit(a).f), Rollback])
      && (Commits(s, a) && s.commit(a) == Panic ==> e == [Begin, BodyDone, CommitPanicked])
      && (Succeeds(s, a) ==> e == [Begin, BodyDone, Commit])
  {
  }

  lemma AttemptVerdict(s: Script, a: nat)
    ensures forall f :: FailsWith(s, a, f) <==> TryVerdict(s, a) == Fails(f)
    ensures Succeeds(s, a) <==> TryVerdict(s, a) == Final(Returned(None))
    ensures SeesCancellation(s, a) <==> TryVerdict(s, a) == Final(Returned(Some(Cancelled)))
    ensures PanicsThrough(s, a) <==> TryVerdict(s, a) == Final(Panicking)
    ensures TryVerdict(s, a).Final? && TryVerdict(s, a).ending.Returned? && TryVerdict(s, a).ending.err.Some? ==>
      SeesCancellation(s, a)
  {
  }

  /** The run reaches attempt `k`: every attempt before it was retried. */
  ghost predicate Reaches(s: Script, most: nat, k: nat) {
    1 <= k <= most && forall a :: 1 <= a < k ==> Retried(s, a)
  }

  /** The run stops after attempt `k`. */
  ghost predicate StopsAt(s: Script, most: nat, k: nat) {
    Reaches(s, most, k) && (k == most || !Retried(s, k))
  }

  /** All events before attempt `k`, when every attempt so far was retried. */
  function Before(s: Script, k: nat): seq<Event> {
    if k <= 1 then [] else Before(s, k - 1) + TryEvents(s, k - 1) + [Waited(Wrap(Delay(k - 2)))]
  }

  /** The run is cut short while it waits after attempt `k`. */
  ghost predicate CutShort(s: Script, most: nat, k: nat) {
    k < most && (exists code :: FailsWith(s, k, DbError(code, true))) && s.cancelledInWait(k)
  }

  lemma RunUnfold(s: Script, most: nat, attempt: nat)
    requires 1 <= attempt <= most
    ensures
      var events, ending := RunEvents(s, most, attempt), RunEnding(s, most, attempt);
      var tried, verdict := TryEvents(s, attempt), TryVerdict(s, attempt);
      if IsLast(verdict, most, attempt) then events == tried && ending == EndingOf(verdict)
      else if s.cancelledInWait(attempt) then events == tried + [SawCancelled] && ending == Returned(Some(Cancelled))
      else
        && attempt < most
        && events == tried + [Waited(Wrap(Delay(attempt - 1)))] + RunEvents(s, most, attempt + 1)
        && ending == RunEnding(s, most, attempt + 1)
  {
    RunStep(s, most, attempt, []);
    if !IsLast(TryVerdict(s, attempt), most, attempt) { NotLast(TryVerdict(s, attempt), most, attempt); }
    hide *;
    assert [] + RunEvents(s, most, attempt) == RunEvents(s, most, attempt);
    assert [] + TryEvents(s, attempt) == TryEvents(s, attempt);
  }

  lemma RetriedIff(s: Script, most: nat, k: nat)
    requires 1 <= k <= most
    ensures k < most && Retried(s, k) <==> !IsLast(TryVerdict(s, k), most, k) && !s.cancelledInWait(k)
    ensures CutShort(s, most, k) <==> !IsLast(TryVerdict(s, k), most, k) && s.cancelledInWait(k)
  {
    AttemptVerdict(s, k);
    hide TryVerdict, FailsWith;
    var v := TryVerdict(s, k);
    if v.Fails? && v.failure.DbError? && v.failure.retryable {
      assert FailsWith(s, k, DbError(v.failure.code, true));
    }
  }

  lemma StopFacts(s: Script, most: nat, k: nat, l: nat)
    requires 1 <= k <= l && StopsAt(s, most, l)
    ensures l <= most && (k < l ==> Retried(s, k)) && (k == l ==> k == most || !Retried(s, k))
  {
    hide Retried;
  }

  /** From attempt `k` on, for the attempt `l` at which the run stops. */
  lemma {:induction false} RunStopsAt(s: Script, most: nat, k: nat, l: nat)
    requires 1 <= k <= l && StopsAt(s, most, l)
    ensures Before(s, k) + RunEvents(s, most, k) ==
      Before(s, l) + TryEvents(s, l) + if CutShort(s, most, l) then [SawCancelled] else []
    ensures RunEnding(s, most, k) ==
      if CutShort(s, most, l) then Returned(Some(Cancelled)) else EndingOf(TryVerdict(s, l))
    decreases l - k
  {
    hide *;
    StopFacts(s, most, k, l);
    RunUnfold(s, most, k);
    RetriedIff(s, most, k);
    if k < l {
      RunStopsAt(s, most, k + 1, l);
      BeforeNext(s, k);
      var wait, later := [Waited(Wrap(Delay(k - 1)))], RunEvents(s, most, k + 1);
      assert Before(s, k) + (TryEvents(s, k) + wait + later) == (Before(s, k) + TryEvents(s, k) + wait) + later;
    }
  }

  lemma BeforeNext(s: Script, k: nat)
    requires k >= 1
    ensures Before(s, k + 1) == Before(s, k) + TryEvents(s, k) + [Waited(Wrap(Delay(k - 1)))]
  {
    hide TryEvents, Wrap, Delay;
  }

  lemma {:induction false} SomeStop(s: Script, most: nat, k: nat) returns (l: nat)
    requires Reaches(s, most, k)
    ensures k <= l && StopsAt(s, most, l)
    decreases most - k
  {
    if k == most || !Retried(s, k) {
      l := k;
    } else {
      l := SomeStop(s, most, k + 1);
    }
  }

  /**
   * The whole run, told by the script: it makes the attempts up to the first that is not retried,
   * one after the other with the backoff waits between them, and ends as that attempt does, with
   * nil exactly when it succeeded, and with the cancellation when the wait after it was cut short.
   */
  lemma RunFollowsScript(s: Script, maxRetries: int) returns (l: nat)
    ensures var most := if maxRetries <= 0 then 1 else maxRetries;
      var ending, trace := RunEnding(s, Most(maxRetries), 1), RunEvents(s, Most(maxRetries), 1);
      && StopsAt(s, most, l)
      && trace == Before(s, l) + TryEvents(s, l) + (if CutShort(s, most, l) then [SawCancelled] else [])
      && (ending == Returned(None) <==> Succeeds(s, l))
      && (ending == Panicking <==> PanicsThrough(s, l))
      && (ending == Returned(Some(Cancelled)) <==>
            SeesCancellation(s, l) || CutShort(s, most, l) || FailsWith(s, l, Cancelled))
      && (forall f :: f != Cancelled ==>
            (ending == Returned(Some(f)) <==> FailsWith(s, l, f) && !CutShort(s, most, l)))
  {
    var most := Most(maxRetries);
    l := SomeStop(s, most, 1);
    RunStopsAt(s, most, 1, l);
    AttemptVerdict(s, l);
    CutShortFails(s, most, l);
    assert Before(s, 1) == [];
    assert [] + RunEvents(s, most, 1) == RunEvents(s, most, 1);
    hide TryVerdict, TryEvents, FailsWith, Succeeds, SeesCancellation, PanicsThrough, StopsAt, CutShort, Before,
      RunEvents, RunEnding;
  }

  lemma CutShortFails(s: Script, most: nat, l: nat)
    ensures CutShort(s, most, l) ==> TryVerdict(s, l).Fails? && TryVerdict(s, l).failure.DbError?
  {
    AttemptVerdict(s, l);
    hide TryVerdict, FailsWith;
  }

  /** Only as the last word of a run. */
  predicate EndsRun(e: Event) { e == Commit || e == BeginPanicked || e == CommitPanicked || e == SawCancelled }

  predicate NoneEnds(trace: seq<Event>) { forall e :: e in trace ==> !EndsRun(e) }

  lemma NoneEndsConcat(x: seq<Event>, y: seq<Event>, z: seq<Event>)
    requires NoneEnds(x) && NoneEnds(y) && NoneEnds(z)
    ensures NoneEnds(x + y + z)
  {
    hide EndsRun;
  }

  lemma ReachesPrevious(s: Script, most: nat, k: nat)
    requires Reaches(s, most, k)
    ensures k == 1 ==> Before(s, k) == []
    ensures k > 1 ==> Reaches(s, most, k - 1) && Retried(s, k - 1)
  {
    hide Retried;
  }

  /** No attempt before the one a run has reached ended it. */
  lemma {:induction false} BeforeIsRetried(s: Script, most: nat, k: nat)
    requires Reaches(s, most, k)
    ensures NoneEnds(Before(s, k))
    decreases k
  {
    var wait := [Waited(Wrap(Delay(if k > 1 then k - 2 else 0)))];
    assert NoneEnds([]) && NoneEnds(wait);
    ReachesPrevious(s, most, k);
    assert k >= 1;
    hide *;
    if k > 1 {
      BeforeIsRetried(s, most, k - 1);
      RetriedEvents(s, k - 1);
      BeforeNext(s, k - 1);
      NoneEndsConcat(Before(s, k - 1), TryEvents(s, k - 1), wait);
    }
  }

  lemma RetriedEvents(s: Script, a: nat)
    requires Retried(s, a)
    ensures NoneEnds(TryEvents(s, a))
  {
    var code :| FailsWith(s, a, DbError(code, true));
    AttemptEvents(s, a);
    hide TryEvents;
  }

  /** A commit is made by the attempt the run stops at, and only when its body had succeeded. */
  lemma CommitsAreEarned(s: Script, maxRetries: int) returns (l: nat)
    ensures StopsAt(s, Most(maxRetries), l)
    ensures Commit in RunEvents(s, Most(maxRetries), 1) <==> Succeeds(s, l)
    ensures Commit in RunEvents(s, Most(maxRetries), 1) ==> s.body(l) == Done
  {
    l := RunFollowsScript(s, maxRetries);
    BeforeIsRetried(s, Most(maxRetries), l);
    AttemptEvents(s, l);
    CutShortFails(s, Most(maxRetries), l);
    AttemptVerdict(s, l);
    OnlySuccessCommits(s, l);
    hide TryEvents, TryVerdict, RunEvents, Before, StopsAt, FailsWith, CutShort;
  }

  lemma OnlySuccessCommits(s: Script, a: nat)
    ensures Commit in TryEvents(s, a) <==> Succeeds(s, a)
    ensures BodyDone in TryEvents(s, a) <==> Begins(s, a) && s.body(a) == Done
  {
  }

  // ─── When a transaction is left open ────────────────────────────────────────

  ghost predicate LeavesOpen(s: Script, maxRetries: int) {
    PhaseOf(RunEvents(s, Most(maxRetries), 1)) == Leaked
  }

  lemma OnlyCommitPanics(s: Script, attempt: nat)
    requires s.commit(attempt) != Panic
    ensures CommitPanicked !in TryEvents(s, attempt)
  {
  }

  lemma {:induction false} LeakedByCommit(s: Script, most: nat, attempt: nat) returns (a: nat)
    requires 1 <= attempt <= most && CommitPanicked in RunEvents(s, most, attempt)
    ensures attempt <= a <= most && s.commit(a) == Panic
    decreases most - attempt
  {
    hide *;
    if s.commit(attempt) == Panic {
      a := attempt;
    } else {
      OnlyCommitPanics(s, attempt);
      RunUnfold(s, most, attempt);
      a := LeakedByCommit(s, most, attempt + 1);
    }
  }

  /** Every body before attempt `a` fails with a deadlock; nothing else goes wrong before a Commit. */
  function DeadlocksBefore(a: nat, commit: nat -> Reply): Script {
    Script(_ => Done, k => if k < a then Failed(DbError(1213, true)) else Done, commit,
           _ => false, _ => false, _ => false)
  }

  lemma DeadlockedTry(a: nat, commit: nat -> Reply, most: nat, attempt: nat)
    requires 1 <= attempt <= a <= most && commit(a) == Panic
    ensures var s := DeadlocksBefore(a, commit);
      && !s.cancelledInWait(attempt)
      && (IsLast(TryVerdict(s, attempt), most, attempt) <==> attempt == a)
      && (attempt == a ==> TryEvents(s, attempt) == [Begin, BodyDone, CommitPanicked])
  {
  }

  lemma {:induction false} ReachesCommit(a: nat, commit: nat -> Reply, most: nat, attempt: nat)
    requires 1 <= attempt <= a <= most && commit(a) == Panic
    ensures var trace := RunEvents(DeadlocksBefore(a, commit), most, attempt);
      trace != [] && trace[|trace| - 1] == CommitPanicked
    decreases most - attempt
  {
    hide *;
    DeadlockedTry(a, commit, most, attempt);
    RunUnfold(DeadlocksBefore(a, commit), most, attempt);
    if attempt < a {
      ReachesCommit(a, commit, most, attempt + 1);
    }
  }

  /** With a given Commit some run leaves a transaction open iff that Commit panics at an allowed attempt. */
  lemma LeavesOpenIff(commit: nat -> Reply, maxRetries: int)
    ensures (exists s: Script :: s.commit == commit && LeavesOpen(s, maxRetries)) <==>
      exists a :: 1 <= a <= Most(maxRetries) && commit(a) == Panic
  {
    var most := Most(maxRetries);
    forall s: Script | s.commit == commit && LeavesOpen(s, maxRetries)
      ensures exists a :: 1 <= a <= most && commit(a) == Panic
    {
      OpenedAreClosed(RunEvents(s, most, 1));
      var a := LeakedByCommit(s, most, 1);
    }
    if a :| 1 <= a <= most && commit(a) == Panic {
      ReachesCommit(a, commit, most, 1);
      var s := DeadlocksBefore(a, commit);
      EveryRunIsGood(s, maxRetries);
      OpenedAreClosed(RunEvents(s, most, 1));
      assert s.commit == commit && LeavesOpen(s, maxRetries);
    }
  }

  /** A Commit that panics at the first attempt leaves its transaction open. */
  lemma PanickingCommitLeaks()
    ensures var s := DeadlocksBefore(0, _ => Panic);
      RunEnding(s, 1, 1) == Panicking && RunEvents(s, 1, 1) == [Begin, BodyDone, CommitPanicked] && LeavesOpen(s, 1)
  {
    var s := DeadlocksBefore(0, _ => Panic);
    assert RunEvents(s, 1, 1) == [Begin, BodyDone, CommitPanicked];
    PanickedPhase();
  }

  lemma PanickedPhase()
    ensures PhaseOf([Begin, BodyDone, CommitPanicked]) == Leaked
  {
    assert PhaseOf([]) == Closed;
    hide PhaseOf, Attempts, Waits, LastFailure;
    Snoc([], Begin);
    Snoc([Begin], BodyDone);
    Snoc([Begin, BodyDone], CommitPanicked);
    assert [] + [Begin] == [Begin] && [Begin] + [BodyDone] == [Begin, BodyDone];
    assert [Begin, BodyDone] + [CommitPanicked] == [Begin, BodyDone, CommitPanicked];
  }
}
