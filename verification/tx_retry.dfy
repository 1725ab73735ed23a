// The retry policy of withTxRetry (internal/api/sync.go:27-67), separated
// from the store: which attempt runs, when the loop gives up and what error
// it returns. The storage layer's behaviour is a script giving, for each
// attempt in turn, whether BEGIN, the body or COMMIT fails, and with what.
module Retry {
  import opened Model

  /** A failure reported by the database driver: a MySQL server error with its
      error number, or any error of another type. */
  datatype TxError = MySQLError(number: int) | OtherError

  /** What happens to one attempt. */
  datatype AttemptOutcome =
    | BeginFails(err: TxError)
    | BodyFails(err: TxError)
    | CommitFails(err: TxError)
    | Commits

  /** 1213 is a deadlock, 1205 a lock wait timeout. */
  predicate IsMySQLRetryableTxError(err: TxError): (r: bool)
    ensures r <==> err in {MySQLError(1213), MySQLError(1205)}
  {
    err.MySQLError? && (err.number == 1213 || err.number == 1205)
  }

  function MaxAttempts(isMySQL: bool): nat
  {
    if isMySQL then 3 else 1
  }

  /** The outcome of the attempt with 0-based index `i`; attempts the script
      does not mention succeed. */
  function OutcomeAt(script: seq<AttemptOutcome>, i: nat): AttemptOutcome
  {
    if i < |script| then script[i] else Commits
  }

  /** A failed attempt after which the loop tries again (when attempts remain). */
  predicate Retryable(isMySQL: bool, o: AttemptOutcome)
  {
    isMySQL && (o.BodyFails? || o.CommitFails?) && IsMySQLRetryableTxError(o.err)
  }

  /** What an attempt makes withTxRetry return if it is the last one. */
  function ResultOf(o: AttemptOutcome): Option<TxError>
  {
    if o.Commits? then None else Some(o.err)
  }

  /** How many attempts were begun and what withTxRetry returned (None is nil). */
  datatype TxRun = TxRun(attempts: nat, result: Option<TxError>)

  /** The loop of withTxRetry from attempt number `attempt` (1-based) on. */
  function RetryFrom(isMySQL: bool, script: seq<AttemptOutcome>, attempt: nat): (r: TxRun)
    requires 1 <= attempt <= MaxAttempts(isMySQL)
    ensures attempt <= r.attempts <= MaxAttempts(isMySQL)
    ensures r.result.None? <==> OutcomeAt(script, r.attempts - 1).Commits?
    decreases MaxAttempts(isMySQL) - attempt
  {
    var o := OutcomeAt(script, attempt - 1);
    if o.BeginFails? then TxRun(attempt, Some(o.err))
    else if o.Commits? then TxRun(attempt, None)
    else if !isMySQL || !IsMySQLRetryableTxError(o.err) || attempt == MaxAttempts(isMySQL)
    then TxRun(attempt, Some(o.err))
    else RetryFrom(isMySQL, script, attempt + 1)
  }

  /** withTxRetry: at least one attempt, at most maxAttempts, and nil exactly
      when the attempt it stopped at committed. */
  function TxRetry(isMySQL: bool, script: seq<AttemptOutcome>): (r: TxRun)
    ensures 1 <= r.attempts <= MaxAttempts(isMySQL)
    ensures !isMySQL ==> r.attempts == 1
    ensures r.result.None? <==> OutcomeAt(script, r.attempts - 1).Commits?
  {
    RetryFrom(isMySQL, script, 1)
  }

  /** The run goes on exactly while attempts fail retryably and attempts
      remain; it returns the outcome of the attempt it stopped at. */
  lemma {:induction false} RetryFromCharacterized(isMySQL: bool, script: seq<AttemptOutcome>, attempt: nat)
    requires 1 <= attempt <= MaxAttempts(isMySQL)
    ensures var r := RetryFrom(isMySQL, script, attempt);
      && (forall i :: attempt - 1 <= i < r.attempts - 1 ==> Retryable(isMySQL, OutcomeAt(script, i)))
      && (r.attempts < MaxAttempts(isMySQL) ==> !Retryable(isMySQL, OutcomeAt(script, r.attempts - 1)))
      && r.result == ResultOf(OutcomeAt(script, r.attempts - 1))
    decreases MaxAttempts(isMySQL) - attempt
  {
    var o := OutcomeAt(script, attempt - 1);
    if !o.BeginFails? && !o.Commits? && isMySQL && IsMySQLRetryableTxError(o.err) && attempt < MaxAttempts(isMySQL) {
      RetryFromCharacterized(isMySQL, script, attempt + 1);
    }
  }

  /** The whole run, from the first attempt. */
  lemma TxRetryCharacterized(isMySQL: bool, script: seq<AttemptOutcome>)
    ensures var r := TxRetry(isMySQL, script);
      && 1 <= r.attempts <= MaxAttempts(isMySQL)
      && (forall i :: 0 <= i < r.attempts - 1 ==> Retryable(isMySQL, OutcomeAt(script, i)))
      && (r.attempts < MaxAttempts(isMySQL) ==> !Retryable(isMySQL, OutcomeAt(script, r.attempts - 1)))
      && r.result == ResultOf(OutcomeAt(script, r.attempts - 1))
  {
    RetryFromCharacterized(isMySQL, script, 1);
  }

  /** Off MySQL there is exactly one attempt, whatever the error. */
  lemma NoRetryOffMySQL(script: seq<AttemptOutcome>)
    ensures TxRetry(false, script) == TxRun(1, ResultOf(OutcomeAt(script, 0)))
  {
    TxRetryCharacterized(false, script);
  }

  /** withTxRetry succeeds iff some attempt within the bound commits and every
      attempt before it failed with a retryable MySQL error. */
  lemma {:induction false} SucceedsIffCommitAfterRetryables(isMySQL: bool, script: seq<AttemptOutcome>)
    ensures TxRetry(isMySQL, script).result.None? <==>
      exists k :: 0 <= k < MaxAttempts(isMySQL) && OutcomeAt(script, k).Commits?
        && forall j :: 0 <= j < k ==> Retryable(isMySQL, OutcomeAt(script, j))
  {
    TxRetryCharacterized(isMySQL, script);
    var r := TxRetry(isMySQL, script);
    if r.result.None? {
      assert OutcomeAt(script, r.attempts - 1).Commits?;
    } else {
      forall k | 0 <= k < MaxAttempts(isMySQL) && OutcomeAt(script, k).Commits?
        ensures exists j :: 0 <= j < k && !Retryable(isMySQL, OutcomeAt(script, j))
      {
        // the run stopped, without committing, at an attempt before k
        assert r.attempts - 1 < k;
        assert !Retryable(isMySQL, OutcomeAt(script, r.attempts - 1));
      }
    }
  }

  /** Only MySQL deadlocks and lock wait timeouts lead to another attempt: a
      second attempt is begun only when the first failed in its body or
      commit with error 1213 or 1205 on MySQL. */
  lemma RetriesOnlyOnDeadlockOrLockWait(isMySQL: bool, script: seq<AttemptOutcome>)
    requires TxRetry(isMySQL, script).attempts > 1
    ensures isMySQL
    ensures OutcomeAt(script, 0).BodyFails? || OutcomeAt(script, 0).CommitFails?
    ensures OutcomeAt(script, 0).err in {MySQLError(1213), MySQLError(1205)}
  {
    TxRetryCharacterized(isMySQL, script);
    assert Retryable(isMySQL, OutcomeAt(script, 0));
  }
}
