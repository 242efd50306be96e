/**
 * The rename retry loop of the image stager. The filesystem is replaced by
 * the answer it gives in each iteration: `probe(k)` is what the k-th
 * iteration observes (the source file missing, or the result of
 * `os.rename`). Sleeping between attempts is not modelled.
 */
module RenameRetry {
  import opened Wrappers

  /** The attempt budget. */
  const MaxAttempts: nat := 10

  /** Windows' ERROR_SHARING_VIOLATION: the file is in use by another process. */
  const ErrorSharingViolation: int := 32

  /** What one iteration observes. */
  datatype Probe =
    | SourceMissing                             // `os.path.exists` is false
    | RenameSucceeded                           // `os.rename` returned
    | RenameFailed(winerror: Option<int>)       // `os.rename` raised OSError

  /** The iterations that count an attempt and go round again. */
  predicate Retryable(p: Probe) {
    p.SourceMissing? || (p.RenameFailed? && p.winerror == Some(ErrorSharingViolation))
  }

  datatype RenameOutcome =
    | Renamed     // `break` after a successful rename
    | Fatal       // `return` on any other OSError
    | Exhausted   // the `while ... else` branch

  /** The loop from iteration `attempt` on: the outcome and the final counter. */
  function Retry(probe: nat -> Probe, attempt: nat): (r: (RenameOutcome, nat))
    requires attempt <= MaxAttempts
    ensures attempt <= r.1 <= MaxAttempts
    decreases MaxAttempts - attempt
  {
    if attempt == MaxAttempts then (Exhausted, attempt)
    else match probe(attempt)
      case SourceMissing => Retry(probe, attempt + 1)
      case RenameSucceeded => (Renamed, attempt)
      case RenameFailed(code) =>
        if code == Some(ErrorSharingViolation) then Retry(probe, attempt + 1) else (Fatal, attempt)
  }

  /** What the loop's result means: it stops at the first non-retryable answer, or after ten
      retryable ones, and counts exactly the retryable answers before that. */
  lemma {:induction false} RetryResult(probe: nat -> Probe, attempt: nat)
    requires attempt <= MaxAttempts
    ensures var (outcome, n) := Retry(probe, attempt);
      && attempt <= n <= MaxAttempts
      && (forall k :: attempt <= k < n ==> Retryable(probe(k)))
      && (outcome == Exhausted <==> n == MaxAttempts)
      && (outcome == Renamed <==> n < MaxAttempts && probe(n).RenameSucceeded?)
      && (outcome == Fatal <==> n < MaxAttempts && probe(n).RenameFailed? && !Retryable(probe(n)))
    decreases MaxAttempts - attempt
  {
    if attempt < MaxAttempts && Retryable(probe(attempt)) {
      RetryResult(probe, attempt + 1);
    }
  }

  /** A retryable answer raises the counter by exactly one and goes on with the next iteration. */
  lemma RetryableAnswerCountsOnce(probe: nat -> Probe, attempt: nat)
    requires attempt < MaxAttempts && Retryable(probe(attempt))
    ensures Retry(probe, attempt) == Retry(probe, attempt + 1)
  {
  }

  /** The loop consults no answer after the one it stops at: a fatal error or a success ends
      the attempts at once, so two filesystems that agree up to there give the same result. */
  lemma {:induction false} RetryStopsAtOnce(p1: nat -> Probe, p2: nat -> Probe, attempt: nat)
    requires attempt <= MaxAttempts
    requires forall k :: attempt <= k <= Retry(p1, attempt).1 && k < MaxAttempts ==> p1(k) == p2(k)
    ensures Retry(p2, attempt) == Retry(p1, attempt)
    decreases MaxAttempts - attempt
  {
    RetryResult(p1, attempt);
    if attempt < MaxAttempts {
      assert p1(attempt) == p2(attempt);
      if Retryable(p1(attempt)) {
        RetryStopsAtOnce(p1, p2, attempt + 1);
      }
    }
  }

  /** Lines 50-73: the retry loop, with the counter it ends with. */
  method RenameWithRetry(probe: nat -> Probe) returns (outcome: RenameOutcome, attempts: nat)
    ensures (outcome, attempts) == Retry(probe, 0)
    ensures attempts <= MaxAttempts
    ensures forall k :: 0 <= k < attempts ==> Retryable(probe(k))
    ensures outcome == Exhausted <==> attempts == MaxAttempts
    ensures outcome == Renamed <==> attempts < MaxAttempts && probe(attempts).RenameSucceeded?
    ensures outcome == Fatal <==> attempts < MaxAttempts && probe(attempts).RenameFailed? && !Retryable(probe(attempts))
  {
    var attempt := 0;
    while attempt < MaxAttempts
      invariant attempt <= MaxAttempts
      invariant forall k :: 0 <= k < attempt ==> Retryable(probe(k))
      invariant Retry(probe, attempt) == Retry(probe, 0)
    {
      var answer := probe(attempt);
      if answer.SourceMissing? {
        attempt := attempt + 1;
        continue;
      }
      if answer.RenameSucceeded? {
        return Renamed, attempt;
      }
      if answer.winerror == Some(ErrorSharingViolation) {
        attempt := attempt + 1;
      } else {
        return Fatal, attempt;
      }
    }
    return Exhausted, attempt;
  }

  /** The lock released after three busy answers: the rename succeeds on the fourth try. */
  lemma LockReleasedAfterThreeAttempts(probe: nat -> Probe)
    requires forall k :: k < 3 ==> probe(k) == RenameFailed(Some(ErrorSharingViolation))
    requires probe(3) == RenameSucceeded
    ensures Retry(probe, 0) == (Renamed, 3)
  {
    assert Retryable(probe(0)) && Retryable(probe(1)) && Retryable(probe(2));
  }
}
