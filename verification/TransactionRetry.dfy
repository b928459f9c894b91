/** Transactions retried on serialization aborts (src/external/db.py). */
module TransactionRetry {

  /** What becomes of one attempt; a failure may be reported although the transaction landed. */
  datatype Attempt = Commits | Aborts(retryable: bool) | Fails(landed: bool)

  datatype Verdict = Committed | SerializationError | OtherError

  function Pow2(n: nat): (r: nat)
    ensures r >= 1
  {
    if n == 0 then 1 else 2 * Pow2(n - 1)
  }

  /** The number of attempts made: up to the first that is not a retryable abort, at most one more than the retries. */
  function AttemptsMade(attempts: nat -> Attempt, maxRetries: nat): (n: nat)
    ensures 1 <= n <= maxRetries + 1
    ensures forall k :: 0 <= k < n - 1 ==> attempts(k) == Aborts(true)
    ensures attempts(n - 1) == Aborts(true) ==> n == maxRetries + 1
  {
    FirstFinal(attempts, maxRetries, 0) + 1
  }

  function FirstFinal(attempts: nat -> Attempt, maxRetries: nat, from: nat): (k: nat)
    requires from <= maxRetries
    ensures from <= k <= maxRetries
    ensures forall i :: from <= i < k ==> attempts(i) == Aborts(true)
    ensures attempts(k) == Aborts(true) ==> k == maxRetries
    decreases maxRetries - from
  {
    if attempts(from) == Aborts(true) && from < maxRetries then FirstFinal(attempts, maxRetries, from + 1) else from
  }

  /** The wait after abort number `n`, counting from zero. */
  function Delay(base: real, n: nat): real {
    base * Pow2(n) as real
  }

  /** The waits after the first `n` aborts: base, twice base, four times base, and so on. */
  function Waited(base: real, n: nat): real {
    if n == 0 then 0.0 else Waited(base, n - 1) + Delay(base, n - 1)
  }

  function Limit(base: real, n: nat): real {
    base * (Pow2(n) - 1) as real
  }

  lemma {:induction false} WaitedClosed(base: real, n: nat)
    ensures Waited(base, n) == Limit(base, n)
  {
    if n > 0 {
      WaitedClosed(base, n - 1);
      var a, b := (Pow2(n - 1) - 1) as real, Pow2(n - 1) as real;
      assert (Pow2(n) - 1) as real == a + b;
      assert base * (a + b) == base * a + base * b;
    }
  }

  lemma {:induction false} WaitedMonotone(base: real, n: nat, m: nat)
    requires base >= 0.0 && n <= m
    ensures Waited(base, n) <= Waited(base, m)
  {
    if n < m {
      WaitedMonotone(base, n, m - 1);
      assert Delay(base, m - 1) >= 0.0;
    }
  }

  lemma WaitedWithinLimit(base: real, n: nat, m: nat)
    requires base >= 0.0 && n <= m
    ensures Waited(base, n) == Limit(base, n) <= Limit(base, m)
  {
    WaitedClosed(base, n);
    WaitedClosed(base, m);
    WaitedMonotone(base, n, m);
  }

  class Connection<D> {
    var db: D
    var slept: real

    constructor (db: D)
      ensures this.db == db && slept == 0.0
    {
      this.db, this.slept := db, 0.0;
    }

    /**
     * `run_with_retry`: the transaction is all or nothing, it is tried at most `maxRetries + 1`
     * times, every try but the last was a retryable abort, and the waits add up to
     * base * (2^(tries - 1) - 1).
     */
    method RunWithRetry(fn: D -> D, attempts: nat -> Attempt, maxRetries: nat, base: real) returns (verdict: Verdict, tries: nat)
      requires base >= 0.0
      modifies this
      ensures tries == AttemptsMade(attempts, maxRetries)
      ensures db == if attempts(tries - 1).Commits? || attempts(tries - 1) == Fails(true) then fn(old(db)) else old(db)
      ensures verdict.Committed? <==> attempts(tries - 1).Commits?
      ensures verdict.SerializationError? <==> attempts(tries - 1).Aborts?
      ensures slept - old(slept) == Waited(base, tries - 1) == Limit(base, tries - 1)
      ensures slept - old(slept) <= Limit(base, maxRetries)
    {
      var attempt: nat := 0;
      while true
        invariant attempt <= maxRetries
        invariant db == old(db)
        invariant FirstFinal(attempts, maxRetries, 0) == FirstFinal(attempts, maxRetries, attempt)
        invariant slept == old(slept) + Waited(base, attempt)
        decreases maxRetries - attempt
      {
        WaitedWithinLimit(base, attempt, maxRetries);
        match attempts(attempt)
        case Commits =>
          db := fn(db);
          return Committed, attempt + 1;
        case Fails(landed) =>
          if landed {
            db := fn(db);
          }
          return OtherError, attempt + 1;
        case Aborts(retryable) =>
          attempt := attempt + 1;
          if !retryable || attempt > maxRetries {
            return SerializationError, attempt;
          }
          slept := slept + Delay(base, attempt - 1);
      }
    }
  }
}
