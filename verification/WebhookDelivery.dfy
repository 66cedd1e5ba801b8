/**
  The retry loop shared by callHookWithHmac and callHookFileWithHmac in
  cmd/api/helpers.go, with the 64-bit arithmetic of its backoff.
 */
module WebhookDelivery {

  datatype Outcome = NetworkError | Status(code: int)

  predicate Success(o: Outcome) {
    o.Status? && 200 <= o.code < 300
  }

  // ---------------------------------------------------------------------
  // Delays in int64 nanoseconds
  // ---------------------------------------------------------------------

  const TWO_63: int := 0x8000_0000_0000_0000
  const SECOND: int := 1_000_000_000

  /** Two's complement wrap-around to a signed 64-bit integer. */
  function Wrap64(n: int): (r: int)
    ensures -TWO_63 <= r < TWO_63
    ensures -TWO_63 <= n < TWO_63 ==> r == n
  {
    (n + TWO_63) % (2 * TWO_63) - TWO_63
  }

  function Pow2(k: nat): nat
    decreases k
  {
    if k == 0 then 1 else 2 * Pow2(k - 1)
  }

  /** 1 << uint(k) on a 64-bit int. */
  function ShiftOne(k: nat): int {
    if k >= 64 then 0 else Wrap64(Pow2(k))
  }

  /** time.Duration(d) * time.Second * time.Duration(1 << uint(attempt-1)). */
  function Delay(d: int, attempt: nat): int
    requires attempt >= 1
  {
    Wrap64(Wrap64(d * SECOND) * ShiftOne(attempt - 1))
  }

  /** The delay meant: d seconds, doubled with every further attempt. */
  function Intended(d: nat, attempt: nat): nat
    requires attempt >= 1
  {
    d * SECOND * Pow2(attempt - 1)
  }

  lemma {:induction false} Pow2Grows(j: nat, k: nat)
    requires j <= k
    ensures 1 <= Pow2(j) <= Pow2(k)
    decreases k
  {
    if j < k {
      Pow2Grows(j, k - 1);
    } else if k > 0 {
      Pow2Grows(k - 1, k - 1);
    }
  }

  lemma Pow2Of63()
    ensures Pow2(63) == TWO_63
  {
    assert Pow2(8) == 256;
    assert Pow2(16) == 256 * Pow2(8);
    assert Pow2(24) == 256 * Pow2(16);
    assert Pow2(32) == 256 * Pow2(24);
    assert Pow2(40) == 256 * Pow2(32);
    assert Pow2(48) == 256 * Pow2(40);
    assert Pow2(56) == 256 * Pow2(48);
    assert Pow2(63) == 128 * Pow2(56);
  }

  lemma MulMonotone(a: nat, x: nat, y: nat)
    requires x <= y
    ensures a * x <= a * y
  {
  }

  /** A delay is what was meant exactly as long as that fits in 63 bits. */
  lemma DelayExactIffItFits(d: nat, attempt: nat)
    requires attempt >= 1
    ensures Intended(d, attempt) == d * 1_000_000_000 * Pow2(attempt - 1)
    ensures Delay(d, attempt) == Intended(d, attempt) <==> Intended(d, attempt) < 0x8000_0000_0000_0000
  {
    var k := attempt - 1;
    var ns := d * SECOND;
    Pow2Grows(0, k);
    if ns * Pow2(k) < TWO_63 {
      MulMonotone(ns, 1, Pow2(k));
      assert Wrap64(ns) == ns;
      if d > 0 {
        MulMonotone(Pow2(k), 1, ns);
        assert Pow2(k) * 1 <= Pow2(k) * ns;
        assert Pow2(k) < TWO_63;
        if k >= 63 {
          Pow2Of63();
          Pow2Grows(63, k);
        }
        assert ShiftOne(k) == Pow2(k);
      }
    }
  }

  lemma Distribute(a: nat, p: nat)
    ensures a * (p - 1) + a * p == a * (2 * p - 1)
  {
  }

  /** With n >= 2 attempts allowed no delay overflows as long as the longest one fits. */
  lemma NoOverflowWithin(d: nat, n: nat, k: nat)
    requires n >= 2 && d * 1_000_000_000 * Pow2(n - 2) < 0x8000_0000_0000_0000 && 1 <= k < n
    ensures Delay(d, k) == d * 1_000_000_000 * Pow2(k - 1)
  {
    Pow2Grows(k - 1, n - 2);
    MulMonotone(d * SECOND, Pow2(k - 1), Pow2(n - 2));
    DelayExactIffItFits(d, k);
  }

  /** The time a list of sleeps takes together. */
  function Sum(sleeps: seq<int>): int {
    if sleeps == [] then 0 else Sum(sleeps[..|sleeps| - 1]) + sleeps[|sleeps| - 1]
  }

  /**
    The delays before attempt k, counting from 0, add up to d * (2^k - 1)
    seconds, as long as the last one fits in 63 bits.
   */
  lemma {:induction false} SleepsTotal(d: nat, k: nat, sleeps: seq<int>)
    requires |sleeps| == k && forall j :: 0 <= j < k ==> sleeps[j] == Delay(d, j + 1)
    requires k >= 1 ==> d * 1_000_000_000 * Pow2(k - 1) < 0x8000_0000_0000_0000
    ensures Sum(sleeps) == d * 1_000_000_000 * (Pow2(k) - 1)
    decreases k
  {
    if k > 0 {
      DelayExactIffItFits(d, k);
      if k > 1 {
        Pow2Grows(k - 2, k - 1);
        MulMonotone(d * SECOND, Pow2(k - 2), Pow2(k - 1));
      }
      SleepsTotal(d, k - 1, sleeps[..k - 1]);
      Distribute(d * SECOND, Pow2(k - 1));
    }
  }

  // ---------------------------------------------------------------------
  // The loop
  // ---------------------------------------------------------------------

  /** Number of failures before the first success, at most n. */
  function FirstSuccess(outcomes: nat -> Outcome, n: nat): (k: nat)
    ensures k <= n
    ensures forall i :: 0 <= i < k ==> !Success(outcomes(i))
    ensures k < n ==> Success(outcomes(k))
  {
    if n == 0 then 0
    else
      var k := FirstSuccess(outcomes, n - 1);
      if k < n - 1 || Success(outcomes(n - 1)) then k else n
  }

  /** The answer arrived and its status is one of 200 to 299. */
  predicate GotTwoHundreds(o: Outcome) {
    o.Status? && o.code / 100 == 2
  }

  /** How many attempts the settings allow; a count of zero or less allows none. */
  function Allowed(retryEnabled: bool, retryCount: int): nat {
    if !retryEnabled then 1 else if retryCount <= 0 then 0 else retryCount
  }

  /**
    The delivery loop; outcome k is what attempt k would get. It posts until the
    first 2xx answer or the last allowed attempt, sleeping Delay(d, k) before
    attempt k, and fails exactly when it posted at least once and never got a 2xx
    answer. With a retry count of zero or less it posts nothing and reports no
    failure.
   */
  method Deliver(retryEnabled: bool, retryCount: int, d: int, outcomes: nat -> Outcome)
    returns (posts: nat, sleeps: seq<int>, failed: bool)
    ensures var n := Allowed(retryEnabled, retryCount);
            var k := FirstSuccess(outcomes, n);
            && posts == (if k < n then k + 1 else n)
            && (failed <==> n > 0 && k == n)
    ensures posts <= if !retryEnabled then 1 else if retryCount < 0 then 0 else retryCount
    ensures posts == 0 ==> retryEnabled && retryCount <= 0 && !failed
    ensures forall i :: 0 <= i < posts - 1 ==> !GotTwoHundreds(outcomes(i))
    ensures posts > 0 ==> (failed <==> !GotTwoHundreds(outcomes(posts - 1)))
    ensures failed ==> posts == if retryEnabled then retryCount else 1
    ensures |sleeps| == if posts == 0 then 0 else posts - 1
    ensures forall k :: 0 <= k < |sleeps| ==> sleeps[k] == Delay(d, k + 1)
  {
    var maxRetries := 1;
    if retryEnabled {
      maxRetries := retryCount;
    }
    posts, sleeps, failed := 0, [], false;
    ghost var n := Allowed(retryEnabled, retryCount);
    var attempt := 0;
    while attempt < maxRetries
      invariant posts == attempt <= n
      invariant |sleeps| == if posts == 0 then 0 else posts - 1
      invariant forall k :: 0 <= k < |sleeps| ==> sleeps[k] == Delay(d, k + 1)
      invariant forall i :: 0 <= i < attempt ==> !Success(outcomes(i))
      invariant failed <==> attempt > 0
      decreases n - attempt
    {
      if attempt > 0 {
        sleeps := sleeps + [Delay(d, attempt)];
      }
      posts := posts + 1;
      var o := outcomes(attempt);
      failed := o.NetworkError?;
      if o.NetworkError? {
        attempt := attempt + 1;
        continue;
      }
      if o.code < 200 || o.code >= 300 {
        failed := true;
        if !retryEnabled {
          break;
        }
        attempt := attempt + 1;
        continue;
      }
      return;
    }
  }
}
