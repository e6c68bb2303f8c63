/**
 The reconnect delays of the Android client (AndroidWireGuard.kt: `ReconnectPolicy`), in 64-bit arithmetic.
 */
module ReconnectPolicy {

  const LONG_MAX: int := 0x7FFF_FFFF_FFFF_FFFF

  /** Two's complement wrap-around. */
  function Wrap(n: int): int {
    (n + LONG_MAX + 1) % (2 * LONG_MAX + 2) - LONG_MAX - 1
  }

  datatype Policy = Policy(maxAttempts: int, initialDelay: int, maxDelay: int)

  ghost predicate ValidPolicy(p: Policy) {
    p.maxAttempts >= 1 && 0 <= p.initialDelay <= p.maxDelay <= LONG_MAX
  }

  function Min(a: int, b: int): int {
    if a <= b then a else b
  }

  function Doublings(attempt: int): nat
    requires attempt >= 1
  {
    Min(attempt - 1, 30)
  }

  function DelayAfter(p: Policy, doublings: nat): int {
    if doublings == 0 then p.initialDelay else Min(Wrap(DelayAfter(p, doublings - 1) * 2), p.maxDelay)
  }

  function Delay(p: Policy, attempt: int): int
    requires attempt >= 1
  {
    DelayAfter(p, Doublings(attempt))
  }

  method DelayForAttempt(p: Policy, attempt: int) returns (delay: int)
    requires ValidPolicy(p) && attempt >= 1
    ensures delay == Delay(p, attempt)
  {
    delay := p.initialDelay;
    for i := 0 to Doublings(attempt)
      invariant delay == DelayAfter(p, i)
    {
      delay := Min(Wrap(delay * 2), p.maxDelay);
    }
  }

  function Power(n: nat): nat {
    if n == 0 then 1 else 2 * Power(n - 1)
  }

  /** Exponential backoff as it is meant. */
  function Backoff(p: Policy, doublings: nat): int {
    Min(p.maxDelay, p.initialDelay * Power(doublings))
  }

  lemma BackoffStep(p: Policy, n: nat)
    requires ValidPolicy(p)
    ensures 0 <= Backoff(p, n) <= p.maxDelay
    ensures Backoff(p, n + 1) == Min(p.maxDelay, 2 * Backoff(p, n))
    ensures Backoff(p, n) <= Backoff(p, n + 1)
  {
    var x := p.initialDelay * Power(n);
    assert x >= 0 && p.initialDelay * Power(n + 1) == 2 * x by {
      Nonnegative(p.initialDelay, Power(n));
      Doubled(p.initialDelay, Power(n));
    }
  }

  lemma Nonnegative(a: nat, b: nat)
    ensures a * b >= 0
  {
  }

  lemma Doubled(a: int, b: int)
    ensures a * (2 * b) == 2 * (a * b)
  {
  }

  lemma {:induction false} BackoffGrows(p: Policy, m: nat, n: nat)
    requires ValidPolicy(p) && m <= n
    ensures Backoff(p, m) <= Backoff(p, n)
  {
    if m < n {
      BackoffGrows(p, m, n - 1);
      BackoffStep(p, n - 1);
    }
  }

  lemma WrapFits(n: int)
    requires 0 <= n <= LONG_MAX
    ensures Wrap(2 * n) == if 2 * n <= LONG_MAX then 2 * n else 2 * n - 2 * LONG_MAX - 2
  {
  }

  /** All delays up to `n` doublings are as meant exactly if the last doubling does not overflow. */
  lemma {:induction false} DelaysAreBackoff(p: Policy, n: nat)
    requires ValidPolicy(p)
    ensures (forall k :: 0 <= k <= n ==> DelayAfter(p, k) == Backoff(p, k))
            <==> n == 0 || 2 * Backoff(p, n - 1) <= LONG_MAX
  {
    hide Wrap, Backoff, Power, DelayAfter;
    if n == 0 {
      DelayStart(p);
    } else {
      DelaysAreBackoff(p, n - 1);
      BackoffStep(p, n - 1);
      DelayStep(p, n);
      if n > 1 {
        BackoffStep(p, n - 2);
      }
    }
  }

  lemma DelayStart(p: Policy)
    requires ValidPolicy(p)
    ensures DelayAfter(p, 0) == Backoff(p, 0)
  {
  }

  lemma DelayStep(p: Policy, n: nat)
    requires ValidPolicy(p) && n > 0
    ensures DelayAfter(p, n - 1) == Backoff(p, n - 1) ==>
              (DelayAfter(p, n) == Backoff(p, n) <==> 2 * Backoff(p, n - 1) <= LONG_MAX)
  {
    hide Backoff, Power;
    BackoffStep(p, n - 1);
    WrapFits(Backoff(p, n - 1));
  }

  /** With a maximum below 2^62 milliseconds every delay is as meant. */
  lemma DelayIsBackoff(p: Policy, attempt: int)
    requires ValidPolicy(p) && attempt >= 1 && 2 * p.maxDelay <= LONG_MAX
    ensures Delay(p, attempt) == Backoff(p, if attempt <= 31 then attempt - 1 else 30) && 0 <= Delay(p, attempt) <= p.maxDelay
  {
    hide Backoff, DelayAfter;
    var n := Doublings(attempt);
    DelaysAreBackoff(p, n);
    BackoffStep(p, n);
    if n > 0 {
      BackoffStep(p, n - 1);
    }
  }

  /** So the delays themselves never shrink. */
  lemma DelaysGrow(p: Policy, earlier: int, later: int)
    requires ValidPolicy(p) && 2 * p.maxDelay <= LONG_MAX && 1 <= earlier <= later
    ensures Delay(p, earlier) <= Delay(p, later)
  {
    hide Backoff, Delay;
    DelayIsBackoff(p, earlier);
    DelayIsBackoff(p, later);
    BackoffGrows(p, Doublings(earlier), Doublings(later));
  }

  /** A valid policy whose second delay is wrong: with both delays at 2^62 the doubling wraps around to a negative one. */
  lemma OverflowingPolicy()
    ensures var p := Policy(6, 0x4000_0000_0000_0000, 0x4000_0000_0000_0000);
            && ValidPolicy(p) && Backoff(p, 1) == p.maxDelay && Delay(p, 2) == -0x8000_0000_0000_0000
  {
    var p := Policy(6, 0x4000_0000_0000_0000, 0x4000_0000_0000_0000);
    assert Power(1) == 2 && Doublings(2) == 1;
    assert DelayAfter(p, 0) == p.initialDelay;
    WrapPast();
    assert DelayAfter(p, 1) == Min(Wrap(p.initialDelay * 2), p.maxDelay);
  }

  lemma WrapPast()
    ensures Wrap(0x4000_0000_0000_0000 * 2) == -0x8000_0000_0000_0000
  {
  }
}
