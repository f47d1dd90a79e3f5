/** The account lockout: failures count up, and from the fifth on each sets a waiting time that
    doubles from thirty seconds to a ceiling of fifteen minutes. */
module Lockout {
  import opened Wrappers
  import opened Clock

  /** The part of an account row that the lockout reads and writes. */
  datatype Lock = Lock(failedAttempts: nat, lockedUntil: Option<int>)

  const CLEAR := Lock(0, None)

  function Pow2(n: nat): (p: nat)
    ensures p > 0
  {
    if n == 0 then 1 else 2 * Pow2(n - 1)
  }

  /** The wait in seconds that the n-th consecutive failure sets, if any. */
  function Delay(n: nat): nat {
    if n < 5 then 0 else if n >= 10 then 15 * 60 else 30 * Pow2(n - 5)
  }

  predicate Eligible(l: Lock, now: int) {
    l.lockedUntil.None? || l.lockedUntil.value <= now
  }

  function Failed(l: Lock, now: int): Lock {
    var n := l.failedAttempts + 1;
    Lock(n, if n >= 5 then Some(now + Delay(n) * SECOND) else l.lockedUntil)
  }

  function AfterFailures(l: Lock, times: seq<int>): Lock {
    if times == [] then l
    else Failed(AfterFailures(l, times[..|times| - 1]), times[|times| - 1])
  }

  /** Each failure came at an instant at which the account could log in. */
  predicate EachEligible(l: Lock, times: seq<int>) {
    times == []
    || (EachEligible(l, times[..|times| - 1])
        && Eligible(AfterFailures(l, times[..|times| - 1]), times[|times| - 1]))
  }

  datatype UserError = UserMissing | BadPasswordHash

  predicate IsArgon2idV19(h: string) {
    "$argon2id$v=19$" <= h && |h| <= 500
  }

  class AuthUser {
    var active: bool
    var failedAttempts: nat
    var lockedUntil: Option<int>
    var passwordHash: string
    var passwordChangedAt: int
    var lastAuthenticatedAt: Option<int>
    var updatedAt: int

    constructor (passwordHash: string, createdAt: int)
      ensures active && LockState() == CLEAR && this.passwordHash == passwordHash
      ensures passwordChangedAt == updatedAt == createdAt && lastAuthenticatedAt == None
    {
      active, failedAttempts, lockedUntil := true, 0, None;
      this.passwordHash := passwordHash;
      passwordChangedAt, lastAuthenticatedAt, updatedAt := createdAt, None, createdAt;
    }

    function LockState(): Lock
      reads this
    {
      Lock(failedAttempts, lockedUntil)
    }

    predicate IsLoginEligible(now: int)
      reads this
    {
      active && (lockedUntil.None? || lockedUntil.value <= now)
    }

    method RecordLoginFailure(now: int)
      modifies this`failedAttempts, this`lockedUntil, this`updatedAt
      ensures LockState() == Failed(old(LockState()), now)
      ensures updatedAt == now && failedAttempts == old(failedAttempts) + 1
      ensures failedAttempts < 5 ==> lockedUntil == old(lockedUntil)
      ensures failedAttempts >= 5 ==>
                lockedUntil == Some(now + SECOND * (if failedAttempts == 5 then 30 else if failedAttempts == 6 then 60
                                                    else if failedAttempts == 7 then 120 else if failedAttempts == 8 then 240
                                                    else if failedAttempts == 9 then 480 else 900))
      ensures forall t :: IsLoginEligible(t) <==> active && (lockedUntil.Some? ==> lockedUntil.value <= t)
      ensures lockedUntil.Some? && failedAttempts >= 5 ==>
                now + 30 * SECOND <= lockedUntil.value <= now + 900 * SECOND && !IsLoginEligible(now)
    {
      failedAttempts := failedAttempts + 1;
      if failedAttempts >= 5 {
        DelayRange(failedAttempts);
        PowValues();
        var delaySeconds := if failedAttempts >= 10 then 15 * 60 else 30 * Pow2(failedAttempts - 5);
        lockedUntil := Some(now + delaySeconds * SECOND);
      }
      updatedAt := now;
    }

    method RecordLoginSuccess(now: int, rehashed: Option<string>) returns (e: Option<UserError>)
      modifies this
      ensures active == old(active)
      ensures e.Some? <==> rehashed.Some? && !("$argon2id$v=19$" <= rehashed.value && |rehashed.value| <= 500)
      ensures e.Some? ==> e.value == BadPasswordHash && unchanged(this)
      ensures e.None? ==>
                && LockState() == CLEAR && (active ==> IsLoginEligible(now))
                && lastAuthenticatedAt == Some(now) && updatedAt == now
                && passwordHash == (if rehashed.Some? then rehashed.value else old(passwordHash))
                && passwordChangedAt == (if rehashed.Some? then now else old(passwordChangedAt))
    {
      if rehashed.Some? && !IsArgon2idV19(rehashed.value) {
        return Some(BadPasswordHash);
      }
      failedAttempts, lockedUntil := 0, None;
      lastAuthenticatedAt, updatedAt := Some(now), now;
      if rehashed.Some? {
        passwordHash, passwordChangedAt := rehashed.value, now;
      }
      e := None;
    }
  }

  // ----- whole runs

  lemma PowValues()
    ensures Pow2(0) == 1 && Pow2(1) == 2 && Pow2(2) == 4 && Pow2(3) == 8 && Pow2(4) == 16
  {
    assert Pow2(2) == 2 * Pow2(1);
    assert Pow2(3) == 2 * Pow2(2);
    assert Pow2(4) == 2 * Pow2(3);
  }

  /** No single wait is shorter than half a minute or longer than a quarter of an hour. */
  lemma DelayRange(n: nat)
    requires n >= 5
    ensures 30 <= Delay(n) <= 900
    ensures Delay(n) <= Delay(n + 1)
  {
    PowValues();
  }

  /** The seconds that must pass between the fifth failure and the n-th. */
  function Elapsed(n: nat): nat
    requires n >= 5
  {
    if n == 5 then 0 else Elapsed(n - 1) + Delay(n - 1)
  }

  lemma {:induction false} ElapsedClosedForm(n: nat)
    requires n >= 5
    ensures n <= 10 ==> Elapsed(n) == 30 * (Pow2(n - 5) - 1)
    ensures n >= 10 ==> Elapsed(n) == 930 + 900 * (n - 10)
  {
    if n > 5 {
      ElapsedClosedForm(n - 1);
      PowValues();
      assert Pow2(5) == 2 * Pow2(4);
      if n <= 10 {
        assert Pow2(n - 5) == 2 * Pow2(n - 6);
      }
    }
  }

  lemma {:induction false} CountsFailures(l: Lock, times: seq<int>)
    ensures AfterFailures(l, times).failedAttempts == l.failedAttempts + |times|
  {
    if times != [] {
      CountsFailures(l, times[..|times| - 1]);
    }
  }

  /** Failures recorded only while the account could log in are spread out at least this far. */
  lemma {:induction false} FailuresAreSpread(times: seq<int>, n: nat)
    requires 5 <= n <= |times|
    requires EachEligible(CLEAR, times)
    ensures times[n - 1] >= times[4] + Elapsed(n) * SECOND
    decreases |times|
  {
    var init := times[..|times| - 1];
    if n < |times| {
      FailuresAreSpread(init, n);
    } else if n > 5 {
      FailuresAreSpread(init, n - 1);
      CountsFailures(CLEAR, init);
      CountsFailures(CLEAR, init[..|init| - 1]);
      assert AfterFailures(CLEAR, init).lockedUntil == Some(init[n - 2] + Delay(n - 1) * SECOND);
    }
  }

  /** The n-th consecutive failure, for n of ten or more, comes at least 930 + 900 (n - 10) seconds
      after the fifth. */
  lemma BruteForceIsSlow(times: seq<int>, n: nat)
    requires 10 <= n <= |times|
    requires EachEligible(CLEAR, times)
    ensures times[n - 1] - times[4] >= (930 + 900 * (n - 10)) * SECOND
  {
    FailuresAreSpread(times, n);
    ElapsedClosedForm(n);
  }

  /** The fastest schedule: fail, and fail again at the very instant the wait is over. */
  function Fastest(n: nat): (times: seq<int>)
    ensures |times| == n
  {
    if n == 0 then [] else Fastest(n - 1) + [FastestAt(n)]
  }

  function FastestAt(n: nat): int {
    if n <= 5 then 0 else Elapsed(n) * SECOND
  }

  function FastestLock(n: nat): Lock {
    Lock(n, if n < 5 then None else Some(Elapsed(n) * SECOND + Delay(n) * SECOND))
  }

  lemma LastOfFastest(n: nat)
    requires n > 0
    ensures Fastest(n) == Fastest(n - 1) + [FastestAt(n)]
  {
  }

  lemma NextWait(n: nat)
    requires n > 0
    ensures Eligible(FastestLock(n - 1), FastestAt(n))
    ensures Failed(FastestLock(n - 1), FastestAt(n)) == FastestLock(n)
  {
    assert n > 5 ==> Elapsed(n) * SECOND == Elapsed(n - 1) * SECOND + Delay(n - 1) * SECOND;
  }

  lemma OneMoreFailure(times: seq<int>, last: int)
    ensures AfterFailures(CLEAR, times + [last]) == Failed(AfterFailures(CLEAR, times), last)
    ensures EachEligible(CLEAR, times + [last]) <==>
              EachEligible(CLEAR, times) && Eligible(AfterFailures(CLEAR, times), last)
  {
    assert (times + [last])[..|times|] == times;
  }

  lemma {:induction false} FastestIsEligible(n: nat)
    ensures EachEligible(CLEAR, Fastest(n))
    ensures AfterFailures(CLEAR, Fastest(n)) == FastestLock(n)
  {
    if n > 0 {
      FastestIsEligible(n - 1);
      LastOfFastest(n);
      NextWait(n);
      OneMoreFailure(Fastest(n - 1), FastestAt(n));
    }
  }

  /** The bound is tight for every n: some eligible schedule meets it exactly. */
  lemma BoundIsReached(n: nat)
    requires n >= 10
    ensures |Fastest(n)| == n && EachEligible(CLEAR, Fastest(n))
    ensures Fastest(n)[n - 1] - Fastest(n)[4] == (930 + 900 * (n - 10)) * SECOND
  {
    FastestIsEligible(n);
    FifthIsAtZero(n);
    ElapsedClosedForm(n);
  }

  lemma {:induction false} FifthIsAtZero(n: nat)
    requires n >= 5
    ensures Fastest(n)[4] == 0
  {
    if n > 5 {
      FifthIsAtZero(n - 1);
    }
  }
}
