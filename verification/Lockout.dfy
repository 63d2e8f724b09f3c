/** Password-login lockout: doubling, capped windows after five consecutive failures. */
module Lockout {
  import opened Values

  const MAX_FAILED := 5
  const CAP_MINUTES := 60
  const MINUTE := 60

  /** One account's counters; times in seconds. */
  datatype Account = Account(failed: nat, lockedUntil: Option<int>)

  datatype Attempt = Attempt(at: int, correct: bool)

  datatype Outcome = Locked | Failed | LoggedIn

  function Pow2(n: nat): nat {
    if n == 0 then 1 else 2 * Pow2(n - 1)
  }

  /** Minutes of lock set by the `n`-th consecutive failure. */
  function LockMinutes(n: nat): nat
    requires n >= MAX_FAILED
  {
    if Pow2(n - MAX_FAILED) < CAP_MINUTES then Pow2(n - MAX_FAILED) else CAP_MINUTES
  }

  function FailedOnce(a: Account, now: int): Account {
    var n := a.failed + 1;
    if n >= MAX_FAILED then Account(n, Some(now + LockMinutes(n) * MINUTE)) else a.(failed := n)
  }

  function Login(a: Account, t: Attempt): (Account, Outcome) {
    if a.lockedUntil.Some? && a.lockedUntil.value > t.at then (a, Locked)
    else if !t.correct then (FailedOnce(a, t.at), Failed)
    else (Account(0, None), LoggedIn)
  }

  function After(run: seq<Attempt>): Account {
    if run == [] then Account(0, None) else Login(After(run[..|run| - 1]), run[|run| - 1]).0
  }

  /** Times of the failures recorded since the last success, oldest first. */
  function Streak(run: seq<Attempt>): seq<int> {
    if run == [] then []
    else
      var n := |run| - 1;
      match Login(After(run[..n]), run[n]).1
      case Locked => Streak(run[..n])
      case Failed => Streak(run[..n]) + [run[n].at]
      case LoggedIn => []
  }

  /** Minutes the locks after failures 5 .. n - 1 add up to. */
  function LockedMinutes(n: nat): nat {
    if n <= MAX_FAILED then 0 else LockedMinutes(n - 1) + LockMinutes(n - 1)
  }

  /** Every gap of a streak from its fifth failure on outlasts the lock that failure set. */
  predicate Spaced(ts: seq<int>) {
    forall i | MAX_FAILED <= i < |ts| :: ts[i] >= ts[i - 1] + LockMinutes(i) * MINUTE
  }

  lemma {:induction false} StreakIsSpaced(run: seq<Attempt>)
    ensures var a, ts := After(run), Streak(run);
            && |ts| == a.failed
            && a.lockedUntil == (if |ts| >= MAX_FAILED then Some(ts[|ts| - 1] + LockMinutes(|ts|) * MINUTE) else None)
            && Spaced(ts)
  {
    hide LockMinutes;
    if run != [] {
      StreakIsSpaced(run[..|run| - 1]);
    }
  }

  lemma {:induction false} SpacedTakes(ts: seq<int>, n: nat)
    requires Spaced(ts) && MAX_FAILED <= n <= |ts|
    ensures ts[n - 1] - ts[MAX_FAILED - 1] >= LockedMinutes(n) * MINUTE
  {
    if n > MAX_FAILED {
      SpacedTakes(ts, n - 1);
    }
  }

  /**
   * Brute force is slow: in any run, `n` consecutive recorded failures with n >= 5 take at
   * least the locked minutes between the fifth and the last.
   */
  lemma StreakTakesTime(run: seq<Attempt>)
    ensures var ts := Streak(run);
            |ts| >= MAX_FAILED ==> ts[|ts| - 1] - ts[MAX_FAILED - 1] >= LockedMinutes(|ts|) * MINUTE
  {
    StreakIsSpaced(run);
    if |Streak(run)| >= MAX_FAILED {
      SpacedTakes(Streak(run), |Streak(run)|);
    }
  }

  lemma {:induction false} Pow2Values(n: nat)
    ensures n <= 5 ==> Pow2(n) < CAP_MINUTES
    ensures n >= 6 ==> Pow2(n) >= 64
  {
    if n > 0 {
      Pow2Values(n - 1);
    }
    assert Pow2(0) == 1 && Pow2(1) == 2 && Pow2(2) == 4 && Pow2(3) == 8;
    assert Pow2(4) == 16 && Pow2(5) == 32 && Pow2(6) == 64;
  }

  /** The sum in closed form: doubling up to the eleventh failure, an hour each after it. */
  lemma {:induction false} LockedMinutesClosedForm(n: nat)
    requires n >= MAX_FAILED
    ensures n <= 11 ==> LockedMinutes(n) == Pow2(n - MAX_FAILED) - 1
    ensures n >= 11 ==> LockedMinutes(n) == 63 + 60 * (n - 11)
  {
    if n > MAX_FAILED {
      LockedMinutesClosedForm(n - 1);
      Pow2Values(n - 1 - MAX_FAILED);
      if n == 11 {
        Pow2Values(5);
        assert Pow2(6) == 64 by { assert Pow2(3) == 8; assert Pow2(6) == 8 * Pow2(3); }
      }
    }
  }

  /**
   * What a login does after any run: it is turned away without being counted exactly while the
   * lock stands, a wrong password is counted and a correct one is let in and clears everything.
   */
  lemma LoginExact(run: seq<Attempt>, t: Attempt)
    ensures var a, (a', o) := After(run), Login(After(run), t);
            && (o == Locked <==> a.lockedUntil.Some? && t.at < a.lockedUntil.value)
            && (o == LoggedIn <==> t.correct && (a.lockedUntil.Some? ==> a.lockedUntil.value <= t.at))
            && (o == Locked ==> a' == a)
            && (o == Failed ==> a'.failed == a.failed + 1)
            && (o == LoggedIn ==> a'.failed == 0 && a'.lockedUntil == None)
  {
  }

  /** Minutes an account is locked after `n` consecutive failures: 1, 2, 4, .. from the fifth,
      never more than an hour. */
  lemma LockLasts(n: nat)
    requires n >= 5
    ensures n <= 10 ==> LockMinutes(n) == [1, 2, 4, 8, 16, 32][n - 5]
    ensures n >= 11 ==> LockMinutes(n) == 60
  {
    Pow2Values(n - 5);
    assert Pow2(0) == 1 && Pow2(1) == 2 && Pow2(2) == 4 && Pow2(3) == 8;
    assert Pow2(4) == 16 && Pow2(5) == 32;
  }

  /**
   * Locks run out. After any run that ends in a streak of failures, the next attempt is turned
   * away exactly while the lock of the last failure lasts; from then on the correct password
   * logs in, and below five failures nothing ever stands in its way.
   */
  lemma LocksRunOut(run: seq<Attempt>, t: Attempt)
    requires Streak(run) != []
    ensures var ts := Streak(run);
            && (Login(After(run), t).1 == Locked <==>
                  |ts| >= 5 && t.at < ts[|ts| - 1] + LockMinutes(|ts|) * 60)
            && (Login(After(run), t).1 == LoggedIn <==>
                  t.correct && (|ts| >= 5 ==> t.at >= ts[|ts| - 1] + LockMinutes(|ts|) * 60))
  {
    StreakIsSpaced(run);
  }

  class User {
    var failed: nat
    var lockedUntil: Option<int>

    ghost function State(): Account
      reads this
    {
      Account(failed, lockedUntil)
    }

    constructor ()
      ensures State() == Account(0, None)
    {
      failed, lockedUntil := 0, None;
    }

    method RegisterLoginFailure(now: int)
      modifies this
      ensures State() == FailedOnce(old(State()), now)
    {
      failed := failed + 1;
      if failed >= MAX_FAILED {
        var over := failed - MAX_FAILED;
        var minutes := if Pow2(over) < CAP_MINUTES then Pow2(over) else CAP_MINUTES;
        lockedUntil := Some(now + minutes * MINUTE);
      }
    }

    method TryLogin(now: int, correct: bool) returns (o: Outcome)
      modifies this
      ensures (State(), o) == Login(old(State()), Attempt(now, correct))
    {
      if lockedUntil.Some? && lockedUntil.value > now {
        return Locked;
      }
      if !correct {
        RegisterLoginFailure(now);
        return Failed;
      }
      failed, lockedUntil := 0, None;
      o := LoggedIn;
    }
  }
}
