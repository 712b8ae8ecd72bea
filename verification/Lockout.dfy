/** Login lockout: five wrong passwords lock an account for fifteen minutes. */
module Lockout {
  import opened Common

  const MAX_FAILED: nat := 5
  const LOCK_MILLIS: Time := 15 * 60 * 1000

  datatype Account = Account(failedAttempts: nat, lockedUntil: Option<Time>)

  datatype Step =
    // a correct password may still await a second factor
    | Attempt(now: Time, active: bool, correct: bool, finalizes: bool)
    | SecondFactor                                                      // `finalizeLogin` after a second factor
    | PasswordReset

  predicate Locked(a: Account, now: Time) {
    a.lockedUntil.Some? && a.lockedUntil.value > now
  }

  /** Does this step compare a password, and does the comparison fail? */
  predicate FailsComparison(a: Account, step: Step) {
    step.Attempt? && !Locked(a, step.now) && step.active && !step.correct
  }

  function Fresh(): Account {
    Account(0, None)
  }

  function Next(a: Account, step: Step): Account {
    match step
    case Attempt(now, active, correct, finalizes) =>
      if Locked(a, now) || !active then a
      else if correct then (if finalizes then Fresh() else a)
      else
        var attempts := a.failedAttempts + 1;
        if attempts >= MAX_FAILED then Account(0, Some(now + LOCK_MILLIS)) else a.(failedAttempts := attempts)
    case SecondFactor => Fresh()
    case PasswordReset => Fresh()
  }

  function Run(a: Account, steps: seq<Step>): Account {
    if |steps| == 0 then a else Next(Run(a, steps[..|steps| - 1]), steps[|steps| - 1])
  }

  /** Failed comparisons along a run. */
  function Failures(a: Account, steps: seq<Step>): nat {
    if |steps| == 0 then 0
    else
      var n := |steps| - 1;
      Failures(a, steps[..n]) + (if FailsComparison(Run(a, steps[..n]), steps[n]) then 1 else 0)
  }

  /** Wrong passwords offered, whether or not they were compared. */
  function WrongOffers(steps: seq<Step>): nat {
    if |steps| == 0 then 0
    else
      var last := steps[|steps| - 1];
      WrongOffers(steps[..|steps| - 1]) + (if last.Attempt? && last.active && !last.correct then 1 else 0)
  }

  /** The stored counter stays below the limit in every run. */
  lemma {:induction false} CounterBelowLimit(steps: seq<Step>)
    ensures Run(Fresh(), steps).failedAttempts < MAX_FAILED
  {
    if |steps| == 0 {
    } else {
      CounterBelowLimit(steps[..|steps| - 1]);
    }
  }

  /** Attempts within fifteen minutes of `start`, none of which logs in. */
  predicate QuietWindow(steps: seq<Step>, start: Time) {
    forall i :: 0 <= i < |steps| ==>
      steps[i].Attempt? && start <= steps[i].now < start + LOCK_MILLIS && !(steps[i].correct && steps[i].finalizes)
  }

  /** Along a quiet window either nothing locked yet, or the account is locked to the window's end. */
  lemma {:induction false} WindowProgress(a: Account, steps: seq<Step>, start: Time)
    requires a.failedAttempts < MAX_FAILED && QuietWindow(steps, start)
    ensures var b := Run(a, steps);
            || (b == a.(failedAttempts := a.failedAttempts + Failures(a, steps)) && b.failedAttempts < MAX_FAILED)
            || (Failures(a, steps) == MAX_FAILED - a.failedAttempts && b.lockedUntil.Some?
                 && b.lockedUntil.value >= start + LOCK_MILLIS)
  {
    if |steps| == 0 {
    } else {
      WindowProgress(a, steps[..|steps| - 1], start);
    }
  }

  /**
   * After any history, no fifteen-minute window without a login or a reset sees more than five failed
   * comparisons; if the account was not locked on entry, the limit is used up exactly: every wrong
   * password is compared until the five are reached.
   */
  lemma {:induction false} WindowBound(history: seq<Step>, steps: seq<Step>, start: Time)
    requires QuietWindow(steps, start)
    ensures var a := Run(Fresh(), history);
            && Failures(a, steps) <= MAX_FAILED - a.failedAttempts <= MAX_FAILED
            && (!Locked(a, start) ==> Failures(a, steps) == Min(WrongOffers(steps), MAX_FAILED - a.failedAttempts))
  {
    CounterBelowLimit(history);
    var a := Run(Fresh(), history);
    WindowProgress(a, steps, start);
    if !Locked(a, start) {
      WindowExactly(a, steps, start);
    }
  }

  lemma {:induction false} WindowExactly(a: Account, steps: seq<Step>, start: Time)
    requires a.failedAttempts < MAX_FAILED && QuietWindow(steps, start) && !Locked(a, start)
    ensures Failures(a, steps) == Min(WrongOffers(steps), MAX_FAILED - a.failedAttempts)
  {
    if |steps| == 0 {
    } else {
      var n := |steps| - 1;
      WindowExactly(a, steps[..n], start);
      WindowProgress(a, steps[..n], start);
    }
  }

  /**
   * The fifth failure in a row locks the account for exactly fifteen minutes: whatever is attempted
   * before the lock ends compares no password and leaves the account as it is, and the first wrong
   * password offered after that is compared again exactly when the lock has ended.
   */
  lemma {:induction false} LockedUntilExactly(a: Account, fifth: Step, steps: seq<Step>, attempt: Step)
    requires a.failedAttempts == MAX_FAILED - 1 && FailsComparison(a, fifth)
    requires forall i :: 0 <= i < |steps| ==> steps[i].Attempt? && steps[i].now < fifth.now + LOCK_MILLIS
    requires attempt.Attempt? && attempt.active && !attempt.correct
    ensures var locked := Next(a, fifth);
            && Run(locked, steps) == locked && Failures(locked, steps) == 0
            && (FailsComparison(Run(locked, steps), attempt) <==> attempt.now >= fifth.now + LOCK_MILLIS)
  {
    if |steps| == 0 {
      assert Next(a, fifth) == Account(0, Some(fifth.now + LOCK_MILLIS));
    } else {
      LockedUntilExactly(a, fifth, steps[..|steps| - 1], attempt);
    }
  }

  /** Wrong passwords in a row are counted up to four; the fifth locks the account for fifteen minutes. */
  lemma {:induction false} FiveInARow(steps: seq<Step>)
    requires |steps| <= 5
    requires forall i :: 0 <= i < |steps| ==> steps[i].Attempt? && steps[i].active && !steps[i].correct
    ensures Run(Account(0, None), steps)
            == if |steps| < 5 then Account(|steps|, None) else Account(0, Some(steps[4].now + 900000))
  {
    if |steps| == 0 {
    } else {
      FiveInARow(steps[..|steps| - 1]);
    }
  }

  /**
   * A login that goes through, a second factor and a password reset clear the account, unless it is locked or its user
   * suspended when the password is offered; then, and while a right password still awaits its second factor, the
   * account stays as it is.
   */
  lemma {:induction false} ClearsExactly(a: Account, now: Time, active: bool, finalizes: bool)
    ensures var open := active && (a.lockedUntil.Some? ==> a.lockedUntil.value <= now);
            Next(a, Attempt(now, active, true, finalizes)) == if open && finalizes then Account(0, None) else a
    ensures !active ==> Next(a, Attempt(now, active, false, finalizes)) == a
    ensures Next(a, SecondFactor) == Account(0, None) && Next(a, PasswordReset) == Account(0, None)
  {
  }
}
