/** Password sign-in with a failure count and a lock window. */
module Lockout {
  import opened Wrappers

  const MAX_FAILED_ATTEMPTS := 5
  const LOCKOUT_DURATION := 15 * 60 * 1000

  datatype Account = Account(hasPassword: bool, isActive: bool, failedLoginCount: nat, lockedUntil: Option<int>)

  /** One request: when the lock is looked at, when the password is verified, when the failure is written. */
  datatype Attempt = Attempt(checkedAt: int, verifiedAt: int, writtenAt: int, valid: bool) {
    predicate Ordered() {
      checkedAt <= verifiedAt <= writtenAt
    }
  }

  /** All three refusals look the same to the caller; only `Failed` has verified a password. */
  datatype Outcome = Refused | Failed | SignedIn

  predicate Locked(account: Account, now: int) {
    account.lockedUntil.Some? && account.lockedUntil.value > now
  }

  function SignIn(account: Account, attempt: Attempt): (Account, Outcome) {
    if !account.hasPassword || !account.isActive || Locked(account, attempt.checkedAt) then (account, Refused)
    else if attempt.valid then (account.(failedLoginCount := 0, lockedUntil := None), SignedIn)
    else
      var count := account.failedLoginCount + 1;
      (account.(failedLoginCount := count,
                lockedUntil := if count >= MAX_FAILED_ATTEMPTS then Some(attempt.writtenAt + LOCKOUT_DURATION) else None),
       Failed)
  }

  class Accounts {
    var rows: map<string, Account>

    constructor (rows: map<string, Account>)
      ensures this.rows == rows
    {
      this.rows := rows;
    }

    method SignInWithPassword(email: string, attempt: Attempt) returns (outcome: Outcome)
      modifies this
      ensures email !in old(rows) ==> rows == old(rows) && outcome == Refused
      ensures email in old(rows) ==>
        rows == old(rows)[email := SignIn(old(rows)[email], attempt).0] && outcome == SignIn(old(rows)[email], attempt).1
    {
      if email !in rows {
        return Refused;
      }
      var user := rows[email];
      if !user.hasPassword || !user.isActive {
        assert rows[email := user] == rows;
        return Refused;
      }
      if user.lockedUntil.Some? && user.lockedUntil.value > attempt.checkedAt {
        assert rows[email := user] == rows;
        return Refused;
      }
      if !attempt.valid {
        var failedLoginCount := user.failedLoginCount + 1;
        var lockedUntil :=
          if failedLoginCount >= MAX_FAILED_ATTEMPTS then Some(attempt.writtenAt + LOCKOUT_DURATION) else None;
        rows := rows[email := user.(failedLoginCount := failedLoginCount, lockedUntil := lockedUntil)];
        return Failed;
      }
      rows := rows[email := user.(failedLoginCount := 0, lockedUntil := None)];
      return SignedIn;
    }
  }

  // ----- how many passwords can be tried in a window

  ghost predicate AllOrdered(attempts: seq<Attempt>) {
    forall i :: 0 <= i < |attempts| ==> attempts[i].Ordered()
  }

  ghost predicate NeverSignsIn(account: Account, attempts: seq<Attempt>)
    decreases |attempts|
  {
    attempts != [] ==>
      SignIn(account, attempts[0]).1 != SignedIn && NeverSignsIn(SignIn(account, attempts[0]).0, attempts[1..])
  }

  /** Failed verifications that happen in `[from, to]`. */
  function Failures(account: Account, attempts: seq<Attempt>, from: int, to: int): nat
    decreases |attempts|
  {
    if attempts == [] then 0
    else
      var (next, outcome) := SignIn(account, attempts[0]);
      (if outcome == Failed && from <= attempts[0].verifiedAt <= to then 1 else 0) + Failures(next, attempts[1..], from, to)
  }

  /** Points in `[first, to]` that are at least one lock window apart. */
  function Spaced(first: int, to: int): nat {
    if to < first then 0 else 1 + (to - first) / LOCKOUT_DURATION
  }

  lemma SpacedAfterLock(first: int, at: int, written: int, to: int)
    requires first <= at <= written && at <= to
    ensures 1 + Spaced(written + LOCKOUT_DURATION, to) <= Spaced(first, to)
  {
  }

  lemma SpacedLater(first: int, later: int, to: int)
    requires first <= later
    ensures Spaced(later, to) <= Spaced(first, to)
  {
  }

  function EarliestVerification(account: Account, from: int): int {
    if account.lockedUntil.Some? && account.lockedUntil.value > from then account.lockedUntil.value else from
  }

  /** Failures that do not lock yet, then one per lock window. */
  function Allowance(account: Account, from: int, to: int): nat {
    if account.failedLoginCount + 1 < MAX_FAILED_ATTEMPTS
    then MAX_FAILED_ATTEMPTS - 1 - account.failedLoginCount + Spaced(from, to)
    else Spaced(EarliestVerification(account, from), to)
  }

  lemma AttemptUsesAllowance(account: Account, attempt: Attempt, from: int, to: int)
    requires attempt.Ordered() && SignIn(account, attempt).1 == Failed
    ensures Allowance(SignIn(account, attempt).0, from, to)
      + (if from <= attempt.verifiedAt <= to then 1 else 0) <= Allowance(account, from, to)
  {
    var next := SignIn(account, attempt).0;
    var first := EarliestVerification(account, from);
    if account.failedLoginCount + 1 >= MAX_FAILED_ATTEMPTS {
      if from <= attempt.verifiedAt <= to {
        SpacedAfterLock(first, attempt.verifiedAt, attempt.writtenAt, to);
      }
      SpacedLater(first, EarliestVerification(next, from), to);
      SpacedLater(attempt.writtenAt + LOCKOUT_DURATION, EarliestVerification(next, from), to);
    }
  }

  lemma {:induction false} FailuresWithinAllowance(account: Account, attempts: seq<Attempt>, from: int, to: int)
    requires AllOrdered(attempts) && NeverSignsIn(account, attempts)
    ensures Failures(account, attempts, from, to) <= Allowance(account, from, to)
    decreases |attempts|
  {
    if attempts != [] {
      assert attempts[0].Ordered();
      var (next, outcome) := SignIn(account, attempts[0]);
      FailuresWithinAllowance(next, attempts[1..], from, to);
      if outcome == Failed {
        AttemptUsesAllowance(account, attempts[0], from, to);
      }
    }
  }

  /** Whatever the account's state: a window of length `w` without a sign-in sees at most five failures and one more per lock window. */
  lemma LockoutBound(account: Account, attempts: seq<Attempt>, from: int, w: nat)
    requires AllOrdered(attempts) && NeverSignsIn(account, attempts)
    ensures Failures(account, attempts, from, from + w) <= 5 + w / (15 * 60 * 1000)
  {
    FailuresWithinAllowance(account, attempts, from, from + w);
    SpacedLater(from, EarliestVerification(account, from), from + w);
  }

  // ----- the bound is reached

  function Wrong(at: int): Attempt {
    Attempt(at, at, at, false)
  }

  /** One wrong password at each expiry of the lock, `n` times. */
  function AtEachExpiry(start: int, n: nat): seq<Attempt>
    decreases n
  {
    if n == 0 then [] else [Wrong(start + LOCKOUT_DURATION)] + AtEachExpiry(start + LOCKOUT_DURATION, n - 1)
  }

  lemma {:induction false} EachExpiryFails(account: Account, start: int, n: nat, from: int)
    requires account.hasPassword && account.isActive && account.failedLoginCount >= MAX_FAILED_ATTEMPTS
    requires account.lockedUntil == Some(start + LOCKOUT_DURATION) && from <= start
    ensures NeverSignsIn(account, AtEachExpiry(start, n))
    ensures Failures(account, AtEachExpiry(start, n), from, start + n * LOCKOUT_DURATION) == n
    ensures AllOrdered(AtEachExpiry(start, n))
    decreases n
  {
    if n > 0 {
      var attempts := AtEachExpiry(start, n);
      assert attempts[1..] == AtEachExpiry(start + LOCKOUT_DURATION, n - 1);
      EachExpiryFails(SignIn(account, attempts[0]).0, start + LOCKOUT_DURATION, n - 1, from);
    }
  }

  function FiveAtOnce(): seq<Attempt> {
    [Wrong(0), Wrong(0), Wrong(0), Wrong(0), Wrong(0)]
  }

  const FRESH := Account(true, true, 0, None)

  lemma FirstFive(rest: seq<Attempt>, to: nat)
    ensures var account := FRESH.(failedLoginCount := 5, lockedUntil := Some(LOCKOUT_DURATION));
      && (NeverSignsIn(FRESH, FiveAtOnce() + rest) <==> NeverSignsIn(account, rest))
      && Failures(FRESH, FiveAtOnce() + rest, 0, to) == 5 + Failures(account, rest, 0, to)
  {
    var attempts := FiveAtOnce() + rest;
    var a1 := SignIn(FRESH, Wrong(0)).0;
    var a2 := SignIn(a1, Wrong(0)).0;
    var a3 := SignIn(a2, Wrong(0)).0;
    var a4 := SignIn(a3, Wrong(0)).0;
    var a5 := SignIn(a4, Wrong(0)).0;
    var r1, r2, r3, r4 := attempts[1..], attempts[1..][1..], attempts[1..][1..][1..], attempts[1..][1..][1..][1..];
    assert r4[1..] == rest;
    assert Failures(a4, r4, 0, to) == 1 + Failures(a5, rest, 0, to);
    assert Failures(a3, r3, 0, to) == 1 + Failures(a4, r4, 0, to);
    assert Failures(a2, r2, 0, to) == 1 + Failures(a3, r3, 0, to);
    assert Failures(a1, r1, 0, to) == 1 + Failures(a2, r2, 0, to);
    assert NeverSignsIn(a4, r4) <==> NeverSignsIn(a5, rest);
    assert NeverSignsIn(a3, r3) <==> NeverSignsIn(a4, r4);
    assert NeverSignsIn(a2, r2) <==> NeverSignsIn(a3, r3);
    assert NeverSignsIn(a1, r1) <==> NeverSignsIn(a2, r2);
  }

  /** No smaller bound would do: for every number of lock windows some run reaches it. */
  lemma LockoutBoundIsReached(n: nat)
    ensures exists attempts ::
      AllOrdered(attempts) && NeverSignsIn(FRESH, attempts)
      && Failures(FRESH, attempts, 0, n * (15 * 60 * 1000)) == 5 + n
  {
    var rest := AtEachExpiry(0, n);
    EachExpiryFails(FRESH.(failedLoginCount := 5, lockedUntil := Some(LOCKOUT_DURATION)), 0, n, 0);
    FirstFive(rest, n * LOCKOUT_DURATION);
    assert NeverSignsIn(FRESH, FiveAtOnce() + rest) && AllOrdered(FiveAtOnce() + rest);
  }

  // ----- what the row remembers

  function After(account: Account, attempts: seq<Attempt>): Account {
    if attempts == [] then account else SignIn(After(account, attempts[..|attempts| - 1]), attempts[|attempts| - 1]).0
  }

  function LastOutcome(account: Account, attempts: seq<Attempt>): Outcome
    requires attempts != []
  {
    SignIn(After(account, attempts[..|attempts| - 1]), attempts[|attempts| - 1]).1
  }

  /** The failed verifications since the last sign-in, each by the time it was written. */
  function FailuresSinceSignIn(account: Account, attempts: seq<Attempt>): seq<int> {
    if attempts == [] then []
    else
      var before := FailuresSinceSignIn(account, attempts[..|attempts| - 1]);
      match LastOutcome(account, attempts)
      case Refused => before
      case Failed => before + [attempts[|attempts| - 1].writtenAt]
      case SignedIn => []
  }

  ghost predicate Remembers(account: Account, failures: seq<int>) {
    && account.failedLoginCount == |failures|
    && account.lockedUntil == if |failures| >= 5 then Some(failures[|failures| - 1] + 15 * 60 * 1000) else None
  }

  lemma {:induction false} RowRemembers(account: Account, attempts: seq<Attempt>)
    requires Remembers(account, [])
    ensures Remembers(After(account, attempts), FailuresSinceSignIn(account, attempts))
    ensures After(account, attempts).hasPassword == account.hasPassword && After(account, attempts).isActive == account.isActive
  {
    if attempts != [] {
      RowRemembers(account, attempts[..|attempts| - 1]);
    }
  }

  /** Locked out: at least five failures since the last sign-in, the latest less than fifteen minutes ago. */
  ghost predicate LockedOut(failures: seq<int>, now: int) {
    |failures| >= 5 && now < failures[|failures| - 1] + 15 * 60 * 1000
  }

  /** What an attempt is answered after any others: an account without a password, or an inactive one, is always refused. */
  lemma AnswersExactly(account: Account, attempts: seq<Attempt>, attempt: Attempt)
    requires Remembers(account, [])
    ensures var (after, outcome) := SignIn(After(account, attempts), attempt);
      && (outcome == Refused <==>
            !account.hasPassword || !account.isActive || LockedOut(FailuresSinceSignIn(account, attempts), attempt.checkedAt))
      && (outcome != Refused ==> (outcome == SignedIn <==> attempt.valid))
      && (outcome == Refused ==> after == After(account, attempts))
      && after.hasPassword == account.hasPassword && after.isActive == account.isActive
  {
    RowRemembers(account, attempts);
  }

  /** The right password is refused exactly within fifteen minutes of the latest of at least five failures since the last
      sign-in; when it is accepted, those failures are forgotten. */
  lemma RightPasswordIsRefusedExactly(account: Account, attempts: seq<Attempt>, attempt: Attempt)
    requires Remembers(account, []) && account.hasPassword && account.isActive && attempt.valid
    ensures var failures := FailuresSinceSignIn(account, attempts);
      && SignIn(After(account, attempts), attempt).1
        == (if LockedOut(failures, attempt.checkedAt) then Refused else SignedIn)
    ensures SignIn(After(account, attempts), attempt).1 == SignedIn ==>
      Remembers(SignIn(After(account, attempts), attempt).0, [])
  {
    RowRemembers(account, attempts);
  }
}
