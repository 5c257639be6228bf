/** Account lockout after failed passwords, over whole histories of sign-in attempts. */
module Lockout {
  import opened Outcomes

  const LOCKOUT_AFTER_FAILED: nat := 5

  const LOCKOUT_DURATION_MS: nat := 30 * 60 * 1000

  /** The two lockout columns of an account row. */
  datatype Guard = Guard(failedLoginCount: nat, lockedUntil: Option<int>)

  /** One call of login: when, whether the password matched, and whether the account's status bars it. */
  datatype Attempt = Attempt(now: int, passwordOk: bool, barred: bool)

  datatype Answer = Admitted | InvalidCredentials | AccountLocked | AccountBarred

  function Unused(): Guard { Guard(0, None) }

  function Login(g: Guard, a: Attempt): (Guard, Answer) {
    if !a.passwordOk then
      var next := g.failedLoginCount + 1;
      if next >= LOCKOUT_AFTER_FAILED then
        (g.(lockedUntil := Some(a.now + LOCKOUT_DURATION_MS)), AccountLocked)
      else
        (g.(failedLoginCount := next), InvalidCredentials)
    else if g.lockedUntil.Some? && g.lockedUntil.value > a.now then (g, AccountLocked)
    else if a.barred then (g, AccountBarred)
    else (Guard(0, None), Admitted)
  }

  function Run(history: seq<Attempt>): Guard {
    if |history| == 0 then Unused() else Login(Run(history[..|history| - 1]), history[|history| - 1]).0
  }

  /** What the attempt at position `k` of a history was answered. */
  function AnswerAt(history: seq<Attempt>, k: nat): Answer
    requires k < |history|
  {
    Login(Run(history[..k]), history[k]).1
  }

  // ---------- the history, told without the two columns ----------

  /** `k` comes after every admitted attempt. */
  ghost predicate SinceAdmission(history: seq<Attempt>, k: nat) {
    k < |history| && forall j :: k <= j < |history| ==> AnswerAt(history, j) != Admitted
  }

  /** The wrong passwords given since the last admission. */
  ghost function Wrong(history: seq<Attempt>): set<nat> {
    set k | 0 <= k < |history| && SinceAdmission(history, k) && !history[k].passwordOk
  }

  /** The most recent of them. */
  ghost predicate IsLatestWrong(history: seq<Attempt>, k: nat) {
    k in Wrong(history) && forall j :: j in Wrong(history) ==> j <= k
  }

  /** The columns count the wrong passwords up to one below the limit, and the lock runs from the latest of them. */
  ghost predicate Faithful(history: seq<Attempt>) {
    var g, wrong := Run(history), |Wrong(history)|;
    && g.failedLoginCount == Min(wrong, LOCKOUT_AFTER_FAILED - 1)
    && (g.lockedUntil.Some? <==> wrong >= LOCKOUT_AFTER_FAILED)
    && (forall k: nat :: g.lockedUntil.Some? && IsLatestWrong(history, k) ==>
      g.lockedUntil.value == history[k].now + LOCKOUT_DURATION_MS)
  }

  lemma AnswersOfFront(history: seq<Attempt>, k: nat)
    requires |history| > 0 && k < |history| - 1
    ensures AnswerAt(history[..|history| - 1], k) == AnswerAt(history, k)
  {
    assert history[..|history| - 1][..k] == history[..k];
  }

  lemma WrongGrows(history: seq<Attempt>)
    requires |history| > 0
    ensures var front, n := history[..|history| - 1], |history| - 1;
            Wrong(history) ==
            if AnswerAt(history, n) == Admitted then {}
            else if history[n].passwordOk then Wrong(front)
            else Wrong(front) + {n as nat}
  {
    var front, n := history[..|history| - 1], |history| - 1;
    forall k: nat | k < n ensures SinceAdmission(history, k) <==>
      SinceAdmission(front, k) && AnswerAt(history, n) != Admitted
    {
      forall j: nat | j < n ensures AnswerAt(front, j) == AnswerAt(history, j) {
        AnswersOfFront(history, j);
      }
    }
  }

  lemma FaithfulStep(history: seq<Attempt>)
    requires |history| > 0 && Faithful(history[..|history| - 1])
    ensures Faithful(history)
  {
    var front, n := history[..|history| - 1], |history| - 1;
    var a := history[n];
    WrongGrows(history);
    if !a.passwordOk {
      NewestIsLatest(history);
    } else if AnswerAt(history, n) != Admitted {
      forall k: nat | IsLatestWrong(history, k) ensures IsLatestWrong(front, k) && history[k] == front[k] {
      }
    }
  }

  lemma NewestIsLatest(history: seq<Attempt>)
    requires |history| > 0 && !history[|history| - 1].passwordOk
    ensures |Wrong(history)| == |Wrong(history[..|history| - 1])| + 1
    ensures forall k: nat :: IsLatestWrong(history, k) <==> k == |history| - 1
  {
    var n: nat := |history| - 1;
    WrongGrows(history);
    assert n !in Wrong(history[..n]) && n in Wrong(history);
  }

  lemma {:induction false} ColumnsAreFaithful(history: seq<Attempt>)
    ensures Faithful(history)
  {
    if |history| == 0 {
      assert Wrong(history) == {};
    } else {
      ColumnsAreFaithful(history[..|history| - 1]);
      FaithfulStep(history);
    }
  }

  /**
   * A right password is admitted exactly when the account may sign in and either fewer wrong passwords than the
   * limit were given since the last admission, or the full lockout has passed since the latest of them.
   */
  lemma AdmittedIff(history: seq<Attempt>, a: Attempt, latest: nat)
    requires Wrong(history) != {} ==> IsLatestWrong(history, latest)
    ensures Login(Run(history), a).1 == Admitted <==>
      && a.passwordOk && !a.barred
      && (|Wrong(history)| < LOCKOUT_AFTER_FAILED || history[latest].now + LOCKOUT_DURATION_MS <= a.now)
  {
    ColumnsAreFaithful(history);
  }

  /** The count never reaches the limit: it is the lock that records the last failure. */
  lemma CountStaysBelowLimit(history: seq<Attempt>)
    ensures Run(history).failedLoginCount < LOCKOUT_AFTER_FAILED
  {
    ColumnsAreFaithful(history);
  }

  /** A wrong password is told apart exactly by whether it is at least the fifth since the last admission. */
  lemma WrongPasswordAnswer(history: seq<Attempt>, a: Attempt)
    requires !a.passwordOk
    ensures Login(Run(history), a).1 ==
      if |Wrong(history)| + 1 >= LOCKOUT_AFTER_FAILED then AccountLocked else InvalidCredentials
  {
    ColumnsAreFaithful(history);
  }

  /** A right password is told that the lock is on, or else that the account is barred; neither changes a column. */
  lemma RightPasswordAnswer(history: seq<Attempt>, a: Attempt, latest: nat)
    requires a.passwordOk && (Wrong(history) != {} ==> IsLatestWrong(history, latest))
    ensures var locked := |Wrong(history)| >= LOCKOUT_AFTER_FAILED
                          && a.now < history[latest].now + LOCKOUT_DURATION_MS;
      && (Login(Run(history), a).1 == AccountLocked <==> locked)
      && (Login(Run(history), a).1 == AccountBarred <==> !locked && a.barred)
      && (locked || a.barred ==> Login(Run(history), a).0 == Run(history))
  {
    ColumnsAreFaithful(history);
  }

  /** The account row as login updates it. */
  class Account {
    var failedLoginCount: nat
    var lockedUntil: Option<int>

    ghost function Contents(): Guard
      reads this
    {
      Guard(failedLoginCount, lockedUntil)
    }

    constructor ()
      ensures Contents() == Unused()
    {
      failedLoginCount, lockedUntil := 0, None;
    }

    method AdminLogin(passwordOk: bool, barred: bool, now: int) returns (answer: Answer)
      modifies this
      ensures (Contents(), answer) == Login(old(Contents()), Attempt(now, passwordOk, barred))
    {
      if !passwordOk {
        var next := failedLoginCount + 1;
        if next >= LOCKOUT_AFTER_FAILED {
          lockedUntil := Some(now + LOCKOUT_DURATION_MS);
          return AccountLocked;
        }
        failedLoginCount := next;
        return InvalidCredentials;
      }
      if lockedUntil.Some? && lockedUntil.value > now {
        return AccountLocked;
      }
      if barred {
        return AccountBarred;
      }
      failedLoginCount, lockedUntil := 0, None;
      answer := Admitted;
    }
  }
}
