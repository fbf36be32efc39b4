/**
  The gate before the password check (src/server/auth.rs), and what it comes
  to over whole runs of logins: how slow guessing is, and whom it keeps out.
  Instants and durations are in nanoseconds. Logins are taken one at a time.
*/
module LoginLockout {
  import opened Wrappers

  /** It takes this many failures in a row to close the gate. */
  const LOGIN_FAILURE_LIMIT: nat := 5

  const SECOND := 1_000_000_000

  /** How long the gate stays closed. */
  const LOGIN_LOCKOUT := 15 * 60 * SECOND

  /** From a login to the end of its session. */
  const SESSION_TTL := 90 * 24 * 60 * 60 * SECOND

  datatype Outcome = Granted(expiresAt: int) | Refused | LockedOut(wait: int)

  /** Failures since the last grant or lockout, and until when the gate is closed. */
  datatype Gate = Gate(consecutive: nat, lockedUntil: Option<int>) {
    ghost predicate Valid() {
      consecutive < LOGIN_FAILURE_LIMIT
    }

    predicate Closed(now: int) {
      lockedUntil.Some? && lockedUntil.value > now
    }
  }

  const OPEN := Gate(0, None)

  datatype Login = Login(now: int, correct: bool)

  /** The gate after a login. */
  function Next(gate: Gate, login: Login): Gate {
    if gate.Closed(login.now) then gate
    else if login.correct then OPEN
    else if gate.consecutive + 1 >= LOGIN_FAILURE_LIMIT then Gate(0, Some(login.now + LOGIN_LOCKOUT))
    else gate.(consecutive := gate.consecutive + 1)
  }

  /** What a login comes to. */
  function Answer(gate: Gate, login: Login): Outcome {
    if gate.Closed(login.now) then LockedOut(gate.lockedUntil.value - login.now)
    else if login.correct then Granted(login.now + SESSION_TTL)
    else Refused
  }

  class LoginFailures {
    var consecutive: nat
    var lockedUntil: Option<int>

    function Contents(): Gate
      reads this
    {
      Gate(consecutive, lockedUntil)
    }

    constructor ()
      ensures Contents() == OPEN
    {
      consecutive, lockedUntil := 0, None;
    }

    /** The time left while the gate is closed. */
    function LockedFor(now: int): (wait: Option<int>)
      reads this
      ensures wait.Some? <==> Contents().Closed(now)
      ensures wait.Some? ==> wait.value > 0 && lockedUntil == Some(now + wait.value)
    {
      match lockedUntil
      case Some(until) => if until > now then Some(until - now) else None
      case None => None
    }

    method RegisterFailure(now: int)
      modifies this
      ensures Contents() == if old(consecutive) + 1 >= LOGIN_FAILURE_LIMIT then Gate(0, Some(now + LOGIN_LOCKOUT))
                            else Gate(old(consecutive) + 1, old(lockedUntil))
    {
      consecutive := consecutive + 1;
      if consecutive >= LOGIN_FAILURE_LIMIT {
        lockedUntil := Some(now + LOGIN_LOCKOUT);
        consecutive := 0;
      }
    }

    method Reset()
      modifies this
      ensures Contents() == OPEN
    {
      consecutive, lockedUntil := 0, None;
    }
  }

  class Auth {
    const failures: LoginFailures
    const matches: string -> bool

    constructor (matches: string -> bool)
      ensures this.matches == matches && fresh(failures) && failures.Contents() == OPEN
    {
      this.matches := matches;
      failures := new LoginFailures();
    }

    /** Attempts a login. */
    method Attempt(password: string, now: int) returns (outcome: Outcome)
      modifies failures
      ensures failures.Contents() == Next(old(failures.Contents()), Login(now, matches(password)))
      ensures outcome == Answer(old(failures.Contents()), Login(now, matches(password)))
    {
      var wait := failures.LockedFor(now);
      if wait.Some? {
        return LockedOut(wait.value);
      }
      if !matches(password) {
        failures.RegisterFailure(now);
        return Refused;
      }
      failures.Reset();
      outcome := Granted(now + SESSION_TTL);
    }
  }

  // -------------------------------------------------------------- whole runs

  /** The gate after logins one after another. */
  function After(gate: Gate, logins: seq<Login>): Gate {
    if logins == [] then gate else Next(After(gate, logins[..|logins| - 1]), logins[|logins| - 1])
  }

  /** What they came to, from an archive just started. */
  function Answers(logins: seq<Login>): (answers: seq<Outcome>)
    ensures |answers| == |logins|
  {
    seq(|logins|, k requires 0 <= k < |logins| => Answer(After(OPEN, logins[..k]), logins[k]))
  }

  ghost predicate InTime(logins: seq<Login>) {
    forall i, j :: 0 <= i < j < |logins| ==> logins[i].now <= logins[j].now
  }

  lemma {:induction false} AfterOneMore(logins: seq<Login>, k: nat)
    requires k < |logins|
    ensures After(OPEN, logins[..k + 1]) == Next(After(OPEN, logins[..k]), logins[k])
    ensures Answers(logins)[k] == Answer(After(OPEN, logins[..k]), logins[k])
  {
    assert logins[..k + 1][..k] == logins[..k];
  }

  lemma {:induction false} GateValid(logins: seq<Login>, k: nat)
    requires k <= |logins|
    ensures After(OPEN, logins[..k]).Valid()
  {
    if k > 0 {
      GateValid(logins, k - 1);
      AfterOneMore(logins, k - 1);
    }
  }

  /** How many of the answers from `i` up to `j` were refusals. */
  function Refusals(answers: seq<Outcome>, i: nat, j: nat): nat
    requires i <= j <= |answers|
  {
    if i == j then 0 else Refusals(answers, i, j - 1) + (if answers[j - 1].Refused? then 1 else 0)
  }

  ghost predicate NoneGranted(answers: seq<Outcome>, i: nat, j: nat)
    requires j <= |answers|
  {
    forall k :: i <= k < j ==> !answers[k].Granted?
  }

  /** What a run of refusals without a grant has come to: `locks` lockouts, each served. */
  ghost predicate Served(start: int, before: nat, gate: Gate, refusals: nat, locks: nat) {
    && refusals + before == LOGIN_FAILURE_LIMIT * locks + gate.consecutive
    && (locks > 0 ==> gate.lockedUntil.Some? && gate.lockedUntil.value >= start + locks * LOGIN_LOCKOUT)
  }

  lemma {:induction false} ServedOneMore(start: int, before: nat, gate: Gate, login: Login, refusals: nat, locks: nat)
    requires Served(start, before, gate, refusals, locks) && gate.Valid()
    requires start <= login.now && !Answer(gate, login).Granted?
    ensures var refused := Answer(gate, login).Refused?;
            Served(start, before, Next(gate, login), if refused then refusals + 1 else refusals,
                   if refused && gate.consecutive + 1 == LOGIN_FAILURE_LIMIT then locks + 1 else locks)
  {
  }

  lemma {:induction false} LocksServed(logins: seq<Login>, start: int, i: nat, j: nat) returns (locks: nat)
    requires i <= j <= |logins| && NoneGranted(Answers(logins), i, j)
    requires forall k :: i <= k < j ==> start <= logins[k].now
    ensures Served(start, After(OPEN, logins[..i]).consecutive, After(OPEN, logins[..j]),
                   Refusals(Answers(logins), i, j), locks)
  {
    locks := 0;
    if i < j {
      locks := LocksServed(logins, start, i, j - 1);
      GateValid(logins, j - 1);
      AfterOneMore(logins, j - 1);
      var gate := After(OPEN, logins[..j - 1]);
      ServedOneMore(start, After(OPEN, logins[..i]).consecutive, gate, logins[j - 1],
                    Refusals(Answers(logins), i, j - 1), locks);
      if Answers(logins)[j - 1].Refused? && gate.consecutive + 1 == LOGIN_FAILURE_LIMIT {
        locks := locks + 1;
      }
    }
  }

  lemma {:induction false} FivesWithin(n: nat, before: nat, consecutive: nat, locks: nat)
    requires n + before == 5 * locks + consecutive && consecutive < 5
    ensures n / 5 <= locks
  {
  }

  /** However long it has been served for, each whole five refusals have taken a lockout. */
  lemma {:induction false} ServedSpan(start: int, before: nat, gate: Gate, refusals: nat, locks: nat, now: int)
    requires Served(start, before, gate, refusals, locks) && gate.Valid() && !gate.Closed(now) && start <= now
    ensures now - start >= refusals / LOGIN_FAILURE_LIMIT * LOGIN_LOCKOUT
  {
    FivesWithin(refusals, before, gate.consecutive, locks);
    assert refusals / 5 * LOGIN_LOCKOUT <= locks * LOGIN_LOCKOUT;
  }

  /**
    Guessing is slow: of any stretch of logins without a success among them,
    `n` refused ones span at least fifteen minutes for each whole five of
    the `n - 1` that follow the first.
  */
  lemma {:induction false} RefusalsTakeTime(logins: seq<Login>, i: nat, j: nat)
    requires InTime(logins) && i <= j < |logins| && NoneGranted(Answers(logins), i, j + 1)
    requires Answers(logins)[i].Refused? && Answers(logins)[j].Refused?
    ensures logins[j].now - logins[i].now
         >= (Refusals(Answers(logins), i, j + 1) - 1) / 5 * 900_000_000_000
  {
    var start := logins[i].now;
    var locks := LocksServed(logins, start, i, j);
    GateValid(logins, j);
    AfterOneMore(logins, j);
    ServedSpan(start, After(OPEN, logins[..i]).consecutive, After(OPEN, logins[..j]),
               Refusals(Answers(logins), i, j), locks, logins[j].now);
  }

  function Guess(k: nat): Login {
    Login(k / LOGIN_FAILURE_LIMIT * LOGIN_LOCKOUT, false)
  }

  /** Guessing as fast as that: five at once, every fifteen minutes. */
  function Guessing(n: nat): (logins: seq<Login>)
    ensures |logins| == n && forall k :: 0 <= k < n ==> logins[k] == Guess(k)
  {
    seq(n, k requires 0 <= k < n => Guess(k))
  }

  function GuessedGate(k: nat): Gate {
    Gate(k % LOGIN_FAILURE_LIMIT,
         if k < LOGIN_FAILURE_LIMIT then None else Some(k / LOGIN_FAILURE_LIMIT * LOGIN_LOCKOUT))
  }

  lemma {:induction false} FiveByFive(k: nat)
    ensures k % 5 < 4 ==> (k + 1) / 5 == k / 5 && (k + 1) % 5 == k % 5 + 1
    ensures k % 5 == 4 ==> (k + 1) / 5 == k / 5 + 1 && (k + 1) % 5 == 0
  {
  }

  lemma {:induction false} GuessRefused(k: nat)
    ensures Next(GuessedGate(k), Guess(k)) == GuessedGate(k + 1) && Answer(GuessedGate(k), Guess(k)) == Refused
  {
    FiveByFive(k);
    assert !GuessedGate(k).Closed(Guess(k).now);
  }

  lemma {:induction false} GuessingGate(n: nat, k: nat)
    requires k <= n
    ensures After(OPEN, Guessing(n)[..k]) == GuessedGate(k)
  {
    if k > 0 {
      GuessingGate(n, k - 1);
      AfterOneMore(Guessing(n), k - 1);
      GuessRefused(k - 1);
    }
  }

  /** No faster bound holds: that many guesses are all answered with a refusal, and span just that long. */
  lemma {:induction false} BoundIsTight(n: nat)
    ensures InTime(Guessing(n))
    ensures forall k :: 0 <= k < n ==> Answers(Guessing(n))[k] == Refused
    ensures n > 0 ==> Guessing(n)[n - 1].now - Guessing(n)[0].now == (n - 1) / LOGIN_FAILURE_LIMIT * LOGIN_LOCKOUT
  {
    forall k | 0 <= k < n ensures Answers(Guessing(n))[k] == Refused {
      GuessingGate(n, k);
      AfterOneMore(Guessing(n), k);
      GuessRefused(k);
    }
  }

  lemma {:induction false} ClosedKeeps(gate: Gate, login: Login, later: int)
    requires gate.Closed(later) && login.now <= later
    ensures Next(gate, login) == gate && Answer(gate, login) == LockedOut(gate.lockedUntil.value - login.now)
  {
  }

  /** While the gate is closed it stays as it is. */
  lemma {:induction false} StaysClosed(logins: seq<Login>, gate: Gate, i: nat, j: nat, later: int)
    requires i <= j <= |logins| && After(OPEN, logins[..i]) == gate
    requires gate.Closed(later) && forall k :: i <= k < j ==> logins[k].now <= later
    ensures After(OPEN, logins[..j]) == gate
  {
    if i < j {
      StaysClosed(logins, gate, i, j - 1, later);
      AfterOneMore(logins, j - 1);
      ClosedKeeps(gate, logins[j - 1], later);
    }
  }

  /** Until when a login that was locked out is. */
  function Until(logins: seq<Login>, i: nat): int
    requires i < |logins| && Answers(logins)[i].LockedOut?
  {
    logins[i].now + Answers(logins)[i].wait
  }

  lemma {:induction false} LockedGate(logins: seq<Login>, i: nat)
    requires i < |logins| && Answers(logins)[i].LockedOut?
    ensures After(OPEN, logins[..i]).lockedUntil == Some(Until(logins, i)) && logins[i].now < Until(logins, i)
  {
    AfterOneMore(logins, i);
  }

  lemma {:induction false} GateWhileLocked(logins: seq<Login>, i: nat, j: nat, later: int)
    requires i < j <= |logins| && Answers(logins)[i].LockedOut?
    requires later < Until(logins, i) && forall k :: i <= k < j ==> logins[k].now <= later
    ensures After(OPEN, logins[..j]).lockedUntil == Some(Until(logins, i))
  {
    LockedGate(logins, i);
    StaysClosed(logins, After(OPEN, logins[..i]), i, j, later);
  }

  /**
    After a lockout is announced no password is looked at until the wait has
    passed, whatever it is, and each login meanwhile is told what is left;
    the first one after that is answered by its password alone.
  */
  lemma {:induction false} LockedUntilWaited(logins: seq<Login>, i: nat, j: nat)
    requires InTime(logins) && i < j < |logins| && Answers(logins)[i].LockedOut?
    ensures logins[j].now < Until(logins, i) ==> Answers(logins)[j] == LockedOut(Until(logins, i) - logins[j].now)
    ensures logins[j].now >= Until(logins, i) > logins[j - 1].now ==>
              Answers(logins)[j]
              == if logins[j].correct then Granted(logins[j].now + 7_776_000_000_000_000) else Refused
  {
    var until := Until(logins, i);
    if logins[j].now < until || logins[j - 1].now < until {
      GateWhileLocked(logins, i, j, if logins[j].now < until then logins[j].now else logins[j - 1].now);
    }
    AfterOneMore(logins, j);
  }

  lemma {:induction false} DeadlineNear(logins: seq<Login>, k: nat)
    requires InTime(logins) && k <= |logins|
    ensures var gate := After(OPEN, logins[..k]);
            gate.lockedUntil.Some? ==> k > 0 && gate.lockedUntil.value <= logins[k - 1].now + LOGIN_LOCKOUT
  {
    if k > 0 {
      DeadlineNear(logins, k - 1);
      AfterOneMore(logins, k - 1);
    }
  }

  /** The refusals since the last grant, before login `k`. */
  function SinceGranted(answers: seq<Outcome>, k: nat): nat
    requires k <= |answers|
  {
    if k == 0 || answers[k - 1].Granted? then 0
    else SinceGranted(answers, k - 1) + (if answers[k - 1].Refused? then 1 else 0)
  }

  lemma {:induction false} CountsSinceGranted(logins: seq<Login>, k: nat)
    requires k <= |logins|
    ensures var gate, since := After(OPEN, logins[..k]), SinceGranted(Answers(logins), k);
            gate.consecutive <= since && (gate.lockedUntil.Some? ==> since >= LOGIN_FAILURE_LIMIT)
  {
    if k > 0 {
      CountsSinceGranted(logins, k - 1);
      AfterOneMore(logins, k - 1);
    }
  }

  /**
    The right password is granted and a wrong one never is, unless the gate
    is closed; that takes five refusals since the last grant, and lasts
    fifteen minutes at most.
  */
  lemma {:induction false} OnlyGuessingLocks(logins: seq<Login>, k: nat)
    requires InTime(logins) && k < |logins|
    ensures var answer := Answers(logins)[k];
            && (answer.Granted? ==> logins[k].correct && answer.expiresAt == logins[k].now + 7_776_000_000_000_000)
            && (answer.Refused? ==> !logins[k].correct)
            && (answer.LockedOut? ==>
                  0 < answer.wait <= 900_000_000_000 && SinceGranted(Answers(logins), k) >= 5)
  {
    DeadlineNear(logins, k);
    CountsSinceGranted(logins, k);
  }
}
