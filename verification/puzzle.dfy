/**
 * The puzzle state machine as a value: the configuration read at start, the
 * locks, the attempt counter, the countdown's state and the screen shown.
 * `checkAllCombinations` is the central transition.
 */
module Puzzle {
  import opened Locks

  datatype LoseReason = MaxAttemptsReached | TimeExpired

  /** The screen on show: the outcome of the round once it has one. */
  datatype Screen = Setup | Playing | Won | Lost(reason: LoseReason)

  /** The game-wide settings `startGame` reads; `maxAttempts` 0 means unlimited. */
  datatype Config = Config(timerMinutes: int, timerEnabled: bool, timerWarning: bool, maxAttempts: int)

  datatype State = State(
    config: Config,
    locks: seq<LockState>,
    attempts: nat,
    timeRemaining: int,
    timerRunning: bool,
    screen: Screen)

  /** The settings and state the page starts with. */
  const Initial := State(Config(15, true, true, 0), [], 0, 0, false, Setup)

  predicate Consistent(s: State) {
    forall i :: 0 <= i < |s.locks| ==> LockOk(s.locks[i])
  }

  predicate AllOpen(locks: seq<LockState>) {
    forall i :: 0 <= i < |locks| ==> locks[i].unlocked
  }

  /** `stopTimer`: no further tick; stopping twice is the same as stopping once. */
  function StopTimer(s: State): (r: State)
    ensures !r.timerRunning
    ensures r.(timerRunning := s.timerRunning) == s
  {
    s.(timerRunning := false)
  }

  /** The win outcome: the win screen, with the countdown stopped. */
  function TriggerWin(s: State): (r: State)
    ensures r.screen == Won && !r.timerRunning
    ensures r.(screen := s.screen, timerRunning := s.timerRunning) == s
  {
    StopTimer(s).(screen := Won)
  }

  /** The lose outcome: the lose screen with its reason, countdown stopped. */
  function TriggerLose(s: State, reason: LoseReason): (r: State)
    ensures r.screen == Lost(reason) && !r.timerRunning
    ensures r.(screen := s.screen, timerRunning := s.timerRunning) == s
  {
    StopTimer(s).(screen := Lost(reason))
  }

  /** `rotateWheel(lockIndex, wheelIndex, direction)`: only that lock can change. */
  function RotateWheel(s: State, lockIndex: nat, wheelIndex: nat, dir: int): (r: State)
    requires Consistent(s) && lockIndex < |s.locks| && wheelIndex < |s.locks[lockIndex].wheels|
    requires dir == 1 || dir == -1
    ensures Consistent(r) && |r.locks| == |s.locks|
    ensures r.(locks := s.locks) == s
    ensures forall j :: 0 <= j < |s.locks| && j != lockIndex ==> r.locks[j] == s.locks[j]
    ensures r.locks[lockIndex] == RotateLock(s.locks[lockIndex], wheelIndex, dir)
  {
    s.(locks := s.locks[lockIndex := RotateLock(s.locks[lockIndex], wheelIndex, dir)])
  }

  /** Every lock after the per-lock step of `resetAllWheels`. */
  function ResetLocks(locks: seq<LockState>): (r: seq<LockState>)
    requires forall i :: 0 <= i < |locks| ==> LockOk(locks[i])
    ensures |r| == |locks|
    ensures forall i :: 0 <= i < |locks| ==> r[i] == ResetLock(locks[i])
  {
    seq(|locks|, i requires 0 <= i < |locks| && LockOk(locks[i]) => ResetLock(locks[i]))
  }

  /** `resetAllWheels`. */
  function ResetAllWheels(s: State): (r: State)
    requires Consistent(s)
    ensures Consistent(r)
  {
    s.(locks := ResetLocks(s.locks))
  }

  /** `resetAllWheels` puts every shut lock back to index 0 and leaves open locks and everything else untouched. */
  lemma ResetAllWheelsOutcome(s: State)
    requires Consistent(s)
    ensures var r := ResetAllWheels(s);
      && |r.locks| == |s.locks|
      && r.(locks := s.locks) == s
      && (forall i :: 0 <= i < |s.locks| ==>
            && r.locks[i].unlocked == s.locks[i].unlocked
            && r.locks[i].secret == s.locks[i].secret
            && r.locks[i].alphabet == s.locks[i].alphabet
            && |r.locks[i].wheels| == |s.locks[i].wheels|)
      && (forall i :: 0 <= i < |s.locks| && s.locks[i].unlocked ==> r.locks[i] == s.locks[i])
      && (forall i, k :: 0 <= i < |s.locks| && !s.locks[i].unlocked && 0 <= k < |s.locks[i].wheels| ==>
            r.locks[i].wheels[k] == 0)
  {
  }

  /** One more lock reset: the first `i` locks reset, the rest as they were. */
  lemma {:induction false} ResetLocksStep(locks: seq<LockState>, i: nat)
    requires forall j :: 0 <= j < |locks| ==> LockOk(locks[j])
    requires i < |locks|
    ensures var done := ResetLocks(locks[..i]) + locks[i..];
      && done[i] == locks[i]
      && done[i := ResetLock(locks[i])] == ResetLocks(locks[..i + 1]) + locks[i + 1..]
  {
    var done := ResetLocks(locks[..i]) + locks[i..];
    var next := ResetLocks(locks[..i + 1]) + locks[i + 1..];
    assert forall j :: 0 <= j < |locks| ==> done[i := ResetLock(locks[i])][j] == next[j];
  }

  /** Every lock after the per-lock step of an attempt. */
  function OpenMatching(locks: seq<LockState>): (r: seq<LockState>)
    requires forall i :: 0 <= i < |locks| ==> LockOk(locks[i])
    ensures |r| == |locks|
    ensures forall i :: 0 <= i < |locks| ==> r[i] == TryOpen(locks[i])
  {
    seq(|locks|, i requires 0 <= i < |locks| && LockOk(locks[i]) => TryOpen(locks[i]))
  }

  /** Some lock that was shut has just opened. */
  predicate AnyNewlyOpened(before: seq<LockState>, after: seq<LockState>)
    requires |before| == |after|
  {
    exists i :: 0 <= i < |before| && !before[i].unlocked && after[i].unlocked
  }

  /** One more lock tried: the first `i` locks opened where they match, the rest as they were. */
  lemma {:induction false} OpenMatchingStep(locks: seq<LockState>, i: nat)
    requires forall j :: 0 <= j < |locks| ==> LockOk(locks[j])
    requires i < |locks|
    ensures var done := OpenMatching(locks[..i]) + locks[i..];
      && done[i] == locks[i]
      && done[i := TryOpen(locks[i])] == OpenMatching(locks[..i + 1]) + locks[i + 1..]
  {
    var done := OpenMatching(locks[..i]) + locks[i..];
    var next := OpenMatching(locks[..i + 1]) + locks[i + 1..];
    assert forall j :: 0 <= j < |locks| ==> done[i := TryOpen(locks[i])][j] == next[j];
  }

  /** ... and a lock has newly opened among them when one had before or lock `i` just did. */
  lemma {:induction false} NewlyOpenedStep(locks: seq<LockState>, i: nat)
    requires forall j :: 0 <= j < |locks| ==> LockOk(locks[j])
    requires i < |locks|
    ensures AnyNewlyOpened(locks[..i + 1], OpenMatching(locks[..i + 1])) <==>
      AnyNewlyOpened(locks[..i], OpenMatching(locks[..i])) || (!locks[i].unlocked && TryOpen(locks[i]).unlocked)
  {
    var a := OpenMatching(locks[..i]);
    var b := OpenMatching(locks[..i + 1]);
    assert forall j :: 0 <= j < i ==> a[j] == b[j] && locks[..i][j] == locks[..i + 1][j];
    assert b[i] == TryOpen(locks[..i + 1][i]);
  }

  /** The feedback an attempt gives the player. */
  datatype AttemptResult = AllUnlocked | WrongAttempt | PartialUnlock

  datatype Attempt = Attempt(next: State, result: AttemptResult)

  /** The attempt limit is set and has been reached. */
  predicate LimitReached(config: Config, attempts: nat) {
    config.maxAttempts > 0 && attempts >= config.maxAttempts
  }

  /**
   * `checkAllCombinations`: count the attempt, open every shut lock whose
   * wheels spell its secret, then win when all locks are open; otherwise an
   * attempt that opened nothing is wrong and may exhaust the attempt limit,
   * and an attempt that opened something continues the round.
   */
  function Check(s: State): (a: Attempt)
    requires Consistent(s)
    ensures Consistent(a.next)
  {
    var counted := s.(attempts := s.attempts + 1, locks := OpenMatching(s.locks));
    if AllOpen(counted.locks) then
      Attempt(TriggerWin(counted), AllUnlocked)
    else if !AnyNewlyOpened(s.locks, counted.locks) then
      var next := if LimitReached(s.config, counted.attempts) then TriggerLose(counted, MaxAttemptsReached) else counted;
      Attempt(next, WrongAttempt)
    else
      Attempt(counted, PartialUnlock)
  }

  /**
   * What an attempt does: the counter goes up by one, every lock keeps its
   * wheels, secret and alphabet and is open afterwards exactly when it was
   * open or its wheels spell its secret; the result is a win exactly when
   * every lock is open, a wrong attempt exactly when some lock is still
   * shut and none opened, and a partial unlock otherwise; a win stops the
   * timer on the win screen, a wrong attempt reaching the limit stops it on
   * the loss screen, and any other attempt leaves screen and timer alone.
   */
  lemma CheckOutcome(s: State)
    requires Consistent(s)
    ensures var a := Check(s);
      && |a.next.locks| == |s.locks|
      && a.next.attempts == s.attempts + 1
      && a.next.config == s.config && a.next.timeRemaining == s.timeRemaining
      && (forall i :: 0 <= i < |s.locks| ==>
            && a.next.locks[i].wheels == s.locks[i].wheels
            && a.next.locks[i].secret == s.locks[i].secret
            && a.next.locks[i].alphabet == s.locks[i].alphabet
            && (a.next.locks[i].unlocked <==> s.locks[i].unlocked || Combination(s.locks[i]) == s.locks[i].secret))
      && (a.result == AllUnlocked <==> AllOpen(a.next.locks))
      && (a.result == WrongAttempt <==> !AllOpen(a.next.locks) && !AnyNewlyOpened(s.locks, a.next.locks))
      && (a.result == AllUnlocked ==> a.next.screen == Won && !a.next.timerRunning)
      && (a.result == WrongAttempt && LimitReached(s.config, s.attempts + 1) ==>
            a.next.screen == Lost(MaxAttemptsReached) && !a.next.timerRunning)
      && (a.result == PartialUnlock || (a.result == WrongAttempt && !LimitReached(s.config, s.attempts + 1)) ==>
            a.next.screen == s.screen && a.next.timerRunning == s.timerRunning)
  {
  }

  /**
   * `Check` read off from the two flags the page computes: whether every lock
   * is open after the pass, and whether the pass opened any.
   */
  lemma CheckFromFlags(s: State, allOpen: bool, anyCorrect: bool)
    requires Consistent(s)
    requires allOpen == AllOpen(OpenMatching(s.locks))
    requires anyCorrect == AnyNewlyOpened(s.locks, OpenMatching(s.locks))
    ensures var counted := s.(attempts := s.attempts + 1, locks := OpenMatching(s.locks));
      && (allOpen ==> Check(s) == Attempt(TriggerWin(counted), AllUnlocked))
      && (!allOpen && !anyCorrect && LimitReached(s.config, s.attempts + 1) ==>
            Check(s) == Attempt(TriggerLose(counted, MaxAttemptsReached), WrongAttempt))
      && (!allOpen && !anyCorrect && !LimitReached(s.config, s.attempts + 1) ==>
            Check(s) == Attempt(counted, WrongAttempt))
      && (!allOpen && anyCorrect ==> Check(s) == Attempt(counted, PartialUnlock))
  {
  }

  /** `count` attempts in a row with the wheels left where they are. */
  function Attempts(s: State, count: nat): (r: State)
    requires Consistent(s)
    ensures Consistent(r)
  {
    if count == 0 then s else Check(Attempts(s, count - 1)).next
  }

  /** No shut lock is set to its secret. */
  predicate NoShutLockMatches(s: State)
    requires Consistent(s)
  {
    forall i :: 0 <= i < |s.locks| && !s.locks[i].unlocked ==> Combination(s.locks[i]) != s.locks[i].secret
  }

  /** An attempt with no shut lock set right, while some lock is shut, is wrong and opens nothing. */
  lemma {:induction false} WrongStep(p: State)
    requires Consistent(p) && NoShutLockMatches(p) && !AllOpen(p.locks)
    ensures Check(p).result == WrongAttempt
    ensures Check(p).next.locks == p.locks
  {
    CheckOutcome(p);
    var a := Check(p);
    forall i | 0 <= i < |p.locks| ensures a.next.locks[i] == p.locks[i] {
    }
    assert a.next.locks == p.locks;
  }

  /**
   * With some lock still shut and no shut lock set right, repeated attempts
   * are all wrong: the counter climbs by one each time, and the round is lost
   * exactly on the attempt that reaches a positive `maxAttempts`, not before.
   */
  lemma {:induction false} RepeatedWrongAttempts(s: State, count: nat)
    requires Consistent(s) && NoShutLockMatches(s) && !AllOpen(s.locks)
    requires s.config.maxAttempts <= 0 || s.attempts + count <= s.config.maxAttempts
    ensures Attempts(s, count).attempts == s.attempts + count
    ensures Attempts(s, count).locks == s.locks
    ensures Attempts(s, count).config == s.config
    ensures count > 0 ==> Check(Attempts(s, count - 1)).result == WrongAttempt
    ensures count > 0 && LimitReached(s.config, s.attempts + count) ==> Attempts(s, count).screen == Lost(MaxAttemptsReached)
    ensures !(count > 0 && LimitReached(s.config, s.attempts + count)) ==> Attempts(s, count).screen == s.screen
  {
    if count > 0 {
      RepeatedWrongAttempts(s, count - 1);
      var p := Attempts(s, count - 1);
      WrongStep(p);
      CheckOutcome(p);
      if count > 1 {
        assert !LimitReached(s.config, s.attempts + count - 1);
      }
    }
  }

  /**
   * The two-lock scenario: an attempt that opens exactly one of two shut
   * locks is partial progress, never a wrong attempt and never a loss.
   */
  lemma PartialProgressNeverLoses(s: State)
    requires Consistent(s) && |s.locks| == 2
    requires !s.locks[0].unlocked && !s.locks[1].unlocked
    requires Combination(s.locks[0]) == s.locks[0].secret && Combination(s.locks[1]) != s.locks[1].secret
    ensures Check(s).result == PartialUnlock
    ensures Check(s).next.screen == s.screen
  {
    CheckOutcome(s);
    var a := Check(s);
    assert a.next.locks[0].unlocked && !a.next.locks[1].unlocked;
  }
}
