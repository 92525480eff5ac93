/**
 * The game as the page runs it: `gameConfig.locks` holds one `Lock` object
 * per lock, whose wheel array and open flag are updated in place, and the
 * `Game` object holds the rest of `gameConfig`/`gameState`.  Every method is
 * proved to move the abstract `Model()` exactly as the matching function of
 * the pure modules does.
 */
module Session {
  import opened Wrappers
  import opened Charset
  import opened Combination
  import opened Locks
  import opened Puzzle
  import opened Countdown
  import opened Lifecycle

  /** One entry of `gameConfig.locks`. */
  class Lock {
    const alphabet: string
    const secret: string
    const digitCount: nat
    var unlocked: bool
    var wheels: array<int>

    function View(): LockState
      reads this, wheels
    {
      LockState(alphabet, secret, wheels[..], unlocked)
    }

    ghost predicate Valid()
      reads this, wheels
    {
      wheels.Length == digitCount && LockOk(View())
    }

    /** A lock as `startGame` pushes it: validated secret, wheels at 0, shut. */
    constructor (alphabet: string, secret: string, digitCount: nat)
      requires |alphabet| > 0 && Distinct(alphabet) && |secret| == digitCount
      requires forall k :: 0 <= k < |secret| ==> secret[k] in alphabet
      ensures Valid() && fresh(wheels)
      ensures View() == Fresh(alphabet, secret) && this.digitCount == digitCount
    {
      this.alphabet := alphabet;
      this.secret := secret;
      this.digitCount := digitCount;
      unlocked := false;
      wheels := new int[digitCount](_ => 0);
      new;
      assert wheels[..] == Zeros(digitCount);
    }

    /** The inner loop of `resetAllWheels`: every wheel of this lock back to index 0. */
    method ZeroWheels()
      requires Valid()
      modifies wheels
      ensures Valid()
      ensures View() == old(View()).(wheels := Zeros(digitCount))
    {
      var k := 0;
      while k < digitCount
        invariant 0 <= k <= digitCount
        invariant forall m :: 0 <= m < k ==> wheels[m] == 0
        invariant forall m :: k <= m < digitCount ==> wheels[m] == old(wheels[m])
      {
        wheels[k] := 0;
        k := k + 1;
      }
      assert wheels[..] == Zeros(digitCount);
    }

    /** The per-lock body of `checkAllCombinations`: a shut lock whose wheels spell its secret opens. */
    method TryOpen() returns (didOpen: bool)
      requires Valid()
      modifies this
      ensures Valid() && wheels == old(wheels)
      ensures View() == Locks.TryOpen(old(View()))
      ensures didOpen <==> !old(unlocked) && unlocked
    {
      didOpen := false;
      if !unlocked && Locks.Combination(View()) == secret {
        unlocked := true;
        didOpen := true;
      }
    }

    /** The per-lock body of `resetGame`: shut again, a new all-zero wheel array. */
    method Rearm()
      requires Valid()
      modifies this
      ensures Valid() && fresh(wheels)
      ensures View() == Locks.Rearm(old(View()))
    {
      unlocked := false;
      wheels := new int[digitCount](_ => 0);
      assert wheels[..] == Zeros(digitCount);
    }
  }

  /** The lock objects of `ls` and their wheel arrays. */
  ghost function FrameOf(ls: seq<Lock>): set<object>
    reads ls
  {
    (set i | 0 <= i < |ls| :: ls[i]) + (set i | 0 <= i < |ls| :: ls[i].wheels)
  }

  /** What the locks of `ls` hold, in order. */
  ghost function ViewsOf(ls: seq<Lock>): seq<LockState>
    reads FrameOf(ls)
  {
    seq(|ls|, i requires 0 <= i < |ls| reads FrameOf(ls) => ls[i].View())
  }

  /**
   * One pass of the loop in `startGame`: the card's alphabet, its entry
   * upper-cased or drawn when empty, the length and character checks, and
   * the new lock when both pass.
   */
  method BuildLock(card: LockCard) returns (r: Result<Lock, SetupError>)
    requires CardPicksFit(card)
    ensures r.Err? ==> SetupLock(card) == Err(r.error)
    ensures r.Ok? ==> fresh(r.value) && fresh(r.value.wheels) && r.value.Valid()
    ensures r.Ok? ==> SetupLock(card) == Ok(r.value.View())
  {
    var alphabet := Resolve(card.classes).alphabet;
    var combo := Upper(card.input);
    if combo == [] {
      combo := Generate(alphabet, card.digitCount, card.picks);
    }
    var error := ValidateCombination(combo, alphabet, card.digitCount);
    if error.Some? {
      return Err(error.value);
    }
    ResolveDistinct(card.classes);
    var lock := new Lock(alphabet, combo, card.digitCount);
    return Ok(lock);
  }

  /** `gameConfig` and `gameState`. */
  class Game {
    var config: Config
    var locks: seq<Lock>
    var attempts: nat
    var timeRemaining: int
    var timerRunning: bool
    var screen: Screen

    ghost function Frame(): set<object>
      reads this, locks
    {
      {this} + FrameOf(locks)
    }

    ghost function WheelArrays(): set<array<int>>
      reads this`locks, locks
    {
      set i | 0 <= i < |locks| :: locks[i].wheels
    }

    ghost predicate Valid()
      reads this`locks, locks, FrameOf(locks)
    {
      && (forall i :: 0 <= i < |locks| ==> locks[i].Valid())
      && (forall i, j :: 0 <= i < j < |locks| ==> locks[i] != locks[j] && locks[i].wheels != locks[j].wheels)
    }

    ghost function Views(): seq<LockState>
      reads this`locks, locks, FrameOf(locks)
    {
      ViewsOf(locks)
    }

    /** The abstract state the pure modules speak about. */
    ghost function Model(): State
      reads Frame()
    {
      State(config, Views(), attempts, timeRemaining, timerRunning, screen)
    }

    lemma ModelConsistent()
      requires Valid()
      ensures Consistent(Model())
    {
    }

    /** The page as loaded: default settings, no locks, setup screen. */
    constructor ()
      ensures Valid() && Model() == Initial
    {
      config := Config(15, true, true, 0);
      locks := [];
      attempts := 0;
      timeRemaining := 0;
      timerRunning := false;
      screen := Setup;
    }

    /**
     * `getCurrentCombination`: the wheel characters in wheel order; it spells
     * the secret exactly when every wheel stands on the solution.
     */
    function CurrentCombination(lockIndex: nat): (r: string)
      requires Valid() && lockIndex < |locks|
      reads this, locks, FrameOf(locks)
      ensures |r| == locks[lockIndex].digitCount
      ensures forall k :: 0 <= k < |r| ==> r[k] == locks[lockIndex].alphabet[locks[lockIndex].wheels[k]]
      ensures r == locks[lockIndex].secret <==> locks[lockIndex].wheels[..] == Solution(locks[lockIndex].View())
    {
      var l := locks[lockIndex];
      assert l.Valid();
      UniqueSolution(l.View());
      Locks.Combination(l.View())
    }

    /** `rotateWheel`: only the addressed wheel array may change. */
    method RotateWheel(lockIndex: nat, wheelIndex: nat, direction: int)
      requires Valid() && lockIndex < |locks| && wheelIndex < locks[lockIndex].digitCount
      requires direction == 1 || direction == -1
      modifies locks[lockIndex].wheels
      ensures Valid()
      ensures Model() == Puzzle.RotateWheel(old(Model()), lockIndex, wheelIndex, direction)
    {
      ModelConsistent();
      var lock := locks[lockIndex];
      if lock.unlocked {
        return;
      }
      var n := |lock.alphabet|;
      lock.wheels[wheelIndex] := (lock.wheels[wheelIndex] + direction + n) % n;
      assert lock.View() == RotateLock(old(lock.View()), wheelIndex, direction);
      assert Views() == old(Views())[lockIndex := lock.View()];
    }

    /** The body of the `forEach` in `resetAllWheels` for lock `i`: a shut lock's wheels go back to 0. */
    method ResetLockWheels(i: nat)
      requires Valid() && i < |locks|
      modifies locks[i].wheels
      ensures Valid()
      ensures Views() == old(Views())[i := ResetLock(old(Views())[i])]
    {
      ghost var before := Views();
      var lock := locks[i];
      label Before:
      if !lock.unlocked {
        lock.ZeroWheels();
      }
      assert forall j :: 0 <= j < |locks| && j != i ==> locks[j].Valid() && locks[j].View() == old@Before(locks[j].View());
      assert Views() == before[i := ResetLock(before[i])];
    }

    /** `resetAllWheels`: every shut lock's wheels back to index 0. */
    method ResetAllWheels()
      requires Valid()
      modifies WheelArrays()
      ensures Valid()
      ensures Model() == Puzzle.ResetAllWheels(old(Model()))
    {
      ghost var before := Views();
      var i := 0;
      while i < |locks|
        invariant 0 <= i <= |locks| == |before|
        invariant Valid()
        invariant Views() == ResetLocks(before[..i]) + before[i..]
      {
        ResetLocksStep(before, i);
        ResetLockWheels(i);
        i := i + 1;
      }
      assert before[..i] == before;
    }

    /** The end of one pass of the loop in `startGame`: the card's lock is built and pushed, or refused. */
    method PushLock(card: LockCard) returns (error: Option<SetupError>)
      requires Valid() && CardPicksFit(card)
      modifies this
      ensures Valid()
      ensures config == old(config) && attempts == old(attempts) && screen == old(screen)
      ensures timeRemaining == old(timeRemaining) && timerRunning == old(timerRunning)
      ensures SetupLock(card).Err? ==> error == Some(SetupLock(card).error) && Views() == old(Views())
      ensures SetupLock(card).Ok? ==> error == None && Views() == old(Views()) + [SetupLock(card).value]
    {
      var next := BuildLock(card);
      if next.Err? {
        return Some(next.error);
      }
      AppendLock(next.value);
      error := None;
    }

    /** `gameConfig.locks.push(lock)` for a lock built just now. */
    method AppendLock(lock: Lock)
      requires Valid() && lock.Valid()
      requires forall j :: 0 <= j < |locks| ==> locks[j] != lock && locks[j].wheels != lock.wheels
      modifies this
      ensures Valid()
      ensures config == old(config) && attempts == old(attempts) && screen == old(screen)
      ensures timeRemaining == old(timeRemaining) && timerRunning == old(timerRunning)
      ensures Views() == old(Views()) + [lock.View()]
    {
      ghost var before := Views();
      locks := locks + [lock];
      assert Views() == before + [lock.View()];
    }

    /**
     * The settings part and the loop of `startGame`: the settings are
     * recorded and `gameConfig.locks` is rebuilt card by card (a missing card
     * is skipped), stopping at the first refused combination.
     */
    method InstallLocks(form: Form) returns (failure: Option<LockFailure>)
      requires Valid() && AllPicksFit(form.cards)
      modifies this
      ensures Valid()
      ensures AllPicksFit(Cards(form))
      ensures Model() == old(Model()).(config := form.config, locks := SetupLocks(Cards(form)).locks)
      ensures failure == SetupLocks(Cards(form)).failure
    {
      ghost var cards := Cards(form);
      config := form.config;
      locks := [];
      var i := 0;
      while i < form.lockCount
        invariant 0 <= i && (form.lockCount >= 0 ==> i <= form.lockCount)
        invariant Valid()
        invariant Model() == old(Model()).(config := form.config, locks := Views())
        invariant var k := if i < |cards| then i else |cards|;
          SetupLocks(cards[..k]) == Built(Views(), None)
      {
        if i >= |form.cards| {
          i := i + 1;
          continue;
        }
        failure := VisitCard(form, i);
        if failure.Some? {
          return;
        }
        i := i + 1;
      }
      assert cards[..|cards|] == cards;
      failure := None;
    }

    /** One pass of the loop in `startGame` over a card that is present. */
    method VisitCard(form: Form, i: nat) returns (failure: Option<LockFailure>)
      requires Valid() && AllPicksFit(form.cards)
      requires i < |form.cards| && i < form.lockCount
      requires SetupLocks(Cards(form)[..i]) == Built(Views(), None)
      modifies this
      ensures Valid()
      ensures Model() == old(Model()).(locks := Views())
      ensures failure.None? ==> SetupLocks(Cards(form)[..i + 1]) == Built(Views(), None)
      ensures failure.Some? ==> SetupLocks(Cards(form)) == Built(Views(), failure)
    {
      ghost var cards := Cards(form);
      assert AllPicksFit(cards);
      assert i < |cards| && form.cards[i] == cards[i];
      SetupLocksStep(cards, i);
      var error := PushLock(form.cards[i]);
      if error.Some? {
        FailureSticks(cards, i + 1);
        return Some(LockFailure(i, error.value));
      }
      failure := None;
    }

    /**
     * `startGame`: the settings are recorded, `gameConfig.locks` is rebuilt,
     * and the round starts unless a combination was refused.
     */
    method StartGame(form: Form) returns (failure: Option<LockFailure>)
      requires Valid() && AllPicksFit(form.cards)
      modifies this
      ensures Valid()
      ensures Model() == Lifecycle.StartGame(old(Model()), form).next
      ensures failure == Lifecycle.StartGame(old(Model()), form).failure
    {
      failure := InstallLocks(form);
      if failure.Some? {
        return;
      }
      ghost var views := Views();
      attempts := 0;
      screen := Playing;
      assert Views() == views;
      StartTimer();
    }

    /** `stopTimer`. */
    method StopTimer()
      requires Valid()
      modifies this
      ensures Valid() && locks == old(locks)
      ensures Model() == Puzzle.StopTimer(old(Model()))
    {
      timerRunning := false;
    }

    /** `startTimer`. */
    method StartTimer()
      requires Valid()
      modifies this
      ensures Valid() && locks == old(locks)
      ensures Model() == Countdown.StartTimer(old(Model()))
    {
      if !config.timerEnabled {
        return;
      }
      timeRemaining := config.timerMinutes * 60;
      timerRunning := true;
    }

    /** The win outcome; also the admin "win" button. */
    method TriggerWin()
      requires Valid()
      modifies this
      ensures Valid() && locks == old(locks)
      ensures Model() == Puzzle.TriggerWin(old(Model()))
    {
      StopTimer();
      screen := Won;
    }

    /** The lose outcome. */
    method TriggerLose(reason: LoseReason)
      requires Valid()
      modifies this
      ensures Valid() && locks == old(locks)
      ensures Model() == Puzzle.TriggerLose(old(Model()), reason)
    {
      StopTimer();
      screen := Lost(reason);
    }

    /** The body of the `forEach` in `checkAllCombinations` for lock `i`. */
    method OpenLock(i: nat) returns (didOpen: bool)
      requires Valid() && i < |locks|
      modifies locks[i]
      ensures Valid()
      ensures Views() == old(Views())[i := Locks.TryOpen(old(Views())[i])]
      ensures didOpen <==> !old(Views())[i].unlocked && Views()[i].unlocked
    {
      ghost var before := Views();
      label Before:
      didOpen := locks[i].TryOpen();
      assert forall j :: 0 <= j < |locks| && j != i ==> locks[j].Valid() && locks[j].View() == old@Before(locks[j].View());
      assert Views() == before[i := Locks.TryOpen(before[i])];
    }

    /**
     * The `forEach` of `checkAllCombinations`: every shut lock whose wheels
     * spell its secret opens, and `anyCorrect` records whether one did.
     */
    method OpenShutLocks() returns (anyCorrect: bool)
      requires Valid()
      modifies locks
      ensures Valid()
      ensures Views() == OpenMatching(old(Views()))
      ensures anyCorrect == AnyNewlyOpened(old(Views()), Views())
    {
      ghost var before := Views();
      anyCorrect := false;
      var i := 0;
      while i < |locks|
        invariant 0 <= i <= |locks| == |before|
        invariant Valid()
        invariant Views() == OpenMatching(before[..i]) + before[i..]
        invariant anyCorrect == AnyNewlyOpened(before[..i], OpenMatching(before[..i]))
      {
        OpenMatchingStep(before, i);
        NewlyOpenedStep(before, i);
        var didOpen := OpenLock(i);
        anyCorrect := anyCorrect || didOpen;
        i := i + 1;
      }
      assert before[..i] == before;
    }

    /**
     * The start of `checkAllCombinations`: the attempt is counted, the
     * matching shut locks open, and the two flags the outcome depends on are
     * read off.
     */
    method CountAttempt() returns (allOpen: bool, anyCorrect: bool)
      requires Valid()
      modifies this, locks
      ensures Valid() && locks == old(locks)
      ensures Consistent(old(Model()))
      ensures Model() == old(Model()).(attempts := old(attempts) + 1, locks := OpenMatching(old(Views())))
      ensures allOpen == AllOpen(Views())
      ensures anyCorrect == AnyNewlyOpened(old(Views()), Views())
    {
      ModelConsistent();
      ghost var before := Views();
      attempts := attempts + 1;
      assert Views() == before;
      anyCorrect := OpenShutLocks();
      ghost var after := Views();
      assert forall j :: 0 <= j < |locks| ==> after[j].unlocked == locks[j].unlocked;
      allOpen := forall j :: 0 <= j < |locks| ==> locks[j].unlocked;
      assert Model() == old(Model()).(attempts := old(attempts) + 1, locks := after);
    }

    /** `checkAllCombinations`. */
    method CheckAllCombinations() returns (result: AttemptResult)
      requires Valid()
      modifies this, locks
      ensures Valid() && locks == old(locks)
      ensures Model() == Check(old(Model())).next
      ensures result == Check(old(Model())).result
    {
      ModelConsistent();
      ghost var s0 := Model();
      var allOpen, anyCorrect := CountAttempt();
      CheckFromFlags(s0, allOpen, anyCorrect);
      if allOpen {
        TriggerWin();
        result := AllUnlocked;
      } else if !anyCorrect {
        result := WrongAttempt;
        if config.maxAttempts > 0 && attempts >= config.maxAttempts {
          TriggerLose(MaxAttemptsReached);
        }
      } else {
        result := PartialUnlock;
      }
    }

    /** One tick of the `setInterval` callback. */
    method Tick() returns (signals: Signals)
      requires Valid() && timerRunning
      modifies this
      ensures Valid() && locks == old(locks)
      ensures Model() == Countdown.Tick(old(Model())).next
      ensures signals == Countdown.Tick(old(Model())).signals
    {
      timeRemaining := timeRemaining - 1;
      signals := Signals(config.timerWarning && timeRemaining == 60, timeRemaining == 10, timeRemaining <= 0);
      if timeRemaining <= 0 {
        TriggerLose(TimeExpired);
      }
    }

    /** The admin "add time" button. */
    method AddTime()
      requires Valid()
      modifies this
      ensures Valid() && locks == old(locks)
      ensures Model() == Countdown.AddTime(old(Model()))
    {
      timeRemaining := timeRemaining + 300;
    }

    /** `showScreen('setup')`: "new game" and the admin "end game". */
    method ShowSetup()
      requires Valid()
      modifies this
      ensures Valid() && locks == old(locks)
      ensures Model() == Lifecycle.ShowSetup(old(Model()))
    {
      screen := Setup;
      StopTimer();
    }

    /** The body of the `forEach` in `resetGame` for lock `i`. */
    method RearmLock(i: nat)
      requires Valid() && i < |locks|
      modifies locks[i]
      ensures Valid()
      ensures Views() == old(Views())[i := Locks.Rearm(old(Views())[i])]
    {
      ghost var before := Views();
      label Before:
      locks[i].Rearm();
      assert forall j :: 0 <= j < |locks| && j != i ==> locks[j].Valid() && locks[j].View() == old@Before(locks[j].View());
      assert Views() == before[i := Locks.Rearm(before[i])];
    }

    /** The `forEach` of `resetGame`: every lock re-armed with a fresh wheel array. */
    method RearmLocks()
      requires Valid()
      modifies locks
      ensures Valid()
      ensures Views() == RearmAll(old(Views()))
    {
      ghost var before := Views();
      var i := 0;
      while i < |locks|
        invariant 0 <= i <= |locks| == |before|
        invariant Valid()
        invariant Views() == RearmAll(before[..i]) + before[i..]
      {
        RearmAllStep(before, i);
        RearmLock(i);
        i := i + 1;
      }
      assert before[..i] == before;
    }

    /** "Play again" / "retry": `showScreen('game')` then `resetGame`. */
    method PlayAgain()
      requires Valid()
      modifies this, locks
      ensures Valid() && locks == old(locks)
      ensures Model() == Lifecycle.PlayAgain(old(Model()))
    {
      ModelConsistent();
      ghost var s0 := Model();
      screen := Playing;
      StopTimer();
      attempts := 0;
      assert Views() == s0.locks;
      RearmLocks();
      assert Model() == Puzzle.StopTimer(s0.(screen := Playing)).(attempts := 0, locks := RearmAll(s0.locks));
      StartTimer();
    }
  }
}
