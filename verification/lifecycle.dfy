/**
 * The round lifecycle as values: `startGame` builds every lock from its
 * settings card and starts the round only if every combination is valid;
 * "play again" re-arms the same locks with the same secrets; "new game" and
 * the admin "end game" go back to the setup screen.
 */
module Lifecycle {
  import opened Wrappers
  import opened Charset
  import opened Combination
  import opened Locks
  import opened Puzzle
  import opened Countdown

  /**
   * One settings card: digit count, the three class checkboxes, the typed
   * combination (empty asks for a random one) and the random picks that
   * stand in for `Math.random`, one per wheel.
   */
  datatype LockCard = LockCard(digitCount: nat, classes: CharClasses, input: string, picks: seq<nat>)

  /** The setup screen: the lock-count select, the cards and the game-wide settings. */
  datatype Form = Form(lockCount: int, cards: seq<LockCard>, config: Config)

  predicate CardPicksFit(card: LockCard) {
    |card.picks| == card.digitCount && PicksFit(card.picks, Resolve(card.classes).alphabet)
  }

  predicate AllPicksFit(cards: seq<LockCard>) {
    forall i :: 0 <= i < |cards| ==> CardPicksFit(cards[i])
  }

  /**
   * The combination the loop goes on to validate: a typed entry upper-cased,
   * an empty one replaced by a draw of `digitCount` characters on the wheels.
   */
  function Entered(card: LockCard): (r: string)
    requires CardPicksFit(card)
    ensures card.input != [] ==> r == Upper(card.input)
    ensures card.input == [] ==> |r| == card.digitCount && forall k :: 0 <= k < |r| ==> r[k] in Resolve(card.classes).alphabet
  {
    var typed := Upper(card.input);
    if typed == [] then Drawn(Resolve(card.classes).alphabet, card.picks) else typed
  }

  /** One iteration of the loop in `startGame`. */
  function SetupLock(card: LockCard): (r: Result<LockState, SetupError>)
    requires CardPicksFit(card)
    ensures r.Ok? <==> Validate(Entered(card), Resolve(card.classes).alphabet, card.digitCount) == None
    ensures r.Ok? ==> LockOk(r.value) && |r.value.secret| == card.digitCount
    ensures r.Ok? ==> r.value == Fresh(Resolve(card.classes).alphabet, Entered(card))
  {
    var alphabet := Resolve(card.classes).alphabet;
    var combo := Entered(card);
    match Validate(combo, alphabet, card.digitCount)
    case Some(e) => Err(e)
    case None => ResolveDistinct(card.classes); Ok(Fresh(alphabet, combo))
  }

  /**
   * The cards the loop visits: indices below the lock count that have a card,
   * that is the first `lockCount` cards, or all of them when there are fewer.
   */
  function Cards(form: Form): (r: seq<LockCard>)
    ensures |r| == if form.lockCount <= 0 then 0 else if form.lockCount < |form.cards| then form.lockCount else |form.cards|
    ensures forall i :: 0 <= i < |r| ==> r[i] == form.cards[i]
  {
    if form.lockCount <= 0 then []
    else if form.lockCount < |form.cards| then form.cards[..form.lockCount]
    else form.cards
  }

  /** Which lock was refused and why. */
  datatype LockFailure = LockFailure(index: nat, error: SetupError)

  /** The locks pushed so far, and the refusal that stopped the loop, if any. */
  datatype Built = Built(locks: seq<LockState>, failure: Option<LockFailure>)

  function SetupLocks(cards: seq<LockCard>): (b: Built)
    requires AllPicksFit(cards)
    ensures b.failure.None? ==> |b.locks| == |cards|
    ensures b.failure.Some? ==> b.failure.value.index == |b.locks| < |cards|
  {
    if cards == [] then Built([], None)
    else
      var prior := SetupLocks(cards[..|cards| - 1]);
      if prior.failure.Some? then prior
      else
        match SetupLock(cards[|cards| - 1])
        case Err(e) => Built(prior.locks, Some(LockFailure(|cards| - 1, e)))
        case Ok(l) => Built(prior.locks + [l], None)
  }

  /**
   * The loop keeps the cards in order: the i-th lock is the i-th card's, and
   * it stops at the first card whose combination is refused.
   */
  lemma {:induction false} SetupLocksInOrder(cards: seq<LockCard>)
    requires AllPicksFit(cards)
    ensures var b := SetupLocks(cards);
      && (forall i :: 0 <= i < |b.locks| ==> SetupLock(cards[i]) == Ok(b.locks[i]))
      && (b.failure.Some? ==> SetupLock(cards[b.failure.value.index]) == Err(b.failure.value.error))
  {
    var b := SetupLocks(cards);
    forall i | 0 <= i < |b.locks| ensures SetupLock(cards[i]) == Ok(b.locks[i]) {
      LockInOrder(cards, i);
    }
    if b.failure.Some? {
      FailureInOrder(cards);
    }
  }

  /** The i-th lock pushed is the i-th card's. */
  lemma {:induction false} LockInOrder(cards: seq<LockCard>, i: nat)
    requires AllPicksFit(cards) && i < |SetupLocks(cards).locks|
    ensures i < |cards| && SetupLock(cards[i]) == Ok(SetupLocks(cards).locks[i])
    decreases |cards|
  {
    var front := cards[..|cards| - 1];
    assert forall k :: 0 <= k < |front| ==> front[k] == cards[k];
    var prior := SetupLocks(front);
    var b := SetupLocks(cards);
    if prior.failure.Some? {
      LockInOrder(front, i);
    } else if i < |prior.locks| {
      LockInOrder(front, i);
      assert b.locks[i] == prior.locks[i];
    } else {
      assert i == |front| == |cards| - 1;
      assert b.locks == prior.locks + [SetupLock(cards[i]).value];
    }
  }

  /** The refusal the loop stops on is the refusing card's own error. */
  lemma {:induction false} FailureInOrder(cards: seq<LockCard>)
    requires AllPicksFit(cards) && SetupLocks(cards).failure.Some?
    ensures var f := SetupLocks(cards).failure.value;
      f.index < |cards| && SetupLock(cards[f.index]) == Err(f.error)
    decreases |cards|
  {
    var front := cards[..|cards| - 1];
    assert forall k :: 0 <= k < |front| ==> front[k] == cards[k];
    var prior := SetupLocks(front);
    if prior.failure.Some? {
      FailureInOrder(front);
    } else {
      var f := SetupLocks(cards).failure.value;
      assert f.index == |front| == |cards| - 1;
      assert SetupLock(cards[f.index]) == Err(f.error);
    }
  }

  /** One more card: the loop either pushes its lock or stops on it. */
  lemma SetupLocksStep(cards: seq<LockCard>, i: nat)
    requires AllPicksFit(cards) && i < |cards|
    requires SetupLocks(cards[..i]).failure == None
    ensures SetupLocks(cards[..i + 1]) ==
      match SetupLock(cards[i])
      case Err(e) => Built(SetupLocks(cards[..i]).locks, Some(LockFailure(i, e)))
      case Ok(l) => Built(SetupLocks(cards[..i]).locks + [l], None)
  {
    assert cards[..i + 1][..i] == cards[..i];
  }

  /** Once a card is refused, the later cards change nothing. */
  lemma {:induction false} FailureSticks(cards: seq<LockCard>, m: nat)
    requires AllPicksFit(cards) && m <= |cards|
    requires SetupLocks(cards[..m]).failure.Some?
    ensures SetupLocks(cards) == SetupLocks(cards[..m])
    decreases |cards|
  {
    if m < |cards| {
      var front := cards[..|cards| - 1];
      assert front[..m] == cards[..m];
      FailureSticks(front, m);
    } else {
      assert cards[..m] == cards;
    }
  }

  /** A card left empty draws its combination, which is always accepted. */
  lemma {:induction false} RandomCombinationsAccepted(cards: seq<LockCard>)
    requires AllPicksFit(cards)
    requires forall i :: 0 <= i < |cards| ==> cards[i].input == []
    ensures SetupLocks(cards).failure == None
  {
    if cards != [] {
      RandomCombinationsAccepted(cards[..|cards| - 1]);
      var card := cards[|cards| - 1];
      GeneratedAccepted(Resolve(card.classes).alphabet, card.picks);
    }
  }

  datatype Started = Started(next: State, failure: Option<LockFailure>)

  /**
   * `startGame`: the game-wide settings and the locks built so far are
   * recorded either way; a refused combination leaves the round unstarted
   * (setup screen, no timer, counter untouched), otherwise the round starts
   * with every lock shut, its wheels at 0, the counter at 0 and the timer on.
   */
  function StartGame(s: State, form: Form): (r: Started)
    requires AllPicksFit(form.cards)
    ensures r.next.config == form.config
    ensures r.failure.Some? ==> r.next.(config := s.config, locks := s.locks) == s
    ensures r.failure.None? ==> r.next.screen == Playing && r.next.attempts == 0
  {
    var cards := Cards(form);
    assert AllPicksFit(cards);
    var built := SetupLocks(cards);
    var configured := s.(config := form.config, locks := built.locks);
    if built.failure.Some? then Started(configured, built.failure)
    else Started(StartTimer(configured.(attempts := 0, screen := Playing)), None)
  }

  /**
   * What `startGame` leaves behind: the game-wide settings always; on a
   * refused combination nothing else but the locks pushed so far; otherwise
   * a started round with one shut lock per card, wheels at 0, the counter
   * at 0 and, when enabled, the timer running from the configured minutes.
   */
  lemma StartGameOutcome(s: State, form: Form)
    requires AllPicksFit(form.cards)
    ensures var r := StartGame(s, form); var cards := Cards(form);
      && Consistent(r.next)
      && r.next.config == form.config
      && (forall i :: 0 <= i < |r.next.locks| ==> i < |cards| && CardPicksFit(cards[i]) && SetupLock(cards[i]) == Ok(r.next.locks[i]))
      && (r.failure.Some? ==>
            && r.next.(config := s.config, locks := s.locks) == s
            && r.failure.value.index == |r.next.locks| < |cards|
            && CardPicksFit(cards[r.failure.value.index])
            && SetupLock(cards[r.failure.value.index]) == Err(r.failure.value.error))
      && (r.failure.None? ==>
            && |r.next.locks| == |cards|
            && r.next.screen == Playing
            && r.next.attempts == 0
            && (form.config.timerEnabled ==> r.next.timerRunning && r.next.timeRemaining == form.config.timerMinutes * 60)
            && (!form.config.timerEnabled ==> r.next.timerRunning == s.timerRunning && r.next.timeRemaining == s.timeRemaining))
  {
    var cards := Cards(form);
    assert AllPicksFit(cards);
    SetupLocksInOrder(cards);
  }

  /** A form whose cards are all left empty always starts the round. */
  lemma {:induction false} RandomSetupStarts(s: State, form: Form)
    requires AllPicksFit(form.cards)
    requires forall i :: 0 <= i < |form.cards| ==> form.cards[i].input == []
    ensures StartGame(s, form).failure == None
  {
    var cards := Cards(form);
    assert forall i :: 0 <= i < |cards| ==> cards[i] == form.cards[i];
    RandomCombinationsAccepted(cards);
  }

  /** The locks of a round about to be replayed. */
  function RearmAll(locks: seq<LockState>): (r: seq<LockState>)
    requires forall i :: 0 <= i < |locks| ==> LockOk(locks[i])
    ensures |r| == |locks|
    ensures forall i :: 0 <= i < |locks| ==> LockOk(r[i]) && r[i] == Fresh(locks[i].alphabet, locks[i].secret)
  {
    seq(|locks|, i requires 0 <= i < |locks| && LockOk(locks[i]) => Rearm(locks[i]))
  }

  /** One more lock re-armed: the first `i` locks re-armed, the rest as they were. */
  lemma {:induction false} RearmAllStep(locks: seq<LockState>, i: nat)
    requires forall j :: 0 <= j < |locks| ==> LockOk(locks[j])
    requires i < |locks|
    ensures var done := RearmAll(locks[..i]) + locks[i..];
      && done[i] == locks[i]
      && done[i := Rearm(locks[i])] == RearmAll(locks[..i + 1]) + locks[i + 1..]
  {
    var done := RearmAll(locks[..i]) + locks[i..];
    var next := RearmAll(locks[..i + 1]) + locks[i + 1..];
    assert forall j :: 0 <= j < |locks| ==> done[i := Rearm(locks[i])][j] == next[j];
  }

  /**
   * "Play again" / "retry": back to the game screen, then `resetGame` stops
   * the timer, zeroes the counter, shuts every lock with its wheels at 0
   * (same secrets, same alphabets) and starts the timer again.
   */
  function PlayAgain(s: State): (r: State)
    requires Consistent(s)
    ensures Consistent(r) && |r.locks| == |s.locks|
    ensures r.screen == Playing && r.attempts == 0 && r.config == s.config
    ensures forall i :: 0 <= i < |s.locks| ==>
      && !r.locks[i].unlocked
      && r.locks[i].secret == s.locks[i].secret
      && r.locks[i].alphabet == s.locks[i].alphabet
      && r.locks[i].wheels == Zeros(|s.locks[i].wheels|)
    ensures s.config.timerEnabled ==> r.timerRunning && r.timeRemaining == s.config.timerMinutes * 60
    ensures !s.config.timerEnabled ==> !r.timerRunning && r.timeRemaining == s.timeRemaining
  {
    var stopped := StopTimer(s.(screen := Playing));
    StartTimer(stopped.(attempts := 0, locks := RearmAll(s.locks)))
  }

  /** "New game" and the admin "end game": the setup screen, timer stopped. */
  function ShowSetup(s: State): (r: State)
    ensures r.screen == Setup && !r.timerRunning
    ensures r.(screen := s.screen, timerRunning := s.timerRunning) == s
  {
    StopTimer(s).(screen := Setup)
  }

  /** A replayed round is won by the same wheel settings as before. */
  lemma {:induction false} ReplayKeepsSolutions(s: State, i: nat)
    requires Consistent(s) && i < |s.locks|
    ensures Solution(PlayAgain(s).locks[i]) == Solution(s.locks[i])
  {
  }
}
