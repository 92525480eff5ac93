/**
 * The countdown: started from the configured minutes, decremented by one on
 * every one-second tick, with a warning signal at 60 seconds (when enabled),
 * a danger signal at 10 seconds and the lose outcome once it reaches zero.
 * Also the `MM:SS` text of the timer display.
 */
module Countdown {
  import opened Puzzle

  /** `startTimer`: a disabled timer never starts. */
  function StartTimer(s: State): (r: State)
    ensures !s.config.timerEnabled ==> r == s
    ensures s.config.timerEnabled ==> r.timerRunning && r.timeRemaining == s.config.timerMinutes * 60
    ensures r.(timeRemaining := s.timeRemaining, timerRunning := s.timerRunning) == s
  {
    if !s.config.timerEnabled then s
    else s.(timeRemaining := s.config.timerMinutes * 60, timerRunning := true)
  }

  /** The display changes a tick asks for; `expired` also ends the round. */
  datatype Signals = Signals(warning: bool, danger: bool, expired: bool)

  datatype Ticked = Ticked(next: State, signals: Signals)

  /**
   * One tick of the interval: take one second off, raise the threshold
   * signals the new value calls for, and lose the round once no time is left.
   * Ticks only arrive while the interval is installed.
   */
  function Tick(s: State): (t: Ticked)
    requires s.timerRunning
    ensures t.next.timeRemaining == s.timeRemaining - 1
    ensures t.signals.warning <==> s.config.timerWarning && t.next.timeRemaining == 60
    ensures t.signals.danger <==> t.next.timeRemaining == 10
    ensures t.signals.expired <==> t.next.timeRemaining <= 0
    ensures t.signals.expired ==> t.next.screen == Lost(TimeExpired) && !t.next.timerRunning
    ensures !t.signals.expired ==> t.next.screen == s.screen && t.next.timerRunning
    ensures t.next.(timeRemaining := s.timeRemaining, screen := s.screen, timerRunning := true) == s
  {
    var left := s.timeRemaining - 1;
    var counted := s.(timeRemaining := left);
    var signals := Signals(s.config.timerWarning && left == 60, left == 10, left <= 0);
    if left <= 0 then Ticked(TriggerLose(counted, TimeExpired), signals)
    else Ticked(counted, signals)
  }

  /** `count` seconds of wall-clock time: a tick each second while the timer runs. */
  function Ticks(s: State, count: nat): (r: State)
    ensures r.locks == s.locks && r.attempts == s.attempts && r.config == s.config
    ensures r.timeRemaining <= s.timeRemaining
    ensures r.timerRunning ==> r.screen == s.screen
    ensures !s.timerRunning ==> r == s
  {
    if count == 0 then s
    else
      var p := Ticks(s, count - 1);
      if p.timerRunning then Tick(p).next else p
  }

  /**
   * A running countdown with `s.timeRemaining` seconds left keeps running
   * through every earlier second, loses exactly at the tick that reaches 0,
   * and nothing changes after that: no tick applies once the timer stopped.
   */
  lemma {:induction false} CountdownRunsOut(s: State, count: nat)
    requires s.timerRunning && s.timeRemaining >= 1
    ensures count < s.timeRemaining ==>
      && Ticks(s, count).timeRemaining == s.timeRemaining - count
      && Ticks(s, count).timerRunning
      && Ticks(s, count).screen == s.screen
    ensures count >= s.timeRemaining ==>
      && Ticks(s, count).timeRemaining == 0
      && !Ticks(s, count).timerRunning
      && Ticks(s, count).screen == Lost(TimeExpired)
    ensures Ticks(s, count).locks == s.locks && Ticks(s, count).attempts == s.attempts
  {
    if count > 0 {
      CountdownRunsOut(s, count - 1);
    }
  }

  /** Admin "add time": five more minutes, nothing else changes. */
  function AddTime(s: State): (r: State)
    ensures r.timeRemaining == s.timeRemaining + 300
    ensures r.(timeRemaining := s.timeRemaining) == s
  {
    s.(timeRemaining := s.timeRemaining + 300)
  }

  // ----- The timer display -----

  /** `Math.floor(t / 60)`: Dafny's division by a positive divisor is floor division. */
  function DisplayMinutes(t: int): (m: int)
    ensures m * 60 <= t < m * 60 + 60
  {
    t / 60
  }

  /**
   * `t % 60` in JavaScript: the remainder of the division truncated toward
   * zero, so it is never further from 0 than 59 and takes the sign of `t`
   * (a multiple of 60 gives 0).
   */
  function DisplaySeconds(t: int): (r: int)
    ensures -60 < r < 60 && (t - r) % 60 == 0
    ensures t >= 0 ==> r >= 0
    ensures t <= 0 ==> r <= 0
  {
    if t >= 0 then t % 60 else -((-t) % 60)
  }

  /**
   * For a non-negative remaining time the display splits it exactly into
   * whole minutes and seconds below 60.  A negative time (reachable when the
   * round starts with no time or with a negative number of minutes) shows a
   * seconds part between -59 and 0.
   */
  lemma DisplaySplit(t: int)
    ensures t >= 0 ==> DisplayMinutes(t) >= 0 && DisplayMinutes(t) * 60 + DisplaySeconds(t) == t
    ensures t >= 0 ==> 0 <= DisplaySeconds(t) < 60
    ensures t < 0 ==> DisplayMinutes(t) < 0 && -60 < DisplaySeconds(t) <= 0
  {
  }

  function DigitChar(d: nat): char
    requires d < 10
  {
    ('0' as int + d) as char
  }

  predicate IsDigit(c: char) {
    '0' <= c <= '9'
  }

  /** `toString` of a natural number. */
  function NatDigits(n: nat): (r: string)
    ensures |r| >= 1 && forall k :: 0 <= k < |r| ==> IsDigit(r[k])
  {
    if n < 10 then [DigitChar(n)] else NatDigits(n / 10) + [DigitChar(n % 10)]
  }

  /** `toString` of an integer. */
  function DecimalString(n: int): string {
    if n < 0 then "-" + NatDigits(-n) else NatDigits(n)
  }

  /**
   * `padStart(2, '0')`: the decimal text, preceded by as many zeros as bring
   * it to two characters; a text of two or more characters is kept as is.
   */
  function Pad2(n: int): (r: string)
    ensures |r| == if |DecimalString(n)| < 2 then 2 else |DecimalString(n)|
    ensures forall k :: 0 <= k < |DecimalString(n)| ==> r[|r| - |DecimalString(n)| + k] == DecimalString(n)[k]
    ensures forall k :: 0 <= k < |r| - |DecimalString(n)| ==> r[k] == '0'
    ensures -10 < n < 100 ==> |r| == 2
  {
    var d := DecimalString(n);
    assert 10 <= n < 100 ==> |NatDigits(n / 10)| == 1 && d == NatDigits(n / 10) + [DigitChar(n % 10)];
    if |d| < 2 then "0" + d else d
  }

  /**
   * The text `updateTimerDisplay` writes: at least five characters, and
   * exactly `MM:SS`'s five for any time from 0 up to 99:59.
   */
  function Clock(t: int): (r: string)
    ensures |r| >= 5
    ensures 0 <= t < 6000 ==> |r| == 5
  {
    ClockWidth(t);
    Pad2(DisplayMinutes(t)) + ":" + Pad2(DisplaySeconds(t))
  }

  /** Both halves of the display are at least two characters, and exactly two below 100 minutes. */
  lemma ClockWidth(t: int)
    ensures |Pad2(DisplayMinutes(t))| >= 2 && |Pad2(DisplaySeconds(t))| >= 2
    ensures 0 <= t < 6000 ==> |Pad2(DisplayMinutes(t))| == 2 && |Pad2(DisplaySeconds(t))| == 2
  {
    MinutesBelow100(t);
  }

  lemma MinutesBelow100(t: int)
    ensures 0 <= t < 6000 ==> 0 <= DisplayMinutes(t) < 100
  {
  }

  /** Reading a string of decimal digits back as a number. */
  function ParseDigits(s: string): nat
    requires forall k :: 0 <= k < |s| ==> IsDigit(s[k])
  {
    if s == [] then 0
    else
      var last := s[|s| - 1];
      assert IsDigit(last);
      ParseDigits(s[..|s| - 1]) * 10 + (last as int - '0' as int)
  }

  /** Reading `MM:SS` back as seconds. */
  function ParseClock(c: string): int
    requires |c| >= 3
    requires forall k :: 0 <= k < |c| && k != |c| - 3 ==> IsDigit(c[k])
  {
    ParseDigits(c[..|c| - 3]) * 60 + ParseDigits(c[|c| - 2..])
  }

  lemma {:induction false} ParseNatDigits(n: nat)
    ensures ParseDigits(NatDigits(n)) == n
  {
    if n >= 10 {
      ParseNatDigits(n / 10);
      var d := NatDigits(n);
      assert d[..|d| - 1] == NatDigits(n / 10);
    }
  }

  lemma {:induction false} ParseLeadingZero(s: string)
    requires forall k :: 0 <= k < |s| ==> IsDigit(s[k])
    ensures ParseDigits("0" + s) == ParseDigits(s)
  {
    if s != [] {
      ParseLeadingZero(s[..|s| - 1]);
      assert ("0" + s)[..|s|] == "0" + s[..|s| - 1];
    }
  }

  lemma {:induction false} PadNat(n: nat)
    ensures forall k :: 0 <= k < |Pad2(n)| ==> IsDigit(Pad2(n)[k])
    ensures ParseDigits(Pad2(n)) == n
    ensures n < 100 ==> |Pad2(n)| == 2
  {
    ParseNatDigits(n);
    if |NatDigits(n)| < 2 {
      ParseLeadingZero(NatDigits(n));
    }
    if 10 <= n < 100 {
      assert |NatDigits(n / 10)| == 1;
    }
  }

  /**
   * For any non-negative remaining time the display reads minutes, a colon
   * and two seconds digits, and reading it back gives the remaining time.
   */
  lemma {:induction false} ClockRoundTrip(t: int)
    requires t >= 0
    ensures |Clock(t)| >= 5 && Clock(t)[|Clock(t)| - 3] == ':'
    ensures forall k :: 0 <= k < |Clock(t)| && k != |Clock(t)| - 3 ==> IsDigit(Clock(t)[k])
    ensures ParseClock(Clock(t)) == t
  {
    DisplaySplit(t);
    var m, sec := DisplayMinutes(t), DisplaySeconds(t);
    PadNat(m);
    PadNat(sec);
    var mm, ss := Pad2(m), Pad2(sec);
    assert Clock(t) == mm + ":" + ss;
    JoinDigits(mm, ss);
  }

  /** Two digit strings joined by a colon, the second of two digits, split back apart. */
  lemma JoinDigits(a: string, b: string)
    requires |a| >= 2 && |b| == 2
    requires forall k :: 0 <= k < |a| ==> IsDigit(a[k])
    requires forall k :: 0 <= k < |b| ==> IsDigit(b[k])
    ensures var c := a + ":" + b;
      && |c| == |a| + 3 && c[|c| - 3] == ':'
      && (forall k :: 0 <= k < |c| && k != |c| - 3 ==> IsDigit(c[k]))
      && c[..|c| - 3] == a && c[|c| - 2..] == b
  {
    var c := a + ":" + b;
    assert forall k :: 0 <= k < |c| && k != |c| - 3 ==> c[k] == if k < |a| then a[k] else b[k - |a| - 1];
  }
}
