# Combination-lock puzzle engine, modelled in Dafny

The game is an escape-room style browser puzzle. On the setup screen the host
configures one or more locks. Each lock has a number of wheels and the
character classes on its wheels (digits, upper-case letters, ten symbols).
Each lock also gets a combination, typed in or drawn at random. Game-wide
settings are a countdown in minutes (with an optional one-minute warning) and
an optional attempt limit.

During the round the player turns wheels up and down and presses "check":
- the attempt is counted;
- every shut lock whose wheels spell its secret opens;
- the round is won when every lock is open;
- an attempt that opened nothing is wrong, and can lose the round once the
  attempt limit is reached;
- an attempt that opened something but not everything is partial progress.

The countdown ticks once a second and loses the round when it reaches zero.
"Play again" re-arms the same locks; "new game" goes back to setup.

The model has two layers.
- Pure modules describe the engine on values:
  - `Charset`: the wheel alphabet of a lock;
  - `Combination`: upper-casing, random drawing and validation of a combination;
  - `Locks`: one lock's wheels, rotation, reset, opening and re-arming;
  - `Puzzle`: the game state and the attempt check;
  - `Countdown`: the timer and its `MM:SS` display;
  - `Lifecycle`: starting, replaying and leaving a round.
- `Session` is the page as it runs. `Lock` objects keep their wheels in an
  `array<int>` and their open flag in a field. A `Game` object holds the lock
  list, the settings, the attempt counter, the countdown and the screen.
  Every `Game` method is proved to move its abstract `Model()` exactly as the
  matching pure function does. The lemmas about those functions therefore
  hold for the running page too.

`Math.random` is replaced by caller-supplied picks, one per wheel, each an
index into the lock's alphabet. The form fields `startGame` reads become a
`Form` value. A clock tick is a method call.

## Model

| member | source | states |
|---|---|---|
| Charset.Resolve | app.js:277-298 | The alphabet is never empty and is the enabled classes concatenated as digits, letters, symbols. With no class enabled it is the digits and the numbers box is ticked again; otherwise the boxes are kept. |
| Charset.ResolveDistinct | app.js:277-298 | A resolved alphabet never lists a character twice, so each character has exactly one wheel position. |
| Charset.ResolveMembership | app.js:277-298 | A character is on the wheels exactly when it belongs to a class whose box is ticked after resolution. |
| Charset.ResolveHasNoLowerCase | app.js:277-298 | No wheel carries an ASCII lower-case letter. |
| Charset.ResolveSize | app.js:277-298 | The alphabet has 10, 26 and 10 characters per enabled class, or 10 when none is enabled. |
| Combination.Upper | app.js:473 | Upper-casing keeps the length, leaves no lower-case letter, shifts each lower-case letter by 32 and keeps every other character. |
| Combination.Truncate | app.js:254-259 | Changing the digit count keeps an over-long entry's first `digitCount` characters and leaves a shorter one alone. |
| Combination.Drawn | app.js:261-269 | A drawn combination has one character per pick, and each character is on the wheels. |
| Combination.Generate | app.js:475-481 | The random loop yields exactly `digitCount` characters, the k-th being the alphabet character at the k-th pick. |
| Combination.ValidateCombination | app.js:483-495 | The entry is accepted exactly when its length equals `digitCount` and every character is on the wheels. The length error is reported exactly when the length is wrong. |
| Combination.GeneratedAccepted | app.js:475-495 | A drawn combination always passes both checks. |
| Combination.UpperFixesAccepted | app.js:473-495 | Upper-casing an accepted combination leaves it unchanged. |
| Combination.UpperCaseInsensitive | app.js:473-495 | An entry is accepted exactly when it has the right length and its upper-cased characters are all on the wheels. |
| Locks.Fresh | app.js:460-470 | A new lock is shut, has the given alphabet and secret and one wheel per secret character, all at 0. It is well-formed whenever the alphabet is non-empty and duplicate-free and holds every secret character. |
| Locks.Combination | app.js:730-733 | One character per wheel, in wheel order: the alphabet character the wheel stands on, so always a character on the wheels. |
| Locks.UniqueSolution | app.js:730-733 | A lock's wheels spell its secret exactly when they stand on the one solution setting. |
| Locks.RotateLock | app.js:696-704 | An open lock does not move. On a shut lock only the turned wheel moves, one step with wrap-around in either direction. All indices stay on the alphabet. |
| Locks.RotateInverse | app.js:696-704 | A turn up followed by a turn down, or the reverse, restores the lock. |
| Locks.TurnForwardPosition | app.js:696-704 | `count` turns up leave a shut lock's wheel at its old index plus `count` modulo the alphabet size. No other wheel moves. |
| Locks.FullRevolution | app.js:696-704 | As many turns as the alphabet has characters bring the lock back to where it was. |
| Locks.UnlockedStays | app.js:698 | No number of turns moves an open lock. |
| Locks.ResetLock | app.js:719-726 | A shut lock's wheels all go to 0. An open lock is left as it is. Secret, alphabet and open flag are kept. |
| Locks.TryOpen | app.js:743-750 | Wheels, secret and alphabet are kept. The lock is open afterwards exactly when it was open or its wheels spelled its secret. |
| Locks.TryOpenIdempotent | app.js:743 | Checking a lock a second time changes nothing. |
| Locks.Rearm | app.js:873-876 | A re-armed lock is shut, its wheels are at 0, and its secret and alphabet are kept. |
| Puzzle.StopTimer | app.js:850-856 | Afterwards no timer runs, and nothing else changes; stopping twice is stopping once. |
| Puzzle.TriggerWin | app.js:773-774 | The win screen with the countdown stopped; nothing else changes. |
| Puzzle.TriggerLose | app.js:789-791 | The lose screen with its reason and the countdown stopped; nothing else changes. |
| Puzzle.RotateWheel | app.js:696-704 | Only the addressed lock can change, by `RotateLock`. Every other lock and every other part of the state is kept. |
| Puzzle.ResetAllWheels | app.js:718-728 | Every lock stays well-formed. What the reset does is stated by `Puzzle.ResetAllWheelsOutcome`. |
| Puzzle.ResetAllWheelsOutcome | app.js:718-728 | Every shut lock has all wheels at 0. Open locks and every other part of the state are kept. |
| Puzzle.Check | app.js:735-793 | Every lock stays well-formed. What an attempt does is stated by `Puzzle.CheckOutcome`. |
| Puzzle.CheckOutcome | app.js:735-793 | The counter goes up by exactly one. Each lock keeps its wheels and secret, and is open afterwards exactly when it was open or its wheels spelled its secret. The result is a win exactly when all locks are open, and wrong exactly when some lock is shut and none opened. A win or a wrong attempt at the limit stops the timer on the outcome screen; otherwise screen and timer are kept. |
| Puzzle.CheckFromFlags | app.js:771-792 | The outcome follows from the two flags the page computes (all locks open, any lock newly opened). |
| Puzzle.RepeatedWrongAttempts | app.js:775-791 | With some lock shut and no shut lock set right, every further attempt is wrong and opens nothing. The counter climbs by one each time, and the round is lost exactly on the attempt that reaches a positive limit. |
| Puzzle.PartialProgressNeverLoses | app.js:771-792 | An attempt that opens one of two shut locks is partial progress. It never loses and leaves the screen unchanged. |
| Countdown.StartTimer | app.js:818-825 | A disabled timer never starts. Otherwise it runs from `timerMinutes * 60`. Nothing else changes. |
| Countdown.Tick | app.js:827-847 | A tick takes exactly one second off. The warning is signalled exactly at 60 when enabled, danger exactly at 10, and expiry exactly at 0 or below, which loses the round and stops the timer. Nothing else changes. |
| Countdown.Ticks | app.js:827 | Ticks never touch the locks, the counter or the settings, and never add time. A stopped timer gets no ticks, and while the timer still runs the screen is as it was. |
| Countdown.CountdownRunsOut | app.js:827-847 | A countdown started with `t` seconds runs and keeps its screen for the first `t - 1` ticks. It loses at tick `t` with 0 left, and later seconds change nothing. Locks and counter are untouched. |
| Countdown.AddTime | app.js:336-340 | Adds exactly 300 seconds and changes nothing else. |
| Countdown.DisplayMinutes | app.js:859 | `Math.floor(t / 60)`: the largest whole number of minutes whose seconds do not exceed `t`. |
| Countdown.DisplaySeconds | app.js:860 | JavaScript's `%`: a remainder between -59 and 59 that differs from `t` by a multiple of 60 and is never of the opposite sign to `t`. |
| Countdown.Pad2 | app.js:862-863 | `padStart(2, '0')`: the decimal text ends the result, preceded by zeros up to two characters; longer texts are kept. Numbers from -9 to 99 give exactly two characters. |
| Countdown.Clock | app.js:858-864 | The display text has at least five characters, and exactly five for any time from 0 up to 99:59. |
| Countdown.DisplaySplit | app.js:858-864 | For a non-negative time, minutes times 60 plus seconds is the time, with seconds below 60. For a negative time the minutes are negative and the seconds part lies between -59 and 0 (0 for a multiple of 60). |
| Countdown.ClockRoundTrip | app.js:858-864 | For a non-negative time the display is digits, a colon and two digits, and reading it back gives the time. |
| Lifecycle.Entered | app.js:473-481 | A typed entry is upper-cased. An empty entry is replaced by a draw of exactly `digitCount` characters, all on the wheels. |
| Lifecycle.Cards | app.js:456-458 | The visited cards are the first `lockCount` cards, or all of them when fewer exist, in order; none for a non-positive count. |
| Lifecycle.SetupLock | app.js:460-498 | A card yields a lock exactly when its upper-cased or drawn combination passes validation. The lock is then shut with all wheels at 0 and its secret on its distinct-character wheels. |
| Lifecycle.SetupLocks | app.js:456-499 | Without a refusal there is one lock per card. A refusal names the card index, which equals the number of locks pushed before it. |
| Lifecycle.SetupLocksInOrder | app.js:456-499 | The i-th lock is built from the i-th card. The refusal that stops the loop is that card's own error. |
| Lifecycle.FailureSticks | app.js:484-494 | Once a card is refused, the later cards change nothing. |
| Lifecycle.RandomCombinationsAccepted | app.js:475-495 | Cards whose entries are all empty are never refused. |
| Lifecycle.StartGame | app.js:434-511 | The settings are recorded. A refusal changes nothing else but the locks; a started round is on the game screen with counter 0. The rest is stated by `Lifecycle.StartGameOutcome`. |
| Lifecycle.StartGameOutcome | app.js:434-511 | The settings are recorded either way. On a refusal only the locks before the refused card are kept, nothing else changes and the round does not start. Otherwise the round starts with one fresh lock per card, counter 0, the game screen, and the timer from the configured minutes when enabled. |
| Lifecycle.RandomSetupStarts | app.js:434-511 | A form whose cards are all left empty always starts the round. |
| Lifecycle.RearmAll | app.js:873-876 | Every lock is shut again with its wheels at 0, keeping its secret and alphabet. |
| Lifecycle.PlayAgain | app.js:866-883 | Replaying keeps the configuration and gives the game screen and counter 0. Every lock is shut with its wheels at 0 and keeps its secret and alphabet. The timer restarts from the configured minutes when enabled. |
| Lifecycle.ReplayKeepsSolutions | app.js:381-390 | A replayed round is won by the same wheel settings as the previous one. |
| Lifecycle.ShowSetup | app.js:347-351 | "End game" and "new game" show the setup screen with the timer stopped; nothing else changes. |
| Session.Lock.constructor | app.js:460-470 | A new lock has the given alphabet and secret, all wheels at 0 in a fresh array, and is shut. |
| Session.Lock.ZeroWheels | app.js:721-724 | The loop sets every wheel of the lock to 0 and changes nothing else. |
| Session.Lock.TryOpen | app.js:743-750 | The lock moves as `Locks.TryOpen` says, and the flag reports exactly whether it just opened. |
| Session.Lock.Rearm | app.js:873-876 | The lock moves as `Locks.Rearm` says, with a fresh wheel array. |
| Session.BuildLock | app.js:460-498 | One pass of the setup loop. Its refusal, or the fresh lock it builds, is exactly what `Lifecycle.SetupLock` gives. |
| Session.Game.constructor | app.js:4-47 | The page starts on the setup screen with the default settings, no locks, no attempts and no timer. |
| Session.Game.CurrentCombination | app.js:730-733 | One wheel character per wheel, in wheel order. It equals the secret exactly when the wheels stand on the solution. |
| Session.Game.RotateWheel | app.js:696-704 | In-place update of one wheel array. The state moves as `Puzzle.RotateWheel` says. |
| Session.Game.ResetLockWheels | app.js:719-726 | One lock of the reset loop moves as `Locks.ResetLock` says. The other locks are kept. |
| Session.Game.ResetAllWheels | app.js:718-728 | The nested reset loop moves the state as `Puzzle.ResetAllWheels` says. |
| Session.Game.PushLock | app.js:484-498 | A refused card leaves the lock list alone and reports its error. An accepted one appends exactly `SetupLock`'s lock. |
| Session.Game.AppendLock | app.js:498 | `push` appends exactly the new lock's contents. Every other field is kept and the locks stay distinct objects. |
| Session.Game.VisitCard | app.js:460-498 | One pass over a present card extends the locks as `SetupLocks` does for one more card. On a refusal the state is already `SetupLocks`' final result for the whole form. |
| Session.Game.InstallLocks | app.js:434-499 | The settings are recorded. The lock list is rebuilt as `SetupLocks` of the visited cards and stops at the same refusal. |
| Session.Game.StartGame | app.js:434-511 | The state and the refusal are exactly those of `Lifecycle.StartGame`. |
| Session.Game.StopTimer | app.js:850-856 | The state moves as `Puzzle.StopTimer` says. |
| Session.Game.StartTimer | app.js:818-825 | The state moves as `Countdown.StartTimer` says. |
| Session.Game.TriggerWin | app.js:335 | The state moves as `Puzzle.TriggerWin` says; this is also the admin "win" button. |
| Session.Game.TriggerLose | app.js:790 | The state moves as `Puzzle.TriggerLose` says. |
| Session.Game.OpenLock | app.js:743-750 | One lock of the check loop moves as `Locks.TryOpen` says. The flag reports whether it just opened. |
| Session.Game.OpenShutLocks | app.js:742-769 | The loop opens the locks as `Puzzle.OpenMatching` says. `anyCorrect` is true exactly when some lock newly opened. |
| Session.Game.CountAttempt | app.js:736-771 | The counter goes up by one and the locks open as `Puzzle.OpenMatching` says. The two flags are exactly "all open" and "some lock newly opened". |
| Session.Game.CheckAllCombinations | app.js:735-793 | The state and the result are exactly those of `Puzzle.Check`. |
| Session.Game.Tick | app.js:827-847 | The state and the signals are exactly those of `Countdown.Tick`. |
| Session.Game.AddTime | app.js:336-340 | The state moves as `Countdown.AddTime` says. |
| Session.Game.ShowSetup | app.js:347-351 | The state moves as `Lifecycle.ShowSetup` says. |
| Session.Game.RearmLock | app.js:873-876 | One lock of the replay loop moves as `Locks.Rearm` says. The other locks are kept. |
| Session.Game.RearmLocks | app.js:873-876 | The replay loop re-arms every lock as `Lifecycle.RearmAll` says. |
| Session.Game.PlayAgain | app.js:381-384 | "Play again" and "retry" (`showScreen('game')` then `resetGame`) move the state as `Lifecycle.PlayAgain` says. |

## Left out

- Sound: the Web Audio effects are side effects with floating-point parameters.
- Rendering is left out because it has no effect on the game state:
  - the markup of the setup cards, locks and wheels;
  - the wheel pixel offsets;
  - the screen classes, the warning/danger styling and the confetti.
- The timer's warning and danger styling appear only as the signals a tick returns.
- Gestures (click halves, mouse wheel, drags) are modelled only as the `rotateWheel` call they make.
- Real time is not modelled: `setInterval`, `clearInterval` and `Date.now`. A tick is a method call, and a running interval is the `timerRunning` flag.
- `startGame` does not stop a running timer before it calls `startTimer`. The page only reaches the start button on the setup screen, and showing that screen stops the timer. With the timer disabled, `Lifecycle.StartGame` keeps `timerRunning` as it was.
- Browser I/O is left out: `alert` texts, fullscreen, the keyboard shortcut, the leave-page guard, the hint modal and the admin password modal. Admin actions are plain methods.
- The admin "show solution" alert only displays the secrets and changes no state.
- The bodies of `triggerWin` and `triggerLose` are not part of this model. They are modelled as setting the outcome screen and stopping the timer. The lose reason is a tag, not the message text.
- Lock names, welcome/win/lose/hint texts, theme, colours and the display flags (`showHintBtn`, `showAttempts`, `soundEnabled`, `fullscreenMode`) have no bearing on the engine. Neither has the copy of the lock count kept in `gameConfig.lockCount`, which only picks the CSS class of the lock row; `Form` carries the count `startGame` loops over.
- The per-lock checkbox copies kept on each lock are not modelled. `gameState.allLocksUnlocked` and `startTime` are written but never read in the code modelled here; the bodies of `triggerWin` and `triggerLose` are not part of this model, so a read there is not ruled out.
- The write-back of the corrected numbers checkbox into the settings card is not modelled. `Charset.Resolve` returns the corrected checkboxes, but the cards are inputs of the model, not part of its state.
- Combination.ValidateCombination: lengths are counted in Unicode characters. The page compares `combo.length`, counted in UTF-16 code units, and walks the characters by code point. For an entry with a character outside the Basic Multilingual Plane (for example an emoji), the page and the model can report different errors, wrong length against invalid characters. Both refuse such an entry, because no wheel carries such a character.
- Combination.Truncate: cuts after `digitCount` Unicode characters, while `substring` cuts after `digitCount` UTF-16 code units. The two differ only for entries with characters outside the Basic Multilingual Plane.
- `parseInt` of the form fields is not modelled: the `Form` value carries the numbers already parsed.
- Numbers are modelled as unbounded integers. The page's numbers are IEEE doubles: exact only up to 2^53, and printed by `toString` in exponent notation from 10^21 on. Only absurd settings reach either bound, since `parseInt` accepts any number of minutes.
- Countdown.Tick: takes off exactly one second at every value. On the page, `timeRemaining--` leaves a value above 2^53 unchanged, so a countdown from more than about 1.5·10^14 minutes stalls.
- Countdown.CountdownRunsOut: proves the loss at tick t for every t, which holds on the page only up to 2^53 seconds, for the reason given for `Countdown.Tick`.
- Countdown.Pad2: writes out every decimal digit. `toString` writes a number of 10^21 or more in exponent notation ("1e+21"), so the page's display differs from `Countdown.Clock` for more than 10^21 minutes.
- A lock's digit count is the length of its validated secret.
- Combination.Upper: upper-cases ASCII letters only and keeps every other character. JavaScript's `toUpperCase` also maps some non-ASCII letters onto ASCII capitals (for example 'ß' to "SS"). The page can accept such an entry where the model refuses it.
- Combination.Generate: the picks are supplied, so uniformity of `Math.random` is not modelled.
