# Pomato core, modelled in Dafny

Pomato is a terminal pomodoro timer. Its core has four parts. This project
models each part with clock readings and keyboard bytes passed in as
arguments:

- **Cycle controller** (`pomodoroMode`). It runs one round after another.
  A round is `longBreakEach` pomodoros. Each pomodoro is followed by a
  break, and the last break of the round is the long one. Notifications
  can bracket each break. The controller may wait for Return after a short
  break, and it always waits for Return at the end of a round. One round
  is modelled as the trace of calls it makes (`Cycle.Action`).
- **Countdown engine** (`countDown`). It draws `msg: m:ss/total`, then
  reacts to one-second ticks and to space presses. A press pauses or
  resumes the countdown. The loop ends on the first tick whose rounded
  remaining time is at most zero. The engine is modelled twice:
  - as a `Timer` value with one transition function per event;
  - as a `CountdownState` class whose methods update its fields in place and
    are proved equal to those transitions.
- **Byte consumers.** `waitForReturn` takes bytes up to and including the
  first newline. The space listener signals on each space byte.
- **Configuration.**
  - The `Pomato` settings record and its defaults.
  - The six `With*` options, each a one-field update.
  - `NewPomato`, which applies the options left to right.
  - The command's `buildOptions`, which turns configured values into
    options.

Durations are integer nanoseconds, as in Go's `time.Duration`.
`math.Round` on float seconds is modelled as exact rounding half away from
zero on the nanosecond count (`Durations.RoundSeconds`). Go's `/` and `%`
truncate toward zero; they are written out as `Durations.Quot` and
`Durations.Rem`, because Dafny's operators are Euclidean.

Files:
- `durations.dfy`: time units, truncating division, rounding.
- `config.dfy`: the record, the options, `NewPomato`.
- `cli.dfy`: `buildOptions`.
- `keys.dfy`: the byte consumers.
- `countdown.dfy`: `countDown`.
- `cycle.dfy`: `pomodoroMode`.

### Behaviour of the code worth knowing (the model keeps it)

- **Pause and resume drift.** A pause is meant to push the deadline back
  by exactly the time spent paused. The code instead sets the deadline on
  resume to `now` plus `time.Duration(leftSeconds) * time.Second`
  (pomato.go:133), where `leftSeconds` is a float count of seconds; the
  conversion drops its fractional part, so each resume loses up to one
  second. `Countdown.DeadlineDrift` proves the exact amount lost and its
  bound; `Countdown.ResumeDropsFraction` shows a pause with 1.5 s left
  that resumes with 1 s left.
- **Display arithmetic.** `m:ss` comes from Go's truncating `/` and `%`
  (pomato.go:107), not from floor division and modulo; the two differ
  only on negative remainders.
- **The final frame.** The last tick draws whatever the rounded remainder
  is, which is not always `0:00`. `Countdown.OnTick` proves it is `0`
  when the tick comes less than half a second after the deadline. Even
  with ticks exactly on time, a duration whose fraction is exactly half a
  second (2.5 s, say) ends half a second past the deadline and draws -1,
  shown as `0:-1`; so does a duration of at most half a second
  (`Countdown.LastOnTimeTick`). A late tick can draw a negative value too.
- **Boolean options.** `autostart-next` and `show-notification` become
  options only when the key is present in the configuration file
  (`InConfig`, cmd/main.go:94-99); a value given only as a flag is
  ignored.
- **The long-break end notification** uses `notifyStart`, not
  `notifyEnd` (pomato.go:61).

## Model

| member | source | states |
|---|---|---|
| Durations.Quot | pomato.go:106-107 | Go's truncating quotient: it lies between a/b and zero |
| Durations.Rem | pomato.go:106-107 | Go's remainder: quotient times divisor plus remainder gives the dividend back; the remainder is below the divisor in size and has the dividend's sign |
| Durations.RoundSeconds | pomato.go:103-104 | `math.Round` on seconds: the result is within half a second of the duration, ties go away from zero |
| Durations.TruncSeconds | pomato.go:133 | `time.Duration(leftSeconds)`: whole seconds toward zero, never more than the duration in size |
| Durations.RoundSecondsUnique | pomato.go:103-104 | the rounding is the only whole number of seconds satisfying those bounds |
| Durations.RoundSecondsNonPositive | pomato.go:121-124 | the rounded value is at most zero exactly when less than half a second remains; it is zero exactly within half a second of zero |
| Durations.RoundSecondsExamples | pomato.go:103 | 30.5 s rounds to 31, 30.49 s to 30, -0.5 s to -1 |
| Config.Apply | option.go:7-41 | an option sets its own field to the captured value verbatim, with no validation, and leaves the other five fields unchanged |
| Config.ApplyIdempotent | option.go:8-10 | applying the same option twice equals applying it once |
| Config.ApplyLaterWins | option.go:9 | of two options on the same field, the later one decides |
| Config.ApplyCommutes | option.go:7-41 | options on different fields commute |
| Config.ApplyAllAppend | pomato.go:241-243 | running a list of options in order composes over concatenation |
| Config.ApplyAllUntouched | pomato.go:241-243 | a field that no option targets keeps its starting value |
| Config.ApplyAllLastWins | pomato.go:241-243 | a field takes the value of the last option that targets it |
| Config.NewPomato | pomato.go:231-245 | the loop applies the options to the defaults left to right; with no options the result is 25 min, 5 min, 15 min, 4, false, true |
| Cli.TimeUnit | cmd/main.go:78-81 | the unit is one second exactly when the string is `"s"`, and one minute for any other string |
| Cli.OptionFor | cmd/main.go:82-99 | each appended option targets its field and carries `i * timeUnit`, the round count unchanged, or the configured boolean |
| Cli.OptionsShape | cmd/main.go:76-100 | at most six options, in the fixed order pomodoro, break, long break, each, autostart, notification; a field has an option exactly when its guard holds (`> 0`, or the key is in the configuration file), and the option carries the configured value |
| Cli.BuildOptions | cmd/main.go:76-101 | the six guarded appends build exactly that list |
| Cli.StartupField | cmd/main.go:76-101 | after `NewPomato(buildOptions()...)`, a field with an option holds the configured value and every other field holds its default |
| Cli.StartupSettings | cmd/main.go:76-101 | the record the command starts with, field by field: positive numbers and keys present in the file replace the defaults, and everything else keeps them |
| Keys.WaitForReturn | pomato.go:167-175 | it returns exactly when a newline arrives, having consumed every byte up to and including the first newline and nothing after it; no other byte ends the wait; if the stream ends first, it has consumed everything |
| Keys.SpaceSignals | pomato.go:188-194 | one signal per space byte and for no other byte, in stream order |
| Countdown.Clock | pomato.go:106-107 | `left/60` and `left%60` give the seconds back as minutes*60+seconds; for a non-negative count the seconds part is in 0..59 |
| Countdown.Start | pomato.go:88-107 | the deadline is `d` after the first clock reading; the total is `d` rounded; the first line shows the remainder at the second reading, rounded, unpaused, which is the total when no time has passed |
| Countdown.OnTick | pomato.go:119-126 | a tick records `endTime - now` and draws it rounded, unpaused; it exits the loop exactly when less than half a second remains; the deadline is unchanged; a tick less than half a second late shows 0 |
| Countdown.OnSpace | pomato.go:127-144 | a press toggles the pause and never exits; pausing freezes `endTime - now` and shows it rounded with the paused flag; resuming shows the frozen value rounded and sets a deadline whose remainder is a whole number of seconds, never longer in size than the frozen one and less than one second off it: a positive remainder is cut down, a negative one raised toward zero |
| Countdown.ResumeDropsFraction | pomato.go:133-134 | a pause with 1.5 s left resumes with 1 s left while showing 2 |
| Countdown.Step | pomato.go:114-145 | every delivered event keeps the ticker running exactly while unpaused and unfinished, and keeps the screen in step with the state |
| Countdown.Run | pomato.go:113-146 | a sequence of events keeps that invariant and the total |
| Countdown.RunAfterFinish | pomato.go:124-125 | once the loop has exited, no later event changes anything |
| Countdown.PressesNeverFinish | pomato.go:127-144 | space presses alone never end a countdown |
| Countdown.PausedIgnoresTicks | pomato.go:138 | while paused, ticks change nothing, because the ticker is stopped |
| Countdown.OnlyTicksFinish | pomato.go:119-126 | a finished countdown was ended by a tick that reached the unpaused loop with less than half a second left |
| Countdown.OnTimeCountdown | pomato.go:98-126 | with ticks exactly one second apart and no pauses, a countdown of m seconds shows m-n after tick n and ends on tick m |
| Countdown.OnTimeAnyDuration | pomato.go:98-126 | with ticks exactly one second apart and no pauses, a countdown of any positive duration d draws round(d - n s) at tick n while running, and has exited after tick n exactly when d - n s is under half a second |
| Countdown.LastOnTimeTick | pomato.go:121-125 | the exiting tick of such a countdown is tick `total` (tick 1 when d rounds to 0); it comes within half a second of d when d is at least half a second; it draws 0, or -1 when it comes half a second or more after the deadline |
| Countdown.DeadlineDrift | pomato.go:133-140 | the deadline equals the original one plus the time spent paused, minus the fractions dropped at the resumes; these total less than one second per resume in size, and zero with no resume |
| Countdown.CountdownState.constructor | pomato.go:87-107 | the object starts in the state `Start` describes |
| Countdown.CountdownState.Tick | pomato.go:119-126 | updates the fields in place to the `OnTick` state |
| Countdown.CountdownState.Space | pomato.go:127-144 | updates the fields in place to the `OnSpace` state |
| Countdown.CountDown | pomato.go:87-150 | the event loop stops at the first event that finishes the countdown, and no earlier; its state is the run of the events it took; if the events run out first, it has taken them all |
| Cycle.Iterations | pomato.go:44 | the inner loop makes `longBreakEach` passes, and none when that is at most zero |
| Cycle.PomodoroRound | pomato.go:43-84 | one pass of the outer loop makes exactly the calls of `Round` |
| Cycle.SegmentNeighbours | pomato.go:46-79 | in iteration i, the pomodoro with ordinal i+1 comes first. The break with the same ordinal follows, long exactly when i = longBreakEach-1. With notifications on, a start notification precedes the break. After the break comes an end notification for a short break, or a start notification for the long one. The iteration ends with a wait exactly when its break is short and autoStartNext is off |
| Cycle.RoundSegment | pomato.go:44-80 | iteration i occupies the calls between the ends of the first i and the first i+1 iterations |
| Cycle.RoundCountdowns | pomato.go:44-70 | a round runs 2*longBreakEach countdowns: pomodoros 1..N, each of the pomodoro duration, each followed by a break with its ordinal; only the last break is long; none when longBreakEach <= 0 |
| Cycle.RoundNotifications | pomato.go:53-73 | two notifications per iteration when they are on, in the order start/end around short breaks and start/start around the long one; none when they are off |
| Cycle.RoundWaits | pomato.go:76-83 | a round has (autoStartNext ? 0 : N-1) + 1 waits; the last call is always a wait; with longBreakEach <= 0 the round is that single wait |
| Cycle.SegmentsCountdowns | pomato.go:44-70 | the countdowns of the first n iterations, iteration by iteration |
| Cycle.SegmentsNotifications | pomato.go:53-73 | the notifications of the first n iterations, iteration by iteration |
| Cycle.SegmentsWaits | pomato.go:76-78 | one wait per short break among the first n iterations, none with autoStartNext |
| Cycle.CountdownsAt | pomato.go:44-70 | the countdowns of n iterations follow `NthCountdown`, two per iteration |
| Cycle.NoticesAt | pomato.go:53-73 | the notifications of n iterations follow `NthNotification`, two per iteration when on |

## Left out

- Concurrency: the goroutines, channels and `stopC` shutdown of `listenStdin` and `listenForSpace`. The model also omits their "send or drop" behaviour (pomato.go:177-229). Events reach the countdown as one ordered sequence, and bytes reach the consumers as one sequence.
- Keys.SpaceSignals: does not model a signal dropped because no countdown is waiting for it; it gives the signals the listener attempts.
- Terminal setup: `stty` and the raw read of standard input (pomato.go:208-214). These are foreign calls.
- Real time: `time.Now`, the ticker, `Reset` and `Stop`. Each event carries its clock reading, and the ticker is the `ticking` flag. A tick the Go ticker buffered before `Stop` is not modelled; ticks while paused are dropped.
- Durations.RoundSeconds: does not model float64 precision; the rounding is exact on nanoseconds.
- Cli.OptionFor: does not model int64 overflow of `time.Duration(i) * timeUnit`; durations are unbounded integers.
- Presentation: ANSI escapes, colours and `fmt.Printf`. A drawn line is the `Render` record plus the `Clock` split, not a string. The segment label is its `Kind` and ordinal. The countdown message is stored but not drawn.
- Cycle.Action: the notification title, always `"Pomato"`, and the wait prompt text are not part of the calls. A notification body is its `Message`; `Cycle.Body` gives the text.
- Notification delivery and input flushing (notify_darwin.go, flush_linux.go). These are OS calls.
- `waitForPress` (pomato.go:152-165). It is never called.
- Command-line plumbing: `main`, `registerViper`, and how the configuration library looks up and ranks files and flags (cmd/main.go:16-64). The lookups `buildOptions` makes are the fields of `Cli.Configured`.
- The endless outer loop of `pomodoroMode` and `Run`. One round is modelled, and the loop repeats it unchanged. `countDown` always returns `nil`, so it has no error path.
