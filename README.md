# Voice timer: a Dafny model

This project models the core of a small command-line stopwatch written in
Python (`main.py`). The user presses Enter to start or restart the timer and
types `q` to quit. While the timer runs, a background loop wakes every second
and, every tenth wake, prints and speaks the elapsed time. Stopping prints and
speaks the total.

The model covers four pieces:

- **Elapsed-time wording** (`duration.dfy`, module `Duration`). An elapsed
  count of whole seconds is split into minutes and seconds (`// 60` and
  `% 60`). One of two shapes is chosen: `Clock.MinSec` ("m 分 s 秒") when
  minutes > 0, and `Clock.Sec` ("s 秒") otherwise. `Body` gives the text,
  using decimal digits as Python's `str(int)` writes them. `ParseBody` reads a
  text back. Proved: the split is floor division, formatting inverts
  `Total`, and parsing inverts `Body`.
- **Notices** (`notices.dfy`, module `Notices`). Each notice (`Started`,
  `Announced`, `Finished`) is one console line plus one utterance.
  `ConsoleText` and `SpeechText` give the two strings. The console line
  determines the notice.
- **Command dispatch** (`command.dfy`, module `Command`). `Decide` models
  `input().strip().lower() == 'q'`. `Strip` follows Python's `str.strip()`,
  using Python's full whitespace set.
- **The timer** (`timer.dfy` and `announcer.dfy`, modules `Timer` and
  `Announcer`). Class `Timer.VoiceTimer` has the fields `startTime`,
  `timerRunning` and `stopVoice`, which its methods update in place. A ghost
  `log` records every notice in order. The methods are:
  - `StartTimer` and `StopTimer`.
  - `VoiceAnnounce`, the per-second loop with its tick counter.
  - `Run`, the read loop.

  Each method is proved against a specification function:
  - `Timer.Start` and `Timer.Stop` for single steps.
  - `Announcer.Announcements` and `Announcer.Ticks` for the announcement loop.
  - `Timer.Drive` for the read loop.

  Lemmas about those functions state the properties promised by the program.
  The object invariant (`Timer.Consistent`) is that a running timer has a
  start time and an announcer that is not cancelled.

Time is an integer `now` in whole seconds, supplied by the caller. The clock
reading `time.time()` therefore becomes a parameter, and `int(...)`
truncation becomes the identity. The announcement loop sees the shared
flags through a trace of `Announcer.Wake` records. Each record holds the
clock reading and the two flags as the loop reads them after one
`time.sleep(1)`.

The wording follows the code exactly:

- Once minutes are positive, the code always writes
  `f"{minutes} 分 {seconds} 秒"`, so 60 s is "1 分 0 秒".
- Below a minute it writes `f"{seconds} 秒"`, so 0 s is "0 秒".
- There are no plural forms.

`ParseBody` and its digit scanner (`Duration.SpanDigits`,
`Duration.SpanDigitsOf`) exist only as the inverse that proves message texts
are unambiguous. The program itself never parses text.

## Model

| member | source | states |
|---|---|---|
| `Duration.Split` | main.py:42-44 | minutes * 60 + seconds == elapsed and 0 <= seconds < 60, for every integer elapsed count (Python's floor division by 60) |
| `Duration.SplitUnique` | main.py:80-82 | the split is the only quotient/remainder pair with remainder in 0..59 |
| `Duration.Format` | main.py:46-49 | the minutes-and-seconds shape is chosen exactly when elapsed >= 60; the result is well formed; for elapsed >= 0 its total is the elapsed count |
| `Duration.FormatOfTotal` | main.py:84-87 | every well-formed message is what formatting gives for its own total, so formatting and totalling are inverse |
| `Duration.FormatInjective` | main.py:84-87 | distinct non-negative elapsed counts give distinct messages |
| `Duration.Decimal` | main.py:47 | an integer is written as a non-empty string of digits with no leading zero |
| `Duration.DecimalValue` | main.py:47 | the decimal text of n denotes n |
| `Duration.Body` | main.py:46-49 | the text of a message, `f"{minutes} 分 {seconds} 秒"` or `f"{seconds} 秒"`; its meaning is stated by `Duration.ParseBodyRoundTrip` and `Duration.BodyOfElapsed` |
| `Duration.Announcement` | main.py:47-52 | the periodic announcement, a space followed by the message text, printed and spoken alike |
| `Duration.FinalTime` | main.py:84-87 | the total in the stop message, "总计时间: " followed by the message text |
| `Duration.ParseBodyRoundTrip` | main.py:46-49 | reading back the text of any message gives that message |
| `Duration.BodyInjective` | main.py:84-87 | two different messages never have the same text |
| `Duration.BodyOfElapsed` | main.py:46-49 | from 60 s on the text is "m 分 s 秒", naming the seconds even when they are 0; below 60 s it is "s 秒" |
| `Duration.BodyExamples` | main.py:84-87 | 0 gives "0 秒", 59 gives "59 秒", 60 gives "1 分 0 秒", 61 gives "1 分 1 秒", 125 gives "2 分 5 秒" |
| `Notices.ConsoleText` | main.py:51-89 | the console line of each notice after its time prefix: "计时开始！" at line 67, the announcement at line 51, "计时结束！" and the total at line 89 |
| `Notices.SpeechText` | main.py:52-90 | the spoken text of each notice: "计时开始" at line 68, the announcement at line 52, "计时结束，" and the total at line 90 |
| `Notices.ConsoleTextInjective` | main.py:51 | the printed line of a notice determines its kind and its elapsed time |
| `Notices.ConsoleTextKind` | main.py:67 | the start, periodic and stop lines are told apart by their first and third characters |
| `Notices.FinishedTextInjective` | main.py:89 | two stop lines are equal only if their totals are |
| `Command.TrimStartOf` | main.py:102 | whitespace before a text that does not start with whitespace is removed exactly |
| `Command.TrimEndOf` | main.py:102 | whitespace after a text that does not end with whitespace is removed exactly |
| `Command.StripOf` | main.py:102 | stripping whitespace + core + whitespace gives exactly the core |
| `Command.TrimStartSuffix` | main.py:102 | removing leading whitespace leaves a suffix of the line |
| `Command.TrimStartPad` | main.py:102 | everything removed before it is whitespace, by Python's str.isspace |
| `Command.TrimStartFirst` | main.py:102 | what is left does not start with whitespace |
| `Command.TrimEndPrefix` | main.py:102 | removing trailing whitespace leaves a prefix of the line |
| `Command.TrimEndPad` | main.py:102 | everything removed after it is whitespace |
| `Command.TrimEndLast` | main.py:102 | what is left does not end with whitespace |
| `Command.LowerIsQ` | main.py:102-104 | a stripped line lower-cases to "q" exactly when it is "q" or "Q" |
| `Command.Decide` | main.py:102-111 | the dispatch of one input line, `Quit` when `strip().lower()` is "q" and `Restart` otherwise; its meaning is stated by `Command.DecideQuit` |
| `Command.DecideQuit` | main.py:102-111 | a line quits exactly when it strips to "q" or "Q"; every other line starts or restarts |
| `Command.BlankLineStarts` | main.py:109-111 | the empty line, and any line of whitespace, starts or restarts the timer |
| `Command.QuitWithPadding` | main.py:102-104 | "q" or "Q" surrounded by any whitespace quits |
| `Announcer.LiveSchedule` | main.py:35-53 | while the session stays live, the loop announces on every tenth tick and on no other; the k-th announcement carries the elapsed time read at that tick, and the count of announcements is (ticks + counter) / 10 |
| `Announcer.NothingAfterStop` | main.py:36-41 | once a wake sees running false or the stop flag set, neither that wake nor any later one announces, and the loop sleeps no further |
| `Announcer.AtMostOnePerInterval` | main.py:39-53 | at most one announcement per ten ticks |
| `Announcer.Session` | main.py:33-53 | a whole loop run: it sleeps once per live wake and once for the stopping wake, and announces exactly at ticks 10, 20, ... with the elapsed time of that tick |
| `Announcer.TicksUntilStop` | main.py:36-39 | the loop sleeps through every live wake and once more for the first wake that says stop |
| `Announcer.Announcements` | main.py:35-53 | the announcements of the tick loop: count a tick per wake, announce and reset the counter when it reaches 10 and the flags are live, stop at the first wake that is not live; its meaning is stated by `Announcer.LiveSchedule`, `Announcer.NothingAfterStop` and `Announcer.Session` |
| `Announcer.Ticks` | main.py:36-39 | the number of one-second sleeps of the tick loop; stated by `Announcer.TicksUntilStop` |
| `Timer.Start` | main.py:63-68 | starting keeps the invariant (running implies a start time and no cancellation); the new state itself is stated by `Timer.StartForgetsPriorState` |
| `Timer.Stop` | main.py:74-90 | stopping keeps the state consistent |
| `Timer.StartForgetsPriorState` | main.py:58-68 | after a start, the start time is now, running is true and the stop flag is false, whatever the prior state; a restart says only "started", never a stop message |
| `Timer.StopWhenIdle` | main.py:76 | stopping an idle timer changes no field and prints or speaks nothing |
| `Timer.StopWhenRunning` | main.py:77-90 | stopping a running timer clears running, sets the stop flag, keeps the start time, and says exactly one stop message whose total is now minus the most recent start time |
| `Timer.StopIdempotent` | main.py:76-78 | a second stop is silent and changes nothing |
| `Timer.Drive` | main.py:100-116 | the read loop as a function of its inputs: start lines start, a quit line or an interrupt stops a running timer and ends the loop; its meaning is stated by `Timer.DriveRun` and `Timer.DriveStopsAtMostOnce` |
| `Timer.DriveStep` | main.py:104-111 | one input: a quit line or an interrupt behaves as a single stop, the running guard at the call being the same as stop's own, and ends the loop; any other line behaves as a start and the loop reads on |
| `Timer.DriveRun` | main.py:100-116 | a whole read loop: k start lines each say "started"; a following quit or interrupt says one stop message if a timer is running, measured from the latest start, and nothing if none is; the loop ends for that reason, and the timer is left stopped |
| `Timer.DriveStopsAtMostOnce` | main.py:104-116 | a run of the read loop says at most one stop message, and only as its last notice |
| `Timer.VoiceTimer.constructor` | main.py:8-13 | a new timer has no start time, is not running, is not cancelled, and has said nothing |
| `Timer.VoiceTimer.StartTimer` | main.py:55-68 | sets start time to now, running to true and the stop flag to false; appends one start notice; keeps the invariant |
| `Timer.VoiceTimer.StopTimer` | main.py:74-90 | on an idle timer leaves every field and the log unchanged; on a running one clears running, sets the stop flag and appends the stop notice with total now minus start time |
| `Timer.VoiceTimer.VoiceAnnounce` | main.py:33-53 | the loop appends exactly the announcements `Announcer.Announcements` gives and sleeps exactly `Announcer.Ticks` times; its loop invariant keeps the tick counter within 0..10, below 10 whenever the loop continues |
| `Timer.VoiceTimer.Run` | main.py:92-116 | the read loop leaves the fields, the appended notices and the exit reason exactly as the specification of the loop gives them |

## Left out

- Threads are not modelled. That covers `threading.Thread`, the daemon speech
  threads, and the concurrent run of the announcement loop beside the read
  loop. The announcement loop is modelled as one sequential trace of wakes,
  and the read loop separately.
- The cancel-and-join in `start_timer` (main.py:58-60) is left out: it sets
  the stop flag and waits up to one second for an old announcement loop.
  The flag it sets is cleared again at line 65 before the method returns, so
  the state after a start does not depend on it.
- The race in which a superseded announcement loop wakes after the join
  times out and keeps announcing is concurrency, so it is not modelled.
- Timer.VoiceTimer.VoiceAnnounce: reads the start time once, whereas the
  source reads it again at each announcement. The two differ only when a
  restart races with a still-running old loop, which is not modelled.
- The pyttsx3 engine is not modelled: its setup, rate and volume, and the
  message it prints when speech fails (main.py:15-31). Speaking is modelled
  as appending a notice to the log.
- Float timestamps from `time.time()` and the truncation by `int()` are not
  modelled; time is whole seconds. A negative elapsed time, from a clock
  that goes backwards, is still formatted as Python would format it.
- The `[HH:MM:SS]` prefix from `datetime.now()` is not modelled. It is
  console decoration.
- `input()` and the startup banner are not modelled. The exit message and
  the interrupt message (lines 107 and 114) are console-only lines and are
  not modelled either. The `pyttsx3` import check in `main()` is left out.
- An interrupt is modelled only while the read loop waits for input. At the
  end of the input, `input()` raises `EOFError`, which `run` does not catch.
  The model ends the loop there with `EndOfInput` and says no stop message.
- Command.Lower: maps only ASCII upper-case letters. Python's `lower()` also
  maps other scripts, but no character other than "Q" lower-cases to "q",
  so the quit decision is the same.
