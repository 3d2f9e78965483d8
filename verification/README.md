# Tilt indicator, audio player and blink prompt — a Dafny model

This project models the logic of three small Raspberry Pi programs:

- **The tilt indicator.** It covers the accelerometer register decoding (`i16`)
  and the scaling to g (`read_accel`). It covers the median baseline
  calibrator (`calibrate_baseline`). It covers the per-tick trigger state
  machine: four expiry deadlines F, B, L and R, strict threshold tests per
  axis, indicators lit while `now < expiry[d]`, and a label for the tick.
  Around that sits the sampling loop: all indicators off at start-up, the
  label printed only when it changes, and all indicators off in the cleanup.
- **The interactive audio player.** It covers how a command is normalised
  (strip, then lower-case) and dispatched (`quit`/`exit`, `list`, `stop`,
  `play <name>`, help). It also covers `play_file` and `stop_playback` as
  moves of a two-state machine: no process, or one current process.
- **The blink-count prompt.** It covers the rule that accepts an answer
  (an integer from 0 to 100) and the counted blink loop.

Modules, one per file:

| file | module | what it holds |
|---|---|---|
| `bits.dfy` | `Bits` | Python's shift, bitwise or and bitwise and on non-negative integers, bit by bit |
| `register.dfy` | `Register` | `I16`, its inverse `SplitWord`, `ReadAccel` |
| `wrappers.dfy` | `Wrappers` | `Option` and `Result` |
| `calibration.dfy` | `Calibration` | sorting, ranks, `Median`, `CalibrateBaseline` |
| `tilt.dfy` | `Tilt` | the deadlines, `Tick`, traces of ticks and the hold-timing theorems |
| `sampling.dfy` | `Sampling` | the indicator writes of a whole session, print-on-change |
| `text.dfy` | `Text` | `str.strip()`, ASCII `str.lower()`, `str.startswith` |
| `player.dfy` | `AudioPlayer` | command parsing, `PlayFile`, `StopPlayback`, the command loop |
| `blink.dfy` | `BlinkCount` | `Validate`, the prompt loop, the blink loop |

Modelling choices:

- Angles and times are real numbers. The tick takes the clock reading and
  the orientation (pitch, roll) as inputs. `accel_to_angles` is not modelled.
- A run of the sampling loop is a trace of `Sample(now, reading)` values.
  `Run` folds `Tick` over a trace, starting from the all-zero deadlines.
- The calibration window is the list of readings taken. An empty window is a
  `Failure`, as indexing the empty sorted list raises in the program.
- The player's subprocess is an abstract token. For each input the caller
  supplies the outcome of the launch: `Launched(p)` or `LaunchError`. Starting
  and terminating processes are recorded as effects.
- `int()` on the typed answer is abstracted. Each answer arrives as
  `Integer(n)` or `NotAnInteger`.
- The blink prompt's messages disagree with its checks. The message for a
  negative number asks for a "positive number", yet 0 is accepted. The message
  for a number above 100 asks for one "less than 100", yet 100 is accepted.
  The model follows the checks (`BlinkCount.ValidateBoundaries`).
- `play <name>` takes the name from the lower-cased line. A file whose name
  has a capital letter can therefore never be played from the prompt. The
  model keeps this (`AudioPlayer.CapitalisedFilesUnplayable`).
- A successful `play_file` replaces the current process without terminating
  it. The model keeps this too (`AudioPlayer.OldProcessOrphaned`).

## Model

| member | source | states |
|---|---|---|
| `Register.WordIsSum` | IMU.py:29 | the bitwise or of `hi << 8` and `lo` equals `hi * 256 + lo` for bytes hi and lo, because lo fits below bit 8 |
| `Register.SignBit` | IMU.py:30 | for an unsigned 16-bit word w, `w & 0x8000` is non-zero exactly when w is at least 32768 |
| `Register.I16` | IMU.py:28-30 | the decoded value lies in [-32768, 32767]; it is `hi * 256 + lo` when bit 15 is clear (hi < 128) and `hi * 256 + lo - 65536` when it is set |
| `Register.SplitThenDecode` | IMU.py:28-30 | splitting any signed 16-bit value into the high and low bytes of its unsigned word and decoding them gives the value back |
| `Register.DecodeThenSplit` | IMU.py:28-30 | decoding any byte pair and splitting the result gives the same pair back |
| `Register.I16Injective` | IMU.py:28-30 | two byte pairs that decode to the same value are the same pair |
| `Register.I16Surjective` | IMU.py:28-30 | every value in [-32768, 32767] is the decoding of some byte pair |
| `Register.ReadAccel` | IMU.py:44-49 | each axis times 16384 is the decoded pair of bytes 0-1, 2-3 and 4-5 of the block, and each axis lies in [-2, 2) g |
| `Register.ToGInjective` | IMU.py:46-48 | the scaling to g maps equal results only from equal raw words, and multiplying by 16384 undoes it |
| `Register.ReadAccelUsesSixBytes` | IMU.py:45-49 | two register blocks give the same reading exactly when their first six bytes agree; the other eight bytes play no part |
| `Calibration.Sort` | IMU.py:64 | the result is in ascending order, has the input's length and the input's multiset of elements |
| `Calibration.SortCounts` | IMU.py:64 | sorting changes neither how many elements lie below a value nor how many lie at or below it |
| `Calibration.SortedIndexIsRank` | IMU.py:64-65 | the element at index k of the sorted samples has rank k (at most k samples lie below it, more than k at or below it), and no other value has rank k |
| `Calibration.RankUnique` | IMU.py:65 | two values with the same rank in the same samples are equal |
| `Calibration.Median` | IMU.py:64-65 | the element at index `len // 2` of the sorted samples is one of the samples, has rank `len // 2`, at least `len // 2 + 1` samples are at or below it and at least `len - len // 2` are at or above it |
| `Calibration.MedianOfConstant` | IMU.py:64-65 | on a constant stream the median is that constant |
| `Calibration.MedianResistsOutlier` | IMU.py:64-65 | with at least three samples, one outlier cannot move the median outside the range of the other samples |
| `Calibration.MedianOfThree` | IMU.py:64-65 | the middle one of three distinct values is the median in whichever of the six orders they arrive |
| `Calibration.CalibrateBaseline` | IMU.py:56-65 | calibration fails exactly on an empty window; otherwise the baseline pitch is a pitch of the window with rank `len // 2` among the pitches, and likewise for roll |
| `Calibration.CalibrateIsMedians` | IMU.py:64-65 | a non-empty window calibrates to its median pitch and its median roll, each taken on its own |
| `Calibration.CalibrateConstant` | IMU.py:56-65 | when every reading of the window is the same orientation, the baseline is that orientation |
| `Calibration.BaselineNeedNotBeObserved` | IMU.py:64-65 | for a < b < c, the readings (a, b), (b, a), (c, c) calibrate to (b, b), which is none of the readings |
| `Tilt.PitchFiring` | IMU.py:92-97 | FORWARD exactly when the pitch deviation is below -10 degrees, BACKWARD exactly when it is above 10, nothing exactly when it lies in [-10, 10] |
| `Tilt.RollFiring` | IMU.py:99-104 | RIGHT exactly when the roll deviation is above 10 degrees, LEFT exactly when it is below -10, nothing exactly when it lies in [-10, 10] |
| `Tilt.Fired` | IMU.py:90-104 | at most two directions fire on a tick, and each is among them exactly when its strict threshold is crossed |
| `Tilt.Indicate` | IMU.py:106-109 | each indicator is lit exactly when `now` is before its deadline |
| `Tilt.Rearm` | IMU.py:92-104 | re-arming sets the deadline of the direction that fired, if any, and keeps every other deadline |
| `Tilt.Tick` | IMU.py:82-111 | after a tick the deadline of each direction that fired is `now + 1.0` and every other deadline is unchanged; each indicator is lit exactly when `now` is before its new deadline; the label names what fired |
| `Tilt.TickPitchAxis` | IMU.py:92-97 | a pitch below -10 re-arms only F, above 10 only B, and within [-10, 10] (the bounds included) neither |
| `Tilt.TickRollAxis` | IMU.py:99-104 | a roll above 10 re-arms only R, below -10 only L, and within [-10, 10] neither |
| `Tilt.AxesIndependent` | IMU.py:92-104 | the F and B deadlines after a tick do not depend on the roll reading, and the L and R deadlines do not depend on the pitch reading |
| `Tilt.OneDirectionPerAxis` | IMU.py:92-104 | F and B never both fire on one tick, and neither do L and R |
| `Tilt.BothAxesFire` | IMU.py:92-111 | a deviation above 10 on both axes lights BACKWARD and RIGHT together, and the label is "BACKWARD RIGHT" |
| `Tilt.LabelSpelledOut` | IMU.py:90-111 | the label is "No movement" when nothing fired, the single name when one axis fired, and the pitch name, a space and the roll name when both did |
| `Tilt.LabelIgnoresHeldState` | IMU.py:90-111 | the label does not depend on the deadlines held before the tick, and it is "No movement" exactly when both deviations lie within [-10, 10] |
| `Tilt.RunLast` | IMU.py:92-104 | over a trace, the last tick re-arms d exactly when d fires on it, and otherwise keeps the deadline the earlier ticks left |
| `Tilt.LastTickLit` | IMU.py:106-109 | an indicator after the last tick is lit exactly when that tick's time is before the deadline the trace leaves |
| `Tilt.DeadlineCoversFiring` | IMU.py:92-104 | when no later tick is earlier than tick i and d fired on tick i, d's deadline is at least tick i's time plus the hold time |
| `Tilt.DeadlineSource` | IMU.py:77-104 | a deadline is either still the initial one or the hold time past some tick on which its direction fired |
| `Tilt.DeadlineBound` | IMU.py:92-104 | with time never going backwards and the starting deadline of d no later than the first tick's time plus the hold time, no deadline lies beyond the last tick's time plus the hold time |
| `Tilt.LastTickNeverLowers` | IMU.py:92-104 | with time never going backwards and the starting deadline of d no later than the first tick's time plus the hold time, the last tick moves no deadline earlier |
| `Tilt.DeadlinesNeverDecrease` | IMU.py:77-104 | with time never going backwards and the initial deadlines no later than the first tick plus the hold time, the deadlines after any prefix are at most the deadlines after the whole trace |
| `Tilt.LitIffRecentFiring` | IMU.py:77-109 | with time never going backwards and the initial deadline passed, d is lit after the last tick exactly when d fired on some tick less than the hold time before it |
| `Tilt.HeldAfterFiring` | IMU.py:92-109 | with time never going backwards, once d fires at time t, every later tick before t + 1.0 shows d lit, whether or not anything fires on it |
| `Tilt.OffAfterHold` | IMU.py:77-109 | when d has not fired during the last hold time and the initial deadline has passed, d is off, even if the clock stepped backwards |
| `Tilt.InitiallyOff` | IMU.py:77-109 | from the all-zero deadlines, a direction that never fired is off at every tick whose time is non-negative, even if the clock stepped backwards |
| `Tilt.ScenarioTiltLights` | IMU.py:92-109 | a forward tilt lights FORWARD on its own tick |
| `Tilt.ScenarioHeldWhileLevel` | IMU.py:90-111 | after a forward tilt, a level tick inside the hold time still shows FORWARD lit while its label is "No movement" |
| `Tilt.ScenarioOffAtHoldEnd` | IMU.py:92-109 | after a forward tilt at t and level ticks since, the tick at exactly t + 1.0 finds FORWARD off |
| `Sampling.Session` | IMU.py:69-123 | the program writes all-off first and all-off last, and in between, for each completed tick, lights d exactly when that tick's time is before d's deadline after that many ticks |
| `Sampling.SessionEndsOff` | IMU.py:120-123 | whichever tick the loop stops after, the last write is all-off and the writes before it are those of a longer session |
| `Sampling.Printed` | IMU.py:113-116 | print-on-change, which compares with the last line printed, prints exactly the labels that differ from the previous tick's label (`Changes`), so no more lines than there were ticks and only labels of those ticks |
| `Sampling.PrintedNeverRepeats` | IMU.py:115-116 | no printed line repeats the previous one, and the first differs from the line printed before |
| `Sampling.ChangesAllPrinted` | IMU.py:115-116 | when consecutive labels always differ, every label is printed |
| `Sampling.RepeatPrintedOnce` | IMU.py:115-116 | a new label repeated on n consecutive ticks is printed once |
| `Sampling.Quiet` | IMU.py:115-116 | labels equal to the last printed one print nothing |
| `Sampling.FirstLabelPrinted` | IMU.py:78-116 | the first tick's label is always printed, because the last printed line starts empty and no label is empty |
| `Text.StripSpec` | interactive_audio_player.py:57 | `strip()` returns a slice of the line with no whitespace at either end, and everything cut off is whitespace |
| `Text.StripSlice` | interactive_audio_player.py:57 | a line whose non-empty core has no whitespace at either end, and only whitespace around it, strips to that core |
| `Text.StripTrimmed` | interactive_audio_player.py:57 | stripping a line with no whitespace at either end changes nothing |
| `Text.Lower` | interactive_audio_player.py:57 | `lower()` keeps the length, maps each character to its small letter, and leaves no capital |
| `Text.LowerIdempotent` | interactive_audio_player.py:57 | lower-casing twice is lower-casing once |
| `Text.StripLower` | interactive_audio_player.py:57 | stripping and lower-casing can be done in either order |
| `Text.StripPadding` | interactive_audio_player.py:57 | whitespace added at either end of a line is stripped off again |
| `Text.LowerKeepsSpace` | interactive_audio_player.py:57 | lower-casing changes no character's whitespace status, so a stripped line stays stripped |
| `AudioPlayer.NormalizeSpec` | interactive_audio_player.py:57 | the command is the lowered slice of the line between a whitespace-only prefix and a whitespace-only suffix; it has no whitespace at either end and no capital letter |
| `AudioPlayer.NormalizeIdempotent` | interactive_audio_player.py:57 | normalising twice is normalising once, so the dispatcher sees the same command either way |
| `AudioPlayer.Recognise` | interactive_audio_player.py:59-71 | the command is quit exactly for "quit" and "exit"; it is a play command exactly when the text starts with "play ", and then the file is the text after those five characters; it is list exactly for "list", stop exactly for "stop", and help exactly for every other text |
| `AudioPlayer.ParseIgnoresCaseAndSpace` | interactive_audio_player.py:57-71 | for every line, its lower-cased form and the line with whitespace added at either end are the same command as the line itself |
| `AudioPlayer.BarePlayIsHelp` | interactive_audio_player.py:67-71 | a line that normalises to "play" falls to the help branch |
| `AudioPlayer.PlaySpaceIsHelp` | interactive_audio_player.py:57-71 | "play " strips to "play" and falls to the help branch |
| `AudioPlayer.CapitalisedFilesUnplayable` | interactive_audio_player.py:57-69 | a file name with a capital letter is never the name a play command asks for |
| `AudioPlayer.PlayFile` | interactive_audio_player.py:29-41 | playing succeeds exactly when the file is known and the launch succeeds; success makes the new process current and starts only it; failure changes nothing |
| `AudioPlayer.OldProcessOrphaned` | interactive_audio_player.py:36-38 | after playing a, playing b and stopping, only b's process is terminated; a's process never is |
| `AudioPlayer.PlayStep` | interactive_audio_player.py:67-69 | a play command for a known file whose launch succeeds makes the new process current, whatever played before |
| `AudioPlayer.StopPlayback` | interactive_audio_player.py:43-48 | stopping always leaves no current process, and terminates the process that was current, if any |
| `AudioPlayer.StopIdempotent` | interactive_audio_player.py:43-48 | stopping twice is stopping once, and stopping an idle player does nothing |
| `AudioPlayer.StopStep` | interactive_audio_player.py:65-66 | a stop command stops playback and does not end the loop |
| `AudioPlayer.Step` | interactive_audio_player.py:55-76 | one input keeps the file list; the loop ends exactly on quit, exit or an interrupt, and then no process is current |
| `AudioPlayer.QuitStopsPlayback` | interactive_audio_player.py:59-62 | quit terminates the playing process, leaves the player idle and ends the loop |
| `AudioPlayer.ListAndHelpKeepState` | interactive_audio_player.py:63-71 | list and unrecognised commands change nothing and do not end the loop |
| `AudioPlayer.RunLoop` | interactive_audio_player.py:55-76 | the loop reads at most the inputs given, keeps the file list, and when it ends no process is current |
| `AudioPlayer.RunLoopCons` | interactive_audio_player.py:55-76 | an input that does not end the loop puts its step's effects before those of the loop on the remaining inputs |
| `AudioPlayer.LoopStopsAtFirstEnd` | interactive_audio_player.py:55-76 | the loop reads up to and including the first quit, exit or interrupt and no further, and it ends exactly when there is one |
| `BlinkCount.Validate` | keyboard_input.py:10-17 | an answer is accepted exactly when it is an integer from 0 to 100, with that count; negatives and numbers above 100 get their own rejections |
| `BlinkCount.ValidateBoundaries` | keyboard_input.py:11-17 | 0 and 100 are accepted, -1 is rejected as negative and 101 as too many |
| `BlinkCount.FirstAccepted` | keyboard_input.py:8-19 | the answer found is accepted with that count and every answer before it is rejected; no answer is found exactly when every answer is rejected |
| `BlinkCount.PromptBlinkCount` | keyboard_input.py:8-19 | the prompt loop returns the count of the first accepted answer and the number of answers read up to and including it, as `FirstAccepted` defines them, so it stops only on a valid value; the count is at most 100; with no acceptable answer it reads every answer and returns no count |
| `BlinkCount.BlinkLoop` | keyboard_input.py:24-29 | n blinks write on then off n times (`BlinkWrites`: the writes alternate starting with on), report progress 1 to n in order, write nothing for n = 0, and end with the LED off |
| `BlinkCount.InterruptedWrites` | keyboard_input.py:24-35 | an interrupt after the first k writes of the blink loop leaves exactly those k writes followed by one off, so the LED ends off having been switched on (k + 1) / 2 times |
| `BlinkCount.OnsOfPrefix` | keyboard_input.py:24-29 | the first k writes of the blink loop contain (k + 1) / 2 on-writes |

## Left out

- `accel_to_angles` (IMU.py:51-54): atan2, sqrt and degrees on floats. Pitch and roll arrive as inputs.
- The I2C bus: `init_mpu`, its WHO_AM_I check, and the block read itself. `ReadAccel` takes the register block as a parameter.
- The clock and `time.sleep`: times arrive in the trace. The calibration loop's timing is replaced by the list of readings taken.
- Floating-point rounding: angles, times and g values are exact reals.
- GPIO: an indicator or LED is a boolean, and a write is a value in a sequence.
- The `PRINT_RAW` branch (IMU.py:113-114): the constant is `False`, so it never runs. The start-up and "Stopped." messages are not modelled either.
- `Sampling.Session`: a tick is written as one unit. A loop stopped between two of the four LED writes of one tick is not modelled.
- A failing sensor read, and a KeyboardInterrupt, are modelled only as the end of the trace; the exception itself is not modelled.
- `Sampling.Session`: the `finally` block (IMU.py:122-123) guards only the sampling loop. An interrupt or bus error during `init_mpu` or calibration (IMU.py:72-74) ends the program after the single all-off write of IMU.py:69. `Session` describes only runs that reached the loop.
- `Tilt.DeadlineBound`, `Tilt.LastTickNeverLowers`, `Tilt.HeldAfterFiring`, `Tilt.LitIffRecentFiring` and `Tilt.DeadlinesNeverDecrease` assume tick times never go backwards. `time.time()` is a wall clock and can step back, for instance when the system clock is set; those runs are not covered.
- `find_audio_files` (filesystem globbing): the file list is a parameter of the player.
- `list_files` only prints. The model keeps only its effect on the state, which is none.
- The messages printed by the player and the blink prompt.
- `Text.Lower`: it lower-cases ASCII letters only. Python's `lower()` also maps non-ASCII capitals, which is not modelled.
- `AudioPlayer.PlayFile`: any exception from `Popen` is a `LaunchError` token. What the external player does, and a process ending on its own, are not modelled.
- End of input (`EOFError` from `input()`) is not modelled: running out of inputs simply stops the loop.
- `int()` parsing of the typed answer: answers arrive parsed.
- The one-second pauses of the blink loop.
- combined_controller.py, play_audio.py, blink.py, event_driven_button.py and button_input.py are not part of this model. They are threads, shell commands, callbacks and fixed-timing GPIO toggling.
