# cli-timer-app in Dafny

A model of `timer.py`, a command-line countdown timer for macOS. It covers:

- the duration parser `parse_time`. It models the anchored pattern `^((\d+)h)?((\d+)m)?((\d+)s)?$` as a deterministic scanner, then takes the weighted sum hours·3600 + minutes·60 + seconds and raises ValueError in three ways.
- the `HH:MM:SS` display of the remaining time in `countdown`.
- the fail-fast repeat loop of `play_sound_macos`.
- the exit status produced by the handlers of the script body.

Modules:

- `Results`: `Option` and `Result`. A raised ValueError is an `Err` carrying a `ParseError`.
- `Decimal`: ASCII digit strings. `Value` reads them as `int()` does, `Show` writes a natural as `str()` does, and `PadLeft` pads with zeros as the `02d` format specification does.
- `Duration`: `parse_time`. The error cases are:
  - `BadFormat`: no match, or an empty match.
  - `NoUnits`: every present part is 0.
  - `NotPositive`: "Total duration must be positive". `ParseTime` proves this case is never returned. A sum of naturals that is not positive has every part equal to 0, and that case is already reported as "No time units", so the raise at timer.py line 40 cannot be reached.
- `Clock`: the split of the remaining seconds into hours, minutes and seconds, and the colon-separated display.
- `Notifier`: the loop over `afplay` runs. The outcome of each run is an input.
- `Cli`: the script body, from the duration argument to the exit status.

Python behaviour this model follows:

- `$` without MULTILINE also matches just before one final newline, so `"5m\n"` parses to 300 seconds. `group(0)` excludes that newline.
- `sys.exit(0)` raises SystemExit. SystemExit is not an `Exception`, so the handlers at lines 129-141 let it through and the status is 0.
- Hours are not reduced modulo 24. The display has exactly 8 characters below 100 hours and grows after that.

Behaviour of the code that the model keeps:

- `{h:02d}` sets a minimum width, not a fixed one. From 100 hours on, the hours field is wider than two digits and has no leading zero (`Clock.Format`).
- `parse_time` raises ValueError with three different messages (lines 21, 39 and 40). The model keeps them apart as `BadFormat`, `NoUnits` and `NotPositive`, and `Cli.Run` maps all three to status 1.
- A total of 2^1024 − 2^970 seconds or more cannot be converted to a float. `time.time() + seconds` at line 47 then raises OverflowError, and the handler at line 139 gives status 1. This is the constant `Cli.FloatOverflow`. Such totals have at least 309 decimal digits. The input "2" followed by 308 zeros and "s" is one of them, and it is far below the 4300-digit limit of `int()`.

## Model

| member | source | states |
|---|---|---|
| Duration.DigitRun | timer.py:18 | the longest leading run of digits: every character in it is a digit and the next character is not |
| Duration.Group | timer.py:18 | one optional group `((\d+)<unit>)?` takes a non-empty digit run and its unit, and the input is exactly that part followed by the rest |
| Duration.Match | timer.py:18-20 | a match gives well-formed groups whose rendering is the whole input, or the whole input minus one final newline (soundness) |
| Duration.MatchRender | timer.py:18 | every rendering of well-formed groups, with or without one final newline, matches and gives back those same groups (completeness) |
| Duration.RejectOutsideLanguage | timer.py:18-21 | a string that is not in the pattern's language is rejected as a bad format |
| Duration.ParseTime | timer.py:11-43 | an accepted duration is positive, and the "Total duration must be positive" error never occurs |
| Duration.Evaluate | timer.py:20-43 | with the groups matched, an accepted duration is positive and the line-40 error never occurs |
| Duration.ParseRender | timer.py:20-43 | on the language: no part gives a bad format; otherwise a positive weighted sum (absent parts count 0) is accepted, and an all-zero sum gives "No time units" |
| Duration.ParseMatched | timer.py:23-43 | the same three cases, stated for any input the pattern matched with given groups |
| Duration.RenderEmpty | timer.py:20 | the matched text is empty exactly when no part took part in the match |
| Duration.AcceptedIsRendering | timer.py:18-34 | every accepted input is the rendering of groups with at least one part, optionally followed by a newline, and its value is their weighted sum |
| Duration.SpellRoundTrip | timer.py:11-43 | writing naturals as `{h}h{m}m{s}s`, with any part optional, parses back to h·3600+m·60+s when that is positive; an all-zero spelling gives "No time units" and the empty spelling gives a bad format |
| Duration.CountShowPart | timer.py:27-29 | an absent part counts 0, and a present part's text reads back as its number |
| Duration.DigitRunOf | timer.py:18 | a digit string followed by a non-digit is exactly the leading digit run |
| Duration.GroupPart | timer.py:18 | a rendered part is scanned back exactly, provided the text after it does not start another part with the same unit |
| Duration.NotBeforePart | timer.py:18 | a part ending in one unit letter cannot be taken as a part with a different unit |
| Duration.NoLeadingPartRejected | timer.py:18-21 | input that is not empty, is not a lone newline, and does not start with digits followed by a unit letter is a bad format |
| Duration.OutOfOrderRejected | timer.py:18-21 | a part followed by another whose unit is not later in h, m, s order is a bad format, which covers repeated units |
| Duration.ExampleAllParts | timer.py:13-14 | "1h30m10s" is 5410 seconds |
| Duration.ExampleMinutes | timer.py:13-14 | "90m" is 5400 seconds |
| Duration.ExampleSeconds | timer.py:13-14 | "180s" is 180 seconds |
| Duration.ExampleHours | timer.py:114 | "2h" is 7200 seconds |
| Duration.TrailingNewlineExample | timer.py:18-20 | "5m\n" is 300 seconds |
| Duration.EmptyExamples | timer.py:20-21 | "" and "\n" match with an empty match and are a bad format |
| Duration.NonDigitExample | timer.py:20-21 | "abc" is a bad format |
| Duration.UnknownUnitExample | timer.py:20-21 | "30x" is a bad format |
| Duration.OutOfOrderExample | timer.py:20-21 | "30m1h" is a bad format |
| Duration.ZeroSecondsExample | timer.py:36-39 | "0s" gives "No time units" |
| Duration.AllZeroExample | timer.py:36-39 | "0h0m0s" gives "No time units" |
| Decimal.DigitValue | timer.py:27-29 | a digit's value is below 10 |
| Decimal.Digit | timer.py:61 | the digit character written for d reads back as d |
| Decimal.ValueSnoc | timer.py:27-29 | appending a digit multiplies the value by ten and adds the digit |
| Decimal.ReadDigitsValue | timer.py:27-29 | the checked reader accepts exactly the all-digit strings and reads them as their value |
| Decimal.Show | timer.py:61 | `str(n)` is a non-empty digit string without a leading zero that reads back as n; it has one digit exactly below 10 and at most two exactly below 100 |
| Decimal.Zeros | timer.py:61 | a string of exactly k characters, each of them '0' |
| Decimal.PadLeft | timer.py:61 | the result is the original string preceded by '0's only, as many as needed to reach the width; a string already that wide comes back unchanged |
| Decimal.ValueLeadingZero | timer.py:61 | one leading zero does not change the value |
| Decimal.ValueZerosPrefix | timer.py:61 | any run of leading zeros does not change the value |
| Decimal.PadLeftValue | timer.py:61 | zero padding keeps the number: `int(f"{n:0Wd}") == n` |
| Clock.Split | timer.py:58-60 | hours·3600 + minutes·60 + seconds equals the remaining time, and minutes and seconds are below 60 |
| Clock.SplitUnique | timer.py:58-60 | this is the only split with minutes and seconds below 60, so hours are never wrapped |
| Clock.TwoDigitHours | timer.py:58 | hours are below 100 exactly when the remaining time is below 360000 seconds |
| Clock.Pad2 | timer.py:61 | `{n:02d}` reads back as n. It is '0' followed by the digit when n < 10, and `str(n)` otherwise, so it has two characters exactly when n < 100 |
| Clock.Join | timer.py:61 | the three fields joined by colons: hours first, then two-digit minutes and two-digit seconds after their colons |
| Clock.Format | timer.py:61 | the display reads back as the remaining seconds. It has at least 8 characters, exactly 8 when the remaining time is below 360000 seconds, and a longer display does not start with '0' |
| Clock.Display | timer.py:61 | `{h:02d}:{m:02d}:{s:02d}` of a split time reads back as its weighted sum. It is 8 characters exactly when hours < 100, and a longer display does not start with '0' |
| Clock.NoLeadingZero | timer.py:61 | from 100 hours on, the display starts with the first digit of `str(hours)`, never with a padding zero |
| Clock.ReadFields | timer.py:58-61 | zero-padded fields joined by colons read back as their weighted sum |
| Clock.ReadJoin | timer.py:61 | digit fields of widths ≥2, 2 and 2, joined by colons, read back as their weighted sum |
| Clock.FormatExample | timer.py:58-61 | 90061 seconds is displayed "25:01:01"; hours are not taken modulo 24 |
| Notifier.Notify | timer.py:84-108 | the loop follows the fail-fast policy: at most repeat_count runs, every run before the last played, stopping early only after a run that did not play, and it exits through `sys.exit(0)` exactly when the last run was interrupted |
| Notifier.FailFastDetermined | timer.py:84-106 | the fail-fast policy fixes the number of runs and how the loop ends |
| Notifier.PlaySoundMacos | timer.py:84-108 | the imperative loop, with its `break`s and interrupt exit, follows the fail-fast policy and agrees with Notify |
| Notifier.AllPlayed | timer.py:84-90 | when every run plays, the sound plays repeat_count times (none when repeat_count is not positive) and the loop finishes normally |
| Notifier.FirstStop | timer.py:91-106 | the first run that does not play ends the loop after k+1 runs, through the interrupt exit exactly when that run was interrupted |
| Cli.ExitStatus | timer.py:129-141 | SystemExit keeps its own code; otherwise the status is 0 exactly for normal completion or Ctrl+C, and 1 for a ValueError or any other Exception |
| Cli.Run | timer.py:119-141 | the status is 0 or 1. It is 1 exactly when the duration does not parse or its total is too large for a float. Nothing plays in those cases or when the countdown is cancelled, and there are at most 10 runs |
| Cli.OverflowFails | timer.py:47 | a total of at least `FloatOverflow` seconds ends the run with an unexpected exception before anything plays, however the countdown would have ended |
| Cli.CompleteRunsNotifier | timer.py:121-127 | after a valid duration and a finished countdown the notifier runs with repeat count 10; the script ends through `sys.exit(0)` exactly when playback was interrupted, and ends normally otherwise |

## Left out

- The countdown's waiting loop (lines 47-56, 64-73), which uses the clock, `round`, `print`, `flush` and `sleep`. Only how it ends is modelled: complete, or cancelled with `sys.exit(0)`. The OverflowError of a total too large for a float is modelled in `Cli.Run`.
- All console output, including the usage text printed at line 131. The model has no I/O.
- The `afplay` subprocess. The outcome of each run is an input sequence. The `repeatCount <= |outcomes|` precondition of `Notifier.Notify`, `Notifier.PlaySoundMacos` and `Cli.Run` asks that sequence to cover every run the loop might make. It is a condition on the environment stand-in, not on the source's callers.
- Argument parsing by `argparse` (lines 113-117). The duration argument is a given string.
- Cli.Run: only Ctrl+C inside the countdown or during a sound run is modelled. A KeyboardInterrupt that lands between steps, or while output is printed, depends on timing and is not modelled.
- Cli.Run: a run that fails with stderr that is not valid UTF-8 is not modelled. The `decode()` at line 97 would raise UnicodeDecodeError inside the handler. That is a subclass of ValueError, so the `except ValueError` at line 129 would catch it, print the usage line and give status 1, and the run's `Escape` would be `ValueError`. The model treats every failed run as a plain `break`.
- Decimal.IsDigit: ASCII digits only. Python's `\d` and `int()` also accept other Unicode decimal digits, such as Arabic-Indic digits.
- Duration.ParseTime: does not model the limit Python 3.11 and later puts on `int()` of strings over 4300 digits, which raises ValueError. That limit depends on the interpreter version and setting.
- Clock.Split: defined on naturals. The countdown reaches line 58 only when `remaining` is positive, so Python's floor division and Dafny's agree there.
