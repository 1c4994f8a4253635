/** The script body under `if __name__ == "__main__"` (timer.py, lines
    119-141): parse the duration, count down, play the sound ten times, and
    turn whatever escaped into an exit status. The countdown's waiting is
    not modelled; only how it ended is given. */
module Cli {
  import opened Results
  import opened Duration
  import opened Notifier

  /** `play_sound_macos(repeat_count=10)` at line 127. */
  const Repeats: nat := 10

  /** The least int that `float()` cannot convert, 2^1024 - 2^970: it is
      halfway between the largest double and 2^1024, and rounds up. Adding
      a total this large to `time.time()` at line 47 raises OverflowError
      before the countdown's `try` is entered. */
  const FloatOverflow: nat := 0xFFFF_FFFF_FFFF_FC00_0000_0000_0000_0000_0000_0000_0000_0000_0000_0000_0000_0000_0000_0000_0000_0000_0000_0000_0000_0000_0000_0000_0000_0000_0000_0000_0000_0000_0000_0000_0000_0000_0000_0000_0000_0000_0000_0000_0000_0000_0000_0000_0000_0000_0000_0000_0000_0000_0000_0000_0000_0000_0000_0000_0000_0000_0000_0000_0000_0000

  /** How `countdown` returned: time ran out, or Ctrl+C made it call
      `sys.exit(0)`. */
  datatype Countdown = Complete | Cancelled

  /** What escapes the body of the `try` at line 119. `sys.exit` raises
      SystemExit, which is not an Exception, so none of the handlers at
      lines 129-141 catches it and its code becomes the exit status. */
  datatype Escape = NoException | ValueError | KeyboardInterrupt | SystemExit(code: int) | UnexpectedError

  /** The exit status the handlers of lines 129-141 produce. */
  function ExitStatus(e: Escape): (status: int)
    ensures e.SystemExit? ==> status == e.code
    ensures !e.SystemExit? ==> (status == 0 <==> e == NoException || e == KeyboardInterrupt)
    ensures !e.SystemExit? ==> 0 <= status <= 1
  {
    match e
    case NoException => 0
    case ValueError => 1
    case KeyboardInterrupt => 0
    case SystemExit(code) => code
    case UnexpectedError => 1
  }

  /** One run of the script: what escaped, and how many times `afplay` was
      started. */
  datatype Session = Session(escape: Escape, attempts: nat)

  /** Runs the script on the `duration` argument, given how the countdown
      ends and the outcomes of the `afplay` runs. */
  function Run(duration: string, countdown: Countdown, outcomes: seq<Attempt>): (r: Session)
    requires Repeats <= |outcomes|
    ensures ExitStatus(r.escape) == 0 || ExitStatus(r.escape) == 1
    ensures ExitStatus(r.escape) == 1 <==>
      ParseTime(duration).Err? || ParseTime(duration).value >= FloatOverflow
    ensures ParseTime(duration).Err? || ParseTime(duration).value >= FloatOverflow || countdown == Cancelled ==>
      r.attempts == 0
    ensures r.attempts <= Repeats
  {
    match ParseTime(duration)
    case Err(_) => Session(ValueError, 0)
    case Ok(seconds) =>
      if seconds >= FloatOverflow then
        Session(UnexpectedError, 0)
      else if countdown == Cancelled then
        Session(SystemExit(0), 0)
      else
        var played := Notify(Repeats, outcomes);
        Session(if played.ending == InterruptExit then SystemExit(0) else NoException, played.attempts)
  }

  /** A total too large for a float ends the run with status 1 before the
      countdown starts, whatever the countdown would have done. */
  lemma {:induction false} OverflowFails(duration: string, countdown: Countdown, outcomes: seq<Attempt>)
    requires Repeats <= |outcomes|
    requires ParseTime(duration).Ok? && ParseTime(duration).value >= FloatOverflow
    ensures Run(duration, countdown, outcomes) == Session(UnexpectedError, 0)
  {
  }

  /** A finished countdown of a total a float can hold always reaches the notifier, which makes the
      attempts its fail-fast policy allows; its failures never make the
      script fail. */
  lemma CompleteRunsNotifier(duration: string, outcomes: seq<Attempt>)
    requires Repeats <= |outcomes|
    requires ParseTime(duration).Ok? && ParseTime(duration).value < FloatOverflow
    ensures Run(duration, Complete, outcomes).attempts == Notify(Repeats, outcomes).attempts
    ensures Run(duration, Complete, outcomes).escape ==
      if Notify(Repeats, outcomes).ending == InterruptExit then SystemExit(0) else NoException
  {
  }
}
