/** The repeat loop of `play_sound_macos` (timer.py, lines 84-108). The
    `afplay` subprocess is not modelled; each iteration's outcome is given
    instead, in order, as the caller's sequence `outcomes`. */
module Notifier {

  /** How one `afplay` run ends: it played, the command was missing
      (FileNotFoundError), it exited non-zero (CalledProcessError), it
      raised anything else, or the user pressed Ctrl+C (KeyboardInterrupt). */
  datatype Attempt = Played | NotFound | Failed | Other | Interrupt

  /** How the loop is left: normally, reaching "Finished playing sound.", or
      through `sys.exit(0)` after an interrupt, which skips that message. */
  datatype Ending = Finished | InterruptExit

  /** How many times `afplay` was started, and how the loop ended. */
  datatype Playback = Playback(attempts: nat, ending: Ending)

  /** The fail-fast policy: at most `repeatCount` attempts (none when it is
      not positive); every attempt but the last played; stopping before
      `repeatCount` happens only right after an attempt that did not play;
      and the loop exits through the interrupt path exactly when the last
      attempt was interrupted. */
  ghost predicate FailFast(repeatCount: int, outcomes: seq<Attempt>, r: Playback)
    requires repeatCount <= |outcomes|
  {
    && r.attempts <= (if repeatCount > 0 then repeatCount else 0)
    && (forall i :: 0 <= i < r.attempts - 1 ==> outcomes[i] == Played)
    && (r.attempts < repeatCount ==> 0 < r.attempts && outcomes[r.attempts - 1] != Played)
    && (r.ending == InterruptExit <==> 0 < r.attempts && outcomes[r.attempts - 1] == Interrupt)
  }

  /** The loop as a function of the outcomes of its iterations. */
  function Notify(repeatCount: int, outcomes: seq<Attempt>): (r: Playback)
    requires repeatCount <= |outcomes|
    ensures FailFast(repeatCount, outcomes, r)
    decreases if repeatCount > 0 then repeatCount else 0
  {
    if repeatCount <= 0 then
      Playback(0, Finished)
    else
      match outcomes[0]
      case Played =>
        var rest := Notify(repeatCount - 1, outcomes[1..]);
        Playback(rest.attempts + 1, rest.ending)
      case Interrupt => Playback(1, InterruptExit)
      case _ => Playback(1, Finished)
  }

  /** The fail-fast policy leaves no freedom: it determines the number of
      attempts and the ending. */
  lemma {:induction false} FailFastDetermined(repeatCount: int, outcomes: seq<Attempt>, r1: Playback, r2: Playback)
    requires repeatCount <= |outcomes|
    requires FailFast(repeatCount, outcomes, r1) && FailFast(repeatCount, outcomes, r2)
    ensures r1 == r2
  {
  }

  /** The `for i in range(repeat_count)` loop itself, with its `break`s and
      the `sys.exit(0)` of the interrupt handler as an early return. */
  method PlaySoundMacos(repeatCount: int, outcomes: seq<Attempt>) returns (attempts: nat, ending: Ending)
    requires repeatCount <= |outcomes|
    ensures FailFast(repeatCount, outcomes, Playback(attempts, ending))
    ensures Playback(attempts, ending) == Notify(repeatCount, outcomes)
  {
    attempts, ending := 0, Finished;
    var i := 0;
    while i < repeatCount
      invariant 0 <= i <= (if repeatCount > 0 then repeatCount else 0)
      invariant attempts == i && ending == Finished
      invariant forall j :: 0 <= j < i ==> outcomes[j] == Played
    {
      var outcome := outcomes[i];
      attempts := attempts + 1;
      if outcome == Interrupt {
        ending := InterruptExit;
        FailFastDetermined(repeatCount, outcomes, Playback(attempts, ending), Notify(repeatCount, outcomes));
        return;
      }
      if outcome != Played {
        break;
      }
      i := i + 1;
    }
    FailFastDetermined(repeatCount, outcomes, Playback(attempts, ending), Notify(repeatCount, outcomes));
  }

  /** When every run plays, the sound is played `repeatCount` times and the
      loop finishes normally; with a non-positive count nothing is played. */
  lemma AllPlayed(repeatCount: int, outcomes: seq<Attempt>)
    requires repeatCount <= |outcomes|
    requires forall i :: 0 <= i < repeatCount ==> outcomes[i] == Played
    ensures Notify(repeatCount, outcomes) == Playback(if repeatCount > 0 then repeatCount else 0, Finished)
  {
  }

  /** The first run that does not play ends the loop: `k + 1` attempts, and
      the interrupt path exactly when that run was interrupted. */
  lemma FirstStop(repeatCount: int, outcomes: seq<Attempt>, k: nat)
    requires repeatCount <= |outcomes| && k < repeatCount
    requires forall i :: 0 <= i < k ==> outcomes[i] == Played
    requires outcomes[k] != Played
    ensures Notify(repeatCount, outcomes).attempts == k + 1
    ensures Notify(repeatCount, outcomes).ending == if outcomes[k] == Interrupt then InterruptExit else Finished
  {
  }
}
