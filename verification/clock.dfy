/** The remaining-time display of `countdown` (timer.py, lines 58-61):
    whole seconds split into hours, minutes and seconds, and written as
    `HH:MM:SS`, each field zero-padded to at least two digits. Hours are
    not reduced modulo 24. */
module Clock {
  import opened Results
  import opened Decimal

  datatype Hms = Hms(hours: nat, minutes: nat, seconds: nat)

  /** The split of lines 58-60. The countdown only reaches it with a
      positive `remaining`, where Python's floor `//` and `%` agree with
      Dafny's. */
  function Split(remaining: nat): (t: Hms)
    ensures t.hours * 3600 + t.minutes * 60 + t.seconds == remaining
    ensures t.minutes < 60 && t.seconds < 60
  {
    Hms(remaining / 3600, (remaining % 3600) / 60, remaining % 60)
  }

  /** The split is the only one with minutes and seconds below 60: in
      particular hours carry everything above 3599 seconds, however many
      days that is. */
  lemma {:induction false} SplitUnique(remaining: nat, t: Hms)
    requires t.minutes < 60 && t.seconds < 60
    requires t.hours * 3600 + t.minutes * 60 + t.seconds == remaining
    ensures Split(remaining) == t
  {
    var u := Split(remaining);
    assert t.minutes * 60 + t.seconds < 3600;
    assert u.minutes * 60 + u.seconds < 3600;
    assert u.hours == t.hours;
    assert u.minutes == t.minutes;
  }

  /** Hours fit in two digits exactly below 100 hours. */
  lemma {:induction false} TwoDigitHours(remaining: nat)
    ensures Split(remaining).hours < 100 <==> remaining < 360000
  {
  }

  /** `f"{n:02d}"`: decimal, zero-padded to at least two digits. */
  function Pad2(n: nat): (s: string)
    ensures |s| >= 2 && AllDigits(s) && Value(s) == n
    ensures |s| == 2 <==> n < 100
    ensures n < 10 ==> s == ['0', Digit(n)]
    ensures n >= 10 ==> s == Show(n)
  {
    PadLeftValue(Show(n), 2);
    PadLeft(Show(n), 2)
  }

  /** Three fields joined by colons. */
  function Join(h: string, m: string, s: string): (text: string)
    requires |m| == 2 && |s| == 2
    ensures |text| == |h| + 6
    ensures text[|text| - 6] == ':' && text[|text| - 3] == ':'
    ensures text[..|text| - 6] == h
    ensures text[|text| - 5..|text| - 3] == m
    ensures text[|text| - 2..] == s
  {
    var text := h + [':'] + m + [':'] + s;
    assert text[..|h|] == h;
    assert text[|h| + 1..|h| + 3] == m;
    assert text[|h| + 4..] == s;
    text
  }

  /** The display string of line 61: at least eight characters, exactly
      eight below 100 hours, no padding zero in front of a wider hours
      field, and it reads back as the remaining seconds, so distinct
      remaining times never share a display. */
  function Format(remaining: nat): (text: string)
    ensures |text| >= 8
    ensures |text| == 8 <==> remaining < 360000
    ensures Read(text) == Some(remaining)
    ensures |text| > 8 ==> text[0] != '0'
  {
    TwoDigitHours(remaining);
    Display(Split(remaining))
  }

  /** The display of a split time: `{h:02d}:{m:02d}:{s:02d}`. */
  function Display(t: Hms): (text: string)
    requires t.minutes < 60 && t.seconds < 60
    ensures |text| >= 8
    ensures |text| == 8 <==> t.hours < 100
    ensures Read(text) == Some(t.hours * 3600 + t.minutes * 60 + t.seconds)
    ensures |text| > 8 ==> text[0] != '0'
  {
    ReadFields(t);
    NoLeadingZero(t);
    Join(Pad2(t.hours), Pad2(t.minutes), Pad2(t.seconds))
  }

  /** Reads an `H..H:MM:SS` display back into seconds: at least two hour
      digits, exactly two minute and two second digits, each below 60. */
  function Read(text: string): Option<nat> {
    if |text| < 8 || text[|text| - 6] != ':' || text[|text| - 3] != ':' then None
    else
      var hh, mm, ss :=
        ReadDigits(text[..|text| - 6]), ReadDigits(text[|text| - 5..|text| - 3]), ReadDigits(text[|text| - 2..]);
      if hh.Some? && mm.Some? && ss.Some? && mm.value < 60 && ss.value < 60
      then Some(hh.value * 3600 + mm.value * 60 + ss.value)
      else None
  }

  /** Round trip on the fields: zero-padded hours, minutes and seconds
      joined by colons read back as their weighted sum. */
  lemma {:induction false} ReadFields(t: Hms)
    requires t.minutes < 60 && t.seconds < 60
    ensures Read(Join(Pad2(t.hours), Pad2(t.minutes), Pad2(t.seconds))) ==
      Some(t.hours * 3600 + t.minutes * 60 + t.seconds)
  {
    ReadJoin(Pad2(t.hours), Pad2(t.minutes), Pad2(t.seconds));
  }

  /** A display wider than eight characters starts with the first digit of
      `str(hours)`, never with a padding zero. */
  lemma {:induction false} NoLeadingZero(t: Hms)
    requires t.minutes < 60 && t.seconds < 60
    ensures var text := Join(Pad2(t.hours), Pad2(t.minutes), Pad2(t.seconds));
      |text| > 8 ==> text[0] != '0'
  {
    var hours := Pad2(t.hours);
    var text := Join(hours, Pad2(t.minutes), Pad2(t.seconds));
    if |text| > 8 {
      assert text[..|hours|] == hours;
      assert text[0] == hours[0];
    }
  }

  lemma {:induction false} ReadJoin(h: string, m: string, s: string)
    requires |h| >= 2 && |m| == 2 && |s| == 2
    requires AllDigits(h) && AllDigits(m) && AllDigits(s)
    requires Value(m) < 60 && Value(s) < 60
    ensures Read(Join(h, m, s)) == Some(Value(h) * 3600 + Value(m) * 60 + Value(s))
  {
    var text := Join(h, m, s);
    ReadDigitsValue(h);
    ReadDigitsValue(m);
    ReadDigitsValue(s);
    assert Read(text).Some?;
    assert Read(text).value == Value(h) * 3600 + Value(m) * 60 + Value(s);
  }

  /** A day and a minute and a second: 25 hours, not 1. */
  lemma FormatExample()
    ensures Format(90061) == "25:01:01"
  {
    assert Split(90061) == Hms(25, 1, 1);
    assert Show(25) == "25" && Show(1) == "1";
    assert Pad2(1) == "01";
  }
}
