/** The duration parser of timer.py (`parse_time`): the anchored pattern
    `^((\d+)h)?((\d+)m)?((\d+)s)?$` as a hand-written scanner, followed by
    the weighted sum hours*3600 + minutes*60 + seconds and the two checks
    that raise ValueError.

    Python quirks decided here:
    - `$` without MULTILINE matches at the end of the input and also just
      before one final '\n'; so "5m\n" is accepted and group(0) is "5m".
    - digits are ASCII '0'..'9' only (see module Decimal). */
module Duration {
  import opened Results
  import opened Decimal

  /** Why `parse_time` raises ValueError: the pattern did not match or
      matched the empty string (line 21), every present part is zero
      (line 39), or the total is not positive although some part is not
      zero (line 40). */
  datatype ParseError = BadFormat | NoUnits | NotPositive

  /** The three named groups of a match: the digit text of each part, or
      None when that optional part did not participate. */
  datatype Groups = Groups(hours: Option<string>, minutes: Option<string>, seconds: Option<string>)

  /** A group's text is a non-empty run of digits, as `\d+` demands. */
  predicate WellFormedGroup(x: Option<string>) {
    x.Some? ==> |x.value| > 0 && AllDigits(x.value)
  }

  predicate WellFormed(g: Groups) {
    WellFormedGroup(g.hours) && WellFormedGroup(g.minutes) && WellFormedGroup(g.seconds)
  }

  /** The text an optional part `(\d+)<unit>` spans. */
  function Part(x: Option<string>, unit: char): string {
    match x
    case None => []
    case Some(ds) => ds + [unit]
  }

  /** The matched text, group(0): the present parts in h, m, s order. */
  function Render(g: Groups): string {
    Part(g.hours, 'h') + Part(g.minutes, 'm') + Part(g.seconds, 's')
  }

  /** Inputs the pattern matches: a rendering, optionally followed by one
      newline, which `$` lets through. */
  predicate Tail(t: string) {
    t == [] || t == ['\n']
  }

  /** Length of the longest run of digits at the start of `s`. */
  function DigitRun(s: string): (k: nat)
    ensures k <= |s|
    ensures AllDigits(s[..k])
    ensures k == |s| || !IsDigit(s[k])
  {
    if s != [] && IsDigit(s[0]) then
      var k := 1 + DigitRun(s[1..]);
      assert s[..k] == [s[0]] + s[1..][..k - 1];
      k
    else 0
  }

  /** What one optional group leaves behind: its digits, if it
      participated, and the unconsumed input. */
  datatype Step = Step(group: Option<string>, rest: string)

  /** One optional group `((\d+)<unit>)?`: it participates exactly when the
      input starts with a digit run followed by `unit`, and then consumes
      both. A shorter digit run cannot help, because the character after it
      would be a digit, never a unit letter. */
  function Group(s: string, unit: char): (r: Step)
    ensures WellFormedGroup(r.group)
    ensures s == Part(r.group, unit) + r.rest
  {
    var k := DigitRun(s);
    if 0 < k < |s| && s[k] == unit then
      assert s == s[..k] + [unit] + s[k + 1..];
      Step(Some(s[..k]), s[k + 1..])
    else
      Step(None, s)
  }

  /** `re.match` of the duration pattern: the three groups, or None when
      the pattern does not match. */
  function Match(s: string): (m: Option<Groups>)
    ensures m.Some? ==> WellFormed(m.value)
    ensures m.Some? ==> s == Render(m.value) || s == Render(m.value) + ['\n']
  {
    var h := Group(s, 'h');
    var mi := Group(h.rest, 'm');
    var se := Group(mi.rest, 's');
    if Tail(se.rest) then
      var g := Groups(h.group, mi.group, se.group);
      Concat4(Part(g.hours, 'h'), Part(g.minutes, 'm'), Part(g.seconds, 's'), se.rest);
      assert se.rest == [] ==> Render(g) + se.rest == Render(g);
      Some(g)
    else
      None
  }

  lemma {:induction false} Concat4(a: string, b: string, c: string, d: string)
    ensures a + (b + (c + d)) == a + b + c + d
  {
  }

  /** A part's number, 0 when the part is absent
      (`int(time_parts.get(...) or 0)`). */
  function Count(x: Option<string>): nat
    requires WellFormedGroup(x)
  {
    match x
    case None => 0
    case Some(ds) => Value(ds)
  }

  function Total(g: Groups): nat
    requires WellFormed(g)
  {
    Count(g.hours) * 3600 + Count(g.minutes) * 60 + Count(g.seconds)
  }

  predicate Absent(g: Groups) {
    g.hours.None? && g.minutes.None? && g.seconds.None?
  }

  /** `parse_time`: the number of seconds a duration string denotes, or the
      ValueError it raises. */
  function ParseTime(s: string): (r: Result<nat, ParseError>)
    ensures r.Ok? ==> r.value > 0
    ensures r.Err? ==> r.error != NotPositive
  {
    match Match(s)
    case None => Err(BadFormat)
    case Some(g) => Evaluate(g)
  }

  /** What `parse_time` does once the pattern has matched with groups `g`:
      reject an empty group(0), then add up the parts and reject a total
      that is not positive. The weighted sum of naturals is never negative,
      so it is not positive only when all three parts are 0, and the
      "Total duration must be positive" raise can never be reached. */
  function Evaluate(g: Groups): (r: Result<nat, ParseError>)
    requires WellFormed(g)
    ensures r.Ok? ==> r.value > 0
    ensures r.Err? ==> r.error != NotPositive
  {
    if |Render(g)| == 0 then Err(BadFormat)
    else
      var total := Total(g);
      if total <= 0 then
        if Count(g.hours) == 0 && Count(g.minutes) == 0 && Count(g.seconds) == 0 then Err(NoUnits)
        else Err(NotPositive)
      else Ok(total)
  }

  /** `unit` does not start the text after a part: the leading digit run of
      `rest` is not followed by `unit`. */
  predicate NotBefore(rest: string, unit: char) {
    var k := DigitRun(rest);
    !(0 < k < |rest| && rest[k] == unit)
  }

  /** The leading digit run of `ds + t` is `ds` when `t` does not start
      with a digit. */
  lemma {:induction false} DigitRunOf(ds: string, t: string)
    requires AllDigits(ds)
    requires t == [] || !IsDigit(t[0])
    ensures DigitRun(ds + t) == |ds|
    decreases |ds|
  {
    if ds == [] {
      assert ds + t == t;
    } else {
      assert (ds + t)[1..] == ds[1..] + t;
      DigitRunOf(ds[1..], t);
    }
  }

  /** A part is scanned back exactly: its group is captured and the scan
      resumes right after it, provided what follows does not extend it. */
  lemma {:induction false} GroupPart(x: Option<string>, unit: char, rest: string)
    requires WellFormedGroup(x) && !IsDigit(unit)
    requires x.Some? || NotBefore(rest, unit)
    ensures Group(Part(x, unit) + rest, unit) == Step(x, rest)
  {
    if x.Some? {
      var s := Part(x, unit) + rest;
      assert s == x.value + ([unit] + rest);
      DigitRunOf(x.value, [unit] + rest);
      assert s[..|x.value|] == x.value;
      assert s[|x.value| + 1..] == rest;
    } else {
      assert Part(x, unit) + rest == rest;
    }
  }

  /** A part with a different unit in front of `rest` keeps `unit` away. */
  lemma {:induction false} NotBeforePart(x: Option<string>, other: char, rest: string, unit: char)
    requires WellFormedGroup(x) && !IsDigit(other) && other != unit
    requires x.Some? || NotBefore(rest, unit)
    ensures NotBefore(Part(x, other) + rest, unit)
  {
    if x.Some? {
      var s := Part(x, other) + rest;
      assert s == x.value + ([other] + rest);
      DigitRunOf(x.value, [other] + rest);
      assert s[|x.value|] == other;
    } else {
      assert Part(x, other) + rest == rest;
    }
  }

  /** Completeness of the scanner: every rendering of well-formed groups,
      with or without one trailing newline, matches and yields exactly
      those groups. Together with the contract of Match, the scanner
      accepts exactly the language of the pattern. */
  lemma {:induction false} MatchRender(g: Groups, t: string)
    requires WellFormed(g) && Tail(t)
    ensures Match(Render(g) + t) == Some(g)
  {
    var s := Render(g) + t;
    var afterH := Part(g.minutes, 'm') + (Part(g.seconds, 's') + t);
    var afterM := Part(g.seconds, 's') + t;
    assert s == Part(g.hours, 'h') + afterH;
    assert NotBefore(t, 'h') && NotBefore(t, 'm') && NotBefore(t, 's');
    NotBeforePart(g.seconds, 's', t, 'm');
    NotBeforePart(g.seconds, 's', t, 'h');
    NotBeforePart(g.minutes, 'm', afterM, 'h');
    GroupPart(g.hours, 'h', afterH);
    GroupPart(g.minutes, 'm', afterM);
    GroupPart(g.seconds, 's', t);
  }

  /** The pattern's language decides acceptance: a string that is no
      rendering of well-formed groups (with an optional final newline) is
      rejected as badly formatted. */
  lemma {:induction false} RejectOutsideLanguage(s: string)
    requires forall g: Groups :: WellFormed(g) ==> s != Render(g) && s != Render(g) + ['\n']
    ensures ParseTime(s) == Err(BadFormat)
  {
  }

  /** Parsing a string of the language: no part at all is a format error;
      otherwise the result is the weighted sum with absent parts counted as
      0 when it is positive, and "No time units" when every part is 0. */
  lemma {:induction false} ParseRender(g: Groups, s: string)
    requires WellFormed(g)
    requires s == Render(g) || s == Render(g) + ['\n']
    ensures Absent(g) ==> ParseTime(s) == Err(BadFormat)
    ensures !Absent(g) && Total(g) > 0 ==> ParseTime(s) == Ok(Total(g))
    ensures !Absent(g) && Total(g) == 0 ==> ParseTime(s) == Err(NoUnits)
  {
    if s == Render(g) {
      assert s == Render(g) + [];
      MatchRender(g, []);
    } else {
      MatchRender(g, ['\n']);
    }
    ParseMatched(s, g);
  }

  /** `parse_time` once the pattern has matched with groups `g`. */
  lemma {:induction false} ParseMatched(s: string, g: Groups)
    requires Match(s) == Some(g) && WellFormed(g)
    ensures Absent(g) ==> ParseTime(s) == Err(BadFormat)
    ensures !Absent(g) && Total(g) > 0 ==> ParseTime(s) == Ok(Total(g))
    ensures !Absent(g) && Total(g) == 0 ==> ParseTime(s) == Err(NoUnits)
  {
    assert ParseTime(s) == Evaluate(g);
    RenderEmpty(g);
  }

  /** group(0) is empty exactly when no part participated. */
  lemma {:induction false} RenderEmpty(g: Groups)
    requires WellFormed(g)
    ensures |Render(g)| == 0 <==> Absent(g)
  {
    assert |Render(g)| == |Part(g.hours, 'h')| + |Part(g.minutes, 'm')| + |Part(g.seconds, 's')|;
  }

  /** Every accepted string is a rendering of groups with at least one part,
      and the result is their weighted sum. */
  lemma {:induction false} AcceptedIsRendering(s: string)
    requires ParseTime(s).Ok?
    ensures exists g: Groups ::
      && WellFormed(g) && !Absent(g) && ParseTime(s).value == Total(g)
      && (s == Render(g) || s == Render(g) + ['\n'])
  {
    var g := Match(s).value;
    assert !Absent(g);
    assert ParseTime(s).value == Total(g);
  }

  /** The `"{h}h{m}m{s}s"` spelling of naturals, each part optional. */
  function Spell(h: Option<nat>, m: Option<nat>, s: Option<nat>): string {
    Render(Groups(ShowPart(h), ShowPart(m), ShowPart(s)))
  }

  function ShowPart(x: Option<nat>): (r: Option<string>)
    ensures WellFormedGroup(r)
  {
    match x
    case None => None
    case Some(n) => Some(Show(n))
  }

  /** hours*3600 + minutes*60 + seconds, an absent part counting 0. */
  function Seconds(h: Option<nat>, m: Option<nat>, s: Option<nat>): nat {
    h.GetOr(0) * 3600 + m.GetOr(0) * 60 + s.GetOr(0)
  }

  /** Round trip: spelling naturals and parsing the spelling gives back the
      weighted sum whenever it is positive. */
  lemma {:induction false} SpellRoundTrip(h: Option<nat>, m: Option<nat>, s: Option<nat>)
    ensures h.None? && m.None? && s.None? ==> ParseTime(Spell(h, m, s)) == Err(BadFormat)
    ensures Seconds(h, m, s) > 0 ==> ParseTime(Spell(h, m, s)) == Ok(Seconds(h, m, s))
    ensures (h.Some? || m.Some? || s.Some?) && Seconds(h, m, s) == 0 ==>
      ParseTime(Spell(h, m, s)) == Err(NoUnits)
  {
    var g := Groups(ShowPart(h), ShowPart(m), ShowPart(s));
    var text := Spell(h, m, s);
    ParseRender(g, text);
    CountShowPart(h);
    CountShowPart(m);
    CountShowPart(s);
    assert Total(g) == Seconds(h, m, s);
    assert Absent(g) <==> h.None? && m.None? && s.None?;
  }

  lemma {:induction false} CountShowPart(x: Option<nat>)
    ensures Count(ShowPart(x)) == x.GetOr(0)
    ensures ShowPart(x).None? <==> x.None?
  {
  }

  /** The accepted inputs of the usage text, one lemma each. */
  lemma ExampleAllParts()
    ensures ParseTime("1h30m10s") == Ok(5410)
  {
    var g := Groups(Some("1"), Some("30"), Some("10"));
    assert Render(g) == "1h30m10s";
    assert Value("1") == 1 && Value("30") == 30 && Value("10") == 10;
    assert Total(g) == 5410;
    ParseRender(g, "1h30m10s");
  }

  lemma ExampleMinutes()
    ensures ParseTime("90m") == Ok(5400)
  {
    var g := Groups(None, Some("90"), None);
    assert Render(g) == "90m";
    assert Value("90") == 90;
    assert Total(g) == 5400;
    ParseRender(g, "90m");
  }

  lemma ExampleSeconds()
    ensures ParseTime("180s") == Ok(180)
  {
    var g := Groups(None, None, Some("180"));
    assert Render(g) == "180s";
    assert Value("1") == 1 && Value("18") == 18 && Value("180") == 180;
    assert Total(g) == 180;
    ParseRender(g, "180s");
  }

  lemma ExampleHours()
    ensures ParseTime("2h") == Ok(7200)
  {
    var g := Groups(Some("2"), None, None);
    assert Render(g) == "2h";
    assert Value("2") == 2;
    assert Total(g) == 7200;
    ParseRender(g, "2h");
  }

  /** `$` lets one final newline through, and group(0) then leaves it out. */
  lemma TrailingNewlineExample()
    ensures ParseTime("5m\n") == Ok(300)
  {
    var g := Groups(None, Some("5"), None);
    assert Render(g) == "5m";
    assert "5m" + ['\n'] == "5m\n";
    assert Value("5") == 5;
    assert Total(g) == 300;
    ParseRender(g, "5m\n");
  }

  predicate IsUnit(u: char) {
    u == 'h' || u == 'm' || u == 's'
  }

  /** Position of a unit in the fixed h, m, s order. */
  function Rank(u: char): nat {
    if u == 'h' then 0 else if u == 'm' then 1 else 2
  }

  /** The input starts with a digit run followed by a unit letter. */
  predicate StartsWithPart(s: string) {
    var k := DigitRun(s);
    0 < k < |s| && IsUnit(s[k])
  }

  /** Input that neither starts with a part nor is empty or a lone newline
      is badly formatted: an unknown unit (`30x`), no digits (`abc`, `h`). */
  lemma NoLeadingPartRejected(s: string)
    requires !StartsWithPart(s) && !Tail(s)
    ensures ParseTime(s) == Err(BadFormat)
  {
    assert Group(s, 'h') == Step(None, s);
    assert Group(s, 'm') == Step(None, s);
    assert Group(s, 's') == Step(None, s);
  }

  /** Parts must come in h, m, s order, each at most once: a part followed
      by one whose unit does not come later (`30m1h`, `1h2h`, `5s9m`) is
      badly formatted. */
  lemma {:induction false} OutOfOrderRejected(a: string, u: char, b: string, v: char)
    requires |a| > 0 && AllDigits(a) && |b| > 0 && AllDigits(b)
    requires IsUnit(u) && IsUnit(v) && Rank(v) <= Rank(u)
    ensures ParseTime(a + [u] + b + [v]) == Err(BadFormat)
  {
    var x := Part(Some(b), v) + [];
    var s := Part(Some(a), u) + x;
    assert a + [u] + b + [v] == s;
    assert !Tail(x);
    if u == 'h' {
      GroupPart(Some(a), 'h', x);
      NotBeforePart(Some(b), v, [], 'm');
      NotBeforePart(Some(b), v, [], 's');
      GroupPart(None, 'm', x);
      GroupPart(None, 's', x);
    } else if u == 'm' {
      NotBeforePart(Some(a), 'm', x, 'h');
      GroupPart(None, 'h', s);
      GroupPart(Some(a), 'm', x);
      NotBeforePart(Some(b), v, [], 's');
      GroupPart(None, 's', x);
    } else {
      NotBeforePart(Some(a), 's', x, 'h');
      NotBeforePart(Some(a), 's', x, 'm');
      GroupPart(None, 'h', s);
      GroupPart(None, 'm', s);
      GroupPart(Some(a), 's', x);
    }
    assert Match(s) == None;
  }

  /** The pattern matches the empty string, and before a lone newline,
      but group(0) is then empty. */
  lemma EmptyExamples()
    ensures ParseTime("") == Err(BadFormat)
    ensures ParseTime("\n") == Err(BadFormat)
  {
    assert Match("") == Some(Groups(None, None, None));
    assert Match("\n") == Some(Groups(None, None, None));
  }

  /** Inputs the usage text rules out: no digits, an unknown unit, parts
      out of order. */
  lemma NonDigitExample()
    ensures ParseTime("abc") == Err(BadFormat)
  {
    NoLeadingPartRejected("abc");
  }

  lemma UnknownUnitExample()
    ensures ParseTime("30x") == Err(BadFormat)
  {
    assert "30x" == "30" + "x";
    DigitRunOf("30", "x");
    NoLeadingPartRejected("30x");
  }

  lemma OutOfOrderExample()
    ensures ParseTime("30m1h") == Err(BadFormat)
  {
    assert "30m1h" == "30" + ['m'] + "1" + ['h'];
    OutOfOrderRejected("30", 'm', "1", 'h');
  }

  /** Inputs whose every part is zero raise "No time units". */
  lemma ZeroSecondsExample()
    ensures ParseTime("0s") == Err(NoUnits)
  {
    var g := Groups(None, None, Some("0"));
    assert Render(g) == "0s";
    assert Value("0") == 0;
    ParseRender(g, "0s");
  }

  lemma AllZeroExample()
    ensures ParseTime("0h0m0s") == Err(NoUnits)
  {
    var g := Groups(Some("0"), Some("0"), Some("0"));
    assert Render(g) == "0h0m0s";
    assert Value("0") == 0;
    ParseRender(g, "0h0m0s");
  }
}
