/**
 * Video-duration formatting and the blank-query guards of the three YouTube
 * search screens:
 *   - src/pages/Search/YoutubeSearchPage.js  `formatDuration(duration)`
 *   - src/components/YoutubeSearchPage.js    `formatDuration(seconds)`
 *   - src/pages/YoutubeSearch.js             the inline "영상 길이" formatter
 *
 * All three split a number of seconds into hours, minutes and seconds with
 * `Math.floor` and JavaScript's `%` and print `H:MM:SS` or `M:SS`.
 */
module YoutubeSearch {
  import opened JsText

  /** A duration as the search results deliver it (`undefined`/`null`, NaN,
      a number, or a string). Numbers are integral in this model. */
  datatype DurationValue = Missing | NotANumber | Number(n: int) | Text(s: string)

  /** JavaScript truthiness of a duration value. */
  predicate Truthy(d: DurationValue) {
    match d
    case Missing => false
    case NotANumber => false
    case Number(n) => n != 0
    case Text(s) => s != []
  }

  // ---------------------------------------------------------------------------
  // Shared arithmetic

  /** JavaScript's `a % b`: the remainder has the sign of the dividend. */
  function JsRem(a: int, b: int): (r: int)
    requires b > 0
    ensures a >= 0 ==> 0 <= r < b && a == (a / b) * b + r
    ensures a < 0 ==> -b < r <= 0
  {
    if a >= 0 then a % b else -((-a) % b)
  }

  function Hours(n: int): int { n / 3600 }            // Math.floor(n / 3600)
  function Minutes(n: int): int { JsRem(n, 3600) / 60 }  // Math.floor((n % 3600) / 60)
  function Seconds(n: int): int { JsRem(n, 60) }        // n % 60

  /** The clock text of three fields: `H:MM:SS` when the hour field is
      positive, otherwise `M:SS`; minutes and seconds are `padStart(2, '0')`. */
  function ClockText(h: int, m: int, s: int): string {
    if h > 0 then IntToString(h) + ":" + PadStart2(IntToString(m)) + ":" + PadStart2(IntToString(s))
    else IntToString(m) + ":" + PadStart2(IntToString(s))
  }

  /** The clock text of a number of seconds, as every variant computes it. */
  function SecondsText(n: int): string {
    ClockText(Hours(n), Minutes(n), Seconds(n))
  }

  /** Division by a literal is determined by any quotient-remainder pair. */
  lemma DivModBy(n: int, d: int, k: int, b: int)
    requires d == 60 || d == 3600
    requires 0 <= b < d && n == d * k + b
    ensures n / d == k && n % d == b
  {
    var q, r := n / d, n % d;
    assert d * q + r == d * k + b;
  }

  /** For a non-negative count the three fields decompose it exactly. */
  lemma Decomposition(n: nat)
    ensures 0 <= Minutes(n) < 60 && 0 <= Seconds(n) < 60 && Hours(n) >= 0
    ensures Hours(n) * 3600 + Minutes(n) * 60 + Seconds(n) == n
  {
    var q, r := n / 3600, n % 3600;
    var a, b := r / 60, r % 60;
    assert n == 60 * (60 * q + a) + b;
    DivModBy(n, 60, 60 * q + a, b);
  }

  /** The shape of the text for a positive count: with at least one hour it is
      `H:MM:SS`, otherwise `M:SS` with no hour field; both padded fields are
      two digits. */
  lemma SecondsTextShape(n: nat)
    requires n > 0
    ensures var m := PadStart2(NatToString(Minutes(n)));
            var s := PadStart2(NatToString(Seconds(n)));
            |m| == 2 && |s| == 2 && AllDigits(m) && AllDigits(s)
            && SecondsText(n) == if n >= 3600 then NatToString(Hours(n)) + ":" + m + ":" + s
                                 else NatToString(Minutes(n)) + ":" + s
  {
    Decomposition(n);
    TwoDigits(Minutes(n));
    TwoDigits(Seconds(n));
  }

  /** A clock field: a non-empty run of decimal digits. */
  predicate Field(p: string) {
    p != [] && AllDigits(p)
  }

  /** Reads `H:MM:SS` or `M:SS` back into seconds; `None` for anything else. */
  function ParseClock(t: string): (r: Option<nat>)
  {
    ClockParts(Split(t, ':'))
  }

  /** The value of the colon-separated pieces of a clock text. */
  function ClockParts(parts: seq<string>): (r: Option<nat>)
  {
    if |parts| == 3 && Field(parts[0]) && Field(parts[1]) && Field(parts[2]) then
      Some(DecimalValue(parts[0]) * 3600 + DecimalValue(parts[1]) * 60 + DecimalValue(parts[2]))
    else if |parts| == 2 && Field(parts[0]) && Field(parts[1]) then
      Some(DecimalValue(parts[0]) * 60 + DecimalValue(parts[1]))
    else None
  }

  /** A zero-padded field is a non-empty run of digits with the field's value. */
  lemma PaddedField(m: nat)
    ensures var p := PadStart2(NatToString(m));
            p != [] && AllDigits(p) && ':' !in p && DecimalValue(p) == m
  {
    var p := PadStart2(NatToString(m));
    DecimalValueOfNatToString(m);
    if m < 10 {
      assert p == "0" + [DigitChar(m)];
      assert p[..1] == "0";
    }
    assert forall i :: 0 <= i < |p| ==> IsDigit(p[i]);
  }

  lemma NumberField(m: nat)
    ensures var p := NatToString(m);
            p != [] && AllDigits(p) && ':' !in p && DecimalValue(p) == m
  {
    var p := NatToString(m);
    DecimalValueOfNatToString(m);
    assert forall i :: 0 <= i < |p| ==> IsDigit(p[i]);
  }

  /** Three colon-free digit fields read as hours, minutes and seconds. */
  lemma ParseThreeFields(a: string, b: string, c: string, h: nat, m: nat, s: nat)
    requires Field(a) && ':' !in a && Field(b) && ':' !in b && Field(c) && ':' !in c
    requires DecimalValue(a) == h && DecimalValue(b) == m && DecimalValue(c) == s
    ensures ParseClock(a + [':'] + b + [':'] + c) == Some(h * 3600 + m * 60 + s)
  {
    ParseSplitsThree(a, b, c);
    ClockPartsThree(a, b, c, h, m, s);
  }

  lemma ParseSplitsThree(a: string, b: string, c: string)
    requires ':' !in a && ':' !in b && ':' !in c
    ensures ParseClock(a + [':'] + b + [':'] + c) == ClockParts([a, b, c])
  {
    SplitThree(a, b, c);
  }

  lemma ClockPartsThree(a: string, b: string, c: string, h: nat, m: nat, s: nat)
    requires Field(a) && Field(b) && Field(c)
    requires DecimalValue(a) == h && DecimalValue(b) == m && DecimalValue(c) == s
    ensures ClockParts([a, b, c]) == Some(h * 3600 + m * 60 + s)
  {
  }

  lemma SplitThree(a: string, b: string, c: string)
    requires ':' !in a && ':' !in b && ':' !in c
    ensures Split(a + [':'] + b + [':'] + c, ':') == [a, b, c]
  {
    SplitNoSeparator(c, ':');
    SplitAfterPiece(b, ':', c);
    SplitAfterPiece(a, ':', b + [':'] + c);
    assert a + [':'] + b + [':'] + c == a + [':'] + (b + [':'] + c);
  }

  /** Two colon-free digit fields read as minutes and seconds. */
  lemma ParseTwoFields(a: string, b: string, m: nat, s: nat)
    requires Field(a) && ':' !in a && Field(b) && ':' !in b
    requires DecimalValue(a) == m && DecimalValue(b) == s
    ensures ParseClock(a + [':'] + b) == Some(m * 60 + s)
  {
    SplitTwo(a, b);
    ClockPartsTwo(a, b, m, s);
  }

  lemma SplitTwo(a: string, b: string)
    requires ':' !in a && ':' !in b
    ensures ParseClock(a + [':'] + b) == ClockParts([a, b])
  {
    SplitNoSeparator(b, ':');
    SplitAfterPiece(a, ':', b);
  }

  lemma ClockPartsTwo(a: string, b: string, m: nat, s: nat)
    requires Field(a) && Field(b)
    requires DecimalValue(a) == m && DecimalValue(b) == s
    ensures ClockParts([a, b]) == Some(m * 60 + s)
  {
  }

  /** Reading a clock text gives back the seconds its fields stand for. */
  lemma ClockTextParses(h: nat, m: nat, s: nat)
    ensures ParseClock(ClockText(h, m, s)) == Some(if h > 0 then h * 3600 + m * 60 + s else m * 60 + s)
  {
    if h > 0 {
      HoursClockParses(h, m, s);
    } else {
      MinutesClockParses(m, s);
    }
  }

  lemma HoursClockParses(h: nat, m: nat, s: nat)
    requires h > 0
    ensures ParseClock(ClockText(h, m, s)) == Some(h * 3600 + m * 60 + s)
  {
    HoursText(h, m, s);
    HoursValue(h, m, s);
  }

  lemma HoursText(h: nat, m: nat, s: nat)
    requires h > 0
    ensures ClockText(h, m, s) == NatToString(h) + [':'] + PadStart2(NatToString(m)) + [':'] + PadStart2(NatToString(s))
  {
    assert IntToString(h) == NatToString(h) && IntToString(m) == NatToString(m) && IntToString(s) == NatToString(s);
    assert ":" == [':'];
  }

  lemma HoursValue(h: nat, m: nat, s: nat)
    ensures ParseClock(NatToString(h) + [':'] + PadStart2(NatToString(m)) + [':'] + PadStart2(NatToString(s)))
            == Some(h * 3600 + m * 60 + s)
  {
    NumberField(h);
    PaddedField(m);
    PaddedField(s);
    ParseThreeFields(NatToString(h), PadStart2(NatToString(m)), PadStart2(NatToString(s)), h, m, s);
  }

  lemma MinutesClockParses(m: nat, s: nat)
    ensures ParseClock(ClockText(0, m, s)) == Some(m * 60 + s)
  {
    MinutesText(m, s);
    MinutesValue(m, s);
  }

  lemma MinutesText(m: nat, s: nat)
    ensures ClockText(0, m, s) == NatToString(m) + [':'] + PadStart2(NatToString(s))
  {
    assert IntToString(m) == NatToString(m) && IntToString(s) == NatToString(s);
    assert ":" == [':'];
  }

  lemma MinutesValue(m: nat, s: nat)
    ensures ParseClock(NatToString(m) + [':'] + PadStart2(NatToString(s))) == Some(m * 60 + s)
  {
    NumberField(m);
    PaddedField(s);
    ParseTwoFields(NatToString(m), PadStart2(NatToString(s)), m, s);
  }

  /** The clock text loses nothing: reading it back gives the number of
      seconds it was made from. */
  lemma ClockRoundTrip(n: nat)
    ensures ParseClock(SecondsText(n)) == Some(n)
  {
    Decomposition(n);
    var h: nat, m: nat, s: nat := Hours(n), Minutes(n), Seconds(n);
    assert SecondsText(n) == ClockText(h, m, s);
    ClockTextParses(h, m, s);
    assert h == 0 ==> m * 60 + s == n;
  }

  // ---------------------------------------------------------------------------
  // src/pages/Search/YoutubeSearchPage.js

  /** `parseInt(match[k]) || 0` for the optional group `(\d+)X` of the
      ISO 8601 pattern: the number before designator `x`, and the text after
      it; a group that does not match leaves the text alone. */
  function Designator(u: string, x: char): (r: (nat, string))
    ensures |r.1| <= |u|
  {
    var d := DigitRun(u);
    if d != [] && |d| < |u| && u[|d|] == x then (DecimalValue(d), u[|d| + 1..]) else (0, u)
  }

  /** The hours, minutes and seconds that `/PT(?:(\d+)H)?(?:(\d+)M)?(?:(\d+)S)?/`
      extracts from a string that starts with `PT`. */
  function IsoFields(t: string): (r: (nat, nat, nat))
    requires StartsWith(t, "PT")
  {
    var (h, rest1) := Designator(t[2..], 'H');
    var (m, rest2) := Designator(rest1, 'M');
    var (s, _) := Designator(rest2, 'S');
    (h, m, s)
  }

  /** `parseInt(duration)` for a string, the value itself for a number. */
  function DurationNumber(d: DurationValue): Option<int> {
    match d
    case Missing => None
    case NotANumber => None
    case Number(n) => Some(n)
    case Text(s) => ParseInt(s, true)
  }

  /** `formatDuration` as the source writes it: the guard of line 13 runs
      before the ISO 8601 branch. */
  function FormatDurationAsWritten(d: DurationValue): (r: Option<string>) {
    if !Truthy(d) || d == Text("0") || d == Number(0) then None
    else
      var num := DurationNumber(d);
      if num.None? || num.value <= 0 then None
      else if d.Text? && StartsWith(d.s, "PT") then
        var (h, m, s) := IsoFields(d.s);
        Some(ClockText(h, m, s))
      else Some(SecondsText(num.value))
  }

  /** The ISO 8601 branch of the written function is dead: every string that
      starts with `PT` is NaN to `parseInt` and yields null. */
  lemma IsoBranchUnreachable(t: string)
    requires StartsWith(t, "PT")
    ensures FormatDurationAsWritten(Text(t)) == None
  {
    assert t[0] == 'P';
    ParseIntOfLetterFirst(t, true);
  }

  /** The concrete input that shows it: `PT1H2M3S` gives null. */
  lemma IsoExampleAsWritten()
    ensures FormatDurationAsWritten(Text("PT1H2M3S")) == None
  {
    IsoBranchUnreachable("PT1H2M3S");
  }

  /** `formatDuration` with the ISO 8601 designator branch taken first, as the
      code evidently intends; numbers and numeric strings are unchanged. */
  function FormatDuration(d: DurationValue): (r: Option<string>) {
    if d.Text? && StartsWith(d.s, "PT") then
      var (h, m, s) := IsoFields(d.s);
      Some(ClockText(h, m, s))
    else FormatDurationAsWritten(d)
  }

  /** The null cases: a falsy value, the string "0", or anything whose
      `parseInt` is NaN or not positive (other than an ISO 8601 string). */
  lemma FormatDurationNull(d: DurationValue)
    requires !(d.Text? && StartsWith(d.s, "PT"))
    ensures FormatDuration(d) == None <==>
              !Truthy(d) || d == Text("0") || DurationNumber(d).None? || DurationNumber(d).value <= 0
  {
    if d == Text("0") {
      assert ParseInt("0", true) == Some(0) by { ParseIntOfNatToString(0, true); }
    }
  }

  /** A positive number of seconds prints as its clock text, and reads back. */
  lemma FormatDurationSeconds(n: int)
    requires n > 0
    ensures FormatDuration(Number(n)) == Some(SecondsText(n))
    ensures ParseClock(FormatDuration(Number(n)).value) == Some(n)
  {
    assert DurationNumber(Number(n)) == Some(n);
    assert FormatDurationAsWritten(Number(n)) == Some(SecondsText(n));
    ClockRoundTrip(n);
  }

  /** One designator group reads the number in front of its letter. */
  lemma DesignatorReads(v: nat, x: char, rest: string)
    requires !IsDigit(x)
    ensures Designator(NatToString(v) + [x] + rest, x) == (v, rest)
  {
    var ds := NatToString(v);
    var u := ds + [x] + rest;
    assert u == ds + ([x] + rest);
    DigitRunOfDigitsThen(ds, [x] + rest);
    DecimalValueOfNatToString(v);
    assert u[|ds|] == x;
    assert u[|ds| + 1..] == rest;
  }

  /** An ISO 8601 duration `PT<h>H<m>M<s>S` prints as its clock text. */
  lemma IsoDuration(h: nat, m: nat, s: nat)
    ensures FormatDuration(Text("PT" + NatToString(h) + "H" + NatToString(m) + "M" + NatToString(s) + "S"))
            == Some(ClockText(h, m, s))
  {
    IsoFieldsOf(h, m, s);
  }

  /** The three designator groups read back the numbers written before
      them. */
  lemma IsoFieldsOf(h: nat, m: nat, s: nat)
    ensures var t := "PT" + NatToString(h) + "H" + NatToString(m) + "M" + NatToString(s) + "S";
            StartsWith(t, "PT") && IsoFields(t) == (h, m, s)
  {
    var hs, ms, ss := NatToString(h), NatToString(m), NatToString(s);
    var rest2 := ss + ['S'];
    var rest1 := ms + ['M'] + rest2;
    var u := hs + ['H'] + rest1;
    var t := "PT" + hs + "H" + ms + "M" + ss + "S";
    IsoTextShape(hs, ms, ss);
    AfterPrefix("PT", u);
    DesignatorReads(h, 'H', rest1);
    DesignatorReads(m, 'M', rest2);
    DesignatorReads(s, 'S', []);
    assert rest2 == ss + ['S'] + [];
  }

  lemma IsoTextShape(hs: string, ms: string, ss: string)
    ensures "PT" + hs + "H" + ms + "M" + ss + "S" == "PT" + (hs + ['H'] + (ms + ['M'] + (ss + ['S'])))
  {
  }

  lemma AfterPrefix(p: string, u: string)
    ensures (p + u)[|p|..] == u
  {
  }

  /** The same input with the designator branch first gives `1:02:03`. */
  lemma IsoExampleCorrected()
    ensures FormatDuration(Text("PT1H2M3S")) == Some("1:02:03")
  {
    IsoDuration(1, 2, 3);
    IsoExampleText();
    ClockTextExample();
  }

  lemma IsoExampleText()
    ensures "PT" + NatToString(1) + "H" + NatToString(2) + "M" + NatToString(3) + "S" == "PT1H2M3S"
  {
    assert NatToString(1) == "1" && NatToString(2) == "2" && NatToString(3) == "3";
  }

  lemma ClockTextExample()
    ensures ClockText(1, 2, 3) == "1:02:03"
  {
    assert IntToString(1) == "1" && IntToString(2) == "2" && IntToString(3) == "3";
    assert PadStart2("2") == "02" && PadStart2("3") == "03";
  }

  /** The ISO 8601 text and the number of seconds it denotes print alike
      whenever minutes and seconds are below 60. */
  lemma IsoAgreesWithSeconds(h: nat, m: nat, s: nat)
    requires m < 60 && s < 60 && h * 3600 + m * 60 + s > 0
    ensures FormatDuration(Text("PT" + NatToString(h) + "H" + NatToString(m) + "M" + NatToString(s) + "S"))
            == FormatDuration(Number(h * 3600 + m * 60 + s))
  {
    var n := h * 3600 + m * 60 + s;
    IsoDuration(h, m, s);
    FormatDurationSeconds(n);
    FieldsOfSeconds(h, m, s);
    assert SecondsText(n) == ClockText(h, m, s);
  }

  /** The fields of `h * 3600 + m * 60 + s` are `h`, `m` and `s` again. */
  lemma FieldsOfSeconds(h: nat, m: nat, s: nat)
    requires m < 60 && s < 60
    ensures var n := h * 3600 + m * 60 + s;
            Hours(n) == h && Minutes(n) == m && Seconds(n) == s
  {
    var n := h * 3600 + m * 60 + s;
    Decomposition(n);
    DecompositionUnique(h, m, s, Hours(n), Minutes(n), Seconds(n));
  }

  lemma DecompositionUnique(h: nat, m: nat, s: nat, h': int, m': int, s': int)
    requires m < 60 && s < 60 && 0 <= m' < 60 && 0 <= s' < 60 && h' >= 0
    requires h * 3600 + m * 60 + s == h' * 3600 + m' * 60 + s'
    ensures h == h' && m == m' && s == s'
  {
    assert (m * 60 + s) < 3600 && (m' * 60 + s') < 3600;
  }

  // ---------------------------------------------------------------------------
  // src/components/YoutubeSearchPage.js

  /** `formatDuration(seconds)`: '' for a falsy or NaN value, otherwise the
      clock text computed with JavaScript's `%`, negatives included. A
      string is tested for truthiness as a string, and `isNaN`, `/` and `%`
      read it through `Number`, so `"0"` and `" "` give `0:00`. */
  function FormatSecondsOrEmpty(d: DurationValue): (r: string)
    ensures r == [] <==> !Truthy(d) || (d.Text? && StringToNumber(d.s).None?)
    ensures d.Number? && d.n > 0 ==> ParseClock(r) == Some(d.n)
    ensures d.Text? && d.s != [] && StringToNumber(d.s).Some? ==> r == SecondsText(StringToNumber(d.s).value)
  {
    match d
    case Missing => ""
    case NotANumber => ""
    case Number(n) =>
      if n == 0 then ""
      else
        SecondsTextNotEmpty(n);
        if n > 0 then ClockRoundTrip(n); SecondsText(n)
        else SecondsText(n)
    case Text(t) =>
      if t == [] then ""
      else match StringToNumber(t)
        case None => ""
        case Some(n) => SecondsTextNotEmpty(n); SecondsText(n)
  }

  /** Clock text is never empty. */
  lemma SecondsTextNotEmpty(n: int)
    ensures SecondsText(n) != []
  {
  }

  /** A number written as text formats like the number, except that the
      text `"0"` is truthy and prints `0:00`. */
  lemma FormatNumericText(n: int)
    ensures FormatSecondsOrEmpty(Text(IntToString(n))) == SecondsText(n)
    ensures n != 0 ==> FormatSecondsOrEmpty(Text(IntToString(n))) == FormatSecondsOrEmpty(Number(n))
  {
    StringToNumberOfIntToString(n);
  }

  /** `formatDuration("90")` is `1:30`. */
  lemma FormatNinetyText()
    ensures FormatSecondsOrEmpty(Text("90")) == "1:30"
  {
    NinetyText();
    FormatNumericText(90);
    NinetyClock();
  }

  lemma NinetyText()
    ensures IntToString(90) == "90"
  {
    assert NatToString(9) == "9";
    assert NatToString(90) == NatToString(9) + [DigitChar(0)];
  }

  lemma NinetyClock()
    ensures SecondsText(90) == "1:30"
  {
    assert Hours(90) == 0 && Minutes(90) == 1 && Seconds(90) == 30;
    assert IntToString(1) == "1";
    assert IntToString(30) == "30" by {
      assert NatToString(3) == "3";
      assert NatToString(30) == NatToString(3) + [DigitChar(0)];
    }
    assert ClockText(0, 1, 30) == "1" + ":" + PadStart2("30");
  }

  /** `formatDuration(" ")` is `0:00`: the blank string is truthy and reads
      as zero. */
  lemma FormatBlankText()
    ensures FormatSecondsOrEmpty(Text(" ")) == "0:00"
  {
    TrimEmptyIffAllSpace(" ");
    assert SecondsText(0) == "0:00" by {
      assert Hours(0) == 0 && Minutes(0) == 0 && Seconds(0) == 0;
      assert NatToString(0) == "0";
    }
  }

  /** `formatDuration("abc")` is empty: the text is NaN. */
  lemma FormatLetterText()
    ensures FormatSecondsOrEmpty(Text("abc")) == ""
  {
    TrimOfUnspaced("abc");
    assert TrimmedToNumber("abc").None? by {
      assert !IsDigit("abc"[0]);
    }
  }

  // ---------------------------------------------------------------------------
  // src/pages/YoutubeSearch.js

  /** `parseInt(item.duration, 10)`: numbers go through their decimal text. */
  function DecimalDuration(d: DurationValue): Option<int> {
    match d
    case Missing => None       // parseInt("undefined", 10)
    case NotANumber => None    // parseInt("NaN", 10)
    case Number(n) => ParseInt(IntToString(n), false)
    case Text(s) => ParseInt(s, false)
  }

  /** The inline duration text: "영상 길이: " and the clock text when the
      parsed value is a positive number, null in every other case. */
  function DurationLabel(d: DurationValue): (r: Option<string>)
    ensures r.Some? <==> DecimalDuration(d).Some? && DecimalDuration(d).value > 0
    ensures r.Some? ==> StartsWith(r.value, "영상 길이: ")
                        && ParseClock(r.value[|"영상 길이: "|..]) == Some(DecimalDuration(d).value)
  {
    var sec := DecimalDuration(d);
    if sec.Some? && sec.value > 0 then
      ClockRoundTrip(sec.value);
      var r := "영상 길이: " + SecondsText(sec.value);
      assert r[|"영상 길이: "|..] == SecondsText(sec.value);
      Some(r)
    else None
  }

  /** A positive number of seconds keeps its value through `parseInt(_, 10)`. */
  lemma DurationLabelOfNumber(n: int)
    requires n > 0
    ensures DurationLabel(Number(n)) == Some("영상 길이: " + SecondsText(n))
  {
    assert DecimalDuration(Number(n)) == Some(n) by {
      assert IntToString(n) == NatToString(n);
      ParseIntOfNatToString(n, false);
    }
  }

  // ---------------------------------------------------------------------------
  // Search guards

  /** The POST body of a search request. */
  datatype SearchRequest = SearchRequest(query: string, maxResults: Option<nat>)

  /** `handleSearch(q)` in src/components/YoutubeSearchPage.js (and
      src/pages/Search/YoutubeSearchPage.js): a blank query sends nothing;
      otherwise the query is sent as typed, with `max_results: 10`. */
  function SearchFromPage(q: string): (r: Option<SearchRequest>)
    ensures r.None? <==> forall i :: 0 <= i < |q| ==> IsSpace(q[i])
    ensures r.Some? ==> r.value == SearchRequest(q, Some(10))
  {
    TrimEmptyIffAllSpace(q);
    if Trim(q) == [] then None else Some(SearchRequest(q, Some(10)))
  }

  /** `onSearchClick`: navigate to the search route with the trimmed query
      (URL encoding is left to the browser), or do nothing for a blank one. */
  function SearchClickTarget(query: string): (r: Option<string>)
    ensures r.None? <==> forall i :: 0 <= i < |query| ==> IsSpace(query[i])
    ensures r.Some? ==> r.value != [] && Trim(r.value) == r.value
  {
    TrimEmptyIffAllSpace(query);
    TrimIdempotent(query);
    if Trim(query) != [] then Some(Trim(query)) else None
  }

  /** `handleSearch(q)` in src/pages/YoutubeSearch.js: a non-string argument
      falls back to the input field; a blank query sends nothing; otherwise the
      trimmed query is sent. */
  function SearchFromResultsPage(q: Option<string>, field: string): (r: Option<SearchRequest>)
    ensures var typed := if q.Some? then q.value else field;
            && (r.None? <==> forall i :: 0 <= i < |typed| ==> IsSpace(typed[i]))
            && (r.Some? ==> r.value.query == Trim(typed) && r.value.query != [] && r.value.maxResults.None?)
  {
    var typed := if q.Some? then q.value else field;
    TrimEmptyIffAllSpace(typed);
    if Trim(typed) == [] then None else Some(SearchRequest(Trim(typed), None))
  }
}
