/**
 * What the duration annotator promises: the time arithmetic on `HHMM`
 * timestamps, the per-line rules of `durationPerLine`, the suffix format of
 * `addDurationSuffixes`, telescoping sums, and when a second pass of the
 * annotator changes nothing.
 */
module CalcProperties {

  import opened Options
  import opened Chars
  import opened Decimal
  import opened JsNumbers
  import opened Calc

  // ----- The duration-suffix guard -----

  /** The regular expression `/\([0-9]*\)$/` finds a match in the line. */
  ghost predicate MatchesDurationPattern(line: string) {
    exists k :: 0 <= k < |line| - 1 && line[k] == '(' && line[|line| - 1] == ')'
                && AllDigits(line[k + 1..|line| - 1])
  }

  /** The guard that skips annotated lines is exactly a match of `/\([0-9]*\)$/`. */
  lemma HasDurationSuffixIsPattern(line: string)
    ensures HasDurationSuffix(line) <==> MatchesDurationPattern(line)
  {
    if HasDurationSuffix(line) {
      var body := line[..|line| - 1];
      var k := |body| - TrailingDigitCount(body) - 1;
      TrailingDigitCountSpec(body);
      assert line[k] == '(';
      assert line[k + 1..|line| - 1] == body[k + 1..];
    }
    if MatchesDurationPattern(line) {
      var k :| 0 <= k < |line| - 1 && line[k] == '(' && line[|line| - 1] == ')'
               && AllDigits(line[k + 1..|line| - 1]);
      var body := line[..|line| - 1];
      var t := TrailingDigitCount(body);
      TrailingDigitCountSpec(body);
      assert forall i | k + 1 <= i < |body| :: IsDigit(body[i]) by {
        forall i | k + 1 <= i < |body| ensures IsDigit(body[i]) {
          assert body[i] == line[k + 1..|line| - 1][i - k - 1];
        }
      }
      assert !IsDigit(body[k]);
      assert t <= |body| - 1 - k;
      assert t >= |body| - 1 - k;
    }
  }

  /** A line that "ends in" `)` after a digit-free `(`, such as `x ()`, counts as annotated too. */
  lemma EmptyParenthesesCountAsSuffix(line: string)
    ensures HasDurationSuffix(line + "()")
  {
    var s := line + "()";
    assert s[..|s| - 1] == line + "(";
  }

  // ----- Time arithmetic -----

  /** A timestamp: exactly four ASCII digits `HHMM`, with no range check. */
  predicate IsTimestamp(s: string) {
    |s| == 4 && AllDigits(s)
  }

  function DigitOf(c: char): int {
    c as int - '0' as int
  }

  /** The minutes since midnight of `HHMM`: `HH * 60 + MM`. */
  function Clock(s: string): int
    requires IsTimestamp(s)
  {
    (DigitOf(s[0]) * 10 + DigitOf(s[1])) * 60 + DigitOf(s[2]) * 10 + DigitOf(s[3])
  }

  lemma TwoDigitsValue(p: string)
    requires |p| == 2 && AllDigits(p)
    ensures DigitsValue(p, 10) == DigitOf(p[0]) * 10 + DigitOf(p[1])
  {
    var q := p[..1];
    assert q[..0] == [] && q[0] == p[0];
    assert DigitsValue(q, 10) == DigitValue(p[0]);
    assert p[..1] == q;
  }

  lemma ParseTwoDigits(p: string)
    requires |p| == 2 && AllDigits(p)
    ensures ParseInt(p) == Int(DigitOf(p[0]) * 10 + DigitOf(p[1]))
  {
    ParseIntOfDigits(p);
    TwoDigitsValue(p);
  }

  /** On a timestamp the source's `parseInt` arithmetic gives `HH * 60 + MM`. */
  lemma MinutesOfTimestamp(s: string)
    requires IsTimestamp(s)
    ensures MinutesOfDay(s) == Int(Clock(s))
  {
    HoursOfTimestamp(s);
    MinutesPartOfTimestamp(s);
  }

  lemma HoursOfTimestamp(s: string)
    requires IsTimestamp(s)
    ensures ParseInt(Substring(s, 0, 2)) == Int(DigitOf(s[0]) * 10 + DigitOf(s[1]))
  {
    var hh := s[..2];
    assert Substring(s, 0, 2) == hh && hh[0] == s[0] && hh[1] == s[1];
    ParseTwoDigits(hh);
  }

  lemma MinutesPartOfTimestamp(s: string)
    requires IsTimestamp(s)
    ensures ParseInt(SubstringFrom(s, 2)) == Int(DigitOf(s[2]) * 10 + DigitOf(s[3]))
  {
    var mm := s[2..];
    assert SubstringFrom(s, 2) == mm && mm[0] == s[2] && mm[1] == s[3];
    ParseTwoDigits(mm);
  }

  /** `timeDifferenceInMinutes(a, b)` on two timestamps is `(HH_b * 60 + MM_b) - (HH_a * 60 + MM_a)`. */
  lemma TimeDifferenceOnTimestamps(a: string, b: string)
    requires IsTimestamp(a) && IsTimestamp(b)
    ensures TimeDifferenceInMinutes(a, b) == Int(Clock(b) - Clock(a))
  {
    MinutesOfTimestamp(a);
    MinutesOfTimestamp(b);
  }

  /** A time has zero distance to itself, unless it does not parse. */
  lemma TimeDifferenceOfSelf(a: string)
    ensures TimeDifferenceInMinutes(a, a) == if MinutesOfDay(a).Int? then Int(0) else NaN
  {
  }

  /** Swapping the two times negates the difference. */
  lemma TimeDifferenceAntisymmetric(a: string, b: string)
    ensures TimeDifferenceInMinutes(a, b) == Negate(TimeDifferenceInMinutes(b, a))
  {
  }

  /** Differences add up along a chain of times whose middle one parses. */
  lemma TimeDifferenceAdditive(a: string, b: string, c: string)
    requires MinutesOfDay(b).Int?
    ensures Add(TimeDifferenceInMinutes(a, b), TimeDifferenceInMinutes(b, c)) == TimeDifferenceInMinutes(a, c)
  {
  }

  /** There is no wrap-around at midnight: 23:50 to 00:10 is minus 1420 minutes, not 20. */
  lemma NoWrapAroundAtMidnight()
    ensures TimeDifferenceInMinutes("2350", "0010") == Int(-1420)
  {
    TimeDifferenceOnTimestamps("2350", "0010");
  }

  /** A digit prefix of one or two characters has no minutes part: `parseInt("")` is NaN. */
  lemma ShortDigitPrefixIsNaN(t: string, u: string)
    requires t != [] && |t| <= 2 && AllDigits(t)
    ensures MinutesOfDay(t) == NaN
    ensures TimeDifferenceInMinutes(t, u) == NaN && TimeDifferenceInMinutes(u, t) == NaN
  {
    assert SubstringFrom(t, 2) == "";
    ParseIntOfEmpty();
  }

  // ----- durationPerLine -----

  /** An entry line: it starts with a four-digit timestamp. */
  predicate IsEntry(line: string) {
    |line| >= 4 && IsTimestamp(line[..4])
  }

  /** The timestamp of an entry line. */
  function Stamp(line: string): (t: string)
    requires IsEntry(line)
    ensures IsTimestamp(t)
  {
    line[..4]
  }

  /** An unannotated entry followed by an entry gets the minutes between their timestamps. */
  lemma AdjacentEntries(lines: seq<string>, i: nat)
    requires i + 1 < |lines| && IsEntry(lines[i]) && IsEntry(lines[i + 1])
    requires !HasDurationSuffix(lines[i])
    ensures DurationPerLine(lines)[i] == Some(Int(Clock(Stamp(lines[i + 1])) - Clock(Stamp(lines[i]))))
  {
    EntryMinutes(lines, i);
  }

  /** The per-line rule behind `AdjacentEntries`, for the line's own callback. */
  lemma EntryMinutes(lines: seq<string>, i: nat)
    requires i + 1 < |lines| && IsEntry(lines[i]) && IsEntry(lines[i + 1])
    requires !HasDurationSuffix(lines[i])
    ensures DurationAt(lines, i) == Some(Int(Clock(Stamp(lines[i + 1])) - Clock(Stamp(lines[i]))))
  {
    var x := TimeDifferenceInMinutes(Stamp(lines[i]), Stamp(lines[i + 1]));
    EntryDuration(lines, i, x);
    TimeDifferenceOnTimestamps(Stamp(lines[i]), Stamp(lines[i + 1]));
    SameDuration(lines, i, x, Int(Clock(Stamp(lines[i + 1])) - Clock(Stamp(lines[i]))));
  }

  /** A line's duration may be named by any value equal to it. */
  lemma SameDuration(lines: seq<string>, i: nat, x: Num, y: Num)
    requires i < |lines| && DurationAt(lines, i) == Some(x) && x == y
    ensures DurationAt(lines, i) == Some(y)
  {
  }

  /** The duration of an unannotated entry before an entry is what `timeDifferenceInMinutes` gives for their timestamps. */
  lemma EntryDuration(lines: seq<string>, i: nat, x: Num)
    requires i + 1 < |lines| && IsEntry(lines[i]) && IsEntry(lines[i + 1])
    requires !HasDurationSuffix(lines[i])
    requires x == TimeDifferenceInMinutes(Stamp(lines[i]), Stamp(lines[i + 1]))
    ensures DurationAt(lines, i) == Some(x)
  {
    var a, b := Stamp(lines[i]), Stamp(lines[i + 1]);
    assert TimePrefix(lines[i]) == a && TimePrefix(lines[i + 1]) == b;
    DigitsAreNumeric(a);
    DigitsAreNumeric(b);
  }

  /**
   * A blank line or a header line such as `# 28.05.2024` gets no duration,
   * and neither does the line before it.
   */
  lemma BlankAndHeaderLinesGetNone(lines: seq<string>, i: nat)
    requires i < |lines| && (lines[i] == [] || lines[i][0] == '#')
    ensures DurationPerLine(lines)[i] == None
    ensures i > 0 ==> DurationPerLine(lines)[i - 1] == None
  {
    if lines[i] != [] {
      HashIsNotNumeric(TimePrefix(lines[i]));
    }
  }

  /** The sum of the integer durations in ds; absent ones and NaN count as nothing. */
  function Elapsed(ds: seq<Option<Num>>): int {
    if ds == [] then 0
    else
      var last := ds[|ds| - 1];
      Elapsed(ds[..|ds| - 1]) + (if last.Some? && last.value.Int? then last.value.value else 0)
  }

  /** The duration from clock reading a to clock reading b. */
  function Step(a: int, b: int): Option<Num> {
    Some(Int(b - a))
  }

  /** Durations that are the steps between consecutive clock readings add up to the first-to-last distance. */
  lemma {:induction false} ElapsedTelescopes(ds: seq<Option<Num>>, clocks: seq<int>, i: nat, j: nat)
    requires i <= j <= |ds| && j < |clocks|
    requires forall k | i <= k < j :: ds[k] == Step(clocks[k], clocks[k + 1])
    ensures Elapsed(ds[i..j]) == clocks[j] - clocks[i]
  {
    if i < j {
      ElapsedTelescopes(ds, clocks, i, j - 1);
      var run := ds[i..j];
      assert run[..|run| - 1] == ds[i..j - 1];
      assert run[|run| - 1] == ds[j - 1] == Some(Int(clocks[j] - clocks[j - 1]));
    }
  }

  /** The minutes since midnight of each entry line's timestamp, 0 for other lines. */
  function Clocks(lines: seq<string>): (c: seq<int>)
    ensures |c| == |lines|
  {
    seq(|lines|, k requires 0 <= k < |lines| => if IsEntry(lines[k]) then Clock(Stamp(lines[k])) else 0)
  }

  /**
   * Over a run of entry lines i..j none of which (but perhaps the last) is
   * annotated, the durations of lines i..j-1 add up to the time from the
   * first timestamp to the last.
   */
  lemma Telescoping(lines: seq<string>, i: nat, j: nat)
    requires i <= j < |lines|
    requires forall k | i <= k <= j :: IsEntry(lines[k])
    requires forall k | i <= k < j :: !HasDurationSuffix(lines[k])
    ensures Elapsed(DurationPerLine(lines)[i..j]) == Clock(Stamp(lines[j])) - Clock(Stamp(lines[i]))
  {
    var ds, clocks := DurationPerLine(lines), Clocks(lines);
    forall k | i <= k < j ensures ds[k] == Step(clocks[k], clocks[k + 1]) {
      ClockStep(lines, k, clocks[k], clocks[k + 1]);
    }
    ElapsedTelescopes(ds, clocks, i, j);
  }

  /** One step of the run, in terms of the clock readings of the lines. */
  lemma ClockStep(lines: seq<string>, k: nat, x: int, y: int)
    requires k + 1 < |lines| && IsEntry(lines[k]) && IsEntry(lines[k + 1])
    requires !HasDurationSuffix(lines[k])
    requires x == Clocks(lines)[k] && y == Clocks(lines)[k + 1]
    ensures DurationPerLine(lines)[k] == Step(x, y)
  {
    ClockAt(lines, k);
    ClockAt(lines, k + 1);
    StampStep(lines, k);
  }

  /** `AdjacentEntries`, with the minutes between the two timestamps written as a `Step`. */
  lemma StampStep(lines: seq<string>, k: nat)
    requires k + 1 < |lines| && IsEntry(lines[k]) && IsEntry(lines[k + 1])
    requires !HasDurationSuffix(lines[k])
    ensures DurationPerLine(lines)[k] == Step(Clock(Stamp(lines[k])), Clock(Stamp(lines[k + 1])))
  {
    AdjacentEntries(lines, k);
  }

  /** The clock reading of an entry line is the minutes since midnight of its timestamp. */
  lemma ClockAt(lines: seq<string>, k: nat)
    requires k < |lines| && IsEntry(lines[k])
    ensures Clocks(lines)[k] == Clock(Stamp(lines[k]))
  {
  }

  // ----- addDurationSuffixes -----

  /** A non-negative duration, once appended, makes the line count as annotated. */
  lemma NonNegativeSuffixIsRecognised(line: string, n: nat)
    ensures HasDurationSuffix(Annotate(line, Some(Int(n))))
  {
    var s := Annotate(line, Some(Int(n)));
    var k := |line| + 1;
    assert s[k] == '(' && s[|s| - 1] == ')';
    assert s[k + 1..|s| - 1] == NatToString(n);
    HasDurationSuffixIsPattern(s);
  }

  /** A negative or NaN duration, once appended, does not make the line count as annotated. */
  lemma OtherSuffixIsNotRecognised(line: string, x: Num)
    requires x.NaN? || x.value < 0
    ensures !HasDurationSuffix(Annotate(line, Some(x)))
  {
    var s := Annotate(line, Some(x));
    var body := s[..|s| - 1];
    if x.NaN? {
      assert body == line + " (NaN";
      assert TrailingDigitCount(body) == 0;
    } else {
      var digits := NatToString(-x.value);
      assert body == line + " (-" + digits;
      var t := TrailingDigitCount(body);
      TrailingDigitCountSpec(body);
      assert forall i | |body| - |digits| <= i < |body| :: IsDigit(body[i]) by {
        forall i | |body| - |digits| <= i < |body| ensures IsDigit(body[i]) {
          assert body[i] == digits[i - (|body| - |digits|)];
        }
      }
      assert body[|body| - |digits| - 1] == '-';
      assert t <= |digits|;
      assert t >= |digits|;
    }
  }

  /** The number between ` (` and `)` of an appended suffix reads back as the duration. */
  lemma AnnotationReadsBack(line: string, n: int)
    ensures var s := Annotate(line, Some(Int(n)));
            |s| >= |line| + 3 && ParseInt(s[|line| + 2..|s| - 1]) == Int(n)
  {
    var s := Annotate(line, Some(Int(n)));
    assert s[|line| + 2..|s| - 1] == ToString(Int(n));
    ParseIntOfToString(n);
  }

  /** In the output of `addDurationSuffixes`, the number between ` (` and `)` reads back as the line's duration. */
  lemma SuffixReadsBack(lines: seq<string>, durations: seq<Option<Num>>, i: nat, n: int)
    requires i < |lines| && DurationOf(durations, i) == Some(Int(n))
    ensures var r := AddDurationSuffixes(lines, durations);
            |r[i]| >= |lines[i]| + 3 && ParseInt(r[i][|lines[i]| + 2..|r[i]| - 1]) == Int(n)
  {
    var r := AddDurationSuffixes(lines, durations);
    assert r[i] == Annotate(lines[i], Some(Int(n)));
    AnnotationReadsBack(lines[i], n);
  }

  // ----- Running the annotator twice -----

  /** Every duration that was computed is a non-negative integer. */
  predicate NonNegativeDurations(ds: seq<Option<Num>>) {
    forall i | 0 <= i < |ds| && ds[i].Some? :: ds[i].value.Int? && ds[i].value.value >= 0
  }

  /** Where the first pass computed no duration or a non-negative one, the second pass computes none. */
  lemma SecondPassAt(lines: seq<string>, i: nat)
    requires i < |lines|
    requires var d := DurationPerLine(lines)[i]; d.Some? ==> d.value.Int? && d.value.value >= 0
    ensures DurationPerLine(AugmentWithDurations(lines))[i] == None
  {
    var ds := DurationPerLine(lines);
    var out := AugmentWithDurations(lines);
    if ds[i].Some? {
      NonNegativeSuffixIsRecognised(lines[i], ds[i].value.value);
      assert out[i] == Annotate(lines[i], ds[i]);
    } else if i + 1 < |lines| && !HasDurationSuffix(lines[i]) {
      assert out[i] == lines[i];
      if lines[i] != [] && IsNumber(TimePrefix(lines[i])) {
        assert ds[i + 1] == None;
        assert out[i + 1] == lines[i + 1];
      }
    }
  }

  /** If the first pass computed only non-negative durations, the second finds nothing to add. */
  lemma SecondPassFindsNothing(lines: seq<string>)
    requires NonNegativeDurations(DurationPerLine(lines))
    ensures forall i | 0 <= i < |lines| :: DurationPerLine(AugmentWithDurations(lines))[i] == None
  {
    forall i | 0 <= i < |lines| ensures DurationPerLine(AugmentWithDurations(lines))[i] == None {
      SecondPassAt(lines, i);
    }
  }

  /** Annotating an annotated log again leaves it unchanged, when no computed duration was negative or NaN. */
  lemma AugmentIdempotent(lines: seq<string>)
    requires NonNegativeDurations(DurationPerLine(lines))
    ensures AugmentWithDurations(AugmentWithDurations(lines)) == AugmentWithDurations(lines)
  {
    var out := AugmentWithDurations(lines);
    SecondPassFindsNothing(lines);
    var again := AugmentWithDurations(out);
    assert forall i | 0 <= i < |out| :: again[i] == out[i];
  }

  /**
   * A negative or NaN duration is appended again by a second pass, when the
   * line and the next are long enough for the suffix to leave both timestamps alone.
   */
  lemma SecondPassRepeatsOtherDurations(lines: seq<string>, i: nat)
    requires i + 1 < |lines| && |lines[i]| >= 4 && |lines[i + 1]| >= 4
    requires var d := DurationPerLine(lines)[i]; d.Some? && (d.value.NaN? || d.value.value < 0)
    ensures DurationPerLine(AugmentWithDurations(lines))[i] == DurationPerLine(lines)[i]
  {
    var ds := DurationPerLine(lines);
    var out := AugmentWithDurations(lines);
    OtherSuffixIsNotRecognised(lines[i], ds[i].value);
    assert out[i] == Annotate(lines[i], ds[i]) && out[i + 1] == Annotate(lines[i + 1], ds[i + 1]);
    AnnotateKeepsTimePrefix(lines[i], ds[i]);
    AnnotateKeepsTimePrefix(lines[i + 1], ds[i + 1]);
    SameDurationAt(out, lines, i);
  }

  /** A suffix appended to a line of at least four characters leaves its timestamp alone. */
  lemma AnnotateKeepsTimePrefix(line: string, d: Option<Num>)
    requires |line| >= 4
    ensures TimePrefix(Annotate(line, d)) == TimePrefix(line)
  {
    var s := Annotate(line, d);
    assert s[..|line|] == line;
    assert s[..4] == line[..|line|][..4];
  }

  /** Two logs agree at a line when they agree on its guard and on both timestamps it reads. */
  lemma SameDurationAt(a: seq<string>, b: seq<string>, i: nat)
    requires |a| == |b| && i + 1 < |a|
    requires HasDurationSuffix(a[i]) == HasDurationSuffix(b[i])
    requires TimePrefix(a[i]) == TimePrefix(b[i]) && TimePrefix(a[i + 1]) == TimePrefix(b[i + 1])
    ensures DurationPerLine(a)[i] == DurationPerLine(b)[i]
  {
    assert DurationPerLine(a)[i] == DurationAt(a, i) && DurationPerLine(b)[i] == DurationAt(b, i);
  }

  /** A two-line log whose first line gets d is annotated on its first line only. */
  lemma AugmentTwoLines(first: string, second: string, d: Num)
    requires DurationPerLine([first, second]) == [Some(d), None]
    ensures AugmentWithDurations([first, second]) == [Annotate(first, Some(d)), second]
  {
    var out := AugmentWithDurations([first, second]);
    assert out[0] == Annotate(first, Some(d)) && out[1] == second;
  }

  /** The suffix a duration of -1420 minutes appends. */
  lemma AnnotateMidnight(line: string)
    ensures Annotate(line, Some(Int(-1420))) == line + " (-1420)"
  {
    assert NatToString(14) == "14";
    assert NatToString(1420) == "1420";
  }

  /** The durations of an unannotated `2350` entry followed by a `0010` entry. */
  lemma MidnightDurations(first: string, second: string)
    requires IsEntry(first) && IsEntry(second) && !HasDurationSuffix(first)
    requires Stamp(first) == "2350" && Stamp(second) == "0010"
    ensures DurationPerLine([first, second]) == [Some(Int(-1420)), None]
  {
    var log := [first, second];
    NoWrapAroundAtMidnight();
    EntryDuration(log, 0, Int(-1420));
    TwoDurations(log, Int(-1420));
  }

  /** A two-line log whose first line gets x, and whose last line by rule gets nothing. */
  lemma TwoDurations(log: seq<string>, x: Num)
    requires |log| == 2 && DurationAt(log, 0) == Some(x)
    ensures DurationPerLine(log) == [Some(x), None]
  {
    var ds := DurationPerLine(log);
    assert ds[0] == Some(x) && ds[1] == None;
  }

  /** One pass over an unannotated `2350` entry followed by a `0010` entry. */
  lemma MidnightPass(first: string, second: string)
    requires IsEntry(first) && IsEntry(second) && !HasDurationSuffix(first)
    requires Stamp(first) == "2350" && Stamp(second) == "0010"
    ensures AugmentWithDurations([first, second]) == [first + " (-1420)", second]
  {
    MidnightDurations(first, second);
    AugmentTwoLines(first, second, Int(-1420));
    AnnotateMidnight(first);
  }

  /**
   * A log that crosses midnight, such as `2350 Deploy` followed by `0010 Ende`,
   * is not a fixed point: the second pass appends ` (-1420)` once more.
   */
  lemma MidnightBreaksIdempotence(first: string, second: string)
    requires IsEntry(first) && IsEntry(second) && !HasDurationSuffix(first)
    requires Stamp(first) == "2350" && Stamp(second) == "0010"
    ensures AugmentWithDurations([first, second]) == [first + " (-1420)", second]
    ensures AugmentWithDurations(AugmentWithDurations([first, second]))
            == [first + " (-1420)" + " (-1420)", second]
  {
    MidnightPass(first, second);
    var once := first + " (-1420)";
    assert once[..4] == first[..4];
    AnnotateMidnight(first);
    OtherSuffixIsNotRecognised(first, Int(-1420));
    MidnightPass(once, second);
  }

  /** `12` before `1000`: the first line has no minutes part, so its duration is NaN. */
  lemma ShortFirstPass(first: string, second: string)
    requires first == "12" && second == "1000"
    ensures DurationPerLine([first, second]) == [Some(NaN), None]
  {
    var log := [first, second];
    assert !HasDurationSuffix(first);
    assert TimePrefix(first) == first && TimePrefix(second) == second;
    DigitsAreNumeric(first);
    DigitsAreNumeric(second);
    ShortDigitPrefixIsNaN(first, second);
    TwoDurations(log, NaN);
  }

  /** After `12 (NaN)` the prefix read as its timestamp is `12 (`, which is not numeric. */
  lemma ShortSecondPass(first: string, second: string)
    requires first == "12 (NaN)"
    ensures DurationPerLine([first, second]) == [None, None]
  {
    var log := [first, second];
    OtherSuffixIsNotRecognised("12", NaN);
    assert Annotate("12", Some(NaN)) == first;
    assert TimePrefix(first) == "12 (";
    OpenParenthesisPrefixIsNotNumeric();
    var ds := DurationPerLine(log);
    assert ds[0] == None && ds[1] == None;
  }

  /** `Number("12 (")` is NaN: after the digits comes neither a point nor an exponent. */
  lemma OpenParenthesisPrefixIsNotNumeric()
    ensures !IsNumber("12 (")
  {
    var t := "12 (";
    assert TrimStart(t) == t && TrimEnd(t) == t;
    assert ExponentIndex(t) == 4;
    assert LeadingDigitCount(t, 10) == 2;
    assert t[..4] == t;
    var rest := t[2..];
    assert |rest| == 2 && rest[0] == ' ';
  }

  /** A log with no durations computed passes through the annotator unchanged. */
  lemma NothingToAdd(lines: seq<string>)
    requires forall i | 0 <= i < |lines| :: DurationPerLine(lines)[i] == None
    ensures AugmentWithDurations(lines) == lines
  {
    var out := AugmentWithDurations(lines);
    assert forall i | 0 <= i < |lines| :: out[i] == lines[i];
  }

  /**
   * On a line shorter than four characters the suffix becomes part of the
   * timestamp the next pass reads: after `12` and `1000` the first pass
   * appends ` (NaN)`, and the second pass appends nothing because `12 (` is
   * not numeric.
   */
  lemma ShortLineNaNIsNotRepeated(first: string, second: string)
    requires first == "12" && second == "1000"
    ensures AugmentWithDurations([first, second]) == [first + " (NaN)", second]
    ensures AugmentWithDurations([first + " (NaN)", second]) == [first + " (NaN)", second]
  {
    ShortFirstPass(first, second);
    AugmentTwoLines(first, second, NaN);
    assert Annotate(first, Some(NaN)) == first + " (NaN)";
    ShortSecondPass(first + " (NaN)", second);
    NothingToAdd([first + " (NaN)", second]);
  }
}
