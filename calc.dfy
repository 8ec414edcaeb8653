/**
 * The duration annotator of the activity log: every line of the log may start
 * with an `HHMM` timestamp; a line gets the minutes until the next line's
 * timestamp appended as ` (<minutes>)`.
 */
module Calc {

  import opened Options
  import opened Chars
  import opened Decimal
  import opened JsNumbers

  /** `isNumber(v)`: `Number(v)` is not NaN. */
  predicate IsNumber(v: string) {
    IsNumericString(v)
  }

  /** `parseInt(t.substring(0, 2)) * 60 + parseInt(t.substring(2))`: hours and minutes of `HHMM` as minutes. */
  function MinutesOfDay(time: string): Num {
    Add(Mul(ParseInt(Substring(time, 0, 2)), Int(60)), ParseInt(SubstringFrom(time, 2)))
  }

  /** `timeDifferenceInMinutes(time1, time2)`: the minutes of time2 less those of time1, with no wrap-around at midnight. */
  function TimeDifferenceInMinutes(time1: string, time2: string): Num {
    Sub(MinutesOfDay(time2), MinutesOfDay(time1))
  }

  /** The line ends in a parenthesised run of digits, possibly empty: it matches `/\([0-9]*\)$/`. */
  predicate HasDurationSuffix(line: string) {
    |line| >= 2 && line[|line| - 1] == ')'
    && var body := line[..|line| - 1];
       var k := |body| - TrailingDigitCount(body);
       k > 0 && body[k - 1] == '('
  }

  /** `line.substring(0, 4)`: the part of a line that is read as its timestamp. */
  function TimePrefix(line: string): (t: string)
    ensures |t| <= 4 && t == line[..Min(4, |line|)]
  {
    Substring(line, 0, 4)
  }

  /** The callback of `durationPerLine` for the line at `index`. */
  function DurationAt(lines: seq<string>, index: nat): Option<Num>
    requires index < |lines|
  {
    if index + 1 >= |lines| then None
    else if HasDurationSuffix(lines[index]) then None
    else
      var time := TimePrefix(lines[index]);
      var nextTime := TimePrefix(lines[index + 1]);
      if time == "" || nextTime == "" || !IsNumber(time) || !IsNumber(nextTime) then None
      else Some(TimeDifferenceInMinutes(time, nextTime))
  }

  /**
   * `durationPerLine(lines)`: one optional duration per line. A line gets none
   * when it is the last, when it already carries a duration suffix, or when its
   * own or the next line's timestamp is empty or not numeric.
   */
  function DurationPerLine(lines: seq<string>): (r: seq<Option<Num>>)
    ensures |r| == |lines|
    ensures |lines| > 0 ==> r[|lines| - 1] == None
    ensures forall i {:trigger r[i]} | 0 <= i < |lines| && HasDurationSuffix(lines[i]) :: r[i] == None
  {
    seq(|lines|, i requires 0 <= i < |lines| => DurationAt(lines, i))
  }

  /** The duration a sequence of durations holds at index, `undefined` past its end. */
  function DurationOf(durations: seq<Option<Num>>, index: nat): Option<Num> {
    if index < |durations| then durations[index] else None
  }

  /** A line with a duration appended as ` (<d>)`, unchanged when there is none. */
  function Annotate(line: string, duration: Option<Num>): string {
    match duration
    case None => line
    case Some(d) => line + " (" + ToString(d) + ")"
  }

  /**
   * `addDurationSuffixes(lines, durations)`: as many lines as given, in the
   * same order; each line keeps its text in front, changes exactly when a
   * duration is present at its index, and then has ` (<duration>)` appended.
   */
  function AddDurationSuffixes(lines: seq<string>, durations: seq<Option<Num>>): (r: seq<string>)
    ensures |r| == |lines|
    ensures forall i | 0 <= i < |lines| :: |lines[i]| <= |r[i]| && r[i][..|lines[i]|] == lines[i]
    ensures forall i | 0 <= i < |lines| :: r[i] == lines[i] <==> DurationOf(durations, i) == None
    ensures forall i | 0 <= i < |lines| && DurationOf(durations, i).Some? ::
              r[i] == lines[i] + " (" + ToString(DurationOf(durations, i).value) + ")"
  {
    seq(|lines|, i requires 0 <= i < |lines| => Annotate(lines[i], DurationOf(durations, i)))
  }

  /** One pass of the annotator over a log: `addDurationSuffixes(lines, durationPerLine(lines))`. */
  function AugmentWithDurations(lines: seq<string>): (r: seq<string>)
    ensures |r| == |lines|
  {
    AddDurationSuffixes(lines, DurationPerLine(lines))
  }
}
