/** Comparing UTC timestamps (RFC 3339 section 5.6) with fractions of any length: the string
    algorithm orders them as the exact rational instants they denote. */
module UtcTimestamps {
  import opened Common
  import opened Decimal

  datatype Fields = Fields(year: nat, month: nat, day: nat, hour: nat, minute: nat, second: nat, fraction: string)

  predicate Digits(s: string) {
    forall i :: 0 <= i < |s| ==> IsDigit(s[i])
  }

  /** The pattern `dddd-dd-ddTdd:dd:dd[.d+]Z`. */
  predicate Matches(value: string) {
    && |value| >= 20 && value[|value| - 1] == 'Z'
    && Digits(value[0..4]) && value[4] == '-' && Digits(value[5..7]) && value[7] == '-' && Digits(value[8..10])
    && value[10] == 'T' && Digits(value[11..13]) && value[13] == ':' && Digits(value[14..16]) && value[16] == ':'
    && Digits(value[17..19])
    && (|value| == 20 || (|value| >= 22 && value[19] == '.' && Digits(value[20..|value| - 1])))
  }

  function Read(value: string): (f: Fields)
    requires Matches(value)
    ensures Digits(f.fraction)
  {
    Fields(Parse(value[0..4]), Parse(value[5..7]), Parse(value[8..10]), Parse(value[11..13]), Parse(value[14..16]),
           Parse(value[17..19]), if |value| == 20 then "" else value[20..|value| - 1])
  }

  // ---- the calendar ----------------------------------------------------------------------

  predicate IsLeap(year: int) {
    year % 4 == 0 && (year % 100 != 0 || year % 400 == 0)
  }

  /** The day number of the first of January. */
  function DayFromYear(year: int): int {
    365 * (year - 1970) + (year - 1969) / 4 - (year - 1901) / 100 + (year - 1601) / 400
  }

  function DaysBeforeMonth(month0: int, leap: bool): int {
    var shift := if leap && month0 >= 2 then 1 else 0;
    shift + match month0
            case 0 => 0 case 1 => 31 case 2 => 59 case 3 => 90 case 4 => 120 case 5 => 151
            case 6 => 181 case 7 => 212 case 8 => 243 case 9 => 273 case 10 => 304 case _ => 334
  }

  /** The day number of a year, zero-based month and day, out-of-range months and days carried. */
  function MakeDay(year: int, month0: int, day: int): int {
    var y := year + month0 / 12;
    DayFromYear(y) + DaysBeforeMonth(month0 % 12, IsLeap(y)) + day - 1
  }

  const DAY: int := 86400

  /** The part of `Date` the comparator mutates, in whole seconds since the epoch. */
  class UtcDate {
    var seconds: int

    constructor ()
      ensures seconds == 0
    {
      seconds := 0;
    }

    function Day(): int
      reads this
    {
      seconds / DAY
    }

    function TimeOfDay(): int
      reads this
    {
      seconds % DAY
    }

    /** Moves to a civil day and keeps the time of day. */
    method SetUTCFullYear(year: int, month0: int, day: int)
      modifies this
      ensures Day() == MakeDay(year, month0, day)
      ensures TimeOfDay() == old(TimeOfDay())
    {
      seconds := MakeDay(year, month0, day) * DAY + seconds % DAY;
    }

    /** Sets the time of day; a time that exists keeps the civil day, a larger one carries into
        the days that follow. */
    method SetUTCHours(hour: nat, minute: nat, second: nat)
      modifies this
      ensures ValidTime(hour, minute, second) ==>
                Day() == old(Day()) && TimeOfDay() == hour * 3600 + minute * 60 + second
      ensures (Day() - old(Day())) * DAY + TimeOfDay() == hour * 3600 + minute * 60 + second
    {
      seconds := (seconds / DAY) * DAY + hour * 3600 + minute * 60 + second;
    }
  }

  predicate ValidTime(hour: nat, minute: nat, second: nat) {
    hour < 24 && minute < 60 && second < 60
  }

  datatype Comparable = Comparable(epochSecond: int, fractionalSecond: string)

  function SecondOfDay(f: Fields): int {
    f.hour * 3600 + f.minute * 60 + (if f.second < 59 then f.second else 59) + (if f.second == 60 then 1 else 0)
  }

  function EpochSecond(f: Fields): int {
    MakeDay(f.year, f.month - 1, f.day) * DAY + SecondOfDay(f)
  }

  /** The calendar steps of the comparator on a fresh `Date`. */
  method EpochOf(f: Fields) returns (epochSecond: int)
    ensures epochSecond == EpochSecond(f)
  {
    var calendar := new UtcDate();
    calendar.SetUTCHours(0, 0, 0);
    calendar.SetUTCFullYear(f.year, f.month - 1, f.day);
    calendar.SetUTCHours(f.hour, f.minute, if f.second < 59 then f.second else 59);
    epochSecond := calendar.seconds + if f.second == 60 then 1 else 0;
  }

  method ComparableUtcTimestamp(value: string) returns (r: Option<Comparable>)
    ensures r == Comparison(value)
  {
    if !Matches(value) {
      return None;
    }
    var f := Read(value);
    var epochSecond := EpochOf(f);
    EpochIsSafe(value);
    if !SafeInteger(epochSecond) {
      return None;
    }
    return Some(Comparable(epochSecond, f.fraction));
  }

  /** What a timestamp is compared by. */
  function Comparison(value: string): Option<Comparable> {
    if Matches(value) then Some(Comparable(EpochSecond(Read(value)), Read(value).fraction)) else None
  }

  function Pow10(n: nat): nat {
    if n == 0 then 1 else 10 * Pow10(n - 1)
  }

  lemma {:induction false} ParseBound(s: string)
    requires Digits(s)
    ensures Parse(s) < Pow10(|s|)
  {
    if s != "" {
      ParseBound(s[..|s| - 1]);
    }
  }

  lemma FieldBounds(value: string)
    requires Matches(value)
    ensures var f := Read(value);
            f.year <= 9999 && f.month <= 99 && f.day <= 99 && f.hour <= 99 && f.minute <= 99 && f.second <= 99
  {
    ParseBound(value[0..4]);
    ParseBound(value[5..7]);
    ParseBound(value[8..10]);
    ParseBound(value[11..13]);
    ParseBound(value[14..16]);
    ParseBound(value[17..19]);
    assert Pow10(2) == 100;
    assert Pow10(4) == 10000 by { assert Pow10(4) == 10 * (10 * Pow10(2)); }
  }

  lemma YearBound(y: int)
    requires -1 <= y <= 10100
    ensures -800000 <= DayFromYear(y) <= 3000000
  {
  }

  lemma MakeDayBound(year: nat, month: nat, day: nat)
    requires year <= 9999 && month <= 99 && day <= 99
    ensures -1000000 <= MakeDay(year, month - 1, day) <= 4000000
  {
    var carry := (month - 1) / 12;
    assert -1 <= carry <= 8;
    YearBound(year + carry);
  }

  /** The safe-integer check never fails: a timestamp that matches is always comparable. */
  lemma EpochIsSafe(value: string)
    requires Matches(value)
    ensures SafeInteger(EpochSecond(Read(value)))
  {
    var f := Read(value);
    FieldBounds(value);
    MakeDayBound(f.year, f.month, f.day);
  }

  // ---- the comparison --------------------------------------------------------------------

  /** JavaScript's `<` on strings: by the first differing code unit, a prefix first. */
  predicate LexLess(a: string, b: string) {
    if b == "" then false
    else if a == "" then true
    else if a[0] != b[0] then a[0] < b[0]
    else LexLess(a[1..], b[1..])
  }

  function PadEnd(s: string, length: nat): (r: string)
    requires Digits(s)
    ensures Digits(r) && |r| == if |s| < length then length else |s|
    decreases length - |s|
  {
    if |s| >= length then s else PadEnd(s + "0", length)
  }

  function Compare(left: string, right: string): Option<int> {
    match (Comparison(left), Comparison(right))
    case (Some(l), Some(r)) =>
      if l.epochSecond != r.epochSecond then Some(if l.epochSecond < r.epochSecond then -1 else 1)
      else
        var length := if |l.fractionalSecond| < |r.fractionalSecond| then |r.fractionalSecond| else |l.fractionalSecond|;
        var leftFraction, rightFraction := PadEnd(l.fractionalSecond, length), PadEnd(r.fractionalSecond, length);
        if leftFraction == rightFraction then Some(0) else Some(if LexLess(leftFraction, rightFraction) then -1 else 1)
    case _ => None
  }

  // ---- exact instants --------------------------------------------------------------------

  /** The rational number 0.d1d2d3... */
  function FractionValue(s: string): real
    requires Digits(s)
  {
    if s == "" then 0.0 else (DigitValue(s[0]) as real + FractionValue(s[1..])) / 10.0
  }

  /** The exact instant a timestamp denotes, in seconds. */
  function Instant(value: string): real
    requires Matches(value)
  {
    EpochSecond(Read(value)) as real + FractionValue(Read(value).fraction)
  }

  function Sign(x: real): int {
    if x < 0.0 then -1 else if x > 0.0 then 1 else 0
  }

  lemma {:induction false} FractionRange(s: string)
    requires Digits(s)
    ensures 0.0 <= FractionValue(s) < 1.0
  {
    if s != "" {
      FractionRange(s[1..]);
    }
  }

  lemma {:induction false} TrailingZero(s: string)
    requires Digits(s)
    ensures Digits(s + "0") && FractionValue(s + "0") == FractionValue(s)
  {
    if s == "" {
      assert (s + "0")[1..] == "";
    } else {
      TrailingZero(s[1..]);
      assert (s + "0")[1..] == s[1..] + "0";
    }
  }

  lemma {:induction false} PaddingKeepsValue(s: string, length: nat)
    requires Digits(s)
    ensures FractionValue(PadEnd(s, length)) == FractionValue(s)
    decreases length - |s|
  {
    if |s| < length {
      TrailingZero(s);
      PaddingKeepsValue(s + "0", length);
    }
  }

  lemma {:induction false} LexOrderIsValueOrder(a: string, b: string)
    requires Digits(a) && Digits(b) && |a| == |b|
    ensures LexLess(a, b) <==> FractionValue(a) < FractionValue(b)
    ensures a == b <==> FractionValue(a) == FractionValue(b)
  {
    if a != "" {
      LexOrderIsValueOrder(a[1..], b[1..]);
      FractionRange(a[1..]);
      FractionRange(b[1..]);
      assert a == [a[0]] + a[1..] && b == [b[0]] + b[1..];
    }
  }

  /** For all timestamps, with fractions of any length, the comparison is the sign of the exact
      difference of the instants. */
  lemma CompareIsSignOfDifference(left: string, right: string)
    requires Matches(left) && Matches(right)
    ensures Compare(left, right) == Some(Sign(Instant(left) - Instant(right)))
  {
    var l, r := Comparison(left).value, Comparison(right).value;
    FractionRange(l.fractionalSecond);
    FractionRange(r.fractionalSecond);
    if l.epochSecond == r.epochSecond {
      var length := if |l.fractionalSecond| < |r.fractionalSecond| then |r.fractionalSecond| else |l.fractionalSecond|;
      PaddingKeepsValue(l.fractionalSecond, length);
      PaddingKeepsValue(r.fractionalSecond, length);
      LexOrderIsValueOrder(PadEnd(l.fractionalSecond, length), PadEnd(r.fractionalSecond, length));
    }
  }

  /** The comparison is defined exactly for matching timestamps, is antisymmetric, and is
      transitive although each pair is padded to a width of its own. */
  lemma CompareIsATotalOrder(a: string, b: string, c: string)
    ensures Compare(a, b).Some? <==> Matches(a) && Matches(b)
    ensures Compare(a, b).Some? ==> Compare(b, a) == Some(-Compare(a, b).value)
    ensures Compare(a, b).Some? && Compare(b, c).Some? && Compare(a, b).value <= 0 && Compare(b, c).value <= 0
            ==> Compare(a, c).Some? && Compare(a, c).value <= 0
                && (Compare(a, c).value == 0 ==> Compare(a, b).value == 0 && Compare(b, c).value == 0)
  {
    if Matches(a) && Matches(b) {
      CompareIsSignOfDifference(a, b);
      CompareIsSignOfDifference(b, a);
      if Matches(c) {
        CompareIsSignOfDifference(b, c);
        CompareIsSignOfDifference(a, c);
      }
    }
  }

  // ---- timestamps as text ----------------------------------------------------------------

  /** `n` in `width` digits, leading zeros included. */
  function Padded(n: nat, width: nat): (s: string)
    ensures |s| == width
  {
    if width == 0 then "" else Padded(n / 10, width - 1) + [(n % 10 + '0' as int) as char]
  }

  ghost predicate InRange(f: Fields) {
    && f.year <= 9999 && f.month <= 99 && f.day <= 99 && f.hour <= 99 && f.minute <= 99 && f.second <= 99
    && Digits(f.fraction)
  }

  function DateText(f: Fields): (s: string)
    ensures |s| == 10
  {
    Padded(f.year, 4) + "-" + Padded(f.month, 2) + "-" + Padded(f.day, 2)
  }

  function TimeText(f: Fields): (s: string)
    ensures |s| == 8
  {
    Padded(f.hour, 2) + ":" + Padded(f.minute, 2) + ":" + Padded(f.second, 2)
  }

  /** Date and time to the second, most significant field first. */
  function SecondText(f: Fields): (s: string)
    ensures |s| == 19
  {
    DateText(f) + "T" + TimeText(f)
  }

  function Text(f: Fields): string {
    SecondText(f) + (if f.fraction == "" then "" else "." + f.fraction) + "Z"
  }

  lemma {:induction false} PaddedParses(n: nat, width: nat)
    requires n < Pow10(width)
    ensures Digits(Padded(n, width)) && Parse(Padded(n, width)) == n
  {
    if width > 0 {
      PaddedParses(n / 10, width - 1);
      var s := Padded(n, width);
      assert s[..|s| - 1] == Padded(n / 10, width - 1);
    }
  }

  lemma {:induction false} ParsePads(s: string, width: nat)
    requires Digits(s) && |s| == width
    ensures Padded(Parse(s), width) == s
  {
    if width > 0 {
      ParsePads(s[..width - 1], width - 1);
      assert s == s[..width - 1] + [s[width - 1]];
    }
  }

  /** `v` has these fields at the places of the pattern, and `tail` after them. */
  predicate Cut(v: string, y: string, m: string, d: string, h: string, i: string, s: string, tail: string) {
    && |v| >= 19
    && v[0..4] == y && v[4] == '-' && v[5..7] == m && v[7] == '-' && v[8..10] == d && v[10] == 'T'
    && v[11..13] == h && v[13] == ':' && v[14..16] == i && v[16] == ':' && v[17..19] == s && v[19..] == tail
  }

  lemma JoinedCuts(y: string, m: string, d: string, h: string, i: string, s: string, tail: string)
    requires |y| == 4 && |m| == 2 && |d| == 2 && |h| == 2 && |i| == 2 && |s| == 2
    ensures Cut(y + "-" + m + "-" + d + "T" + h + ":" + i + ":" + s + tail, y, m, d, h, i, s, tail)
  {
    var p1 := y + "-";
    var p2 := p1 + m;
    var p3 := p2 + "-";
    var p4 := p3 + d;
    var p5 := p4 + "T";
    var p6 := p5 + h;
    var p7 := p6 + ":";
    var p8 := p7 + i;
    var p9 := p8 + ":";
    var v := p9 + s + tail;
    assert v[..|v|] == v;
    Peel(v, |v|, p9 + s, tail);
    Peel(v, 19, p9, s);
    Peel(v, 17, p8, ":");
    Peel(v, 16, p7, i);
    Peel(v, 14, p6, ":");
    Peel(v, 13, p5, h);
    Peel(v, 11, p4, "T");
    Peel(v, 10, p3, d);
    Peel(v, 8, p2, "-");
    Peel(v, 7, p1, m);
    Peel(v, 5, y, "-");
  }

  lemma Peel(v: string, n: nat, p: string, x: string)
    requires n <= |v| && v[..n] == p + x
    ensures |p| <= n && v[..|p|] == p && v[|p|..n] == x
    ensures |x| == 1 ==> v[|p|] == x[0]
  {
    assert v[..n][..|p|] == v[..|p|] && v[..n][|p|..] == v[|p|..n];
    assert |x| == 1 ==> v[|p|..n][0] == v[|p|];
  }

  lemma FieldTexts(f: Fields, two: nat, four: nat)
    requires InRange(f) && two == 2 && four == 4
    ensures Digits(Padded(f.year, four)) && Parse(Padded(f.year, four)) == f.year
    ensures forall n :: n in [f.month, f.day, f.hour, f.minute, f.second]
              ==> Digits(Padded(n, two)) && Parse(Padded(n, two)) == n
  {
    assert Pow10(two) == 100;
    assert Pow10(four) == 10000 by { assert Pow10(four) == 10 * (10 * Pow10(two)); }
    PaddedParses(f.year, four);
    forall n | n in [f.month, f.day, f.hour, f.minute, f.second]
      ensures Digits(Padded(n, two)) && Parse(Padded(n, two)) == n
    {
      PaddedParses(n, two);
    }
  }

  lemma TailOf(value: string, fraction: string, tail: string)
    requires |value| >= 19 && value[19..] == tail && tail == (if fraction == "" then "" else "." + fraction) + "Z"
    ensures |value| >= 20 && value[|value| - 1] == 'Z'
    ensures if fraction == "" then |value| == 20 else |value| >= 22 && value[19] == '.' && value[20..|value| - 1] == fraction
  {
    assert value[|value| - 1] == tail[|tail| - 1];
    if fraction != "" {
      assert value[19] == tail[0];
      assert value[20..|value| - 1] == tail[1..|tail| - 1];
    }
  }

  lemma CutReads(v: string, y: string, m: string, d: string, h: string, i: string, s: string, fraction: string, tail: string)
    requires Digits(y) && Digits(m) && Digits(d) && Digits(h) && Digits(i) && Digits(s) && Digits(fraction)
    requires tail == (if fraction == "" then "" else "." + fraction) + "Z"
    requires Cut(v, y, m, d, h, i, s, tail)
    ensures Matches(v) && Read(v) == Fields(Parse(y), Parse(m), Parse(d), Parse(h), Parse(i), Parse(s), fraction)
  {
    TailOf(v, fraction, tail);
  }

  lemma Regroup(y: string, m: string, d: string, h: string, i: string, s: string, fraction: string)
    ensures (y + "-" + m + "-" + d) + "T" + (h + ":" + i + ":" + s) + fraction + "Z"
            == y + "-" + m + "-" + d + "T" + h + ":" + i + ":" + s + (fraction + "Z")
  {
    assert "T" + (h + ":" + i + ":" + s) == "T" + h + ":" + i + ":" + s;
  }

  lemma TextIsCut(f: Fields, y: string, m: string, d: string, h: string, i: string, s: string, fraction: string)
    requires |y| == 4 && |m| == 2 && |d| == 2 && |h| == 2 && |i| == 2 && |s| == 2
    requires DateText(f) == y + "-" + m + "-" + d && TimeText(f) == h + ":" + i + ":" + s
    requires fraction == if f.fraction == "" then "" else "." + f.fraction
    ensures Cut(Text(f), y, m, d, h, i, s, fraction + "Z")
  {
    Regroup(y, m, d, h, i, s, fraction);
    JoinedCuts(y, m, d, h, i, s, fraction + "Z");
  }

  lemma TextOfPieces(f: Fields, two: nat, four: nat)
    requires InRange(f) && two == 2 && four == 4
    ensures Matches(Text(f)) && Read(Text(f)) == f
  {
    FieldTexts(f, two, four);
    var fraction := if f.fraction == "" then "" else "." + f.fraction;
    var y, m, d := Padded(f.year, four), Padded(f.month, two), Padded(f.day, two);
    var h, i, s := Padded(f.hour, two), Padded(f.minute, two), Padded(f.second, two);
    TextIsCut(f, y, m, d, h, i, s, fraction);
    CutReads(Text(f), y, m, d, h, i, s, f.fraction, fraction + "Z");
  }

  /** Round trip: the zero-padded text of any fields is a timestamp, and it is read back, and
      compared, as those fields. */
  lemma TextReadsBack(f: Fields)
    requires InRange(f)
    ensures Matches(Text(f)) && Read(Text(f)) == f
    ensures Comparison(Text(f)) == Some(Comparable(EpochSecond(f), f.fraction))
  {
    TextOfPieces(f, 2, 4);
  }

  /** There are no other timestamps: a value matches if and only if it is the text of some fields. */
  lemma TimestampsAreTexts(value: string)
    ensures Matches(value) <==> exists f :: InRange(f) && value == Text(f)
  {
    if Matches(value) {
      var f := Read(value);
      FieldBounds(value);
      ReadIsText(value);
      assert InRange(f) && value == Text(f);
    }
    if f :| InRange(f) && value == Text(f) {
      TextReadsBack(f);
    }
  }

  lemma DateTimeRead(value: string, f: Fields, two: nat, four: nat)
    requires Matches(value) && f == Read(value) && two == 2 && four == 4
    ensures DateText(f) == value[0..4] + "-" + value[5..7] + "-" + value[8..10]
    ensures TimeText(f) == value[11..13] + ":" + value[14..16] + ":" + value[17..19]
  {
    ParsePads(value[0..4], four);
    ParsePads(value[5..7], two);
    ParsePads(value[8..10], two);
    ParsePads(value[11..13], two);
    ParsePads(value[14..16], two);
    ParsePads(value[17..19], two);
  }

  lemma ReadIsText(value: string)
    requires Matches(value)
    ensures Text(Read(value)) == value
  {
    DateTimeRead(value, Read(value), 2, 4);
    Pieced(value);
  }

  lemma Pieced(value: string)
    requires Matches(value)
    ensures value == (value[0..4] + "-" + value[5..7] + "-" + value[8..10]) + "T"
                     + (value[11..13] + ":" + value[14..16] + ":" + value[17..19])
                     + (if |value| == 20 then "" else "." + value[20..|value| - 1]) + "Z"
  {
  }

  // ---- the calendar counts days ----------------------------------------------------------

  function DaysInMonth(year: int, month: int): int {
    if month == 2 then (if IsLeap(year) then 29 else 28)
    else if month in {4, 6, 9, 11} then 30
    else 31
  }

  predicate ValidDate(year: int, month: int, day: int) {
    1 <= month <= 12 && 1 <= day <= DaysInMonth(year, month)
  }

  predicate ValidFields(f: Fields) {
    ValidDate(f.year, f.month, f.day) && f.hour <= 23 && f.minute <= 59 && f.second <= 59
  }

  function NextDate(year: int, month: int, day: int): (int, int, int) {
    if day < DaysInMonth(year, month) then (year, month, day + 1)
    else if month < 12 then (year, month + 1, 1)
    else (year + 1, 1, 1)
  }

  lemma FourthYear(year: int)
    ensures (year - 1968) / 4 == (year - 1969) / 4 + if year % 4 == 0 then 1 else 0
  {
  }

  lemma HundredthYear(year: int)
    ensures (year - 1900) / 100 == (year - 1901) / 100 + if year % 100 == 0 then 1 else 0
  {
  }

  lemma FourHundredthYear(year: int)
    ensures (year - 1600) / 400 == (year - 1601) / 400 + if year % 400 == 0 then 1 else 0
  {
  }

  lemma LeapRulesNest(year: int)
    ensures year % 400 == 0 ==> year % 100 == 0
    ensures year % 100 == 0 ==> year % 4 == 0
  {
  }

  lemma YearLength(year: int)
    ensures DayFromYear(year + 1) == DayFromYear(year) + if IsLeap(year) then 366 else 365
  {
    FourthYear(year);
    HundredthYear(year);
    FourHundredthYear(year);
    LeapRulesNest(year);
  }

  /** The zero-based day of the year. */
  function DayOfYear(leap: bool, month: int, day: int): int {
    DaysBeforeMonth(month - 1, leap) + day - 1
  }

  lemma MakeDayWithinYear(year: int, month: int, day: int)
    requires 1 <= month <= 12
    ensures MakeDay(year, month - 1, day) == DayFromYear(year) + DayOfYear(IsLeap(year), month, day)
  {
    assert (month - 1) / 12 == 0 && (month - 1) % 12 == month - 1;
  }

  lemma DayOfYearAdvances(year: int, month: int, day: int)
    requires ValidDate(year, month, day)
    ensures var (y, m, d) := NextDate(year, month, day);
            && ValidDate(y, m, d)
            && (y == year ==> DayOfYear(IsLeap(year), m, d) == DayOfYear(IsLeap(year), month, day) + 1)
            && (y != year ==> y == year + 1 && DayOfYear(IsLeap(y), m, d) == 0
                              && DayOfYear(IsLeap(year), month, day) + 1 == if IsLeap(year) then 366 else 365)
    ensures 0 <= DayOfYear(IsLeap(year), month, day) < if IsLeap(year) then 366 else 365
  {
  }

  lemma EpochIsDayZero()
    ensures MakeDay(1970, 0, 1) == 0
  {
  }

  lemma NextDateNextDay(year: int, month: int, day: int)
    requires ValidDate(year, month, day)
    ensures var (y, m, d) := NextDate(year, month, day);
            DayFromYear(y) + DayOfYear(IsLeap(y), m, d) == DayFromYear(year) + DayOfYear(IsLeap(year), month, day) + 1
  {
    DayOfYearAdvances(year, month, day);
    YearLength(year);
  }

  lemma SumsAgree(p: int, q: int, a: int, b: int)
    requires p == a && q == b && a == b + 1
    ensures p == q + 1
  {
  }

  /** The day number is the count of days since 1970-01-01 (day 0 by `EpochIsDayZero`): every
      calendar day is one more than the day before it. */
  lemma DayNumberCountsDays(year: int, month: int, day: int, y: int, m: int, d: int)
    requires ValidDate(year, month, day) && (y, m, d) == NextDate(year, month, day)
    ensures ValidDate(y, m, d)
    ensures MakeDay(y, m - 1, d) == MakeDay(year, month - 1, day) + 1
  {
    DayOfYearAdvances(year, month, day);
    var a := DayFromYear(y) + DayOfYear(IsLeap(y), m, d);
    var b := DayFromYear(year) + DayOfYear(IsLeap(year), month, day);
    assert a == b + 1 by { NextDateNextDay(year, month, day); }
    var p, q := MakeDay(y, m - 1, d), MakeDay(year, month - 1, day);
    assert p == a by { MakeDayWithinYear(y, m, d); }
    assert q == b by { MakeDayWithinYear(year, month, day); }
    SumsAgree(p, q, a, b);
  }

  lemma DayOfYearOrders(leap: bool, year: int, m: int, d: int, n: int, e: int)
    requires leap == IsLeap(year) && ValidDate(year, m, d) && ValidDate(year, n, e)
    requires m < n || (m == n && d < e)
    ensures DayOfYear(leap, m, d) < DayOfYear(leap, n, e)
  {
  }

  lemma {:induction false} YearsIncrease(y: int, z: int)
    requires y <= z
    ensures DayFromYear(y) <= DayFromYear(z) - 365 * (z - y)
    decreases z - y
  {
    if y < z {
      YearLength(y);
      YearsIncrease(y + 1, z);
    }
  }

  predicate EarlierDate(f: Fields, g: Fields) {
    f.year < g.year || (f.year == g.year && (f.month < g.month || (f.month == g.month && f.day < g.day)))
  }

  /** Field by field, most significant first. */
  predicate Earlier(f: Fields, g: Fields) {
    || EarlierDate(f, g)
    || (!EarlierDate(g, f)
        && (f.hour < g.hour || (f.hour == g.hour && (f.minute < g.minute || (f.minute == g.minute && f.second < g.second)))))
  }

  lemma LaterYearStartsLater(y: int, z: int, length: int)
    requires y < z && length == if IsLeap(y) then 366 else 365
    ensures DayFromYear(y) + length <= DayFromYear(z)
  {
    YearLength(y);
    YearsIncrease(y + 1, z);
  }

  lemma SumsApart(p: int, q: int, a: int, b: int, x: int, y: int, length: int)
    requires p == a + x && q == b + y && x < length && y >= 0 && a + length <= b
    ensures p < q
  {
  }

  lemma EarlierYearSmallerDay(f: Fields, g: Fields)
    requires ValidFields(f) && ValidFields(g) && f.year < g.year
    ensures MakeDay(f.year, f.month - 1, f.day) < MakeDay(g.year, g.month - 1, g.day)
  {
    var x, y := DayOfYear(IsLeap(f.year), f.month, f.day), DayOfYear(IsLeap(g.year), g.month, g.day);
    var a, b, length := DayFromYear(f.year), DayFromYear(g.year), if IsLeap(f.year) then 366 else 365;
    var p, q := MakeDay(f.year, f.month - 1, f.day), MakeDay(g.year, g.month - 1, g.day);
    assert p == a + x by { MakeDayWithinYear(f.year, f.month, f.day); }
    assert q == b + y by { MakeDayWithinYear(g.year, g.month, g.day); }
    assert x < length by { DayOfYearAdvances(f.year, f.month, f.day); }
    assert y >= 0 by { DayOfYearAdvances(g.year, g.month, g.day); }
    assert a + length <= b by { LaterYearStartsLater(f.year, g.year, length); }
    SumsApart(p, q, a, b, x, y, length);
  }

  lemma SameYearSmallerDay(f: Fields, g: Fields)
    requires ValidFields(f) && ValidFields(g) && f.year == g.year
    requires f.month < g.month || (f.month == g.month && f.day < g.day)
    ensures MakeDay(f.year, f.month - 1, f.day) < MakeDay(g.year, g.month - 1, g.day)
  {
    var leap := IsLeap(f.year);
    DayOfYearOrders(leap, f.year, f.month, f.day, g.month, g.day);
    var x, y := DayOfYear(leap, f.month, f.day), DayOfYear(leap, g.month, g.day);
    assert MakeDay(f.year, f.month - 1, f.day) == DayFromYear(f.year) + x by { MakeDayWithinYear(f.year, f.month, f.day); }
    assert MakeDay(g.year, g.month - 1, g.day) == DayFromYear(f.year) + y by { MakeDayWithinYear(g.year, g.month, g.day); }
  }

  lemma EarlierDateSmallerDay(f: Fields, g: Fields)
    requires ValidFields(f) && ValidFields(g) && EarlierDate(f, g)
    ensures MakeDay(f.year, f.month - 1, f.day) < MakeDay(g.year, g.month - 1, g.day)
  {
    if f.year < g.year {
      EarlierYearSmallerDay(f, g);
    } else {
      SameYearSmallerDay(f, g);
    }
  }

  lemma EarlierDateEarlierSecond(f: Fields, g: Fields)
    requires ValidFields(f) && ValidFields(g) && EarlierDate(f, g)
    ensures EpochSecond(f) - EpochSecond(g) <= SecondOfDay(f) - SecondOfDay(g) - DAY
  {
    EarlierDateSmallerDay(f, g);
  }

  /** For calendar-valid fields the epoch second orders them as the calendar does. */
  lemma EpochOrderIsCalendarOrder(f: Fields, g: Fields)
    requires ValidFields(f) && ValidFields(g)
    ensures Earlier(f, g) <==> EpochSecond(f) < EpochSecond(g)
  {
    if EarlierDate(f, g) {
      EarlierDateEarlierSecond(f, g);
    } else if EarlierDate(g, f) {
      EarlierDateEarlierSecond(g, f);
    } else {
      EpochOfSameDay(f, g);
    }
  }

  /** The minute after, carried through hours, days, months and years. */
  function NextMinute(f: Fields): Fields
    requires ValidDate(f.year, f.month, f.day)
  {
    if f.minute < 59 then f.(minute := f.minute + 1, second := 0)
    else if f.hour < 23 then f.(hour := f.hour + 1, minute := 0, second := 0)
    else
      var (y, m, d) := NextDate(f.year, f.month, f.day);
      Fields(y, m, d, 0, 0, 0, f.fraction)
  }

  lemma EpochOfSameDay(f: Fields, g: Fields)
    requires f.year == g.year && f.month == g.month && f.day == g.day
    ensures EpochSecond(f) - EpochSecond(g) == SecondOfDay(f) - SecondOfDay(g)
  {
  }

  lemma EpochFromDay(f: Fields, p: int)
    requires p == MakeDay(f.year, f.month - 1, f.day)
    ensures EpochSecond(f) == p * DAY + SecondOfDay(f)
  {
  }

  lemma EpochOfNextDay(f: Fields, g: Fields)
    requires ValidDate(f.year, f.month, f.day) && (g.year, g.month, g.day) == NextDate(f.year, f.month, f.day)
    ensures EpochSecond(g) - EpochSecond(f) == DAY + SecondOfDay(g) - SecondOfDay(f)
  {
    var p, q := MakeDay(f.year, f.month - 1, f.day), MakeDay(g.year, g.month - 1, g.day);
    assert q == p + 1 by { DayNumberCountsDays(f.year, f.month, f.day, g.year, g.month, g.day); }
    EpochFromDay(f, p);
    EpochFromDay(g, q);
  }

  /** Second 60 is the second that follows second 59: the first of the next minute, wherever that
      minute falls. */
  lemma LeapSecondIsNextSecond(f: Fields)
    requires ValidFields(f.(second := 0)) && f.second == 60
    ensures ValidFields(NextMinute(f)) && EpochSecond(f) == EpochSecond(NextMinute(f))
    ensures EpochSecond(f) == EpochSecond(f.(second := 59)) + 1
  {
    var g := NextMinute(f);
    EpochOfSameDay(f, f.(second := 59));
    if f.minute < 59 || f.hour < 23 {
      EpochOfSameDay(f, g);
    } else {
      DayOfYearAdvances(f.year, f.month, f.day);
      EpochOfNextDay(f, g);
    }
  }

  lemma MonthCarries(year: int, month0: int, day: int)
    ensures MakeDay(year, month0 + 12, day) == MakeDay(year + 1, month0, day)
  {
    assert (month0 + 12) / 12 == month0 / 12 + 1 && (month0 + 12) % 12 == month0 % 12;
  }

  lemma DayAdds(year: int, month0: int, day: int)
    ensures MakeDay(year, month0, day + 1) == MakeDay(year, month0, day) + 1
  {
  }

  lemma SameDaySameSecond(f: Fields, g: Fields, p: int, q: int)
    requires p == MakeDay(f.year, f.month - 1, f.day) && q == MakeDay(g.year, g.month - 1, g.day)
    requires SecondOfDay(f) == SecondOfDay(g)
    ensures EpochSecond(g) - EpochSecond(f) == (q - p) * 86400
  {
    EpochFromDay(f, p);
    EpochFromDay(g, q);
  }

  lemma MonthsCarry(f: Fields)
    ensures EpochSecond(f.(month := f.month + 12)) == EpochSecond(f.(year := f.year + 1))
  {
    var p := MakeDay(f.year + 1, f.month - 1, f.day);
    assert MakeDay(f.year, f.month + 11, f.day) == p by { MonthCarries(f.year, f.month - 1, f.day); }
    SameDaySameSecond(f.(month := f.month + 12), f.(year := f.year + 1), p, p);
  }

  lemma DaysCarry(f: Fields)
    ensures EpochSecond(f.(day := f.day + 1)) == EpochSecond(f) + 86400
  {
    var q := MakeDay(f.year, f.month - 1, f.day);
    assert MakeDay(f.year, f.month - 1, f.day + 1) == q + 1 by { DayAdds(f.year, f.month - 1, f.day); }
    SameDaySameSecond(f, f.(day := f.day + 1), q, q + 1);
  }

  /** Fields beyond the calendar carry: a thirteenth month is in the next year, a day has 86400
      seconds wherever it falls, and seconds beyond 60 count as 59. */
  lemma FieldsCarry(f: Fields)
    ensures EpochSecond(f.(month := f.month + 12)) == EpochSecond(f.(year := f.year + 1))
    ensures EpochSecond(f.(day := f.day + 1)) == EpochSecond(f) + 86400
    ensures EpochSecond(f.(hour := f.hour + 1)) == EpochSecond(f) + 3600
    ensures EpochSecond(f.(minute := f.minute + 1)) == EpochSecond(f) + 60
    ensures f.second < 59 ==> EpochSecond(f.(second := f.second + 1)) == EpochSecond(f) + 1
    ensures f.second > 60 ==> EpochSecond(f) == EpochSecond(f.(second := 59))
  {
    MonthsCarry(f);
    DaysCarry(f);
    EpochOfSameDay(f, f.(hour := f.hour + 1));
    EpochOfSameDay(f, f.(minute := f.minute + 1));
    EpochOfSameDay(f, f.(second := f.second + 1));
    EpochOfSameDay(f, f.(second := 59));
  }

  // ---- the order of the texts ------------------------------------------------------------

  lemma {:induction false} LexConcat(p: string, q: string, x: string, y: string)
    requires |p| == |q|
    ensures LexLess(p + x, q + y) <==> LexLess(p, q) || (p == q && LexLess(x, y))
  {
    if p == "" {
      assert p + x == x && q + y == y;
    } else {
      assert (p + x)[1..] == p[1..] + x && (q + y)[1..] == q[1..] + y;
      assert p == [p[0]] + p[1..] && q == [q[0]] + q[1..];
      LexConcat(p[1..], q[1..], x, y);
    }
  }

  lemma {:induction false} LexIrreflexive(s: string)
    ensures !LexLess(s, s)
  {
    if s != "" {
      LexIrreflexive(s[1..]);
    }
  }

  lemma DigitOrders(m: nat, n: nat)
    requires m < 10 && n < 10
    ensures LexLess([(m + '0' as int) as char], [(n + '0' as int) as char]) <==> m < n
    ensures [(m + '0' as int) as char] == [(n + '0' as int) as char] <==> m == n
  {
    var x, y := [(m + '0' as int) as char], [(n + '0' as int) as char];
    assert x[0] == y[0] <==> m == n;
    assert x[1..] == "" && y[1..] == "";
  }

  lemma AppendedEqual(p: string, q: string, x: string, y: string)
    requires |p| == |q|
    ensures p + x == q + y <==> p == q && x == y
  {
    assert p == (p + x)[..|p|] && q == (q + y)[..|p|] && x == (p + x)[|p|..] && y == (q + y)[|p|..];
  }

  lemma TenthsOrder(m: nat, n: nat)
    ensures m < n <==> m / 10 < n / 10 || (m / 10 == n / 10 && m % 10 < n % 10)
    ensures m == n <==> m / 10 == n / 10 && m % 10 == n % 10
  {
  }

  /** Numbers of one width order as their digits do. */
  lemma {:induction false} PaddedOrders(m: nat, n: nat, width: nat)
    requires m < Pow10(width) && n < Pow10(width)
    ensures LexLess(Padded(m, width), Padded(n, width)) <==> m < n
    ensures Padded(m, width) == Padded(n, width) <==> m == n
  {
    if width > 0 {
      var p, q := Padded(m / 10, width - 1), Padded(n / 10, width - 1);
      var x, y := [(m % 10 + '0' as int) as char], [(n % 10 + '0' as int) as char];
      PaddedOrders(m / 10, n / 10, width - 1);
      DigitOrders(m % 10, n % 10);
      TenthsOrder(m, n);
      LexConcat(p, q, x, y);
      AppendedEqual(p, q, x, y);
    }
  }

  lemma NextFieldOrders(p: string, q: string, sep: string, x: string, y: string)
    requires |p| == |q|
    ensures LexLess(p + sep + x, q + sep + y) <==> LexLess(p, q) || (p == q && LexLess(x, y))
    ensures p + sep + x == q + sep + y <==> p == q && x == y
  {
    assert p + sep + x == p + (sep + x) && q + sep + y == q + (sep + y);
    LexConcat(p, q, sep + x, sep + y);
    LexConcat(sep, sep, x, y);
    LexIrreflexive(sep);
    AppendedEqual(p, q, sep + x, sep + y);
    AppendedEqual(sep, sep, x, y);
  }

  lemma FieldsOrder(f: Fields, g: Fields, two: nat, four: nat)
    requires InRange(f) && InRange(g) && two == 2 && four == 4
    ensures (LexLess(Padded(f.year, four), Padded(g.year, four)) <==> f.year < g.year)
            && (Padded(f.year, four) == Padded(g.year, four) <==> f.year == g.year)
    ensures forall m, n :: 0 <= m <= 99 && 0 <= n <= 99 ==>
              (LexLess(Padded(m, two), Padded(n, two)) <==> m < n) && (Padded(m, two) == Padded(n, two) <==> m == n)
  {
    assert Pow10(two) == 100;
    assert Pow10(four) == 10000 by { assert Pow10(four) == 10 * (10 * Pow10(two)); }
    PaddedOrders(f.year, g.year, four);
    forall m, n | 0 <= m <= 99 && 0 <= n <= 99
      ensures (LexLess(Padded(m, two), Padded(n, two)) <==> m < n) && (Padded(m, two) == Padded(n, two) <==> m == n)
    {
      PaddedOrders(m, n, two);
    }
  }

  lemma DateTextOrders(f: Fields, g: Fields, two: nat, four: nat)
    requires InRange(f) && InRange(g) && two == 2 && four == 4
    ensures LexLess(DateText(f), DateText(g)) <==> EarlierDate(f, g)
    ensures DateText(f) == DateText(g) <==> f.year == g.year && f.month == g.month && f.day == g.day
  {
    FieldsOrder(f, g, two, four);
    var yl, yr := Padded(f.year, four), Padded(g.year, four);
    var ml, mr := Padded(f.month, two), Padded(g.month, two);
    NextFieldOrders(yl, yr, "-", ml, mr);
    NextFieldOrders(yl + "-" + ml, yr + "-" + mr, "-", Padded(f.day, two), Padded(g.day, two));
  }

  predicate EarlierTime(f: Fields, g: Fields) {
    f.hour < g.hour || (f.hour == g.hour && (f.minute < g.minute || (f.minute == g.minute && f.second < g.second)))
  }

  lemma TimeTextOrders(f: Fields, g: Fields, two: nat)
    requires InRange(f) && InRange(g) && two == 2
    ensures LexLess(TimeText(f), TimeText(g)) <==> EarlierTime(f, g)
    ensures TimeText(f) == TimeText(g) <==> f.hour == g.hour && f.minute == g.minute && f.second == g.second
  {
    FieldsOrder(f, g, two, 4);
    var hl, hr := Padded(f.hour, two), Padded(g.hour, two);
    var ml, mr := Padded(f.minute, two), Padded(g.minute, two);
    NextFieldOrders(hl, hr, ":", ml, mr);
    NextFieldOrders(hl + ":" + ml, hr + ":" + mr, ":", Padded(f.second, two), Padded(g.second, two));
  }

  /** The first nineteen characters order as the fields do, most significant first. */
  lemma SecondTextOrders(f: Fields, g: Fields)
    requires InRange(f) && InRange(g)
    ensures LexLess(SecondText(f), SecondText(g)) <==> Earlier(f, g)
  {
    DateTextOrders(f, g, 2, 4);
    TimeTextOrders(f, g, 2);
    NextFieldOrders(DateText(f), DateText(g), "T", TimeText(f), TimeText(g));
  }

  /** What the comparator means for two timestamps with a valid date and time: it orders them as
      their first nineteen characters are ordered, and then as their fractions are. */
  lemma CompareIsLexical(left: string, right: string, f: Fields, g: Fields)
    requires InRange(f) && ValidFields(f) && left == Text(f)
    requires InRange(g) && ValidFields(g) && right == Text(g)
    ensures Compare(left, right)
            == Some(if LexLess(left[..19], right[..19]) then -1 else if LexLess(right[..19], left[..19]) then 1
                    else Sign(FractionValue(f.fraction) - FractionValue(g.fraction)))
  {
    TextReadsBack(f);
    TextReadsBack(g);
    SecondTextOrders(f, g);
    SecondTextOrders(g, f);
    assert left[..19] == SecondText(f) && right[..19] == SecondText(g);
    EpochOrderIsCalendarOrder(f, g);
    EpochOrderIsCalendarOrder(g, f);
    FractionRange(f.fraction);
    FractionRange(g.fraction);
    CompareIsSignOfDifference(left, right);
  }

  // ---- deadlines -------------------------------------------------------------------------

  datatype Invocation = Invocation(registered: bool, deadlineAt: string, isUtcTimestamp: string -> bool)

  datatype Activity = Active | InvalidInvocation | Aborted | TimedOut

  function InvocationActivity(context: Invocation, aborted: bool, now: string): Activity {
    if !context.registered || !context.isUtcTimestamp(now) then InvalidInvocation
    else if aborted then Aborted
    else
      match Compare(now, context.deadlineAt)
      case None => InvalidInvocation
      case Some(c) => if c >= 0 then TimedOut else Active
  }

  /** A context once timed out is timed out at every later time, unless it is aborted by then. */
  lemma TimeoutIsForever(context: Invocation, now: string, later: string, abortedLater: bool)
    requires InvocationActivity(context, false, now) == TimedOut
    requires context.isUtcTimestamp(later) && Compare(now, later).Some? && Compare(now, later).value <= 0
    ensures InvocationActivity(context, abortedLater, later) == if abortedLater then Aborted else TimedOut
  {
    CompareIsATotalOrder(context.deadlineAt, now, later);
    CompareIsATotalOrder(now, context.deadlineAt, now);
    CompareIsATotalOrder(context.deadlineAt, later, now);
  }

  /** When a context may go on, for all contexts and times: an invalid one is refused first, then an
      aborted one; a timestamp that cannot be compared is an invalid context too; otherwise the
      context is timed out exactly from the instant of its deadline on. */
  lemma TimedOutIffDeadlineReached(context: Invocation, aborted: bool, now: string)
    ensures var a := InvocationActivity(context, aborted, now);
            var usable := context.registered && context.isUtcTimestamp(now);
            var comparable := Matches(now) && Matches(context.deadlineAt);
            var reached := comparable && Instant(now) >= Instant(context.deadlineAt);
            && (a == InvalidInvocation <==> !usable || (!aborted && !comparable))
            && (a == Aborted <==> usable && aborted)
            && (a == TimedOut <==> usable && !aborted && reached)
            && (a == Active <==> usable && !aborted && comparable && !reached)
  {
    if Matches(now) && Matches(context.deadlineAt) {
      CompareIsSignOfDifference(now, context.deadlineAt);
    }
  }
}
