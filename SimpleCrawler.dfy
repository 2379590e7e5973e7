/**
 * The duration formatter of the command-line entry point: a count of
 * nanoseconds rendered as "day hour:min:sec" with Java's truncating
 * integer division and remainder.
 */
module SimpleCrawler {
  import opened Wrappers

  const NanosPerSecond: int := 1_000_000_000
  const SecondsPerDay: int := 86400

  /** Java's `/` on `long`: the quotient truncated toward zero. */
  function JavaDiv(a: int, b: int): (q: int)
    requires b > 0
    ensures a >= 0 ==> 0 <= a - q * b < b
    ensures a < 0 ==> -b < a - q * b <= 0
  {
    if a >= 0 then a / b else -((-a) / b)
  }

  /** Java's `%` on `long`: the remainder takes the dividend's sign. */
  function JavaRem(a: int, b: int): (r: int)
    requires b > 0
    ensures r == a - JavaDiv(a, b) * b
    ensures a >= 0 ==> 0 <= r < b
    ensures a < 0 ==> -b < r <= 0
  {
    if a >= 0 then a % b else -((-a) % b)
  }

  /** The four fields the formatter prints. */
  datatype Duration = Duration(day: int, hour: int, min: int, sec: int)

  function Seconds(nanos: int): int
  {
    JavaDiv(nanos, NanosPerSecond)
  }

  /** The fields computed from a nanosecond count. */
  function TimeFields(nanos: int): Duration
  {
    var seconds := Seconds(nanos);
    Duration(
      JavaRem(JavaDiv(seconds, SecondsPerDay), 24),
      JavaRem(JavaDiv(seconds, 3600), 24),
      JavaRem(JavaDiv(seconds, 60), 60),
      JavaRem(seconds, 60))
  }

  function DigitChar(d: nat): (c: char)
    requires d < 10
    ensures '0' <= c <= '9'
  {
    ('0' as int + d) as char
  }

  /** The decimal digits of a natural number, most significant first. */
  function Digits(n: nat): (s: string)
    ensures |s| >= 1
    ensures forall i :: 0 <= i < |s| ==> '0' <= s[i] <= '9'
  {
    if n < 10 then [DigitChar(n)] else Digits(n / 10) + [DigitChar(n % 10)]
  }

  /** Java's `%d` in a locale whose digits are '0' to '9': optional minus sign, then the digits, no padding. */
  function Decimal(n: int): (s: string)
    ensures |s| >= 1
    ensures forall i :: 0 <= i < |s| ==> s[i] == '-' || '0' <= s[i] <= '9'
  {
    if n < 0 then "-" + Digits(-n) else Digits(n)
  }

  /** "hour:min:sec". */
  function Clock(d: Duration): string
  {
    Decimal(d.hour) + ":" + Decimal(d.min) + ":" + Decimal(d.sec)
  }

  /** "day hour:min:sec", as `String.format("%d %d:%d:%d", ...)`. */
  function Format(d: Duration): string
  {
    Decimal(d.day) + " " + Clock(d)
  }

  /** getHumanRedableTime. */
  function HumanReadableTime(nanos: int): string
  {
    Format(TimeFields(nanos))
  }

  // ---------------------------------------------------------------------
  // A reader for the printed form, used to show that nothing is lost.
  // ---------------------------------------------------------------------

  function DigitValue(c: char): (d: nat)
    requires '0' <= c <= '9'
    ensures d < 10 && DigitChar(d) == c
  {
    (c as int - '0' as int) as nat
  }

  function ParseDigits(s: string): (r: Option<int>)
    ensures r.Some? <==> s != [] && forall i :: 0 <= i < |s| ==> '0' <= s[i] <= '9'
    ensures r.Some? ==> r.value >= 0
    decreases |s|
  {
    if s == [] || !('0' <= s[|s| - 1] <= '9') then None
    else if |s| == 1 then Some(DigitValue(s[0]))
    else
      match ParseDigits(s[..|s| - 1])
      case None => None
      case Some(v) => Some(v * 10 + DigitValue(s[|s| - 1]))
  }

  function ParseDecimal(s: string): Option<int>
  {
    if s != [] && s[0] == '-' then
      match ParseDigits(s[1..])
      case None => None
      case Some(v) => Some(-v)
    else ParseDigits(s)
  }

  /** The first position of `c` in `s`. */
  function IndexOf(s: string, c: char): (i: nat)
    requires c in s
    ensures i < |s| && s[i] == c
    ensures forall j :: 0 <= j < i ==> s[j] != c
  {
    if s[0] == c then 0 else 1 + IndexOf(s[1..], c)
  }

  /** The pieces of `s` between occurrences of `sep`. */
  function Split(s: string, sep: char): (parts: seq<string>)
    ensures |parts| >= 1
    decreases |s|
  {
    if sep in s then
      var i := IndexOf(s, sep);
      [s[..i]] + Split(s[i + 1..], sep)
    else [s]
  }

  function ParseDuration(s: string): Option<Duration>
  {
    var words := Split(s, ' ');
    if |words| != 2 then None
    else
      var clock := Split(words[1], ':');
      if |clock| != 3 then None
      else
        var day := ParseDecimal(words[0]);
        var hour := ParseDecimal(clock[0]);
        var min := ParseDecimal(clock[1]);
        var sec := ParseDecimal(clock[2]);
        if day.Some? && hour.Some? && min.Some? && sec.Some? then
          Some(Duration(day.value, hour.value, min.value, sec.value))
        else None
  }

  // ---------------------------------------------------------------------
  // Properties
  // ---------------------------------------------------------------------

  /** Reading the digits back gives the number. */
  lemma {:induction false} DigitsRoundTrip(n: nat)
    ensures ParseDigits(Digits(n)) == Some(n)
    decreases n
  {
    if n >= 10 {
      var s := Digits(n);
      assert s[..|s| - 1] == Digits(n / 10);
      DigitsRoundTrip(n / 10);
    }
  }

  /** No zero padding: only zero itself starts with the digit 0. */
  lemma {:induction false} NoLeadingZero(n: nat)
    ensures Digits(n)[0] == '0' <==> n == 0
    decreases n
  {
    if n >= 10 {
      NoLeadingZero(n / 10);
      assert Digits(n)[0] == Digits(n / 10)[0];
    }
  }

  lemma DecimalRoundTrip(n: int)
    ensures ParseDecimal(Decimal(n)) == Some(n)
  {
    DigitsRoundTrip(if n < 0 then -n else n);
    if n < 0 {
      assert Decimal(n)[1..] == Digits(-n);
    }
  }

  /** Splitting a piece free of the separator, followed by the separator, peels that piece off. */
  lemma SplitFirst(a: string, sep: char, rest: string)
    requires sep !in a
    ensures Split(a + [sep] + rest, sep) == [a] + Split(rest, sep)
  {
    var s := a + [sep] + rest;
    assert s[|a|] == sep;
    assert forall j :: 0 <= j < |a| ==> s[j] == a[j];
    var i := IndexOf(s, sep);
    assert i == |a|;
    assert s[..i] == a;
    assert s[i + 1..] == rest;
  }

  lemma SplitWhole(a: string, sep: char)
    requires sep !in a
    ensures Split(a, sep) == [a]
  {
  }

  lemma DecimalHasNo(n: int, c: char)
    requires c == ' ' || c == ':'
    ensures c !in Decimal(n)
  {
    var s := Decimal(n);
    forall i | 0 <= i < |s| ensures s[i] != c {
    }
  }

  /** The clock splits at its two colons into the three fields. */
  lemma SplitClock(d: Duration)
    ensures Split(Clock(d), ':') == [Decimal(d.hour), Decimal(d.min), Decimal(d.sec)]
  {
    var hour, min, sec := Decimal(d.hour), Decimal(d.min), Decimal(d.sec);
    DecimalHasNo(d.hour, ':');
    DecimalHasNo(d.min, ':');
    DecimalHasNo(d.sec, ':');
    assert Clock(d) == hour + [':'] + (min + [':'] + sec);
    SplitFirst(hour, ':', min + [':'] + sec);
    SplitFirst(min, ':', sec);
    SplitWhole(sec, ':');
  }

  /** The printed form splits at its one space into the day and the clock. */
  lemma SplitWords(d: Duration)
    ensures Split(Format(d), ' ') == [Decimal(d.day), Clock(d)]
  {
    var clock := Clock(d);
    DecimalHasNo(d.day, ' ');
    DecimalHasNo(d.hour, ' ');
    DecimalHasNo(d.min, ' ');
    DecimalHasNo(d.sec, ' ');
    assert ' ' !in clock by {
      assert clock == Decimal(d.hour) + [':'] + Decimal(d.min) + [':'] + Decimal(d.sec);
    }
    assert Format(d) == Decimal(d.day) + [' '] + clock;
    SplitFirst(Decimal(d.day), ' ', clock);
    SplitWhole(clock, ' ');
  }

  /** The printed form determines the four fields: reading it back recovers them. */
  lemma FormatRoundTrip(d: Duration)
    ensures ParseDuration(Format(d)) == Some(d)
  {
    SplitWords(d);
    SplitClock(d);
    DecimalRoundTrip(d.day);
    DecimalRoundTrip(d.hour);
    DecimalRoundTrip(d.min);
    DecimalRoundTrip(d.sec);
  }

  /** Distinct field values are always printed differently. */
  lemma FormatInjective(d: Duration, e: Duration)
    requires Format(d) == Format(e)
    ensures d == e
  {
    FormatRoundTrip(d);
    FormatRoundTrip(e);
  }

  /** The printed time is "day hour:min:sec" of the computed fields, and can be read back. */
  lemma HumanReadableTimeReadsBack(nanos: int)
    ensures ParseDuration(HumanReadableTime(nanos)) == Some(TimeFields(nanos))
  {
    FormatRoundTrip(TimeFields(nanos));
  }

  lemma DigitsUnsigned(n: nat)
    ensures Decimal(n) == Digits(n) && '-' !in Digits(n)
  {
    var s := Digits(n);
    forall i | 0 <= i < |s| ensures s[i] != '-' {
    }
  }

  lemma FieldsInRange(nanos: int)
    requires nanos >= 0
    ensures var d := TimeFields(nanos);
      0 <= d.sec < 60 && 0 <= d.min < 60 && 0 <= d.hour < 24 && 0 <= d.day < 24
  {
    var s := Seconds(nanos);
    assert s >= 0;
    assert JavaDiv(s, SecondsPerDay) >= 0;
    assert JavaDiv(s, 3600) >= 0;
    assert JavaDiv(s, 60) >= 0;
  }

  /** For a non-negative count nothing in the output is signed. */
  lemma PrintsNoMinus(nanos: int)
    requires nanos >= 0
    ensures '-' !in HumanReadableTime(nanos)
  {
    var d := TimeFields(nanos);
    FieldsInRange(nanos);
    DigitsUnsigned(d.day);
    DigitsUnsigned(d.hour);
    DigitsUnsigned(d.min);
    DigitsUnsigned(d.sec);
  }

  /** Truncating division and remainder are odd in the dividend. */
  lemma JavaNegate(a: int, b: int)
    requires b > 0
    ensures JavaDiv(-a, b) == -JavaDiv(a, b)
    ensures JavaRem(-a, b) == -JavaRem(a, b)
  {
    if a == 0 {
      assert 0 / b == 0 && 0 % b == 0;
    } else if a > 0 {
      assert -(-a) == a;
    }
  }

  /** Negating the count negates every field: Java's remainder keeps the dividend's sign. */
  lemma NegatedFields(nanos: int)
    ensures var d := TimeFields(nanos);
      TimeFields(-nanos) == Duration(-d.day, -d.hour, -d.min, -d.sec)
  {
    var s := Seconds(nanos);
    JavaNegate(nanos, NanosPerSecond);
    assert Seconds(-nanos) == -s;
    JavaNegate(s, SecondsPerDay);
    JavaNegate(JavaDiv(s, SecondsPerDay), 24);
    JavaNegate(s, 3600);
    JavaNegate(JavaDiv(s, 3600), 24);
    JavaNegate(s, 60);
    JavaNegate(JavaDiv(s, 60), 60);
  }

  /** For a negative count every field is zero or negative. */
  lemma NegativeFields(nanos: int)
    requires nanos < 0
    ensures var d := TimeFields(nanos);
      -60 < d.sec <= 0 && -60 < d.min <= 0 && -24 < d.hour <= 0 && -24 < d.day <= 0
  {
    NegatedFields(-nanos);
    FieldsInRange(-nanos);
  }

  /** Whole seconds split into whole days, hours of the day, minutes of the hour and seconds of the minute. */
  lemma SplitSeconds(s: nat)
    ensures (s / SecondsPerDay) * SecondsPerDay + (s / 3600) % 24 * 3600 + (s / 60) % 60 * 60 + s % 60 == s
  {
    var m, h, days := s / 60, s / 3600, s / SecondsPerDay;
    assert h == m / 60 && days == h / 24;
    assert s == 60 * m + s % 60;
    assert m == 60 * h + m % 60;
    assert h == 24 * days + h % 24;
  }

  /** The remainder modulo 24 days is the one a decomposition leaves. */
  lemma ModOf24Days(s: int, q: int, r: int)
    requires s == 24 * SecondsPerDay * q + r && 0 <= r < 24 * SecondsPerDay
    ensures s % (24 * SecondsPerDay) == r
  {
  }

  /** The same with the days taken modulo 24. */
  lemma SplitSecondsWrapped(s: nat)
    ensures (s / SecondsPerDay) % 24 * SecondsPerDay + (s / 3600) % 24 * 3600 + (s / 60) % 60 * 60 + s % 60
            == s % (24 * SecondsPerDay)
  {
    SplitSeconds(s);
    var days := s / SecondsPerDay;
    var r := s % SecondsPerDay;
    assert s == SecondsPerDay * days + r && 0 <= r < SecondsPerDay;
    assert days == 24 * (days / 24) + days % 24;
    var rest := SecondsPerDay * (days % 24) + r;
    assert s == 24 * SecondsPerDay * (days / 24) + rest && 0 <= rest < 24 * SecondsPerDay;
    ModOf24Days(s, days / 24, rest);
  }

  /**
   * The fields add up to the elapsed whole seconds modulo 24 days, and so
   * to the elapsed whole seconds themselves below 24 days.
   */
  lemma FieldsAddUp(nanos: int)
    requires nanos >= 0
    ensures var d := TimeFields(nanos);
      d.day * SecondsPerDay + d.hour * 3600 + d.min * 60 + d.sec == Seconds(nanos) % (24 * SecondsPerDay)
    ensures Seconds(nanos) < 24 * SecondsPerDay ==> var d := TimeFields(nanos);
      d.day * SecondsPerDay + d.hour * 3600 + d.min * 60 + d.sec == Seconds(nanos)
  {
    var s := Seconds(nanos);
    NonNegativeFields(nanos);
    SplitSecondsWrapped(s);
    if s < 24 * SecondsPerDay {
      ModOf24Days(s, 0, s);
    }
  }

  /** For a non-negative count Java's operators are Dafny's: the fields are plain quotients and remainders. */
  lemma NonNegativeFields(nanos: int)
    requires nanos >= 0
    ensures Seconds(nanos) == nanos / NanosPerSecond >= 0
    ensures var s := Seconds(nanos);
      TimeFields(nanos) == Duration((s / SecondsPerDay) % 24, (s / 3600) % 24, (s / 60) % 60, s % 60)
  {
    var s := Seconds(nanos);
    assert s >= 0;
    assert JavaDiv(s, SecondsPerDay) == s / SecondsPerDay >= 0;
    assert JavaDiv(s, 3600) == s / 3600 >= 0;
    assert JavaDiv(s, 60) == s / 60 >= 0;
  }

  /** The day field wraps every 24 days: the printed time repeats with that period. */
  lemma DayWraps(nanos: int)
    requires nanos >= 0
    ensures TimeFields(nanos + 24 * SecondsPerDay * NanosPerSecond) == TimeFields(nanos)
  {
    var s := Seconds(nanos);
    var t := Seconds(nanos + 24 * SecondsPerDay * NanosPerSecond);
    assert t == s + 24 * SecondsPerDay;
    assert JavaDiv(t, SecondsPerDay) == JavaDiv(s, SecondsPerDay) + 24;
    assert JavaDiv(t, 3600) == JavaDiv(s, 3600) + 24 * 24;
    assert JavaDiv(t, 60) == JavaDiv(s, 60) + 24 * 24 * 60;
    var day, hour, min := JavaDiv(s, SecondsPerDay), JavaDiv(s, 3600), JavaDiv(s, 60);
    assert JavaRem(day + 24, 24) == JavaRem(day, 24);
    assert JavaRem(hour + 24 * 24, 24) == JavaRem(hour, 24);
    assert JavaRem(min + 24 * 24 * 60, 60) == JavaRem(min, 60);
    assert JavaRem(t, 60) == JavaRem(s, 60);
  }

  /** Concrete renderings: one of each unit, and exactly 24 days, which prints as day 0. */
  lemma HumanReadableTimeExamples()
    ensures HumanReadableTime(90061 * NanosPerSecond) == "1 1:1:1"
    ensures HumanReadableTime(24 * SecondsPerDay * NanosPerSecond) == "0 0:0:0"
  {
    assert Decimal(0) == "0" && Decimal(1) == "1";
    assert TimeFields(90061 * NanosPerSecond) == Duration(1, 1, 1, 1);
    assert TimeFields(24 * SecondsPerDay * NanosPerSecond) == Duration(0, 0, 0, 0);
  }

  /** Sub-second counts print as zero; negative counts print negative fields. */
  lemma HumanReadableTimeTruncates()
    ensures HumanReadableTime(999_999_999) == "0 0:0:0"
    ensures HumanReadableTime(-61 * NanosPerSecond) == "0 0:-1:-1"
  {
    assert Decimal(0) == "0" && Decimal(-1) == "-1";
    assert TimeFields(999_999_999) == Duration(0, 0, 0, 0);
    assert TimeFields(-61 * NanosPerSecond) == Duration(0, 0, -1, -1);
  }

  // ---------------------------------------------------------------------
  // The day field without the wrap-around
  // ---------------------------------------------------------------------

  /** The fields with the whole number of days, not the days modulo 24. */
  function UnwrappedFields(nanos: int): Duration
  {
    var d := TimeFields(nanos);
    Duration(JavaDiv(Seconds(nanos), SecondsPerDay), d.hour, d.min, d.sec)
  }

  /** With whole days the fields always add up to the elapsed whole seconds. */
  lemma UnwrappedFieldsAddUp(nanos: int)
    requires nanos >= 0
    ensures var d := UnwrappedFields(nanos);
      d.day * SecondsPerDay + d.hour * 3600 + d.min * 60 + d.sec == Seconds(nanos)
      && 0 <= d.hour < 24 && 0 <= d.min < 60 && 0 <= d.sec < 60
  {
    var s := Seconds(nanos);
    assert s >= 0;
    SplitSeconds(s);
  }

  /** Below 24 days the two agree; at exactly 24 days only the unwrapped one shows the days. */
  lemma UnwrappedAgreesBelow24Days(nanos: int)
    requires nanos >= 0 && Seconds(nanos) < 24 * SecondsPerDay
    ensures UnwrappedFields(nanos) == TimeFields(nanos)
  {
    assert JavaDiv(Seconds(nanos), SecondsPerDay) < 24;
  }

  lemma TwentyFourDays()
    ensures UnwrappedFields(24 * SecondsPerDay * NanosPerSecond) == Duration(24, 0, 0, 0)
    ensures TimeFields(24 * SecondsPerDay * NanosPerSecond) == Duration(0, 0, 0, 0)
  {
  }
}
