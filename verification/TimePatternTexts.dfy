/** The texts of time patterns, character by character, and the number of ticks that they stand for. */
module TimePatternTexts {
  import opened Wrappers
  import opened TextScan
  import opened TimePattern
  import opened TimePatternRoundTrip

  // --- Digits and clock times ---

  function Digit(d: nat): char
    requires d < 10
  {
    "0123456789"[d]
  }

  function Two(n: nat): string
    requires n < 100
  {
    [Digit(n / 10), Digit(n % 10)]
  }

  function Three(n: nat): string
    requires n < 1000
  {
    [Digit(n / 100), Digit(n / 10 % 10), Digit(n % 10)]
  }

  function Four(n: nat): string
    requires n < 10000
  {
    [Digit(n / 1000), Digit(n / 100 % 10), Digit(n / 10 % 10), Digit(n % 10)]
  }

  /** Hours, minutes and seconds of a day, and 24:00:00. */
  datatype Clock = Clock(h: nat, m: nat, s: nat)

  predicate OfADay(c: Clock) {
    (c.h < 24 && c.m < 60 && c.s < 60) || c == Clock(24, 0, 0)
  }

  function Ticks(c: Clock): nat {
    (3600 * c.h + 60 * c.m + c.s) * 1_000_000_000
  }

  function Text(c: Clock): string
    requires OfADay(c)
  {
    Two(c.h) + ":" + Two(c.m) + ":" + Two(c.s)
  }

  lemma DigitIsDigitChar(d: nat)
    requires d < 10
    ensures DigitChar(d) == Digit(d)
  {
  }

  lemma TwoIsTwoDigits(n: nat)
    requires n < 100
    ensures TwoDigits(n) == Two(n)
  {
    DigitIsDigitChar(n / 10);
    DigitIsDigitChar(n % 10);
  }

  /** A duration, with or without a fraction of a second, is printed by its hours, minutes and seconds. */
  lemma DurationText(c: Clock, fraction: nat)
    requires OfADay(c) && fraction < 1_000_000_000 && (c.h < 24 || fraction == 0)
    ensures Ticks(c) + fraction <= 86_400_000_000_000
    ensures PrintDuration(Ticks(c) + fraction) == Ok(Text(c)) && Hms(Ticks(c) + fraction) == Text(c)
    ensures Floor(Ticks(c) + fraction) == Ticks(c)
  {
    var d := Ticks(c) + fraction;
    SplitTicks(c, fraction, d);
    TwoIsTwoDigits(c.h);
    TwoIsTwoDigits(c.m);
    TwoIsTwoDigits(c.s);
  }

  lemma SplitTicks(c: Clock, fraction: nat, d: nat)
    requires OfADay(c) && fraction < 1_000_000_000 && (c.h < 24 || fraction == 0) && d == Ticks(c) + fraction
    ensures d <= 24 * HOUR && Hours(d) == c.h && Minutes(d) == c.m && Seconds(d) == c.s && Floor(d) == Ticks(c)
  {
    assert d == c.h * 3_600_000_000_000 + (c.m * 60_000_000_000 + c.s * 1_000_000_000 + fraction);
    assert Hours(d) == c.h;
    assert Minutes(d) == c.m;
    assert Seconds(d) == c.s;
  }

  /** Two digits, any character, two digits, any character, two digits: what the parser makes of a clock time. */
  lemma ClockIsParsed(c: Clock)
    requires OfADay(c)
    ensures ParseDuration(Text(c)) == Ok(Ticks(c))
  {
    var d := TicksOf(c);
    assert Text(c)[..8] == Text(c);
    DurationIsRead(Text(c), d);
  }

  /** Texts of fewer than seven characters are no durations. */
  lemma ShortTextsAreNoDurations(s: string)
    requires |s| <= 6
    ensures ParseDuration(s).Err?
  {
    if |s| == 6 {
      assert s[6..] == "" && Field(s, 6, 2) == Err(InvalidArgument);
    }
  }

  // --- Patterns ---

  /** The variation, if there is one. */
  function Suffix(v: Clock): string
    requires OfADay(v)
  {
    if v == Clock(0, 0, 0) then "" else "A" + Text(v)
  }

  lemma TicksOf(c: Clock) returns (d: nat)
    requires OfADay(c)
    ensures d == Ticks(c) && d <= 24 * HOUR && Floor(d) == d && Hms(d) == Text(c)
    ensures d == 0 <==> c == Clock(0, 0, 0)
  {
    d := Ticks(c);
    DurationText(c, 0);
  }

  lemma SuffixIsTail(v: Clock, e: nat)
    requires OfADay(v) && e <= 24 * HOUR && Hms(e) == Text(v) && (e == 0 <==> v == Clock(0, 0, 0))
    ensures Tail(e) == Suffix(v)
  {
  }

  function Executions(n: nat): string
    requires n < 100
  {
    if n == 0 then "R/" else if n == 1 then "" else "R" + Two(n) + "/"
  }

  lemma ExecutionsText(n: nat)
    requires n < 100
    ensures PrintExecutions(n) == Executions(n)
  {
    if n >= 2 {
      TwoIsTwoDigits(n);
      if n < 10 {
        assert NatToString(n) == [DigitChar(n)];
        assert "R" + "0" + [DigitChar(n)] + "/" == "R" + TwoDigits(n) + "/";
      } else {
        assert NatToString(n) == NatToString(n / 10) + [DigitChar(n % 10)] == TwoDigits(n);
        assert "R" + "" + TwoDigits(n) + "/" == "R" + TwoDigits(n) + "/";
      }
    }
  }

  /** Timers: what is printed, and that it is parsed back. */
  lemma TimerIsText(zone: Zone, c: Clock, v: Clock, n: nat)
    requires OfADay(c) && OfADay(v) && n < 100
    ensures var p, text := Timer(Ticks(c), Ticks(v), n), Executions(n) + "PT" + Text(c) + Suffix(v);
            Print(zone, p) == Ok(text) && Parse(zone, text) == Ok(p)
  {
    var d := TicksOf(c);
    var e := TicksOf(v);
    SuffixIsTail(v, e);
    ExecutionsText(n);
    TimerOf(zone, d, e, n, Text(c), Suffix(v), Executions(n));
  }

  /** With the numbers of ticks as variables. */
  lemma TimerOf(zone: Zone, d: nat, e: nat, n: nat, clock: string, suffix: string, executions: string)
    requires d <= 24 * HOUR && Floor(d) == d && Hms(d) == clock && e <= 24 * HOUR && Floor(e) == e && Tail(e) == suffix
    requires n < 100 && PrintExecutions(n) == executions
    ensures Print(zone, Timer(d, e, n)) == Ok(executions + "PT" + clock + suffix)
    ensures Parse(zone, executions + "PT" + clock + suffix) == Ok(Timer(d, e, n))
  {
    TimerPrints(zone, d, e, n);
    RoundTrip(zone, Timer(d, e, n));
  }

  lemma DaysText(days: nat)
    requires days < 1000
    ensures PrintDays(days) == Three(days)
  {
    ThreeDigits(days);
    DigitIsDigitChar(days / 100);
    DigitIsDigitChar(days / 10 % 10);
    DigitIsDigitChar(days % 10);
  }

  lemma RecurringIsText(zone: Zone, c: Clock, v: Clock, days: nat)
    requires OfADay(c) && OfADay(v) && days < 1000
    ensures var p, text := Recurring(Ticks(c), Ticks(v), days), "W" + Three(days) + "/T" + Text(c) + Suffix(v);
            Print(zone, p) == Ok(text) && Parse(zone, text) == Ok(p)
  {
    var d := TicksOf(c);
    var e := TicksOf(v);
    SuffixIsTail(v, e);
    DaysText(days);
    RecurringOf(zone, d, e, days, Text(c), Suffix(v), Three(days));
  }

  lemma RecurringOf(zone: Zone, d: nat, e: nat, days: nat, clock: string, suffix: string, mask: string)
    requires d <= 24 * HOUR && Floor(d) == d && Hms(d) == clock && e <= 24 * HOUR && Floor(e) == e && Tail(e) == suffix
    requires days < 1000 && PrintDays(days) == mask
    ensures Print(zone, Recurring(d, e, days)) == Ok("W" + mask + "/T" + clock + suffix)
    ensures Parse(zone, "W" + mask + "/T" + clock + suffix) == Ok(Recurring(d, e, days))
  {
    RecurringPrints(zone, d, e, days);
    RoundTrip(zone, Recurring(d, e, days));
  }

  /** The mask of all seven days is 127, and left out. */
  lemma IntervalIsText(zone: Zone, c: Clock, e: Clock, days: nat)
    requires OfADay(c) && OfADay(e) && days < 1000
    ensures var p := Interval(Ticks(c), Ticks(e), days);
            var text := (if days == 127 then "T" else "W" + Three(days) + "/T") + Text(c) + "/T" + Text(e);
            Print(zone, p) == Ok(text) && Parse(zone, text) == Ok(p)
  {
    var start := TicksOf(c);
    var end := TicksOf(e);
    DaysText(days);
    IntervalOf(zone, start, end, days, Text(c), Text(e), Three(days));
  }

  lemma IntervalOf(zone: Zone, d: nat, e: nat, days: nat, start: string, end: string, mask: string)
    requires d <= 24 * HOUR && Floor(d) == d && Hms(d) == start && e <= 24 * HOUR && Floor(e) == e && Hms(e) == end
    requires days < 1000 && PrintDays(days) == mask
    ensures var text := (if days == 127 then "T" else "W" + mask + "/T") + start + "/T" + end;
            Print(zone, Interval(d, e, days)) == Ok(text) && Parse(zone, text) == Ok(Interval(d, e, days))
  {
    IntervalRoundTrip(zone, d, e, days);
    var head := if days == 127 then "T" else "W" + mask + "/T";
    assert (if days == 127 then "" else "W" + mask + "/") + "T" == head;
    assert head + start + ("/T" + end) == head + start + "/T" + end;
  }

  // --- Timestamps ---

  /** A date and time of the local time zone, as people write it. */
  datatype Date = Date(year: nat, month: nat, day: nat, h: nat, m: nat, s: nat)

  predicate Regular(d: Date) {
    1000 <= d.year <= 9999 && 1 <= d.month <= 12 && 1 <= d.day <= 31 && d.h < 24 && d.m < 60 && d.s <= 60
  }

  function Stamp(d: Date): string
    requires Regular(d)
  {
    Four(d.year) + "-" + Two(d.month) + "-" + Two(d.day) + "T" + Two(d.h) + ":" + Two(d.m) + ":" + Two(d.s)
  }

  lemma YearText(y: nat)
    requires 1000 <= y <= 9999
    ensures IntToString(y) == Four(y)
  {
    assert NatToString(y) == NatToString(y / 10) + [DigitChar(y % 10)];
    assert NatToString(y / 10) == NatToString(y / 10 / 10) + [DigitChar(y / 10 % 10)];
    assert NatToString(y / 100) == NatToString(y / 100 / 10) + [DigitChar(y / 100 % 10)];
    DigitIsDigitChar(y / 1000);
    DigitIsDigitChar(y / 100 % 10);
    DigitIsDigitChar(y / 10 % 10);
    DigitIsDigitChar(y % 10);
  }

  lemma StampText(d: Date)
    requires Regular(d)
    ensures var tm := Tm(d.year - 1900, d.month - 1, d.day, d.h, d.m, d.s);
            CalendarFields(tm) && PrintTm(tm) == Stamp(d)
  {
    YearText(d.year);
    TwoIsTwoDigits(d.month);
    TwoIsTwoDigits(d.day);
    TwoIsTwoDigits(d.h);
    TwoIsTwoDigits(d.m);
    TwoIsTwoDigits(d.s);
  }

  /** Absolute times: the zone's date of the second is printed, years since 1900 and months from zero in the C
      library's terms; parsing gives the second that the zone has for the date, except the one before 1970. */
  lemma AbsoluteIsText(zone: Zone, base: int, second: int, d: Date, v: Clock)
    requires Regular(d) && OfADay(v) && IsWithin(base, second)
    ensures var tm, text := Tm(d.year - 1900, d.month - 1, d.day, d.h, d.m, d.s), Stamp(d) + Suffix(v);
            && (zone.localtime(second) == Some(tm) ==>
                  Print(zone, Absolute(base, Ticks(v))) == Ok(text))
            && Parse(zone, text) == if zone.mktime(tm) == -1 then Err(HueError)
                                    else Ok(Absolute(zone.mktime(tm) * 1_000_000_000, Ticks(v)))
  {
    var tm := Tm(d.year - 1900, d.month - 1, d.day, d.h, d.m, d.s);
    var e := TicksOf(v);
    SuffixIsTail(v, e);
    StampText(d);
    WholeSecond(base, second);
    AbsoluteOf(zone, base, second, tm, e, Stamp(d), Suffix(v));
  }

  lemma AbsoluteOf(zone: Zone, base: int, second: int, tm: Tm, e: nat, stamp: string, suffix: string)
    requires WholeSeconds(base) == second && CalendarFields(tm) && PrintTm(tm) == stamp
    requires e <= 24 * HOUR && Floor(e) == e && Tail(e) == suffix
    ensures zone.localtime(second) == Some(tm) ==> Print(zone, Absolute(base, e)) == Ok(stamp + suffix)
    ensures Parse(zone, stamp + suffix) == if zone.mktime(tm) == -1 then Err(HueError)
                                           else Ok(Absolute(zone.mktime(tm) * 1_000_000_000, e))
  {
    AbsoluteIsParsed(zone, tm, e);
  }

  /** The time is in this second, counted from 1970 in either direction, so that fractions are cut off toward it. */
  predicate IsWithin(base: int, second: int) {
    (second >= 0 && 0 <= base - second * 1_000_000_000 < 1_000_000_000)
    || (second <= 0 && -1_000_000_000 < base - second * 1_000_000_000 <= 0)
  }

  lemma WholeSecond(base: int, second: int)
    requires IsWithin(base, second)
    ensures WholeSeconds(base) == second
  {
    if base < 0 {
      var back := -base;
      assert 0 <= back - -second * 1_000_000_000 < 1_000_000_000;
    }
  }

  /** A timestamp whose month is no number is rejected; one that ends early throws the exception of the text. */
  lemma BadTimestamps(zone: Zone, year: nat, rest: string)
    requires 1000 <= year <= 9999
    ensures |rest| >= 2 && rest[1] == 'x' ==> Parse(zone, Four(year) + rest) == Err(HueError)
    ensures rest == "" ==> Parse(zone, Four(year) + rest) == Err(OutOfRange)
  {
    var s := Four(year) + rest;
    YearText(year);
    YearIsRead(year);
    assert s[0..4] == Four(year);
    if |rest| >= 2 && rest[1] == 'x' {
      var t := Substr(s, 5, Some(2)).value;
      assert t[0] == 'x' && SkipSpaces(t) == t;
    }
  }

  // --- Other texts ---

  lemma UndefinedIsText(zone: Zone)
    ensures Print(zone, Undefined) == Ok("") && Parse(zone, "") == Ok(Undefined) && Parse(zone, "none") == Ok(Undefined)
  {
  }

  lemma OtherTextsAreRejected(zone: Zone, s: string)
    requires s != "" && s != "none" && s[0] !in "0123456789RPWT"
    ensures Parse(zone, s) == Err(HueError)
  {
    DigitsAreListed(s[0]);
  }

  lemma DigitsAreListed(c: char)
    ensures IsDigit(c) ==> c in "0123456789"
  {
    if IsDigit(c) {
      assert "0123456789"[c as int - '0' as int] == c;
    }
  }

  /** An interval without end ends when it starts. */
  lemma IntervalWithoutEnd(zone: Zone, c: Clock)
    requires OfADay(c)
    ensures Parse(zone, "T" + Text(c)) == Ok(Interval(Ticks(c), Ticks(c), 127))
  {
    var s := "T" + Text(c);
    var d := TicksOf(c);
    NoSlashInInterval(s, c, d);
    assert s[1..9] == Text(c);
    FindAt(s, 'T', 0, 0);
    DurationIsReadAt(s, 1, None, d);
  }

  lemma NoSlashInInterval(s: string, c: Clock, d: nat)
    requires OfADay(c) && s == "T" + Text(c) && d <= 24 * HOUR && Hms(d) == Text(c)
    ensures Find(s, '/', 1) == None
  {
    HmsHasNoSlash(d);
    forall i | 1 <= i < |s|
      ensures s[i] != '/'
    {
      assert s[i] == Hms(d)[i - 1];
    }
    FindNothing(s, '/', 1);
  }

  /** Timers need their 'T', and something after 'R'. */
  lemma BadTimers(zone: Zone, c: Clock)
    requires OfADay(c)
    ensures Parse(zone, "P" + Text(c)) == Err(InvalidArgument) && Parse(zone, "R") == Err(OutOfRange)
  {
    var s := "P" + Text(c);
    var d := TicksOf(c);
    forall i | 0 <= i < |s|
      ensures s[i] != 'T' && s[i] != 'A'
    {
      if i > 0 {
        HmsHasNoMarks(d, i - 1);
        assert s[i] == Hms(d)[i - 1];
      }
    }
    FindNothing(s, 'T', 0);
    FindNothing(s, 'A', 0);
    var t := Substr(Substr(s, 0, None).value, 0, Some(2)).value;
    assert t[0] == 'P' && SkipSpaces(t) == t;
  }

  /** A timer whose variation comes before its time is read all the same. */
  lemma ReversedTimer(zone: Zone, c: Clock, v: Clock)
    requires OfADay(c) && OfADay(v)
    ensures Parse(zone, "PA" + Text(v) + "T" + Text(c)) == Ok(Timer(Ticks(c), Ticks(v), 1))
  {
    var d := TicksOf(c);
    var e := TicksOf(v);
    ReversedTimerOf(zone, d, e);
  }

  lemma ReversedTimerOf(zone: Zone, d: nat, e: nat)
    requires d <= 24 * HOUR && Floor(d) == d && e <= 24 * HOUR && Floor(e) == e
    ensures Parse(zone, "PA" + Hms(e) + "T" + Hms(d)) == Ok(Timer(d, e, 1))
  {
    var s := "PA" + Hms(e) + "T" + Hms(d);
    forall i | 0 <= i < 10
      ensures s[i] != 'T'
    {
      if i >= 2 {
        HmsHasNoMarks(e, i - 2);
        assert s[i] == Hms(e)[i - 2];
      }
    }
    FindAt(s, 'T', 0, 10);
    FindAt(s, 'A', 0, 1);
    assert s[11..19] == Hms(d) && s[2..10] == Hms(e);
    DurationIsReadAt(s, 11, None, d);
    DurationIsReadAt(s, 2, None, e);
    assert Parse(zone, s) == ParseTimer(s);
  }

  /** After a recurring time any one character goes for the 'A' of the variation, and it must be followed by one. */
  lemma RecurringMark(zone: Zone, c: Clock, v: Clock, days: nat, x: char)
    requires OfADay(c) && OfADay(v) && days < 1000 && x != '/'
    ensures Parse(zone, "W" + Three(days) + "/T" + Text(c) + ([x] + Text(v)))
         == Ok(Recurring(Ticks(c), Ticks(v), days))
    ensures Parse(zone, "W" + Three(days) + "/T" + Text(c) + [x]).Err?
  {
    var d := TicksOf(c);
    var e := TicksOf(v);
    DaysText(days);
    MarkedRecurring(zone, d, e, days, x);
    LoneMark(zone, d, days, x);
  }

  lemma MarkedRecurring(zone: Zone, d: nat, e: nat, days: nat, x: char)
    requires d <= 24 * HOUR && Floor(d) == d && e <= 24 * HOUR && Floor(e) == e && days < 1000 && x != '/'
    ensures Parse(zone, DaysHead(days, d) + ([x] + Hms(e))) == Ok(Recurring(d, e, days))
  {
    var s := DaysHead(days, d) + ([x] + Hms(e));
    DaysHeadIsRead(days, d, [x] + Hms(e));
    HmsHasNoSlash(e);
    CountNone([x] + Hms(e), '/');
    DurationIsReadAt(s, 6, None, d);
    assert s[15..23] == Hms(e);
    DurationIsReadAt(s, 15, None, e);
    assert Parse(zone, s) == ParseRecurring(s);
  }

  lemma LoneMark(zone: Zone, d: nat, days: nat, x: char)
    requires d <= 24 * HOUR && days < 1000 && x != '/'
    ensures Parse(zone, DaysHead(days, d) + [x]).Err?
  {
    var s := DaysHead(days, d) + [x];
    DaysHeadIsRead(days, d, [x]);
    CountNone([x], '/');
    DurationIsReadAt(s, 6, None, d);
    assert s[15..] == "";
    ShortTextsAreNoDurations("");
    assert Parse(zone, s) == ParseRecurring(s);
  }

  /** After a timestamp, anything that does not start with 'A' is ignored. */
  lemma AbsoluteIgnoresOtherTails(zone: Zone, d: Date, rest: string)
    requires Regular(d) && (rest == "" || rest[0] != 'A')
    ensures var tm := Tm(d.year - 1900, d.month - 1, d.day, d.h, d.m, d.s);
            zone.mktime(tm) != -1 ==> Parse(zone, Stamp(d) + rest) == Ok(Absolute(zone.mktime(tm) * 1_000_000_000, 0))
  {
    StampText(d);
    OtherTail(zone, Tm(d.year - 1900, d.month - 1, d.day, d.h, d.m, d.s), rest);
  }

  lemma OtherTail(zone: Zone, tm: Tm, rest: string)
    requires CalendarFields(tm) && (rest == "" || rest[0] != 'A')
    ensures zone.mktime(tm) != -1 ==>
              Parse(zone, PrintTm(tm) + rest) == Ok(Absolute(zone.mktime(tm) * 1_000_000_000, 0))
  {
    TmIsRead(tm, rest);
    assert Parse(zone, PrintTm(tm) + rest) == ParseAbsolute(zone, PrintTm(tm) + rest);
  }

  // --- Numbers ---

  predicate AllDigits(s: string) {
    forall c | c in s :: IsDigit(c)
  }

  lemma {:induction false} LastDigit(s: string, c: char, read: nat)
    requires AllDigits(s) && IsDigit(c)
    ensures LeadingDigits(s + [c], read) == 10 * LeadingDigits(s, read) + (c as int - '0' as int)
  {
    if s == "" {
      assert s + [c] == [c] && [c][1..] == "";
    } else {
      assert s[0] in s && (s + [c])[1..] == s[1..] + [c];
      LastDigit(s[1..], c, 10 * read + (s[0] as int - '0' as int));
    }
  }

  lemma {:induction false} DigitsAreRead(n: nat)
    ensures AllDigits(NatToString(n)) && LeadingDigits(NatToString(n), 0) == n
  {
    NatToStringIsDigits(n);
    if n >= 10 {
      DigitsAreRead(n / 10);
      LastDigit(NatToString(n / 10), DigitChar(n % 10), 0);
    } else {
      assert [DigitChar(n)][1..] == "";
    }
  }

  /** What std::to_string prints, std::stoi reads, for every number of 32 bits; others are out of range. */
  lemma NumbersAreRead(n: int)
    ensures Stoi(IntToString(n)) == if -2147483648 <= n <= 2147483647 then Ok(n) else Err(OutOfRange)
  {
    var m: nat := if n < 0 then -n else n;
    NatToStringIsDigits(m);
    DigitsAreRead(m);
    var s := NatToString(m);
    assert s[0] in s;
    if n < 0 {
      assert ("-" + s)[1..] == s && SkipSpaces("-" + s) == "-" + s;
    }
  }

  /** Spaces in front and other characters behind make no difference to a number. */
  lemma NumbersInText(n: nat, rest: string)
    requires n <= 2147483647 && (rest == "" || !IsDigit(rest[0]))
    ensures Stoi(" " + NatToString(n) + rest) == Ok(n)
  {
    NatToStringIsDigits(n);
    DigitsAreRead(n);
    var s := NatToString(n);
    assert s[0] in s;
    var text := " " + s + rest;
    assert text[1..] == s + rest && SkipSpaces(text) == SkipSpaces(s + rest) == s + rest;
    StopsAtOthers(s, rest, 0);
  }

  lemma {:induction false} StopsAtOthers(s: string, rest: string, read: nat)
    requires AllDigits(s) && (rest == "" || !IsDigit(rest[0]))
    ensures LeadingDigits(s + rest, read) == LeadingDigits(s, read)
  {
    if s == "" {
      assert s + rest == rest;
    } else {
      assert s[0] in s && (s + rest)[1..] == s[1..] + rest;
      StopsAtOthers(s[1..], rest, 10 * read + (s[0] as int - '0' as int));
    }
  }
}
