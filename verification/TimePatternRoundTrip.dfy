/** Parsing inverts printing. */
module TimePatternRoundTrip {
  import opened Wrappers
  import opened TextScan
  import opened TimePattern

  /** A duration without its fraction of a second. */
  function Floor(d: nat): nat {
    d / SECOND * SECOND
  }

  // --- Durations ---

  lemma SplitAndJoin(d: nat)
    ensures Hours(d) * HOUR + Minutes(d) * MINUTE + Seconds(d) * SECOND == Floor(d)
  {
  }

  lemma HmsHasNoMarks(d: nat, i: nat)
    requires d <= 24 * HOUR && i < 8
    ensures Hms(d)[i] == ':' || IsDigit(Hms(d)[i])
  {
  }

  /** Eight characters hh:mm:ss are read back, whatever follows them. */
  lemma DurationIsRead(t: string, d: nat)
    requires d <= 24 * HOUR && |t| >= 8 && t[..8] == Hms(d)
    ensures ParseDuration(t) == Ok(Floor(d))
  {
    var h, m, s := Hours(d), Minutes(d), Seconds(d);
    assert t[0..2] == t[..8][0..2] == TwoDigits(h);
    assert t[3..5] == t[..8][3..5] == TwoDigits(m);
    assert t[6..8] == t[..8][6..8] == TwoDigits(s);
    TwoDigitsAreRead(h);
    TwoDigitsAreRead(m);
    TwoDigitsAreRead(s);
    SplitAndJoin(d);
  }

  lemma DurationIsReadAt(s: string, from: nat, length: Option<nat>, d: nat)
    requires d <= 24 * HOUR && from + 8 <= |s| && s[from..from + 8] == Hms(d)
    requires length.Some? ==> length.value >= 8
    ensures DurationAt(s, from, length) == Ok(Floor(d))
  {
    var t := Substr(s, from, length).value;
    assert t[..8] == s[from..from + 8];
    DurationIsRead(t, d);
  }

  // --- Numbers ---

  lemma ThreeDigits(days: nat)
    requires days < 1000
    ensures PrintDays(days) == [DigitChar(days / 100), DigitChar(days / 10 % 10), DigitChar(days % 10)]
  {
    if days < 10 {
      assert Zeros(2) == "00";
    } else if days < 100 {
      assert NatToString(days) == NatToString(days / 10) + [DigitChar(days % 10)];
      assert Zeros(1) == "0";
    } else {
      assert NatToString(days) == NatToString(days / 10) + [DigitChar(days % 10)];
      assert NatToString(days / 10) == NatToString(days / 10 / 10) + [DigitChar(days / 10 % 10)];
    }
  }

  lemma DaysAreRead(days: nat)
    requires days < 1000
    ensures |PrintDays(days)| == 3 && Stoi(PrintDays(days)) == Ok(days)
    ensures forall c | c in PrintDays(days) :: IsDigit(c)
  {
    ThreeDigits(days);
    var s := PrintDays(days);
    assert s[1..][0] == s[1] && s[1..][1..][0] == s[2] && s[1..][1..][1..] == "";
    assert LeadingDigits(s, 0) == LeadingDigits(s[1..], days / 100);
    assert LeadingDigits(s[1..], days / 100) == LeadingDigits(s[1..][1..], days / 10);
    assert LeadingDigits(s[1..][1..], days / 10) == LeadingDigits(s[1..][1..][1..], days);
  }

  lemma {:induction false} MarksAreNotDigits(n: int)
    ensures IntToString(n) != "" && forall c | c in IntToString(n) :: IsDigit(c) || c == '-'
  {
    NatToStringIsDigits(if n < 0 then -n else n);
  }

  /** The field that the parser reads the number of executions from. */
  function CountField(n: int): string {
    var s := (if |IntToString(n)| < 2 then "0" else "") + IntToString(n);
    if |s| < 2 then s else s[..2]
  }

  lemma {:induction false} TwoLeadingDigits(n: nat)
    requires n >= 100
    ensures |NatToString(n)| >= 3 && exists m: nat :: 10 <= m < 100 && NatToString(n)[..2] == TwoDigits(m)
  {
    NatToStringIsDigits(n);
    var rest := NatToString(n / 10);
    if n < 1000 {
      assert NatToString(n / 10) == NatToString(n / 10 / 10) + [DigitChar(n / 10 % 10)];
      assert NatToString(n)[..2] == TwoDigits(n / 10);
    } else {
      TwoLeadingDigits(n / 10);
      assert NatToString(n)[..2] == rest[..2];
    }
  }

  /** Two characters are enough for -9 to 99, and for no other number. */
  lemma CountIsRead(n: int)
    ensures |CountField(n)| == 2 && Stoi(CountField(n)).Ok?
    ensures Stoi(CountField(n)) == Ok(n) <==> -9 <= n <= 99
  {
    if n >= 100 {
      TwoLeadingDigits(n);
      var m: nat :| 10 <= m < 100 && NatToString(n)[..2] == TwoDigits(m);
      assert "" + NatToString(n) == NatToString(n);
      assert CountField(n) == TwoDigits(m);
      TwoDigitsAreRead(m);
    } else if n >= 10 {
      assert NatToString(n) == TwoDigits(n);
      assert CountField(n) == TwoDigits(n);
      TwoDigitsAreRead(n);
    } else if n >= 0 {
      assert CountField(n) == TwoDigits(n);
      TwoDigitsAreRead(n);
    } else {
      NegativeCount(n);
    }
  }

  lemma NegativeCount(n: int)
    requires n < 0
    ensures |CountField(n)| == 2 && Stoi(CountField(n)).Ok?
    ensures Stoi(CountField(n)) == Ok(n) <==> -9 <= n
  {
    NatToStringIsDigits(-n);
    var first := NatToString(-n)[0];
    assert first in NatToString(-n);
    var s := CountField(n);
    assert s == ['-', first];
    assert s[1..] == [first] && s[1..][1..] == "";
    assert SkipSpaces(s) == s;
    var d := first as int - '0' as int;
    assert LeadingDigits(s[1..], 0) == LeadingDigits(s[1..][1..], d) == d;
    assert Stoi(s) == Ok(-d);
    if n > -10 {
      assert NatToString(-n) == [DigitChar(-n)];
    }
  }

  // --- The four kinds ---

  function Tail(variation: nat): string
    requires variation <= 24 * HOUR
  {
    if variation == 0 then "" else "A" + Hms(variation)
  }

  lemma TailIsRead(head: string, variation: nat)
    requires variation <= 24 * HOUR && variation > 0
    ensures DurationAt(head + Tail(variation), |head| + 1, None) == Ok(Floor(variation))
  {
    var s := head + Tail(variation);
    assert s[|head| + 1..|head| + 9] == Hms(variation);
    DurationIsReadAt(s, |head| + 1, None, variation);
  }

  lemma ExecutionsHaveNoMarks(n: int)
    ensures forall c | c in PrintExecutions(n) :: c == 'R' || c == '/' || c == '-' || IsDigit(c)
  {
    MarksAreNotDigits(n);
  }

  lemma TimerTextIsParsed(prefix: string, expires: nat, variation: nat)
    requires expires <= 24 * HOUR && variation <= 24 * HOUR
    requires forall c | c in prefix :: c != 'T' && c != 'A'
    ensures var s := prefix + "PT" + Hms(expires) + Tail(variation);
            match ParseExecutions(s)
            case Err(e) => ParseTimer(s) == Err(e)
            case Ok(n) => ParseTimer(s) == Ok(Timer(Floor(expires), Floor(variation), n))
  {
    var head := prefix + "PT" + Hms(expires);
    var s := head + Tail(variation);
    var start := |prefix| + 2;
    forall i | 0 <= i < 8
      ensures Hms(expires)[i] != 'A'
    {
      HmsHasNoMarks(expires, i);
    }
    TimerMarks(prefix, Hms(expires), Tail(variation));
    assert s[start..start + 8] == Hms(expires);
    if variation == 0 {
      DurationIsReadAt(s, start, None, expires);
    } else {
      DurationIsReadAt(s, start, Some(8), expires);
      TailIsRead(head, variation);
    }
  }

  lemma TimerMarks(prefix: string, hms: string, tail: string)
    requires forall c | c in prefix :: c != 'T' && c != 'A'
    requires |hms| == 8 && forall i | 0 <= i < 8 :: hms[i] != 'A'
    requires tail == "" || tail[0] == 'A'
    ensures Find(prefix + "PT" + hms + tail, 'T', 0) == Some(|prefix| + 1)
    ensures Find(prefix + "PT" + hms + tail, 'A', 0) == if tail == "" then None else Some(|prefix| + 10)
  {
    var s := prefix + "PT" + hms + tail;
    var head := prefix + "PT" + hms;
    forall i | 0 <= i < |head|
      ensures head[i] != 'A' && (i < |prefix| + 1 ==> head[i] != 'T')
    {
      if i < |prefix| {
        assert head[i] == prefix[i] && prefix[i] in prefix;
      } else if i >= |prefix| + 2 {
        assert head[i] == hms[i - |prefix| - 2];
      }
    }
    FirstMark(head, tail, 'T', |prefix| + 1);
    if tail == "" {
      FindNothing(s, 'A', 0);
    } else {
      FindAt(s, 'A', 0, |head|);
    }
  }

  lemma FirstMark(head: string, tail: string, c: char, at: nat)
    requires at < |head| && head[at] == c && forall i | 0 <= i < at :: head[i] != c
    ensures Find(head + tail, c, 0) == Some(at)
  {
    FindAt(head + tail, c, 0, at);
  }

  /** What the parser makes of a printed number of executions. */
  function ReadBack(n: int): (r: Result<int, Error>)
    ensures r.Ok? && (r == Ok(n) <==> -9 <= n <= 99)
  {
    CountIsRead(n);
    if n == 1 then Ok(1) else if n == 0 then Ok(0) else Stoi(CountField(n))
  }

  lemma ExecutionsAreParsed(n: int, rest: string)
    requires rest != "" && rest[0] == 'P'
    ensures ParseExecutions(PrintExecutions(n) + rest) == ReadBack(n)
    ensures (PrintExecutions(n) + rest)[0] == 'R' || (PrintExecutions(n) + rest)[0] == 'P'
  {
    if n == 1 {
      assert PrintExecutions(n) + rest == rest;
    } else if n == 0 {
      assert ("R/" + rest)[1] == '/';
    } else {
      CountIsParsed(n, rest);
    }
  }

  lemma CountIsParsed(n: int, rest: string)
    requires n != 0 && n != 1
    ensures ParseExecutions(PrintExecutions(n) + rest) == Stoi(CountField(n))
    ensures (PrintExecutions(n) + rest)[0] == 'R'
  {
    MarksAreNotDigits(n);
    assert IntToString(n)[0] in IntToString(n);
    NumberIsParsed(IntToString(n), rest);
  }

  lemma NumberIsParsed(number: string, rest: string)
    requires number != "" && number[0] != '/'
    ensures var field := (if |number| < 2 then "0" else "") + number;
            var s := "R" + (if |number| < 2 then "0" else "") + number + "/" + rest;
            s[0] == 'R' && ParseExecutions(s) == Stoi(field[..2])
  {
    var pad := if |number| < 2 then "0" else "";
    var field := pad + number;
    assert "R" + pad + number == "R" + field;
    CountFieldIsAt(field, rest);
  }

  lemma CountFieldIsAt(field: string, rest: string)
    requires |field| >= 2 && field[0] != '/'
    ensures var s := "R" + field + "/" + rest;
            s[0] == 'R' && s[1] != '/' && s[1..3] == field[..2]
  {
  }

  function TimerText(expires: nat, variation: nat, n: int): string
    requires expires <= 24 * HOUR && variation <= 24 * HOUR
  {
    PrintExecutions(n) + "PT" + Hms(expires) + Tail(variation)
  }

  lemma TimerPrints(zone: Zone, expires: nat, variation: nat, n: int)
    requires expires <= 24 * HOUR && variation <= 24 * HOUR
    ensures Print(zone, Timer(expires, variation, n)) == Ok(TimerText(expires, variation, n))
  {
  }

  lemma TimerIsParsed(zone: Zone, expires: nat, variation: nat, n: int)
    requires expires <= 24 * HOUR && variation <= 24 * HOUR
    ensures Parse(zone, TimerText(expires, variation, n))
         == Ok(Timer(Floor(expires), Floor(variation), ReadBack(n).value))
  {
    var prefix := PrintExecutions(n);
    var rest := "PT" + Hms(expires) + Tail(variation);
    var s := TimerText(expires, variation, n);
    assert s == prefix + rest;
    ExecutionsHaveNoMarks(n);
    TimerTextIsParsed(prefix, expires, variation);
    ExecutionsAreParsed(n, rest);
    assert Parse(zone, s) == ParseTimer(s);
  }

  lemma HmsHasNoSlash(d: nat)
    requires d <= 24 * HOUR
    ensures '/' !in Hms(d) && Count(Hms(d), '/') == 0 && Count("A" + Hms(d), '/') == 0
  {
    forall i | 0 <= i < 8
      ensures Hms(d)[i] != '/'
    {
      HmsHasNoMarks(d, i);
    }
    CountNone(Hms(d), '/');
    CountNone("A" + Hms(d), '/');
  }

  /** The beginning that recurring times and intervals on certain days share. */
  function DaysHead(days: nat, time: nat): string
    requires days < 1000 && time <= 24 * HOUR
  {
    "W" + PrintDays(days) + "/T" + Hms(time)
  }

  lemma DaysHeadIsRead(days: nat, time: nat, rest: string)
    requires days < 1000 && time <= 24 * HOUR
    ensures var s := DaysHead(days, time) + rest;
            && |DaysHead(days, time)| == 14 && s[0] == 'W'
            && Field(s, 1, 3) == Ok(days)
            && Find(s, 'T', 0) == Some(5)
            && s[6..14] == Hms(time)
            && Count(s, '/') == 1 + Count(rest, '/')
  {
    var s := DaysHead(days, time) + rest;
    DaysAreRead(days);
    assert s[1..4] == PrintDays(days);
    assert s[1] in PrintDays(days) && s[2] in PrintDays(days) && s[3] in PrintDays(days);
    assert s[4] == '/' && s[5] == 'T';
    FindAt(s, 'T', 0, 5);
    assert s[6..14] == Hms(time);
    HmsHasNoSlash(time);
    CountNone("W" + PrintDays(days), '/');
    CountConcat("W" + PrintDays(days), "/T", '/');
    CountConcat("W" + PrintDays(days) + "/T", Hms(time), '/');
    CountConcat(DaysHead(days, time), rest, '/');
    assert Count("/T", '/') == 1 + Count("T", '/') by { assert "/T"[1..] == "T"; }
    CountNone("T", '/');
  }

  lemma RecurringPrints(zone: Zone, time: nat, variation: nat, days: nat)
    requires time <= 24 * HOUR && variation <= 24 * HOUR && days < 1000
    ensures Print(zone, Recurring(time, variation, days)) == Ok(DaysHead(days, time) + Tail(variation))
  {
  }

  lemma RecurringIsParsed(zone: Zone, time: nat, variation: nat, days: nat)
    requires time <= 24 * HOUR && variation <= 24 * HOUR && days < 1000
    ensures Parse(zone, DaysHead(days, time) + Tail(variation)) == Ok(Recurring(Floor(time), Floor(variation), days))
  {
    var s := DaysHead(days, time) + Tail(variation);
    DaysHeadIsRead(days, time, Tail(variation));
    if variation > 0 {
      HmsHasNoSlash(variation);
      TailIsRead(DaysHead(days, time), variation);
    }
    DurationIsReadAt(s, 6, None, time);
    assert Parse(zone, s) == ParseRecurring(s);
  }

  /** The two times of an interval, from the position of the first on. */
  lemma TimesAreRead(s: string, at: nat, start: nat, end: nat)
    requires start <= 24 * HOUR && end <= 24 * HOUR && at + 18 == |s|
    requires s[at..at + 8] == Hms(start) && s[at + 8] == '/' && s[at + 9] == 'T' && s[at + 10..at + 18] == Hms(end)
    ensures Find(s, '/', at) == Some(at + 8)
    ensures DurationAt(s, at, Some(8)) == Ok(Floor(start)) && DurationAt(s, at + 10, None) == Ok(Floor(end))
  {
    HmsHasNoSlash(start);
    forall i | at <= i < at + 8
      ensures s[i] != '/'
    {
      assert s[i] == s[at..at + 8][i - at];
    }
    FindAt(s, '/', at, at + 8);
    DurationIsReadAt(s, at, Some(8), start);
    DurationIsReadAt(s, at + 10, None, end);
  }

  lemma PartsAreParsed(s: string, days: int, at: nat, start: nat, end: nat)
    requires start <= 24 * HOUR && end <= 24 * HOUR && 1 <= at && at + 18 == |s|
    requires s[at..at + 8] == Hms(start) && s[at + 8] == '/' && s[at + 9] == 'T' && s[at + 10..at + 18] == Hms(end)
    requires Find(s, 'T', 0) == Some(at - 1)
    requires if s[0] == 'W' then Field(s, 1, 3) == Ok(days) else days == ALL_DAYS
    ensures ParseInterval(s) == Ok(Interval(Floor(start), Floor(end), days))
  {
    TimesAreRead(s, at, start, end);
    assert Next(Find(s, 'T', 0)) == at && Between(at, Some(at + 8)) == Some(8);
    assert at + 8 + 2 == at + 10;
  }

  lemma DailyIntervalIsParsed(zone: Zone, start: nat, end: nat)
    requires start <= 24 * HOUR && end <= 24 * HOUR
    ensures Parse(zone, "T" + Hms(start) + ("/T" + Hms(end))) == Ok(Interval(Floor(start), Floor(end), ALL_DAYS))
  {
    var s := "T" + Hms(start) + ("/T" + Hms(end));
    assert s[1..9] == Hms(start) && s[11..19] == Hms(end);
    FindAt(s, 'T', 0, 0);
    PartsAreParsed(s, ALL_DAYS, 1, start, end);
    assert Parse(zone, s) == ParseInterval(s);
  }

  lemma SomeDaysIntervalIsParsed(zone: Zone, start: nat, end: nat, days: nat)
    requires start <= 24 * HOUR && end <= 24 * HOUR && days < 1000
    ensures Parse(zone, DaysHead(days, start) + ("/T" + Hms(end))) == Ok(Interval(Floor(start), Floor(end), days))
  {
    var times := "/T" + Hms(end);
    var s := DaysHead(days, start) + times;
    DaysHeadIsRead(days, start, times);
    assert s[16..24] == Hms(end);
    PartsAreParsed(s, days, 6, start, end);
    OneSlash(end);
    assert Parse(zone, s) == ParseInterval(s);
  }

  lemma OneSlash(time: nat)
    requires time <= 24 * HOUR
    ensures Count("/T" + Hms(time), '/') == 1
  {
    HmsHasNoSlash(time);
    CountNone("T", '/');
    CountConcat("/T", Hms(time), '/');
    assert "/T"[1..] == "T";
  }

  lemma IntervalRoundTrip(zone: Zone, start: nat, end: nat, days: nat)
    requires start <= 24 * HOUR && end <= 24 * HOUR && days < 1000
    ensures var printed := Print(zone, Interval(start, end, days));
            printed.Ok? && Parse(zone, printed.value) == Ok(Interval(Floor(start), Floor(end), days))
  {
    if days == ALL_DAYS {
      assert "" + "T" == "T";
      assert Print(zone, Interval(start, end, days)).value == "T" + Hms(start) + ("/T" + Hms(end));
      DailyIntervalIsParsed(zone, start, end);
    } else {
      assert "W" + PrintDays(days) + "/" + "T" == "W" + PrintDays(days) + "/T";
      assert Print(zone, Interval(start, end, days)).value == DaysHead(days, start) + ("/T" + Hms(end));
      SomeDaysIntervalIsParsed(zone, start, end, days);
    }
  }

  lemma YearIsRead(year: nat)
    requires 1000 <= year <= 9999
    ensures |IntToString(year)| == 4 && Stoi(IntToString(year)) == Ok(year) && IsDigit(IntToString(year)[0])
  {
    var s := IntToString(year);
    assert NatToString(year) == NatToString(year / 10) + [DigitChar(year % 10)];
    assert NatToString(year / 10) == NatToString(year / 10 / 10) + [DigitChar(year / 10 % 10)];
    assert NatToString(year / 100) == NatToString(year / 100 / 10) + [DigitChar(year / 100 % 10)];
    assert s == [DigitChar(year / 1000), DigitChar(year / 100 % 10), DigitChar(year / 10 % 10), DigitChar(year % 10)];
    var t := s[1..];
    assert t == [s[1], s[2], s[3]] && t[1..] == [s[2], s[3]] && t[1..][1..] == [s[3]] && t[1..][1..][1..] == "";
    assert LeadingDigits(s, 0) == LeadingDigits(t, year / 1000);
    assert LeadingDigits(t, year / 1000) == LeadingDigits(t[1..], year / 100);
    assert LeadingDigits(t[1..], year / 100) == LeadingDigits(t[1..][1..], year / 10);
    assert LeadingDigits(t[1..][1..], year / 10) == LeadingDigits(t[1..][1..][1..], year);
  }

  lemma TmIsRead(tm: Tm, rest: string)
    requires CalendarFields(tm)
    ensures |PrintTm(tm)| == 19 && IsDigit(PrintTm(tm)[0])
    ensures ParseTm(PrintTm(tm) + rest) == Ok(tm)
  {
    var s := PrintTm(tm) + rest;
    YearIsRead(tm.year + 1900);
    StampSlices(IntToString(tm.year + 1900), TwoDigits(tm.mon + 1), TwoDigits(tm.mday), TwoDigits(tm.hour),
                TwoDigits(tm.min), TwoDigits(tm.sec), rest);
    FieldIsRead(s, 5, tm.mon + 1);
    FieldIsRead(s, 8, tm.mday);
    FieldIsRead(s, 11, tm.hour);
    FieldIsRead(s, 14, tm.min);
    FieldIsRead(s, 17, tm.sec);
  }

  lemma FieldIsRead(s: string, from: nat, n: nat)
    requires from + 2 <= |s| && n < 100 && s[from..from + 2] == TwoDigits(n)
    ensures Field(s, from, 2) == Ok(n)
  {
    TwoDigitsAreRead(n);
  }

  lemma StampSlices(y: string, mo: string, d: string, h: string, mi: string, sec: string, rest: string)
    requires |y| == 4 && |mo| == |d| == |h| == |mi| == |sec| == 2
    ensures var p := y + "-" + mo + "-" + d + "T" + h + ":" + mi + ":" + sec;
            var s := p + rest;
            && |p| == 19 && s[0..4] == y && s[5..7] == mo && s[8..10] == d
            && s[11..13] == h && s[14..16] == mi && s[17..19] == sec
  {
  }

  /** The local time zone takes this time to calendar fields and back. */
  predicate Convertible(zone: Zone, time: int) {
    match zone.localtime(WholeSeconds(time))
    case None => false
    case Some(tm) => CalendarFields(tm) && zone.mktime(tm) == WholeSeconds(time)
  }

  lemma AbsolutePrints(zone: Zone, base: int, variation: nat)
    requires variation <= 24 * HOUR && Convertible(zone, base)
    ensures Print(zone, Absolute(base, variation))
         == Ok(PrintTm(zone.localtime(WholeSeconds(base)).value) + Tail(variation))
  {
  }

  /** The last second before 1970 is the one that the parser takes for mktime's error value. */
  lemma AbsoluteIsParsed(zone: Zone, tm: Tm, variation: nat)
    requires variation <= 24 * HOUR && CalendarFields(tm)
    ensures Parse(zone, PrintTm(tm) + Tail(variation))
         == if zone.mktime(tm) == -1 then Err(HueError)
            else Ok(Absolute(zone.mktime(tm) * SECOND, Floor(variation)))
  {
    var s := PrintTm(tm) + Tail(variation);
    TmIsRead(tm, Tail(variation));
    if variation > 0 {
      TailIsRead(PrintTm(tm), variation);
    }
    assert Parse(zone, s) == ParseAbsolute(zone, s);
  }

  // --- All patterns ---

  /** A pattern without fractions of seconds. */
  function Floored(p: TimePattern): TimePattern
    requires Meaningful(p)
  {
    match p
    case Undefined => Undefined
    case Absolute(base, variation) => Absolute(WholeSeconds(base) * SECOND, Floor(variation))
    case Recurring(time, variation, days) => Recurring(Floor(time), Floor(variation), days)
    case Interval(start, end, days) => Interval(Floor(start), Floor(end), days)
    case Timer(expires, variation, n) => Timer(Floor(expires), Floor(variation), n)
  }

  /** Three digits for the days, as any set of weekdays has; and a time that the zone can convert. */
  predicate Fits(zone: Zone, p: TimePattern) {
    match p
    case Absolute(base, _) => Convertible(zone, base)
    case Recurring(_, _, days) => 0 <= days < 1000
    case Interval(_, _, days) => 0 <= days < 1000
    case _ => true
  }

  /** Two characters for the number of executions, and not the second that stands for an error. */
  predicate Unambiguous(p: TimePattern) {
    match p
    case Absolute(base, _) => WholeSeconds(base) != -1
    case Timer(_, _, n) => -9 <= n <= 99
    case _ => true
  }

  /** What the parser makes of a printed pattern. */
  function ParsedAs(p: TimePattern): Result<TimePattern, Error>
    requires Meaningful(p)
  {
    match p
    case Absolute(base, _) => if WholeSeconds(base) == -1 then Err(HueError) else Ok(Floored(p))
    case Timer(expires, variation, n) => Ok(Timer(Floor(expires), Floor(variation), ReadBack(n).value))
    case _ => Ok(Floored(p))
  }

  lemma PrintedIsParsed(zone: Zone, p: TimePattern)
    requires Meaningful(p) && Fits(zone, p) && Print(zone, p).Ok?
    ensures Parse(zone, Print(zone, p).value) == ParsedAs(p)
  {
    match p
    case Undefined =>
    case Absolute(base, variation) =>
      AbsolutePrints(zone, base, variation);
      AbsoluteIsParsed(zone, zone.localtime(WholeSeconds(base)).value, variation);
    case Recurring(time, variation, days) =>
      RecurringPrints(zone, time, variation, days);
      RecurringIsParsed(zone, time, variation, days);
    case Interval(start, end, days) => IntervalRoundTrip(zone, start, end, days);
    case Timer(expires, variation, n) =>
      TimerPrints(zone, expires, variation, n);
      TimerIsParsed(zone, expires, variation, n);
  }

  /** Whatever prints is parsed back, up to fractions of seconds, exactly when it is unambiguous. */
  lemma RoundTrip(zone: Zone, p: TimePattern)
    requires Meaningful(p) && Fits(zone, p) && Print(zone, p).Ok?
    ensures Parse(zone, Print(zone, p).value) == Ok(Floored(p)) <==> Unambiguous(p)
  {
    PrintedIsParsed(zone, p);
  }

  /** A pattern prints unless one of its durations is longer than a day, which is 86400 seconds. */
  lemma PrintsWithinADay(zone: Zone, p: TimePattern)
    requires Meaningful(p) && Fits(zone, p)
    ensures Print(zone, p).Ok? <==>
            match p
            case Undefined => true
            case Absolute(_, variation) => variation <= 86_400_000_000_000
            case Recurring(time, variation, _) => time <= 86_400_000_000_000 && variation <= 86_400_000_000_000
            case Interval(start, end, _) => start <= 86_400_000_000_000 && end <= 86_400_000_000_000
            case Timer(expires, variation, _) => expires <= 86_400_000_000_000 && variation <= 86_400_000_000_000
  {
  }

  // --- Different texts, also where the parser cannot tell ---

  lemma {:induction false} NatToStringIsInjective(m: nat, n: nat)
    requires NatToString(m) == NatToString(n)
    ensures m == n
  {
    NatToStringIsDigits(m);
    NatToStringIsDigits(n);
    if m >= 10 {
      var a, b := NatToString(m / 10), NatToString(n / 10);
      SameEnds(a, DigitChar(m % 10), b, DigitChar(n % 10));
      NatToStringIsInjective(m / 10, n / 10);
      assert m % 10 == n % 10;
    }
  }

  lemma SameEnds(a: string, c: char, b: string, d: char)
    requires a + [c] == b + [d]
    ensures a == b && c == d
  {
    assert (a + [c])[|a|] == c && (b + [d])[|b|] == d;
    assert a == (a + [c])[..|a|] && b == (b + [d])[..|b|];
  }

  lemma IntToStringIsInjective(m: int, n: int)
    requires IntToString(m) == IntToString(n)
    ensures m == n
  {
    StartsLikeANumber(m);
    StartsLikeANumber(n);
    if m < 0 {
      assert IntToString(m)[1..] == NatToString(-m) && IntToString(n)[1..] == NatToString(-n);
      NatToStringIsInjective(-m, -n);
    } else {
      NatToStringIsInjective(m, n);
    }
  }

  lemma StartsLikeANumber(n: int)
    ensures IntToString(n) != "" && (IntToString(n)[0] == '-' <==> n < 0)
    ensures IntToString(n)[0] == '0' ==> n == 0
  {
    NatToStringIsDigits(if n < 0 then -n else n);
    if n >= 0 {
      assert NatToString(n)[0] in NatToString(n);
    }
  }

  /** The digits between "R" and "/". */
  function Padded(number: string): string {
    if |number| < 2 then "0" + number else number
  }

  lemma PaddedIsInjective(a: string, b: string)
    requires a != "" && b != "" && a[0] != '0' && b[0] != '0' && Padded(a) == Padded(b)
    ensures a == b
  {
    if |a| < 2 {
      assert Padded(a)[0] == '0' && Padded(a)[1..] == a;
    }
    if |b| < 2 {
      assert Padded(b)[0] == '0' && Padded(b)[1..] == b;
    }
  }

  lemma ExecutionsAreInjective(m: int, n: int)
    requires PrintExecutions(m) == PrintExecutions(n)
    ensures m == n
  {
    ExecutionsLength(m);
    ExecutionsLength(n);
    if m != 0 && m != 1 {
      StartsLikeANumber(m);
      StartsLikeANumber(n);
      ExecutionsAreFramed(m);
      ExecutionsAreFramed(n);
      SameFrame(Padded(IntToString(m)), Padded(IntToString(n)));
      PaddedIsInjective(IntToString(m), IntToString(n));
      IntToStringIsInjective(m, n);
    }
  }

  lemma ExecutionsAreFramed(n: int)
    requires n != 0 && n != 1
    ensures PrintExecutions(n) == "R" + Padded(IntToString(n)) + "/"
  {
    assert "R" + "" == "R";
    assert "R" + "0" + IntToString(n) == "R" + ("0" + IntToString(n));
  }

  lemma SameFrame(a: string, b: string)
    requires "R" + a + "/" == "R" + b + "/"
    ensures a == b
  {
    SameEnds("R" + a, '/', "R" + b, '/');
    assert ("R" + a)[1..] == a && ("R" + b)[1..] == b;
  }

  lemma ExecutionsLength(n: int)
    ensures n == 1 ==> |PrintExecutions(n)| == 0
    ensures n == 0 ==> |PrintExecutions(n)| == 2
    ensures n != 0 && n != 1 ==> |PrintExecutions(n)| >= 4
  {
    StartsLikeANumber(n);
  }

  /** The text before the first 'P' is the number of executions. */
  lemma TimerTextsDiffer(expires: nat, variation: nat, m: int, expires': nat, variation': nat, n: int)
    requires expires <= 24 * HOUR && variation <= 24 * HOUR && expires' <= 24 * HOUR && variation' <= 24 * HOUR
    requires TimerText(expires, variation, m) == TimerText(expires', variation', n)
    ensures m == n
  {
    ExecutionsHaveNoMarks(m);
    ExecutionsHaveNoMarks(n);
    SamePrefix(PrintExecutions(m), Hms(expires), Tail(variation), PrintExecutions(n), Hms(expires'), Tail(variation'));
    ExecutionsAreInjective(m, n);
  }

  lemma SamePrefix(a: string, x: string, y: string, b: string, x': string, y': string)
    requires 'P' !in a && 'P' !in b && a + "PT" + x + y == b + "PT" + x' + y'
    ensures a == b
  {
    var s := a + "PT" + x + y;
    FirstP(a, x, y);
    FirstP(b, x', y');
    assert s[..|a|] == a && (b + "PT" + x' + y')[..|b|] == b;
  }

  lemma FirstP(prefix: string, x: string, y: string)
    requires 'P' !in prefix
    ensures Find(prefix + "PT" + x + y, 'P', 0) == Some(|prefix|)
  {
    var s := prefix + "PT" + x + y;
    forall i | 0 <= i < |prefix|
      ensures s[i] != 'P'
    {
      assert s[i] == prefix[i];
    }
    FindAt(s, 'P', 0, |prefix|);
  }

  lemma TailsDiffer(head: string, variation: nat, head': string, variation': nat)
    requires variation <= 24 * HOUR && variation' <= 24 * HOUR && |head| == |head'|
    requires head + Tail(variation) == head' + Tail(variation')
    ensures Floor(variation) == Floor(variation')
  {
    assert |Tail(variation)| == |Tail(variation')|;
    if variation > 0 {
      TailIsRead(head, variation);
      TailIsRead(head', variation');
    }
  }

  /** Patterns with the same text are the same, up to fractions of seconds: of the same kind, and equal in all fields,
      including numbers of executions and times that the parser does not read back. */
  lemma PrintingIsInjective(zone: Zone, p: TimePattern, q: TimePattern)
    requires Meaningful(p) && Meaningful(q) && Fits(zone, p) && Fits(zone, q)
    requires Print(zone, p).Ok? && Print(zone, p) == Print(zone, q)
    ensures Floored(p) == Floored(q)
  {
    PrintedIsParsed(zone, p);
    PrintedIsParsed(zone, q);
    if p.Timer? {
      TimerPrints(zone, p.expires, p.variation, p.executions);
      TimerPrints(zone, q.expires, q.variation, q.executions);
      TimerTextsDiffer(p.expires, p.variation, p.executions, q.expires, q.variation, q.executions);
    } else if p.Absolute? && ParsedAs(p).Err? {
      AbsolutePrints(zone, p.base, p.variation);
      AbsolutePrints(zone, q.base, q.variation);
      var tm, tm' := zone.localtime(WholeSeconds(p.base)).value, zone.localtime(WholeSeconds(q.base)).value;
      TmIsRead(tm, "");
      TmIsRead(tm', "");
      TailsDiffer(PrintTm(tm), p.variation, PrintTm(tm'), q.variation);
    }
  }
}
