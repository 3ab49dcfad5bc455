/** The four time patterns of schedules, printed and parsed (src/TimePattern.cpp). */
module TimePattern {
  import opened Wrappers
  import opened TextScan

  /** Durations and times count the ticks of std::chrono::system_clock, here nanoseconds. */
  const SECOND: int := 1_000_000_000
  const MINUTE: int := 60 * SECOND
  const HOUR: int := 60 * MINUTE

  datatype TimePattern =
    | Undefined
    | Absolute(base: int, variation: int)
    | Recurring(time: int, variation: int, days: int)
    | Interval(start: int, end: int, days: int)
    | Timer(expires: int, variation: int, executions: int)

  /** Durations count from zero up. */
  predicate Meaningful(p: TimePattern) {
    match p
    case Undefined => true
    case Absolute(_, variation) => variation >= 0
    case Recurring(time, variation, _) => time >= 0 && variation >= 0
    case Interval(start, end, _) => start >= 0 && end >= 0
    case Timer(expires, variation, _) => expires >= 0 && variation >= 0
  }

  /** All seven days of the mask. */
  const ALL_DAYS: int := 127

  /** The fields of std::tm, with its offsets: years since 1900, months from zero. */
  datatype Tm = Tm(year: int, mon: int, mday: int, hour: int, min: int, sec: int)

  /** The C library's conversions for the local time zone. */
  datatype Zone = Zone(localtime: int -> Option<Tm>, mktime: Tm -> int)

  // --- Printing ---

  function Hours(d: nat): nat {
    d / HOUR
  }

  /** The minutes left when the hours are taken away. */
  function Minutes(d: nat): (m: nat)
    ensures m < 60
  {
    (d - Hours(d) * HOUR) / MINUTE
  }

  /** The seconds left when hours and minutes are taken away. */
  function Seconds(d: nat): (s: nat)
    ensures s < 60
  {
    (d - Hours(d) * HOUR - Minutes(d) * MINUTE) / SECOND
  }

  /** hh:mm:ss */
  function Hms(d: nat): (s: string)
    requires d <= 24 * HOUR
    ensures |s| == 8
  {
    TwoDigits(Hours(d)) + ":" + TwoDigits(Minutes(d)) + ":" + TwoDigits(Seconds(d))
  }

  /** durationTo_hh_mm_ss */
  function PrintDuration(d: nat): Result<string, Error> {
    if d > 24 * HOUR then Err(HueError) else Ok(Hms(d))
  }

  /** "A" and the variation, unless it is zero. */
  function PrintVariation(variation: nat): Result<string, Error> {
    if variation == 0 then Ok("")
    else match PrintDuration(variation)
      case Err(e) => Err(e)
      case Ok(s) => Ok("A" + s)
  }

  function PrintTm(tm: Tm): string
    requires 0 <= tm.mon < 99 && 0 <= tm.mday < 100 && 0 <= tm.hour < 100 && 0 <= tm.min < 100 && 0 <= tm.sec < 100
  {
    IntToString(tm.year + 1900) + "-" + TwoDigits(tm.mon + 1) + "-" + TwoDigits(tm.mday)
    + "T" + TwoDigits(tm.hour) + ":" + TwoDigits(tm.min) + ":" + TwoDigits(tm.sec)
  }

  /** What localtime yields for every time of a 64-bit nanosecond clock: its years are 1677 to 2262. */
  predicate CalendarFields(tm: Tm) {
    1000 <= tm.year + 1900 <= 9999 && 0 <= tm.mon < 12 && 1 <= tm.mday <= 31
    && 0 <= tm.hour < 24 && 0 <= tm.min < 60 && 0 <= tm.sec <= 60
  }

  /** std::chrono::duration_cast truncates toward zero. */
  function WholeSeconds(time: int): int {
    if time >= 0 then time / SECOND else -(-time / SECOND)
  }

  /** timepointToTimestamp */
  function PrintTimestamp(zone: Zone, time: int): Result<string, Error> {
    match zone.localtime(WholeSeconds(time))
    case None => Err(HueError)
    case Some(tm) => if CalendarFields(tm) then Ok(PrintTm(tm)) else Err(HueError)
  }

  /** Weekdays::toString */
  function PrintDays(days: int): string {
    var s := IntToString(days);
    if |s| < 3 then Zeros(3 - |s|) + s else s
  }

  /** "Rnn/", "R/" or nothing. */
  function PrintExecutions(n: int): string {
    if n == 1 then ""
    else if n == 0 then "R/"
    else "R" + (if |IntToString(n)| < 2 then "0" else "") + IntToString(n) + "/"
  }

  function Append(r: Result<string, Error>, more: Result<string, Error>): Result<string, Error> {
    if r.Err? then r else if more.Err? then more else Ok(r.value + more.value)
  }

  function Prefixed(prefix: string, r: Result<string, Error>): Result<string, Error> {
    Append(Ok(prefix), r)
  }

  function Print(zone: Zone, p: TimePattern): Result<string, Error>
    requires Meaningful(p)
  {
    match p
    case Undefined => Ok("")
    case Absolute(base, variation) => Append(PrintTimestamp(zone, base), PrintVariation(variation))
    case Recurring(time, variation, days) =>
      Append(Prefixed("W" + PrintDays(days) + "/T", PrintDuration(time)), PrintVariation(variation))
    case Interval(start, end, days) =>
      Append(Prefixed((if days == ALL_DAYS then "" else "W" + PrintDays(days) + "/") + "T", PrintDuration(start)),
             Prefixed("/T", PrintDuration(end)))
    case Timer(expires, variation, n) =>
      Append(Prefixed(PrintExecutions(n) + "PT", PrintDuration(expires)), PrintVariation(variation))
  }

  // --- Parsing ---

  /** std::stoi(s.substr(from, length)) */
  function Field(s: string, from: nat, length: nat): Result<int, Error> {
    match Substr(s, from, Some(length))
    case Err(e) => Err(e)
    case Ok(t) => Stoi(t)
  }

  function ParseDuration(s: string): Result<int, Error> {
    match Field(s, 0, 2)
    case Err(e) => Err(e)
    case Ok(h) =>
      match Field(s, 3, 2)
      case Err(e) => Err(e)
      case Ok(m) =>
        match Field(s, 6, 2)
        case Err(e) => Err(e)
        case Ok(sec) => Ok(h * HOUR + m * MINUTE + sec * SECOND)
  }

  /** parseDuration(s.substr(from, length)) */
  function DurationAt(s: string, from: nat, length: Option<nat>): Result<int, Error> {
    match Substr(s, from, length)
    case Err(e) => Err(e)
    case Ok(t) => ParseDuration(t)
  }

  /** Only invalid numbers are translated into the library's own exception. */
  function Translated(e: Error): Error {
    if e == InvalidArgument then HueError else e
  }

  /** timestampToTm */
  function ParseTm(s: string): Result<Tm, Error> {
    match Field(s, 0, 4) case Err(e) => Err(Translated(e)) case Ok(year) =>
    match Field(s, 5, 2) case Err(e) => Err(Translated(e)) case Ok(mon) =>
    match Field(s, 8, 2) case Err(e) => Err(Translated(e)) case Ok(mday) =>
    match Field(s, 11, 2) case Err(e) => Err(Translated(e)) case Ok(hour) =>
    match Field(s, 14, 2) case Err(e) => Err(Translated(e)) case Ok(min) =>
    match Field(s, 17, 2) case Err(e) => Err(Translated(e)) case Ok(sec) =>
      Ok(Tm(year - 1900, mon - 1, mday, hour, min, sec))
  }

  /** parseTimestamp: mktime signals an error by -1. */
  function ParseTimestamp(zone: Zone, s: string): Result<int, Error> {
    match ParseTm(s)
    case Err(e) => Err(e)
    case Ok(tm) => if zone.mktime(tm) == -1 then Err(HueError) else Ok(zone.mktime(tm) * SECOND)
  }

  function ParseAbsolute(zone: Zone, s: string): Result<TimePattern, Error> {
    match ParseTimestamp(zone, s)
    case Err(e) => Err(e)
    case Ok(base) =>
      if |s| > 19 && s[19] == 'A' then
        match DurationAt(s, 20, None)
        case Err(e) => Err(e)
        case Ok(variation) => Ok(Absolute(base, variation))
      else Ok(Absolute(base, 0))
  }

  function ParseExecutions(s: string): Result<int, Error>
    requires s != ""
  {
    if s[0] != 'R' then Ok(1)
    else if |s| < 2 then Err(OutOfRange)
    else if s[1] == '/' then Ok(0)
    else Field(s, 1, 2)
  }

  /** One past a position; string::npos plus one is zero. */
  function Next(at: Option<nat>): nat {
    match at
    case None => 0
    case Some(i) => i + 1
  }

  /** to - from as an unsigned length; without an end, or when it wraps around, it means the rest. */
  function Between(from: nat, to: Option<nat>): Option<nat> {
    match to
    case None => None
    case Some(t) => if from <= t then Some(t - from) else None
  }

  function ParseTimer(s: string): Result<TimePattern, Error>
    requires s != ""
  {
    match ParseExecutions(s)
    case Err(e) => Err(e)
    case Ok(n) =>
      var start, randomStart := Next(Find(s, 'T', 0)), Find(s, 'A', 0);
      match DurationAt(s, start, Between(start, randomStart))
      case Err(e) => Err(e)
      case Ok(expires) =>
        if randomStart.None? then Ok(Timer(expires, 0, n))
        else match DurationAt(s, randomStart.value + 1, None)
          case Err(e) => Err(e)
          case Ok(variation) => Ok(Timer(expires, variation, n))
  }

  function ParseRecurring(s: string): Result<TimePattern, Error> {
    match Field(s, 1, 3)
    case Err(e) => Err(e)
    case Ok(days) =>
      match DurationAt(s, 6, None)
      case Err(e) => Err(e)
      case Ok(time) =>
        if |s| > 14 then
          match DurationAt(s, 15, None)
          case Err(e) => Err(e)
          case Ok(variation) => Ok(Recurring(time, variation, days))
        else Ok(Recurring(time, 0, days))
  }

  function ParseInterval(s: string): Result<TimePattern, Error>
    requires s != ""
  {
    match if s[0] == 'W' then Field(s, 1, 3) else Ok(ALL_DAYS)
    case Err(e) => Err(e)
    case Ok(days) =>
      var start := Next(Find(s, 'T', 0));
      var end := Find(s, '/', start);
      match DurationAt(s, start, Between(start, end))
      case Err(e) => Err(e)
      case Ok(startTime) =>
        match DurationAt(s, if end.None? then 1 else end.value + 2, None)
        case Err(e) => Err(e)
        case Ok(endTime) => Ok(Interval(startTime, endTime, days))
  }

  function Parse(zone: Zone, s: string): Result<TimePattern, Error> {
    if s == "" || s == "none" then Ok(Undefined)
    else if IsDigit(s[0]) then ParseAbsolute(zone, s)
    else if s[0] == 'R' || s[0] == 'P' then ParseTimer(s)
    else if s[0] == 'W' && Count(s, '/') == 1 then ParseRecurring(s)
    else if s[0] == 'T' || s[0] == 'W' then ParseInterval(s)
    else Err(HueError)
  }
}
