/** The string operations that the time patterns are printed and parsed with, as the C++ library defines them. */
module TextScan {
  import opened Wrappers

  /** std::invalid_argument, std::out_of_range, and the library's own exception. */
  datatype Error = InvalidArgument | OutOfRange | HueError

  predicate IsDigit(c: char) {
    '0' <= c <= '9'
  }

  function DigitChar(d: int): char
    requires 0 <= d < 10
  {
    ('0' as int + d) as char
  }

  // --- Printing ---

  function NatToString(n: nat): string {
    if n < 10 then [DigitChar(n)] else NatToString(n / 10) + [DigitChar(n % 10)]
  }

  /** std::to_string */
  function IntToString(n: int): string {
    if n < 0 then "-" + NatToString(-n) else NatToString(n)
  }

  /** %02u, for a number of two digits at most. */
  function TwoDigits(n: nat): (s: string)
    requires n < 100
    ensures |s| == 2 && IsDigit(s[0]) && IsDigit(s[1])
  {
    [DigitChar(n / 10), DigitChar(n % 10)]
  }

  function Zeros(n: nat): string {
    seq(n, _ => '0')
  }

  // --- Scanning ---

  /** s.substr(from, length); a missing length means the rest. */
  function Substr(s: string, from: nat, length: Option<nat>): Result<string, Error> {
    if from > |s| then Err(OutOfRange)
    else match length
      case None => Ok(s[from..])
      case Some(n) => Ok(if from + n <= |s| then s[from..from + n] else s[from..])
  }

  /** s.find(c, from) */
  function Find(s: string, c: char, from: nat): (r: Option<nat>)
    ensures r.Some? ==> from <= r.value < |s| && s[r.value] == c
    decreases |s| - from
  {
    if from >= |s| then None else if s[from] == c then Some(from) else Find(s, c, from + 1)
  }

  function Count(s: string, c: char): nat {
    if s == "" then 0 else (if s[0] == c then 1 else 0) + Count(s[1..], c)
  }

  predicate IsSpace(c: char) {
    c == ' ' || '\t' <= c <= '\r'
  }

  function SkipSpaces(s: string): string {
    if s != "" && IsSpace(s[0]) then SkipSpaces(s[1..]) else s
  }

  /** The number that the leading digits denote, after those already read. */
  function LeadingDigits(s: string, read: nat): nat {
    if s != "" && IsDigit(s[0]) then LeadingDigits(s[1..], 10 * read + (s[0] as int - '0' as int)) else read
  }

  const INT_MAX: int := 0x7fff_ffff

  /** std::stoi */
  function Stoi(s: string): Result<int, Error> {
    var t := SkipSpaces(s);
    var negative := t != "" && t[0] == '-';
    var digits := if t != "" && (t[0] == '-' || t[0] == '+') then t[1..] else t;
    if digits == "" || !IsDigit(digits[0]) then Err(InvalidArgument)
    else
      var magnitude: int := LeadingDigits(digits, 0);
      var n := if negative then -magnitude else magnitude;
      if -INT_MAX - 1 <= n <= INT_MAX then Ok(n) else Err(OutOfRange)
  }

  // --- Facts about them ---

  lemma {:induction false} FindAt(s: string, c: char, from: nat, at: nat)
    requires from <= at < |s| && s[at] == c && forall i | from <= i < at :: s[i] != c
    ensures Find(s, c, from) == Some(at)
    decreases at - from
  {
    if from < at {
      FindAt(s, c, from + 1, at);
    }
  }

  lemma {:induction false} FindNothing(s: string, c: char, from: nat)
    requires forall i | from <= i < |s| :: s[i] != c
    ensures Find(s, c, from) == None
    decreases |s| - from
  {
    if from < |s| {
      FindNothing(s, c, from + 1);
    }
  }

  lemma {:induction false} CountConcat(a: string, b: string, c: char)
    ensures Count(a + b, c) == Count(a, c) + Count(b, c)
  {
    if a == "" {
      assert a + b == b;
    } else {
      CountConcat(a[1..], b, c);
      assert (a + b)[1..] == a[1..] + b;
    }
  }

  lemma {:induction false} CountNone(s: string, c: char)
    requires c !in s
    ensures Count(s, c) == 0
  {
    if s != "" {
      CountNone(s[1..], c);
    }
  }

  lemma TwoDigitsAreRead(n: nat)
    requires n < 100
    ensures Stoi(TwoDigits(n)) == Ok(n)
  {
    var s := TwoDigits(n);
    assert s[1..] == [s[1]] && s[1..][1..] == "";
    assert LeadingDigits(s, 0) == LeadingDigits(s[1..], n / 10) == LeadingDigits(s[1..][1..], n);
  }

  lemma {:induction false} NatToStringIsDigits(n: nat)
    ensures NatToString(n) != "" && forall c | c in NatToString(n) :: IsDigit(c)
    ensures NatToString(n)[0] == '0' ==> n == 0
    ensures |NatToString(n)| == 1 <==> n < 10
    ensures |NatToString(n)| <= 2 <==> n < 100
    ensures |NatToString(n)| <= 3 <==> n < 1000
  {
    if n >= 10 {
      NatToStringIsDigits(n / 10);
    }
  }
}
