/**
 * The elapsed-time wording shared by the periodic announcement and the final
 * stop message of the voice timer: an elapsed count of whole seconds is split
 * into minutes and seconds, and one of two shapes is chosen.
 */
module Duration {
  import opened Optional

  /** The two shapes of an elapsed-time message: "m 分 s 秒" or "s 秒". */
  datatype Clock = MinSec(minutes: nat, seconds: nat) | Sec(seconds: nat)

  /** A shape the split can produce: seconds below a minute, minutes only when positive. */
  predicate WellFormed(c: Clock) {
    c.seconds < 60 && (c.MinSec? ==> c.minutes > 0)
  }

  /** The number of seconds a message stands for. */
  function Total(c: Clock): int {
    match c
    case MinSec(m, s) => m * 60 + s
    case Sec(s) => s
  }

  /**
   * Python's `elapsed // 60` and `elapsed % 60`. Python floors; Dafny's
   * Euclidean division agrees with it for the positive divisor 60, also for
   * a negative elapsed count.
   */
  function Split(elapsed: int): (r: (int, nat))
    ensures r.0 * 60 + r.1 == elapsed
    ensures r.1 < 60
  {
    (elapsed / 60, elapsed % 60)
  }

  /** The split is the only quotient/remainder pair with a remainder in 0..59. */
  lemma SplitUnique(elapsed: int, q: int, r: int)
    requires q * 60 + r == elapsed && 0 <= r < 60
    ensures Split(elapsed) == (q, r)
  {
  }

  /** The choice of message shape: minutes and seconds when minutes > 0, seconds only otherwise. */
  function Format(elapsed: int): (c: Clock)
    ensures WellFormed(c)
    ensures c.MinSec? <==> elapsed >= 60
    ensures elapsed >= 0 ==> Total(c) == elapsed
    ensures elapsed < 0 ==> c.Sec? && c.seconds == Split(elapsed).1
  {
    var (minutes, seconds) := Split(elapsed);
    if minutes > 0 then MinSec(minutes, seconds) else Sec(seconds)
  }

  /** Every well-formed message is what the formatting gives for its own total. */
  lemma FormatOfTotal(c: Clock)
    requires WellFormed(c)
    ensures Format(Total(c)) == c
  {
  }

  /** Two non-negative elapsed counts give the same message only if they are equal. */
  lemma FormatInjective(a: int, b: int)
    requires a >= 0 && b >= 0 && Format(a) == Format(b)
    ensures a == b
  {
  }

  // ----- decimal text of a count, as Python's str(int) writes a non-negative int -----

  predicate IsDigit(ch: char) { '0' <= ch <= '9' }

  predicate AllDigits(s: string) { forall i :: 0 <= i < |s| ==> IsDigit(s[i]) }

  function DigitChar(d: nat): (ch: char)
    requires d < 10
    ensures IsDigit(ch) && DigitValue(ch) == d
  {
    "0123456789"[d]
  }

  function DigitValue(ch: char): (d: nat)
    requires IsDigit(ch)
    ensures d < 10
  {
    ch as int - '0' as int
  }

  /** The decimal digits of `n`, without leading zeros. */
  function Decimal(n: nat): (s: string)
    ensures |s| >= 1 && AllDigits(s)
    ensures |s| > 1 ==> s[0] != '0'
  {
    if n < 10 then [DigitChar(n)] else Decimal(n / 10) + [DigitChar(n % 10)]
  }

  /** The number a string of digits denotes. */
  function ValueOf(s: string): nat
    requires AllDigits(s)
  {
    if s == [] then 0 else ValueOf(s[..|s| - 1]) * 10 + DigitValue(s[|s| - 1])
  }

  lemma {:induction false} DecimalValue(n: nat)
    ensures ValueOf(Decimal(n)) == n
  {
    if n >= 10 {
      DecimalValue(n / 10);
      var s := Decimal(n);
      assert s[..|s| - 1] == Decimal(n / 10);
    }
  }

  /** The longest prefix of digits, and the text after it. */
  function SpanDigits(s: string): (r: (string, string))
    ensures r.0 + r.1 == s && AllDigits(r.0)
    ensures r.1 == [] || !IsDigit(r.1[0])
  {
    if s == [] || !IsDigit(s[0]) then ([], s)
    else
      var (digits, rest) := SpanDigits(s[1..]);
      ([s[0]] + digits, rest)
  }

  lemma {:induction false} SpanDigitsOf(digits: string, rest: string)
    requires AllDigits(digits)
    requires rest == [] || !IsDigit(rest[0])
    ensures SpanDigits(digits + rest) == (digits, rest)
  {
    if digits != [] {
      var s := digits + rest;
      assert s[0] == digits[0] && s[1..] == digits[1..] + rest;
      SpanDigitsOf(digits[1..], rest);
      assert [digits[0]] + digits[1..] == digits;
    } else {
      assert digits + rest == rest;
    }
  }

  // ----- the message text -----

  /** The text after the leading space or prefix: f"{m} 分 {s} 秒" or f"{s} 秒". */
  function Body(c: Clock): string {
    match c
    case MinSec(m, s) => Decimal(m) + " 分 " + Decimal(s) + " 秒"
    case Sec(s) => Decimal(s) + " 秒"
  }

  /** The periodic announcement, printed and spoken. */
  function Announcement(c: Clock): string {
    " " + Body(c)
  }

  /** The total shown in the stop message. */
  function FinalTime(c: Clock): string {
    "总计时间: " + Body(c)
  }

  /** Reads a message body back; the inverse of Body. */
  function ParseBody(s: string): Option<Clock> {
    var (first, rest) := SpanDigits(s);
    if first == [] then None
    else if rest == " 秒" then Some(Sec(ValueOf(first)))
    else if |rest| >= 3 && rest[..3] == " 分 " then
      var (second, tail) := SpanDigits(rest[3..]);
      if second != [] && tail == " 秒" then Some(MinSec(ValueOf(first), ValueOf(second))) else None
    else None
  }

  lemma ParseBodyRoundTrip(c: Clock)
    ensures ParseBody(Body(c)) == Some(c)
  {
    match c
    case Sec(s) => ParseSeconds(s);
    case MinSec(m, s) => ParseMinutes(m, s);
  }

  lemma ParseSeconds(s: nat)
    ensures ParseBody(Body(Sec(s))) == Some(Sec(s))
  {
    SpanDigitsOf(Decimal(s), " 秒");
    DecimalValue(s);
  }

  lemma ParseMinutes(m: nat, s: nat)
    ensures ParseBody(Body(MinSec(m, s))) == Some(MinSec(m, s))
  {
    var seconds := Decimal(s) + " 秒";
    var rest := " 分 " + seconds;
    assert Body(MinSec(m, s)) == Decimal(m) + rest;
    SpanDigitsOf(Decimal(m), rest);
    assert rest != " 秒" by { assert |rest| > |" 秒"|; }
    assert rest[..3] == " 分 " && rest[3..] == seconds;
    SpanDigitsOf(Decimal(s), " 秒");
    DecimalValue(m);
    DecimalValue(s);
  }

  /** Different messages never read the same. */
  lemma BodyInjective(c: Clock, d: Clock)
    requires Body(c) == Body(d)
    ensures c == d
  {
    ParseBodyRoundTrip(c);
    ParseBodyRoundTrip(d);
  }

  /**
   * From one minute on, the message names minutes and always names the
   * seconds, even when they are 0; below a minute it names seconds only.
   */
  lemma BodyOfElapsed(elapsed: nat)
    ensures elapsed >= 60 ==> Body(Format(elapsed)) == Decimal(elapsed / 60) + " 分 " + Decimal(elapsed % 60) + " 秒"
    ensures elapsed < 60 ==> Body(Format(elapsed)) == Decimal(elapsed) + " 秒"
  {
  }

  lemma BodyExamples()
    ensures Body(Format(0)) == "0 秒"
    ensures Body(Format(59)) == "59 秒"
    ensures Body(Format(60)) == "1 分 0 秒"
    ensures Body(Format(61)) == "1 分 1 秒"
    ensures Body(Format(125)) == "2 分 5 秒"
  {
  }
}
