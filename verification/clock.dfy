/**
 Wall-clock readings as the bot sees them: an hour and a minute of the local
 day, rendered with the zero-padded "%H:%M" format, and Python's lexicographic
 string ordering, which the scheduler uses to compare such renderings.
 */
module Clock {

  type Hour = h: int | 0 <= h < 24
  type Minute = m: int | 0 <= m < 60

  /** One wake-up's reading of the local clock (seconds are never looked at). */
  datatype WallTime = WallTime(hour: Hour, minute: Minute)

  /** Minutes elapsed since local midnight. */
  function MinuteOfDay(t: WallTime): (r: nat)
    ensures r < 24 * 60
    ensures r / 60 == t.hour && r % 60 == t.minute
  {
    60 * t.hour + t.minute
  }

  /** The character of one decimal digit. */
  function Digit(d: int): (c: char)
    requires 0 <= d < 10
    ensures '0' <= c <= '9'
  {
    (48 + d) as char
  }

  /** The number a digit character stands for. */
  function DigitValue(c: char): int {
    c as int - '0' as int
  }

  /** The zero-padded "HH:MM" rendering that strftime("%H:%M") produces. */
  function Format(t: WallTime): (s: string)
    ensures |s| == 5 && s[2] == ':'
    ensures forall i :: 0 <= i < 5 && i != 2 ==> '0' <= s[i] <= '9'
    // the digits spell the hour and the minute
    ensures 10 * DigitValue(s[0]) + DigitValue(s[1]) == t.hour
    ensures 10 * DigitValue(s[3]) + DigitValue(s[4]) == t.minute
  {
    [Digit(t.hour / 10), Digit(t.hour % 10), ':', Digit(t.minute / 10), Digit(t.minute % 10)]
  }

  /** Python's `a <= b` on str: code point by code point, a proper prefix first. */
  predicate LexLe(a: string, b: string)
  {
    if |a| == 0 then true
    else if |b| == 0 then false
    else if a[0] < b[0] then true
    else if a[0] > b[0] then false
    else LexLe(a[1..], b[1..])
  }

  lemma LexLeCons(c: char, s: string, d: char, t: string)
    ensures LexLe([c] + s, [d] + t) <==> c < d || (c == d && LexLe(s, t))
  {
    assert ([c] + s)[1..] == s;
    assert ([d] + t)[1..] == t;
  }

  /** Lexical order on strings is reflexive ... */
  lemma {:induction false} LexLeReflexive(a: string)
    ensures LexLe(a, a)
  {
    if |a| > 0 {
      LexLeReflexive(a[1..]);
    }
  }

  /** ... and transitive, so a window [start, end] is an interval of strings. */
  lemma {:induction false} LexLeTransitive(a: string, b: string, c: string)
    requires LexLe(a, b) && LexLe(b, c)
    ensures LexLe(a, c)
  {
    if |a| > 0 && |b| > 0 && |c| > 0 && a[0] == b[0] && b[0] == c[0] {
      LexLeTransitive(a[1..], b[1..], c[1..]);
    }
  }

  lemma DigitOrder(x: int, y: int)
    requires 0 <= x < 10 && 0 <= y < 10
    ensures Digit(x) < Digit(y) <==> x < y
    ensures Digit(x) == Digit(y) <==> x == y
  {
  }

  /** Splits a two-digit number into its tens and units digit comparisons. */
  lemma TwoDigitOrder(x: int, y: int)
    requires 0 <= x < 100 && 0 <= y < 100
    ensures x <= y <==> x / 10 < y / 10 || (x / 10 == y / 10 && x % 10 <= y % 10)
  {
  }

  /** Lexical comparison of two renderings agrees with minute-of-day comparison,
      so the string window test of the scheduler is an ordinary interval test. */
  lemma FormatOrder(a: WallTime, b: WallTime)
    ensures LexLe(Format(a), Format(b)) <==> MinuteOfDay(a) <= MinuteOfDay(b)
  {
    var h1, h2, m1, m2 := a.hour, b.hour, a.minute, b.minute;
    DigitOrder(h1 / 10, h2 / 10);
    DigitOrder(h1 % 10, h2 % 10);
    DigitOrder(m1 / 10, m2 / 10);
    DigitOrder(m1 % 10, m2 % 10);
    TwoDigitOrder(h1, h2);
    TwoDigitOrder(m1, m2);
    FormatLex(Format(a), Format(b));
  }

  /** On two "HH:MM"-shaped strings, lexical order compares the four digits
      in turn; the colons in the middle always tie. */
  lemma FormatLex(s: string, t: string)
    requires |s| == 5 && |t| == 5 && s[2] == ':' && t[2] == ':'
    ensures LexLe(s, t) <==>
      s[0] < t[0] || (s[0] == t[0] && (s[1] < t[1] || (s[1] == t[1] &&
      (s[3] < t[3] || (s[3] == t[3] && s[4] <= t[4])))))
  {
    LexLeCons(s[0], s[1..], t[0], t[1..]);
    LexLeCons(s[1], s[2..], t[1], t[2..]);
    LexLeCons(s[2], s[3..], t[2], t[3..]);
    LexLeCons(s[3], s[4..], t[3], t[4..]);
    LexLeCons(s[4], s[5..], t[4], t[5..]);
    HeadTail(s); HeadTail(t);
    HeadTail(s[1..]); HeadTail(t[1..]);
    HeadTail(s[2..]); HeadTail(t[2..]);
    HeadTail(s[3..]); HeadTail(t[3..]);
    HeadTail(s[4..]); HeadTail(t[4..]);
    assert LexLe(s[5..], t[5..]);
  }

  lemma HeadTail(s: string)
    requires |s| > 0
    ensures s == [s[0]] + s[1..]
  {
  }

  /** Two readings render to the same string exactly when they are the same
      reading, so an exact string match is an exact time match. */
  lemma FormatInjective(a: WallTime, b: WallTime)
    ensures Format(a) == Format(b) <==> a == b
  {
    if Format(a) == Format(b) {
      DigitOrder(a.hour / 10, b.hour / 10);
      DigitOrder(a.hour % 10, b.hour % 10);
      DigitOrder(a.minute / 10, b.minute / 10);
      DigitOrder(a.minute % 10, b.minute % 10);
      assert Format(a)[0] == Format(b)[0] && Format(a)[1] == Format(b)[1];
      assert Format(a)[3] == Format(b)[3] && Format(a)[4] == Format(b)[4];
    }
  }
}
