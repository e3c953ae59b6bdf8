/** Slack time stamps are decimal strings.  The server filters them as numbers, the connector
    compares them as text; for stamps of one fixed shape the two orders agree. */
module Timestamps {
  import TextOrder

  predicate IsDigit(c: char) {
    '0' <= c <= '9'
  }

  function Digits(s: string): nat {
    if s == [] then 0 else (if s[0] == '.' then 0 else 1) + Digits(s[1..])
  }

  function DigitValue(c: char): (d: nat)
    ensures d <= 9
  {
    if IsDigit(c) then c as int - '0' as int else 0
  }

  function Times(d: nat, p: nat): nat {
    if d == 0 then 0 else p + Times(d - 1, p)
  }

  function Pow10(n: nat): nat {
    if n == 0 then 1 else Times(10, Pow10(n - 1))
  }

  /** The number read off the digits, the point left out: microseconds. */
  function Value(s: string): nat {
    if s == [] then 0
    else if s[0] == '.' then Value(s[1..])
    else Times(DigitValue(s[0]), Pow10(Digits(s[1..]))) + Value(s[1..])
  }

  /** Digits with a point at the same places. */
  predicate SameShape(a: string, b: string) {
    && |a| == |b|
    && forall i :: 0 <= i < |a| ==>
      (a[i] == '.' && b[i] == '.') || (IsDigit(a[i]) && IsDigit(b[i]))
  }

  lemma {:induction false} TimesMonotone(x: nat, y: nat, p: nat)
    requires x < y
    ensures Times(x, p) + p <= Times(y, p)
  {
    if x < y - 1 { TimesMonotone(x, y - 1, p); }
  }

  lemma {:induction false} ValueBound(s: string)
    requires SameShape(s, s)
    ensures Value(s) < Pow10(Digits(s))
  {
    if s != [] {
      ValueBound(s[1..]);
      if s[0] != '.' {
        TimesMonotone(DigitValue(s[0]), 10, Pow10(Digits(s[1..])));
      }
    }
  }

  lemma {:induction false} SameShapeDigits(a: string, b: string)
    requires SameShape(a, b)
    ensures Digits(a) == Digits(b)
  {
    if a != [] { SameShapeDigits(a[1..], b[1..]); }
  }

  /** Text order and numeric order agree on stamps of one shape. */
  lemma {:induction false} TextOrderIsNumeric(a: string, b: string)
    requires SameShape(a, b)
    ensures TextOrder.Less(a, b) <==> Value(a) < Value(b)
    ensures a == b <==> Value(a) == Value(b)
  {
    if a != [] {
      TextOrderIsNumeric(a[1..], b[1..]);
      SameShapeDigits(a[1..], b[1..]);
      ValueBound(a[1..]);
      ValueBound(b[1..]);
      assert a == [a[0]] + a[1..] && b == [b[0]] + b[1..];
      if a[0] != '.' {
        var da, db, p := DigitValue(a[0]), DigitValue(b[0]), Pow10(Digits(a[1..]));
        if da < db {
          TimesMonotone(da, db, p);
        } else if db < da {
          TimesMonotone(db, da, p);
        }
      }
    }
  }

  /** `1712345678.000200`: ten digits, a point, six digits, and not zero. */
  predicate IsStamp(s: string) {
    && |s| == 17 && s[10] == '.'
    && (forall i :: 0 <= i < 17 && i != 10 ==> IsDigit(s[i]))
    && Value(s) > 0
  }

  /** What a channel cursor can hold: a stamp, or the initial "0". */
  predicate IsMark(s: string) {
    s == "0" || IsStamp(s)
  }

  lemma MarkOrder(mark: string, stamp: string)
    requires IsMark(mark) && IsStamp(stamp)
    ensures TextOrder.Less(mark, stamp) <==> Value(mark) < Value(stamp)
    ensures Value(mark) == Value(stamp) ==> mark == stamp
  {
    if mark == "0" {
      assert Value("0") == 0;
      assert mark[1..] == "" && stamp[1..] != "";
      assert TextOrder.Less("", stamp[1..]);
      assert stamp[0] == '0' || '0' < stamp[0];
    } else {
      TextOrderIsNumeric(mark, stamp);
    }
  }
}
