/** The file-name stamp `YYYYMMDD-HHMMSS` that `timestamp` prints: width and order. */
module Stamp {
  import opened Text
  import opened Calendar

  function Format(t: Moment): string
    requires t.date.year >= 0 && ValidMoment(t)
  {
    Pad(t.date.year, 4) + Pad(t.date.month, 2) + Pad(t.date.day, 2) + "-"
    + Pad(t.hour, 2) + Pad(t.minute, 2) + Pad(t.second, 2)
  }

  /** The stamp of a clock reading. */
  function Timestamp(clock: int): string {
    YearRange(if clock < 0 then 0 else clock);
    ClockIsPosix(clock);
    Format(FromClock(clock))
  }

  /** Exactly `w` digits of `n`, most significant first. */
  function Digits(n: nat, w: nat): (s: string)
    ensures |s| == w
  {
    if w == 0 then [] else Digits(n / 10, w - 1) + [Digit(n % 10)]
  }

  function Pow10(w: nat): nat { if w == 0 then 1 else 10 * Pow10(w - 1) }

  lemma {:induction false} ZerosOfZero(w: nat)
    ensures Digits(0, w) == Zeros(w)
  {
    if w > 0 {
      ZerosOfZero(w - 1);
      ZerosShift(w - 1);
    }
  }

  lemma {:induction false} ZerosShift(k: nat)
    ensures Zeros(k) + ['0'] == Zeros(k + 1)
  {
    if k > 0 {
      ZerosShift(k - 1);
      assert Zeros(k) + ['0'] == ['0'] + (Zeros(k - 1) + ['0']);
    }
  }

  /** Padding gives exactly the `w` digits when the number has no more than that. */
  lemma {:induction false} PadIsDigits(n: nat, w: nat)
    requires w > 0 && n < Pow10(w)
    ensures Pad(n, w) == Digits(n, w) && |Dec(n)| <= w
  {
    if n < 10 {
      ZerosOfZero(w - 1);
      hide Pow10;
    } else {
      PadIsDigits(n / 10, w - 1);
      PadTens(n, w);
    }
  }

  lemma PadTens(n: nat, w: nat)
    requires w > 1 && n >= 10 && |Dec(n / 10)| < w && Pad(n / 10, w - 1) == Digits(n / 10, w - 1)
    ensures Pad(n, w) == Digits(n, w) && |Dec(n)| <= w
  {
    var head, last := Dec(n / 10), [Digit(n % 10)];
    assert Dec(n) == head + last && Digits(n, w) == Digits(n / 10, w - 1) + last;
    PadLast(head, last, w);
    hide Dec, Digits;
  }

  /** Padding a numeral and then adding its last digit, or the other way round. */
  lemma PadLast(s: string, last: string, w: nat)
    requires |last| == 1 && |s| < w
    ensures (if |s| + 1 < w then Zeros(w - |s| - 1) + (s + last) else s + last)
         == (if |s| < w - 1 then Zeros(w - 1 - |s|) + s else s) + last
  {}

  lemma {:induction false} PadLonger(n: nat, w: nat)
    requires n >= Pow10(w)
    ensures |Dec(n)| > w
  {
    if w > 0 { PadLonger(n / 10, w - 1); }
  }

  /** Equal-width numerals order as numbers do. */
  lemma {:induction false} DigitsOrder(a: nat, b: nat, w: nat)
    requires a < b < Pow10(w)
    ensures LexLess(Digits(a, w), Digits(b, w))
  {
    if a / 10 < b / 10 {
      DigitsOrder(a / 10, b / 10, w - 1);
      LexHead(Digits(a / 10, w - 1), Digits(b / 10, w - 1), [Digit(a % 10)], [Digit(b % 10)]);
    } else {
      LexPrefix(Digits(a / 10, w - 1), [Digit(a % 10)], [Digit(b % 10)]);
    }
  }

  function DateDigits(d: Date): string
    requires 0 <= d.year && ValidDate(d)
  {
    Triple(d.year, d.month, d.day, 4, 2)
  }

  function TimeDigits(t: Moment): string
    requires ValidMoment(t)
  {
    Triple(t.hour, t.minute, t.second, 2, 2)
  }

  lemma Pow10Values()
    ensures Pow10(2) == 100 && Pow10(4) == 10000
  {
    assert Pow10(1) == 10 && Pow10(3) == 1000;
  }

  lemma FormatDigits(t: Moment)
    requires 0 <= t.date.year <= 9999 && ValidMoment(t)
    ensures Format(t) == DateDigits(t.date) + ("-" + TimeDigits(t)) && |Format(t)| == 15
  {
    hide Pad, Digits, Dec;
    Pow10Values();
    PadIsDigits(t.date.year, 4);
    PadIsDigits(t.date.month, 2); PadIsDigits(t.date.day, 2);
    PadIsDigits(t.hour, 2); PadIsDigits(t.minute, 2); PadIsDigits(t.second, 2);
    assert Format(t) == DateDigits(t.date) + ("-" + TimeDigits(t));
  }

  /** A field triple printed at fixed widths. */
  function Triple(a0: nat, a1: nat, a2: nat, w: nat, v: nat): string {
    Digits(a0, w) + (Digits(a1, v) + Digits(a2, v))
  }

  lemma FirstDiffers(a0: nat, a1: nat, a2: nat, b0: nat, b1: nat, b2: nat, w: nat, v: nat)
    requires a0 < b0 < Pow10(w)
    ensures LexLess(Triple(a0, a1, a2, w, v), Triple(b0, b1, b2, w, v))
  {
    DigitsOrder(a0, b0, w);
    LexHead(Digits(a0, w), Digits(b0, w), Digits(a1, v) + Digits(a2, v), Digits(b1, v) + Digits(b2, v));
  }

  lemma SecondDiffers(a0: nat, a1: nat, a2: nat, b1: nat, b2: nat, w: nat, v: nat)
    requires a1 < b1 < Pow10(v)
    ensures LexLess(Triple(a0, a1, a2, w, v), Triple(a0, b1, b2, w, v))
  {
    DigitsOrder(a1, b1, v);
    LexHeads(Digits(a0, w), Digits(a1, v), Digits(b1, v), Digits(a2, v), Digits(b2, v));
  }

  lemma ThirdDiffers(a0: nat, a1: nat, a2: nat, b2: nat, w: nat, v: nat)
    requires a2 < b2 < Pow10(v)
    ensures LexLess(Triple(a0, a1, a2, w, v), Triple(a0, a1, b2, w, v))
  {
    DigitsOrder(a2, b2, v);
    LexTails(Digits(a0, w), Digits(a1, v), Digits(a2, v), Digits(b2, v));
  }

  /** Three numerals compare by the first that differs. */
  lemma TripleOrder(a0: nat, a1: nat, a2: nat, b0: nat, b1: nat, b2: nat, w: nat, v: nat)
    requires b0 < Pow10(w) && b1 < Pow10(v) && b2 < Pow10(v)
    requires a0 < b0 || (a0 == b0 && (a1 < b1 || (a1 == b1 && a2 < b2)))
    ensures LexLess(Triple(a0, a1, a2, w, v), Triple(b0, b1, b2, w, v))
  {
    if a0 < b0 { FirstDiffers(a0, a1, a2, b0, b1, b2, w, v); }
    else if a1 < b1 { SecondDiffers(a0, a1, a2, b1, b2, w, v); }
    else { ThirdDiffers(a0, a1, a2, b2, w, v); }
  }

  lemma LexHeads(x: string, x1: string, y1: string, x2: string, y2: string)
    requires |x1| == |y1| && LexLess(x1, y1)
    ensures LexLess(x + (x1 + x2), x + (y1 + y2))
  {
    LexHead(x1, y1, x2, y2);
    LexPrefix(x, x1 + x2, y1 + y2);
  }

  lemma LexTails(x: string, x1: string, x2: string, y2: string)
    requires LexLess(x2, y2)
    ensures LexLess(x + (x1 + x2), x + (x1 + y2))
  {
    LexPrefix(x1, x2, y2);
    LexPrefix(x, x1 + x2, x1 + y2);
  }

  /** Below the year 10000 every later second has a strictly greater stamp. */
  lemma StampOrder(s1: int, s2: int)
    requires 0 <= s1 < s2 < 253402300800
    ensures LexLess(Timestamp(s1), Timestamp(s2))
  {
    var t1, t2 := FromClock(s1), FromClock(s2);
    ClockIsPosix(s1); ClockIsPosix(s2);
    YearRange(s1); YearRange(s2);
    FormatDigits(t1); FormatDigits(t2);
    ClockOrder(s1, s2);
    Pow10Values();
    if t1.date == t2.date {
      TripleOrder(t1.hour, t1.minute, t1.second, t2.hour, t2.minute, t2.second, 2, 2);
      LexPrefix("-", TimeDigits(t1), TimeDigits(t2));
      LexPrefix(DateDigits(t1.date), "-" + TimeDigits(t1), "-" + TimeDigits(t2));
    } else {
      TripleOrder(t1.date.year, t1.date.month, t1.date.day, t2.date.year, t2.date.month, t2.date.day, 4, 2);
      LexHead(DateDigits(t1.date), DateDigits(t2.date), "-" + TimeDigits(t1), "-" + TimeDigits(t2));
    }
  }

  /** The stamp has its fifteen characters exactly below the year 10000. */
  lemma StampWidth(secs: int)
    requires secs >= 0
    ensures |Timestamp(secs)| == 15 <==> secs < 253402300800
  {
    var t := FromClock(secs);
    ClockIsPosix(secs);
    YearRange(secs);
    Pow10Values();
    if secs < 253402300800 {
      FormatDigits(t);
    } else {
      PadLonger(t.date.year, 4);
      PadIsDigits(t.date.month, 2); PadIsDigits(t.date.day, 2);
      PadIsDigits(t.hour, 2); PadIsDigits(t.minute, 2); PadIsDigits(t.second, 2);
    }
  }

  lemma {:induction false} ValDigits(n: nat, w: nat)
    requires n < Pow10(w)
    ensures (forall c <- Digits(n, w) :: IsDigit(c)) && Val(Digits(n, w)) == n
  {
    if w > 0 {
      ValDigits(n / 10, w - 1);
      assert Digits(n, w)[..w - 1] == Digits(n / 10, w - 1);
    }
  }

  /** The number that stands in a text from one place to another. */
  predicate Reads(s: string, i: nat, j: nat, n: nat) {
    i <= j <= |s| && (forall c <- s[i..j] :: IsDigit(c)) && Val(s[i..j]) == n
  }

  /** Below the year 10000 the stamp reads back: year, month and day, a dash, then the time. */
  lemma StampReads(clock: int)
    requires clock < 253402300800
    ensures var s, t := Timestamp(clock), FromClock(clock);
            && t.date.year >= 0 && t.date.month >= 0 && t.date.day >= 0 && t.hour >= 0 && t.minute >= 0 && t.second >= 0
            && |s| == 15 && s[8] == '-'
            && Reads(s, 0, 4, t.date.year) && Reads(s, 4, 6, t.date.month) && Reads(s, 6, 8, t.date.day)
            && Reads(s, 9, 11, t.hour) && Reads(s, 11, 13, t.minute) && Reads(s, 13, 15, t.second)
  {
    var t, s := FromClock(clock), Timestamp(clock);
    ClockIsPosix(clock);
    YearRange(if clock < 0 then 0 else clock);
    FormatDigits(t);
    Pow10Values();
    var y, mo, d, h, mi, se := t.date.year, t.date.month, t.date.day, t.hour, t.minute, t.second;
    hide Timestamp, FromClock, Format, Digits, Val;
    ValDigits(y, 4); ValDigits(mo, 2); ValDigits(d, 2); ValDigits(h, 2); ValDigits(mi, 2); ValDigits(se, 2);
    SixFields(Digits(y, 4), Digits(mo, 2), Digits(d, 2), Digits(h, 2), Digits(mi, 2), Digits(se, 2));
  }

  lemma SixFields(a: string, b: string, c: string, d: string, e: string, f: string)
    requires |a| == 4 && |b| == 2 && |c| == 2 && |d| == 2 && |e| == 2 && |f| == 2
    ensures var s := (a + (b + c)) + ("-" + (d + (e + f)));
            && |s| == 15 && s[8] == '-' && s[0..4] == a && s[4..6] == b && s[6..8] == c
            && s[9..11] == d && s[11..13] == e && s[13..15] == f
  {}

  /** At the year 10000 the order breaks: the later second has the smaller stamp. */
  lemma StampOrderBreaks()
    ensures LexLess(Timestamp(253402300800), Timestamp(253402300799))
  {
    YearTurn();
    LeadingDigits();
    FormatHead(253402300800);
    FormatHead(253402300799);
  }

  /** Stamps sort as the clock runs up to a bound exactly when the bound is the year 10000 at
      most. */
  lemma StampOrderIff(n: int)
    ensures (forall s1, s2 :: 0 <= s1 < s2 < n ==> LexLess(Timestamp(s1), Timestamp(s2))) <==> n <= 253402300800
  {
    if n <= 253402300800 {
      forall s1, s2 | 0 <= s1 < s2 < n ensures LexLess(Timestamp(s1), Timestamp(s2)) { StampOrder(s1, s2); }
    } else {
      StampOrderBreaks();
      LexAsymmetric(Timestamp(253402300800), Timestamp(253402300799));
    }
  }

  lemma YearTurn()
    ensures FromClock(253402300800).date.year == 10000
    ensures FromClock(253402300799).date.year == 9999
  {
    FirstAndLast();
    CivilStep(2932896);
    assert 253402300800 / 86400 == 2932897 && 253402300799 / 86400 == 2932896;
  }

  lemma FormatHead(secs: int)
    requires secs >= 0
    ensures var y := FromClock(secs).date.year;
            y >= 0 && Timestamp(secs) != [] && Timestamp(secs)[0] == Pad(y, 4)[0]
  {
    ClockIsPosix(secs);
    YearRange(secs);
  }

  lemma LeadingDigits()
    ensures Pad(10000, 4) != [] && Pad(10000, 4)[0] == '1'
    ensures Pad(9999, 4) != [] && Pad(9999, 4)[0] == '9'
  {
    assert Dec(1) == "1" && Dec(9) == "9";
    assert Dec(10) == "1" + "0" && Dec(99) == "9" + "9";
    assert Dec(100) == Dec(10) + "0" && Dec(999) == Dec(99) + "9";
    assert Dec(1000) == Dec(100) + "0" && Dec(9999) == Dec(999) + "9";
    assert Dec(10000) == Dec(1000) + "0";
  }
}
