/** The compact timestamp the sink puts in every blob name: the local wall-clock
    reading written as `%Y%m%dT%H%M%S` (four-digit year, then two digits each for
    month, day, hour, minute and second, with a literal `T` between date and time).
    The clock itself is not read here: callers pass the reading in. */
module Timestamp {
  import opened Results

  /** A naive local date and time, to the second (the format drops microseconds). */
  datatype DateTime = DateTime(year: int, month: int, day: int, hour: int, minute: int, second: int)

  predicate IsLeapYear(y: int) {
    y % 4 == 0 && (y % 100 != 0 || y % 400 == 0)
  }

  function DaysInMonth(y: int, m: int): int
    requires 1 <= m <= 12
  {
    if m == 2 then (if IsLeapYear(y) then 29 else 28)
    else if m == 4 || m == 6 || m == 9 || m == 11 then 30
    else 31
  }

  /** The readings a Python `datetime` can hold (years 1 to 9999, no leap second). */
  predicate ValidDateTime(dt: DateTime) {
    1 <= dt.year <= 9999 && 1 <= dt.month <= 12 && 1 <= dt.day <= DaysInMonth(dt.year, dt.month) &&
    0 <= dt.hour < 24 && 0 <= dt.minute < 60 && 0 <= dt.second < 60
  }

  /** Calendar order of two readings. For a naive local clock this is not
      always the order of events: the clock repeats an hour when daylight
      saving time ends and steps back when it is set back. */
  predicate Before(a: DateTime, b: DateTime) {
    a.year < b.year || (a.year == b.year &&
    (a.month < b.month || (a.month == b.month &&
    (a.day < b.day || (a.day == b.day &&
    (a.hour < b.hour || (a.hour == b.hour &&
    (a.minute < b.minute || (a.minute == b.minute && a.second < b.second)))))))))
  }

  // ---------------------------------------------------------------- digits

  predicate IsDigit(c: char) {
    '0' <= c <= '9'
  }

  predicate AllDigits(s: string) {
    forall i :: 0 <= i < |s| ==> IsDigit(s[i])
  }

  function Pow10(w: nat): (p: nat)
    ensures p >= 1
  {
    if w == 0 then 1 else 10 * Pow10(w - 1)
  }

  function DigitChar(d: int): (c: char)
    requires 0 <= d < 10
    ensures IsDigit(c) && c as int - '0' as int == d
  {
    ('0' as int + d) as char
  }

  /** `n` in decimal, zero-padded on the left to exactly `width` digits. */
  function Decimal(n: nat, width: nat): (s: string)
    requires n < Pow10(width)
    ensures |s| == width && AllDigits(s)
  {
    if width == 0 then ""
    else Decimal(n / 10, width - 1) + [DigitChar(n % 10)]
  }

  /** The number a string of decimal digits denotes. */
  function DigitsValue(s: string): (n: nat)
    requires AllDigits(s)
    ensures n < Pow10(|s|)
  {
    if s == [] then 0
    else 10 * DigitsValue(s[..|s| - 1]) + (s[|s| - 1] as int - '0' as int)
  }

  lemma {:induction false} DecimalValue(n: nat, width: nat)
    requires n < Pow10(width)
    ensures DigitsValue(Decimal(n, width)) == n
  {
    if width > 0 {
      var s := Decimal(n, width);
      assert s[..|s| - 1] == Decimal(n / 10, width - 1);
      DecimalValue(n / 10, width - 1);
    }
  }

  lemma {:induction false} ValueDecimal(s: string)
    requires AllDigits(s)
    ensures Decimal(DigitsValue(s), |s|) == s
  {
    if s != [] {
      var init := s[..|s| - 1];
      var n := DigitsValue(s);
      var d := s[|s| - 1] as int - '0' as int;
      assert n / 10 == DigitsValue(init) && n % 10 == d;
      ValueDecimal(init);
      assert s == init + [s[|s| - 1]];
    }
  }

  /** Two numbers of the same width are written identically exactly when they are equal. */
  lemma DecimalInjective(x: nat, y: nat, width: nat)
    requires x < Pow10(width) && y < Pow10(width)
    ensures Decimal(x, width) == Decimal(y, width) <==> x == y
  {
    DecimalValue(x, width);
    DecimalValue(y, width);
  }

  // ---------------------------------------------------------------- format and parse

  /** strftime("%Y%m%dT%H%M%S") of a reading. */
  function Format(dt: DateTime): (s: string)
    requires ValidDateTime(dt)
    ensures |s| == 15 && s[8] == 'T'
    ensures forall i :: 0 <= i < 15 && i != 8 ==> IsDigit(s[i])
  {
    (Decimal(dt.year, 4) + Decimal(dt.month, 2) + Decimal(dt.day, 2)) + "T" +
    (Decimal(dt.hour, 2) + Decimal(dt.minute, 2) + Decimal(dt.second, 2))
  }

  /** The shape Format produces: 15 characters, `T` at index 8, digits elsewhere. */
  predicate WellFormed(s: string) {
    |s| == 15 && s[8] == 'T' && AllDigits(s[..8]) && AllDigits(s[9..])
  }

  /** Reads a timestamp back; None for a string Format never produces. */
  function Parse(s: string): (r: Option<DateTime>)
    ensures r.Some? ==> ValidDateTime(r.value) && WellFormed(s)
  {
    if !WellFormed(s) then None
    else
      var dt := DateTime(DigitsValue(s[0..4]), DigitsValue(s[4..6]), DigitsValue(s[6..8]),
                         DigitsValue(s[9..11]), DigitsValue(s[11..13]), DigitsValue(s[13..15]));
      if ValidDateTime(dt) then Some(dt) else None
  }

  /** Each field sits in its own fixed slice of the timestamp, in the order
      year, month, day, `T`, hour, minute, second. */
  lemma FormatFields(dt: DateTime)
    requires ValidDateTime(dt)
    ensures var s := Format(dt);
      s[0..4] == Decimal(dt.year, 4) && s[4..6] == Decimal(dt.month, 2) &&
      s[6..8] == Decimal(dt.day, 2) && s[9..11] == Decimal(dt.hour, 2) &&
      s[11..13] == Decimal(dt.minute, 2) && s[13..15] == Decimal(dt.second, 2)
  {
  }

  /** Parse undoes Format. */
  lemma ParseFormat(dt: DateTime)
    requires ValidDateTime(dt)
    ensures Parse(Format(dt)) == Some(dt)
  {
    var s := Format(dt);
    FormatFields(dt);
    assert AllDigits(s[..8]) && AllDigits(s[9..]) by {
      assert forall i :: 0 <= i < 8 ==> s[..8][i] == s[i];
      assert forall i :: 0 <= i < 6 ==> s[9..][i] == s[i + 9];
    }
    DecimalValue(dt.year, 4);
    DecimalValue(dt.month, 2);
    DecimalValue(dt.day, 2);
    DecimalValue(dt.hour, 2);
    DecimalValue(dt.minute, 2);
    DecimalValue(dt.second, 2);
  }

  /** Format undoes Parse: whatever Parse accepts is exactly the timestamp of what it returns. */
  lemma FormatParse(s: string)
    requires Parse(s).Some?
    ensures Format(Parse(s).value) == s
  {
    FieldSliceDigits(s, 0, 4);
    FieldSliceDigits(s, 4, 6);
    FieldSliceDigits(s, 6, 8);
    FieldSliceDigits(s, 9, 11);
    FieldSliceDigits(s, 11, 13);
    FieldSliceDigits(s, 13, 15);
    ValueDecimal(s[0..4]);
    ValueDecimal(s[4..6]);
    ValueDecimal(s[6..8]);
    ValueDecimal(s[9..11]);
    ValueDecimal(s[11..13]);
    ValueDecimal(s[13..15]);
    SplitFields(s);
  }

  /** Every field slice of a well-formed timestamp is all digits. */
  lemma FieldSliceDigits(s: string, i: nat, j: nat)
    requires WellFormed(s) && (i <= j <= 8 || 9 <= i <= j <= 15)
    ensures AllDigits(s[i..j])
  {
  }

  /** A 15-character string is its six fields and its separator, in order. */
  lemma SplitFields(s: string)
    requires |s| == 15
    ensures s == (s[0..4] + s[4..6] + s[6..8]) + [s[8]] + (s[9..11] + s[11..13] + s[13..15])
  {
  }

  /** Distinct readings give distinct timestamps, and equal ones equal timestamps. */
  lemma FormatInjective(a: DateTime, b: DateTime)
    requires ValidDateTime(a) && ValidDateTime(b)
    ensures Format(a) == Format(b) <==> a == b
  {
    ParseFormat(a);
    ParseFormat(b);
  }

  // ---------------------------------------------------------------- order

  /** Python's string `<`: code-point order, a proper prefix first. */
  predicate LexLess(s: string, t: string) {
    if s == [] then t != []
    else if t == [] then false
    else s[0] < t[0] || (s[0] == t[0] && LexLess(s[1..], t[1..]))
  }

  /** Comparing two concatenations whose first parts have the same length
      compares the first parts, then the second parts. */
  lemma {:induction false} LexLessAppend(a: string, b: string, c: string, d: string)
    requires |a| == |c|
    ensures LexLess(a + b, c + d) <==> LexLess(a, c) || (a == c && LexLess(b, d))
  {
    if a != [] {
      assert (a + b)[1..] == a[1..] + b;
      assert (c + d)[1..] == c[1..] + d;
      LexLessAppend(a[1..], b, c[1..], d);
      assert a == [a[0]] + a[1..] && c == [c[0]] + c[1..];
    } else {
      assert a + b == b && c + d == d;
    }
  }

  lemma LexLessOneChar(x: char, y: char)
    ensures LexLess([x], [y]) <==> x < y
  {
  }

  /** Zero-padded numbers of one width sort as strings exactly as they sort as numbers. */
  lemma {:induction false} DecimalOrder(x: nat, y: nat, width: nat)
    requires x < Pow10(width) && y < Pow10(width)
    ensures LexLess(Decimal(x, width), Decimal(y, width)) <==> x < y
  {
    if width == 0 {
      assert x == 0 && y == 0;
    } else {
      var hx, hy := Decimal(x / 10, width - 1), Decimal(y / 10, width - 1);
      LexLessAppend(hx, [DigitChar(x % 10)], hy, [DigitChar(y % 10)]);
      LexLessOneChar(DigitChar(x % 10), DigitChar(y % 10));
      DecimalOrder(x / 10, y / 10, width - 1);
      DecimalInjective(x / 10, y / 10, width - 1);
      assert x == 10 * (x / 10) + x % 10 && y == 10 * (y / 10) + y % 10;
    }
  }

  /** The same, for three fields whose first two have matching lengths; the
      concatenations are also equal exactly when the fields are. */
  lemma LexLessAppend3(a1: string, a2: string, a3: string, b1: string, b2: string, b3: string)
    requires |a1| == |b1| && |a2| == |b2|
    ensures LexLess(a1 + a2 + a3, b1 + b2 + b3) <==>
      LexLess(a1, b1) || (a1 == b1 && (LexLess(a2, b2) || (a2 == b2 && LexLess(a3, b3))))
    ensures a1 + a2 + a3 == b1 + b2 + b3 <==> a1 == b1 && a2 == b2 && a3 == b3
  {
    assert a1 + a2 + a3 == a1 + (a2 + a3) && b1 + b2 + b3 == b1 + (b2 + b3);
    LexLessAppend(a1, a2 + a3, b1, b2 + b3);
    LexLessAppend(a2, a3, b2, b3);
    if a1 + a2 + a3 == b1 + b2 + b3 {
      assert a1 == (a1 + a2 + a3)[..|a1|] && b1 == (b1 + b2 + b3)[..|b1|];
      assert a2 == (a1 + a2 + a3)[|a1|..|a1| + |a2|] && b2 == (b1 + b2 + b3)[|b1|..|b1| + |b2|];
      assert a3 == (a1 + a2 + a3)[|a1| + |a2|..] && b3 == (b1 + b2 + b3)[|b1| + |b2|..];
    }
  }

  /** Three fields, each of which compares as the number it holds, compare
      together in the order of the first field that differs. */
  lemma NumberedFieldsOrder(a1: string, a2: string, a3: string, b1: string, b2: string, b3: string,
                            x1: int, x2: int, x3: int, y1: int, y2: int, y3: int)
    requires |a1| == |b1| && |a2| == |b2|
    requires (LexLess(a1, b1) <==> x1 < y1) && (a1 == b1 <==> x1 == y1)
    requires (LexLess(a2, b2) <==> x2 < y2) && (a2 == b2 <==> x2 == y2)
    requires (LexLess(a3, b3) <==> x3 < y3) && (a3 == b3 <==> x3 == y3)
    ensures LexLess(a1 + a2 + a3, b1 + b2 + b3) <==> x1 < y1 || (x1 == y1 && (x2 < y2 || (x2 == y2 && x3 < y3)))
    ensures a1 + a2 + a3 == b1 + b2 + b3 <==> x1 == y1 && x2 == y2 && x3 == y3
  {
    LexLessAppend3(a1, a2, a3, b1, b2, b3);
  }

  /** A zero-padded field compares, as a string, as the number it holds. */
  lemma DecimalCompare(x: nat, y: nat, width: nat)
    requires x < Pow10(width) && y < Pow10(width)
    ensures LexLess(Decimal(x, width), Decimal(y, width)) <==> x < y
    ensures Decimal(x, width) == Decimal(y, width) <==> x == y
  {
    DecimalOrder(x, y, width);
    DecimalInjective(x, y, width);
  }

  /** Timestamps sort as strings in the order of the clock readings they render.
      Whether that is the order of events depends on the clock never stepping back. */
  lemma FormatOrder(a: DateTime, b: DateTime)
    requires ValidDateTime(a) && ValidDateTime(b)
    ensures LexLess(Format(a), Format(b)) <==> Before(a, b)
  {
    assert Pow10(4) == 10000 && Pow10(2) == 100;
    var ya, moa, da := Decimal(a.year, 4), Decimal(a.month, 2), Decimal(a.day, 2);
    var yb, mob, db := Decimal(b.year, 4), Decimal(b.month, 2), Decimal(b.day, 2);
    var ha, mia, sa := Decimal(a.hour, 2), Decimal(a.minute, 2), Decimal(a.second, 2);
    var hb, mib, sb := Decimal(b.hour, 2), Decimal(b.minute, 2), Decimal(b.second, 2);
    DecimalCompare(a.year, b.year, 4);
    DecimalCompare(a.month, b.month, 2);
    DecimalCompare(a.day, b.day, 2);
    DecimalCompare(a.hour, b.hour, 2);
    DecimalCompare(a.minute, b.minute, 2);
    DecimalCompare(a.second, b.second, 2);
    NumberedFieldsOrder(ya, moa, da, yb, mob, db, a.year, a.month, a.day, b.year, b.month, b.day);
    NumberedFieldsOrder(ha, mia, sa, hb, mib, sb, a.hour, a.minute, a.second, b.hour, b.minute, b.second);
    assert Format(a) == (ya + moa + da) + "T" + (ha + mia + sa);
    assert Format(b) == (yb + mob + db) + "T" + (hb + mib + sb);
    LexLessAppend3(ya + moa + da, "T", ha + mia + sa, yb + mob + db, "T", hb + mib + sb);
    LexLessOneChar('T', 'T');
  }
}
