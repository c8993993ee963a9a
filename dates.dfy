/** Calendar dates and the `'%Y-%m-%d'` text form the load script normalises
    every date to: Python's `datetime.strptime(s, '%Y-%m-%d')` and
    `d.strftime('%Y-%m-%d')`. */
module Dates {
  import opened Common
  import opened PyText

  /** A proleptic Gregorian calendar date, as Python's `datetime.date`. */
  datatype Date = Date(year: int, month: int, day: int)

  /** The ways `strptime` raises `ValueError` for this format. */
  datatype DateError =
    | NoMatch          // "time data ... does not match format"
    | UnconvertedData  // "unconverted data remains"
    | OutOfRange       // year 0, or a day past the end of its month

  predicate IsLeapYear(y: int)
  {
    y % 4 == 0 && (y % 100 != 0 || y % 400 == 0)
  }

  function DaysInMonth(y: int, m: int): (n: int)
    requires 1 <= m <= 12
    ensures 28 <= n <= 31
  {
    if m == 2 then (if IsLeapYear(y) then 29 else 28)
    else if m == 4 || m == 6 || m == 9 || m == 11 then 30
    else 31
  }

  /** The dates Python's `datetime.date` accepts (MINYEAR 1 to MAXYEAR 9999). */
  predicate ValidDate(d: Date)
  {
    1 <= d.year <= 9999 && 1 <= d.month <= 12 && 1 <= d.day <= DaysInMonth(d.year, d.month)
  }

  /** Chronological order: `a` is strictly earlier than `b`. */
  predicate Before(a: Date, b: Date)
  {
    a.year < b.year
    || (a.year == b.year && (a.month < b.month || (a.month == b.month && a.day < b.day)))
  }

  predicate IsDigit(c: char)
  {
    '0' <= c <= '9'
  }

  predicate AllDigits(s: string)
  {
    forall i :: 0 <= i < |s| ==> IsDigit(s[i])
  }

  function DigitValue(c: char): (n: nat)
    requires IsDigit(c)
    ensures n < 10
  {
    c as int - '0' as int
  }

  function DigitChar(n: nat): (c: char)
    requires n < 10
    ensures IsDigit(c) && DigitValue(c) == n
    ensures c as int == '0' as int + n
  {
    ('0' as int + n) as char
  }

  function Pow10(w: nat): (p: nat)
    ensures p >= 1
  {
    if w == 0 then 1 else 10 * Pow10(w - 1)
  }

  /** The decimal value of a string of digits. */
  function DigitsValue(s: string): (n: nat)
    requires AllDigits(s)
    ensures n < Pow10(|s|)
  {
    if s == [] then 0
    else DigitsValue(s[..|s| - 1]) * 10 + DigitValue(s[|s| - 1])
  }

  /** The last `w` decimal digits of `x`, zero-padded: `%0wd`. */
  function PadDigits(x: nat, w: nat): (s: string)
    ensures |s| == w && AllDigits(s)
  {
    if w == 0 then [] else PadDigits(x / 10, w - 1) + [DigitChar(x % 10)]
  }

  /** Splitting off the last decimal digit of a number below `10 * p`. */
  lemma LastDigit(x: nat, p: nat)
    requires x < 10 * p
    ensures x == 10 * (x / 10) + x % 10 && x / 10 < p && x % 10 < 10
  {
  }

  /** Numbers compare by their leading digits first, then by their last digit. */
  lemma LessByDigits(x: nat, y: nat)
    ensures x < y <==> x / 10 < y / 10 || (x / 10 == y / 10 && x % 10 < y % 10)
  {
    assert x == 10 * (x / 10) + x % 10 && y == 10 * (y / 10) + y % 10;
  }

  lemma {:induction false} DigitsOfPad(x: nat, w: nat)
    requires x < Pow10(w)
    ensures DigitsValue(PadDigits(x, w)) == x
  {
    if w > 0 {
      var q, r := x / 10, x % 10;
      LastDigit(x, Pow10(w - 1));
      DigitsOfPad(q, w - 1);
      assert PadDigits(x, w) == PadDigits(q, w - 1) + [DigitChar(r)];
      DigitsOfPadStep(PadDigits(x, w), PadDigits(q, w - 1), x, q, r);
    }
  }

  /** One step of `DigitsOfPad`, kept free of division: when `s` is `p` with the
      digit `r` appended and `p` reads as `q`, then `s` reads as `q * 10 + r`. */
  lemma DigitsOfPadStep(s: string, p: string, x: nat, q: nat, r: nat)
    requires AllDigits(p) && r < 10 && s == p + [DigitChar(r)]
    requires DigitsValue(p) == q && x == 10 * q + r
    ensures AllDigits(s) && DigitsValue(s) == x
  {
    DigitsOfAppend(p, r);
  }

  /** Appending the digit `r` multiplies the value by ten and adds `r`. */
  lemma DigitsOfAppend(s: string, r: nat)
    requires AllDigits(s) && r < 10
    ensures AllDigits(s + [DigitChar(r)])
    ensures DigitsValue(s + [DigitChar(r)]) == DigitsValue(s) * 10 + r
  {
    var t := s + [DigitChar(r)];
    assert t[..|t| - 1] == s && t[|t| - 1] == DigitChar(r);
  }

  /** Dividing `q * 10 + r` by ten recovers `q` and the digit `r`. */
  lemma SplitTen(q: nat, r: nat)
    requires r < 10
    ensures (q * 10 + r) / 10 == q && (q * 10 + r) % 10 == r
  {
  }

  lemma {:induction false} PadOfDigits(s: string)
    requires AllDigits(s)
    ensures PadDigits(DigitsValue(s), |s|) == s
  {
    if s != [] {
      var init, last := s[..|s| - 1], s[|s| - 1];
      PadOfDigits(init);
      var v := DigitsValue(s);
      assert v == DigitsValue(init) * 10 + DigitValue(last);
      SplitTen(DigitsValue(init), DigitValue(last));
      assert PadDigits(v, |s|) == PadDigits(v / 10, |s| - 1) + [DigitChar(v % 10)];
      assert s == init + [last];
    }
  }

  /** Zero-padded numbers of one width compare as text the way they compare as numbers. */
  lemma {:induction false} PadLess(x: nat, y: nat, w: nat)
    requires x < Pow10(w) && y < Pow10(w)
    ensures TextLess(PadDigits(x, w), PadDigits(y, w)) <==> x < y
  {
    if w > 0 {
      LastDigit(x, Pow10(w - 1));
      LastDigit(y, Pow10(w - 1));
      var px, py := PadDigits(x / 10, w - 1), PadDigits(y / 10, w - 1);
      var dx, dy := DigitChar(x % 10), DigitChar(y % 10);
      assert PadDigits(x, w) == px + [dx] && PadDigits(y, w) == py + [dy];
      PadLess(x / 10, y / 10, w - 1);
      TextLessConcat(px, [dx], py, [dy]);
      PadInjective(x / 10, y / 10, w - 1);
      DigitCharLess(x % 10, y % 10);
      LessByDigits(x, y);
    }
  }

  /** Zero-padded numbers of one width are equal as text only when they are equal. */
  lemma PadInjective(x: nat, y: nat, w: nat)
    requires x < Pow10(w) && y < Pow10(w)
    ensures PadDigits(x, w) == PadDigits(y, w) <==> x == y
  {
    DigitsOfPad(x, w);
    DigitsOfPad(y, w);
  }

  /** One digit character is below another exactly when its digit is. */
  lemma DigitCharLess(a: nat, b: nat)
    requires a < 10 && b < 10
    ensures TextLess([DigitChar(a)], [DigitChar(b)]) <==> a < b
  {
    assert [DigitChar(a)][1..] == [] && [DigitChar(b)][1..] == [];
  }

  /** Python's `d.strftime('%Y-%m-%d')`: four-digit year, two-digit month and day. */
  function FormatDate(d: Date): (s: string)
    requires ValidDate(d)
    ensures IsCanonicalText(s)
  {
    PadDigits(d.year, 4) + "-" + PadDigits(d.month, 2) + "-" + PadDigits(d.day, 2)
  }

  /** Text in the fixed-width `YYYY-MM-DD` shape that `strftime` produces. */
  predicate IsCanonicalText(s: string)
  {
    |s| == 10 && s[4] == '-' && s[7] == '-'
    && AllDigits(s[..4]) && AllDigits(s[5..7]) && AllDigits(s[8..])
  }

  /** Length of the prefix of `t` that `strptime`'s `%m` pattern
      `1[0-2]|0[1-9]|[1-9]` takes, trying the alternatives in order (0: none). */
  function MonthTokenLength(t: string): (n: nat)
    ensures n <= 2 && n <= |t|
    ensures n > 0 ==> AllDigits(t[..n]) && 1 <= DigitsValue(t[..n]) <= 12
  {
    if |t| >= 2 && t[0] == '1' && '0' <= t[1] <= '2' then 2
    else if |t| >= 2 && t[0] == '0' && '1' <= t[1] <= '9' then 2
    else if |t| >= 1 && '1' <= t[0] <= '9' then 1
    else 0
  }

  /** Length of the prefix of `t` that `strptime`'s `%d` pattern
      `3[01]|[12]\d|0[1-9]|[1-9]| [1-9]` takes, trying the alternatives in order (0: none). */
  function DayTokenLength(t: string): (n: nat)
    ensures n <= 2 && n <= |t|
  {
    if |t| >= 2 && t[0] == '3' && '0' <= t[1] <= '1' then 2
    else if |t| >= 2 && '1' <= t[0] <= '2' && IsDigit(t[1]) then 2
    else if |t| >= 2 && t[0] == '0' && '1' <= t[1] <= '9' then 2
    else if |t| >= 1 && '1' <= t[0] <= '9' then 1
    else if |t| >= 2 && t[0] == ' ' && '1' <= t[1] <= '9' then 2
    else 0
  }

  /** Python's `int()` of the day token; it skips the leading blank of `' 5'`. */
  function DayValue(t: string): (n: nat)
    requires DayTokenLength(t) > 0
    ensures 1 <= n <= 31
  {
    var len := DayTokenLength(t);
    if t[0] == ' ' then DigitValue(t[1])
    else
      TwoDigits(t[..len]);
      DigitsValue(t[..len])
  }

  /** The value of a one- or two-digit string, digit by digit. */
  lemma TwoDigits(t: string)
    requires AllDigits(t) && 1 <= |t| <= 2
    ensures |t| == 1 ==> DigitsValue(t) == DigitValue(t[0])
    ensures |t| == 2 ==> DigitsValue(t) == 10 * DigitValue(t[0]) + DigitValue(t[1])
  {
  }

  /** Python's `datetime.strptime(s, '%Y-%m-%d')`, reduced to its date: the text
      must match `\d\d\d\d-(%m)-(%d)` from its start, nothing may follow the
      day, and the fields must form a real date. */
  function ParseDate(s: string): (r: Result<Date, DateError>)
    ensures r.Success? ==> ValidDate(r.value)
  {
    if |s| < 5 || !AllDigits(s[..4]) || s[4] != '-' then Failure(NoMatch)
    else
      var year := DigitsValue(s[..4]);
      var rest := s[5..];
      var monthLen := MonthTokenLength(rest);
      if monthLen == 0 || |rest| <= monthLen || rest[monthLen] != '-' then Failure(NoMatch)
      else
        var month := DigitsValue(rest[..monthLen]);
        var dayText := rest[monthLen + 1..];
        var dayLen := DayTokenLength(dayText);
        if dayLen == 0 then Failure(NoMatch)
        else if dayLen < |dayText| then Failure(UnconvertedData)
        else
          var day := DayValue(dayText);
          if year < 1 || day > DaysInMonth(year, month) then Failure(OutOfRange)
          else Success(Date(year, month, day))
  }

  lemma Pad2(x: nat)
    requires x < 100
    ensures PadDigits(x, 2) == [DigitChar(x / 10), DigitChar(x % 10)]
  {
    LastDigit(x, 10);
    assert PadDigits(x / 10, 1) == PadDigits(x / 10 / 10, 0) + [DigitChar(x / 10 % 10)];
    assert x / 10 / 10 == 0 && x / 10 % 10 == x / 10;
  }

  /** A zero-padded month is a whole `%m` token. */
  lemma PaddedMonthToken(month: int, tail: string)
    requires 1 <= month <= 12
    ensures MonthTokenLength(PadDigits(month, 2) + tail) == 2
  {
    Pad2(month);
  }

  /** A zero-padded day is a whole `%d` token with the day's value. */
  lemma PaddedDayToken(day: int)
    requires 1 <= day <= 31
    ensures DayTokenLength(PadDigits(day, 2)) == 2 && DayValue(PadDigits(day, 2)) == day
  {
    var dd := PadDigits(day, 2);
    Pad2(day);
    DigitsOfPad(day, 2);
    assert dd[..2] == dd;
  }

  /** Parsing what `strftime` wrote gives the date back. */
  lemma ParseFormat(d: Date)
    requires ValidDate(d)
    ensures ParseDate(FormatDate(d)) == Success(d)
  {
    var y, m, dd := PadDigits(d.year, 4), PadDigits(d.month, 2), PadDigits(d.day, 2);
    var s := FormatDate(d);
    assert s == y + ("-" + (m + ("-" + dd)));
    assert s[..4] == y && s[4] == '-';
    DigitsOfPad(d.year, 4);
    var rest := s[5..];
    assert rest == m + ("-" + dd);
    PaddedMonthToken(d.month, "-" + dd);
    assert rest[..2] == m && rest[2] == '-';
    DigitsOfPad(d.month, 2);
    assert rest[3..] == dd;
    PaddedDayToken(d.day);
  }

  /** The normalisation `strftime(strptime(s))` leaves `s` unchanged exactly
      when `s` already has the fixed-width `YYYY-MM-DD` shape; otherwise
      (`2021-3-5`, `2021-03- 5`) it rewrites it. */
  lemma FormatParse(s: string)
    requires ParseDate(s).Success?
    ensures FormatDate(ParseDate(s).value) == s <==> IsCanonicalText(s)
  {
    var d := ParseDate(s).value;
    if IsCanonicalText(s) {
      var rest := s[5..];
      assert rest[1] == s[6] && IsDigit(s[6]) by {
        assert AllDigits(s[5..7]) && s[5..7][1] == s[6];
      }
      assert MonthTokenLength(rest) == 2;
      assert rest[..2] == s[5..7];
      var dayText := rest[3..];
      assert dayText == s[8..];
      assert DayTokenLength(dayText) == 2;
      assert dayText[..2] == dayText;
      assert dayText[0] != ' ' by {
        assert IsDigit(s[8..][0]);
      }
      PadOfDigits(s[..4]);
      PadOfDigits(s[5..7]);
      PadOfDigits(s[8..]);
      assert s == s[..4] + "-" + s[5..7] + "-" + s[8..];
    }
  }

  /** The `-MM-DD` parts of two dates compare as text as month and day compare. */
  lemma MonthDayOrder(ma: nat, da: nat, mb: nat, db: nat)
    requires ma < 100 && da < 100 && mb < 100 && db < 100
    ensures TextLess("-" + (PadDigits(ma, 2) + ("-" + PadDigits(da, 2))), "-" + (PadDigits(mb, 2) + ("-" + PadDigits(db, 2))))
      <==> ma < mb || (ma == mb && da < db)
  {
    var pma, pda, pmb, pdb := PadDigits(ma, 2), PadDigits(da, 2), PadDigits(mb, 2), PadDigits(db, 2);
    assert !TextLess("-", "-");
    TextLessConcat("-", pma + ("-" + pda), "-", pmb + ("-" + pdb));
    TextLessConcat(pma, "-" + pda, pmb, "-" + pdb);
    TextLessConcat("-", pda, "-", pdb);
    PadLess(ma, mb, 2);
    PadLess(da, db, 2);
    DigitsOfPad(ma, 2);
    DigitsOfPad(mb, 2);
  }

  /** Because the text form has a fixed width, comparing two normalised dates as
      text is the same as comparing them as dates. */
  lemma FormatOrder(a: Date, b: Date)
    requires ValidDate(a) && ValidDate(b)
    ensures Before(a, b) <==> TextLess(FormatDate(a), FormatDate(b))
  {
    var ya, yb := PadDigits(a.year, 4), PadDigits(b.year, 4);
    var ra := "-" + (PadDigits(a.month, 2) + ("-" + PadDigits(a.day, 2)));
    var rb := "-" + (PadDigits(b.month, 2) + ("-" + PadDigits(b.day, 2)));
    assert FormatDate(a) == ya + ra;
    assert FormatDate(b) == yb + rb;
    TextLessConcat(ya, ra, yb, rb);
    PadLess(a.year, b.year, 4);
    DigitsOfPad(a.year, 4);
    DigitsOfPad(b.year, 4);
    MonthDayOrder(a.month, a.day, b.month, b.day);
  }

  /** `strptime` accepts a date without zero padding. */
  lemma UnpaddedDateParses()
    ensures ParseDate("2021-3-5") == Success(Date(2021, 3, 5))
  {
    var s := "2021-3-5";
    var year := s[..4];
    assert year == ['2', '0', '2', '1'];
    assert AllDigits(year) && s[4] == '-';
    assert year[..3] == ['2', '0', '2'] && year[..3][..2] == ['2', '0'] && year[..3][..2][..1] == ['2'];
    assert DigitsValue(['2']) == 2 by {
      assert ['2'][..0] == [];
    }
    assert DigitsValue(['2', '0']) == 20;
    assert DigitsValue(['2', '0', '2']) == 202;
    assert DigitsValue(year) == 2021;
    var rest := s[5..];
    assert rest == ['3', '-', '5'];
    assert MonthTokenLength(rest) == 1;
    assert rest[..1] == ['3'];
    TwoDigits(['3']);
    var dayText := rest[2..];
    assert dayText == ['5'];
    assert DayTokenLength(['5']) == 1;
    assert ['5'][..1] == ['5'];
    TwoDigits(['5']);
    assert DayValue(dayText) == 5;
  }

  /** The normalisation then pads an unpadded date. */
  /** `%Y` of the year 2021. */
  lemma PadYear2021()
    ensures PadDigits(2021, 4) == "2021"
  {
    Pad2(20);
    assert PadDigits(202, 3) == PadDigits(20, 2) + ['2'];
    assert PadDigits(2021, 4) == PadDigits(202, 3) + ['1'];
  }

  lemma UnpaddedDateIsPadded()
    ensures ParseDate("2021-3-5") == Success(Date(2021, 3, 5))
    ensures FormatDate(ParseDate("2021-3-5").value) == "2021-03-05"
  {
    UnpaddedDateParses();
    Pad2(3);
    Pad2(5);
    PadYear2021();
    assert FormatDate(Date(2021, 3, 5)) == "2021" + "-" + "03" + "-" + "05";
  }
}
