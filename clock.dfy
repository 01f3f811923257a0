/**
 * Wall-clock readings and the `strftime`/`isoformat` renderings the journal
 * uses. The application reads `datetime.now()`; here a reading is passed in.
 */
module Clock {
  import opened Text

  datatype DateTime = DateTime(year: nat, month: nat, day: nat,
                               hour: nat, minute: nat, second: nat, microsecond: nat)

  function Pow10(w: nat): (r: nat)
    ensures r >= 1
  {
    if w == 0 then 1 else 10 * Pow10(w - 1)
  }

  predicate IsLeapYear(y: nat) {
    y % 4 == 0 && (y % 100 != 0 || y % 400 == 0)
  }

  function DaysInMonth(y: nat, m: nat): nat
    requires 1 <= m <= 12
  {
    if m == 2 then (if IsLeapYear(y) then 29 else 28)
    else if m == 4 || m == 6 || m == 9 || m == 11 then 30
    else 31
  }

  /** The range Python's `datetime` enforces on its fields. */
  predicate Valid(t: DateTime) {
    && 1 <= t.year <= 9999
    && 1 <= t.month <= 12
    && 1 <= t.day <= DaysInMonth(t.year, t.month)
    && t.hour < 24 && t.minute < 60 && t.second < 60
    && t.microsecond < 1000000
  }

  function Zeros(k: nat): (r: string)
    ensures |r| == k && forall i :: 0 <= i < k ==> r[i] == '0'
  {
    if k == 0 then [] else "0" + Zeros(k - 1)
  }

  /** `"%0*d" % (w, n)`: the decimal digits of `n`, left-padded with zeros to width `w`. */
  function PadTo(n: nat, w: nat): (r: string)
    ensures forall i :: 0 <= i < |r| ==> '0' <= r[i] <= '9'
    ensures |r| >= w
  {
    var d := NatToDecimal(n);
    if |d| >= w then d else Zeros(w - |d|) + d
  }

  lemma {:induction false} DecimalLength(n: nat, w: nat)
    requires 1 <= w && n < Pow10(w)
    ensures |NatToDecimal(n)| <= w
  {
    if n >= 10 {
      DecimalLength(n / 10, w - 1);
    }
  }

  /** Leading zeros do not change the value of a digit string. */
  lemma {:induction false} LeadingZeros(k: nat, s: string)
    requires forall i :: 0 <= i < |s| ==> '0' <= s[i] <= '9'
    ensures DecimalValue(Zeros(k) + s) == DecimalValue(s)
    decreases |s|
  {
    if s == [] {
      assert Zeros(k) + s == Zeros(k);
      LeadingZerosOnly(k);
    } else {
      var z := Zeros(k) + s;
      assert z[..|z| - 1] == Zeros(k) + s[..|s| - 1];
      LeadingZeros(k, s[..|s| - 1]);
    }
  }

  lemma {:induction false} LeadingZerosOnly(k: nat)
    ensures DecimalValue(Zeros(k)) == 0
  {
    if k > 0 {
      var z := Zeros(k);
      assert z[..k - 1] == Zeros(k - 1) by {
        assert z == Zeros(k - 1) + "0" by { ZerosSnoc(k - 1); }
      }
      LeadingZerosOnly(k - 1);
    }
  }

  lemma {:induction false} ZerosSnoc(k: nat)
    ensures Zeros(k + 1) == Zeros(k) + "0"
  {
    if k > 0 {
      ZerosSnoc(k - 1);
    }
  }

  /** A padded number reads back as itself, and has exactly width `w` when it fits. */
  lemma {:induction false} PadRoundTrip(n: nat, w: nat)
    requires 1 <= w && n < Pow10(w)
    ensures |PadTo(n, w)| == w
    ensures DecimalValue(PadTo(n, w)) == n
  {
    DecimalLength(n, w);
    var d := NatToDecimal(n);
    PadSplit(n, w);
    LeadingZeros(w - |d|, d);
    DecimalRoundTrip(n);
  }

  lemma {:induction false} PadSplit(n: nat, w: nat)
    requires |NatToDecimal(n)| <= w
    ensures PadTo(n, w) == Zeros(w - |NatToDecimal(n)|) + NatToDecimal(n)
  {
    var d := NatToDecimal(n);
    if |d| == w {
      assert Zeros(0) + d == d;
    }
  }

  /** `%H:%M`. */
  function FormatHourMinute(t: DateTime): (r: string)
    requires Valid(t)
    ensures |r| == 5 && r[2] == ':'
    ensures ReadsAs(r[..2], t.hour) && ReadsAs(r[3..], t.minute)
  {
    PadRoundTrip(t.hour, 2);
    PadRoundTrip(t.minute, 2);
    var r := PadTo(t.hour, 2) + ":" + PadTo(t.minute, 2);
    assert r[..2] == PadTo(t.hour, 2) && r[3..] == PadTo(t.minute, 2);
    r
  }

  /** `%H%M%S`. */
  function CompactTime(t: DateTime): (r: string)
    requires Valid(t)
    ensures |r| == 6
    ensures forall i :: 0 <= i < 6 ==> '0' <= r[i] <= '9'
  {
    PadRoundTrip(t.hour, 2);
    PadRoundTrip(t.minute, 2);
    PadRoundTrip(t.second, 2);
    PadTo(t.hour, 2) + PadTo(t.minute, 2) + PadTo(t.second, 2)
  }

  /** The compact time gives back the hour, minute and second it was made from. */
  lemma {:induction false} CompactTimeRoundTrip(t: DateTime)
    requires Valid(t)
    ensures DecimalValue(CompactTime(t)[..2]) == t.hour
    ensures DecimalValue(CompactTime(t)[2..4]) == t.minute
    ensures DecimalValue(CompactTime(t)[4..]) == t.second
  {
    var r := CompactTime(t);
    PadRoundTrip(t.hour, 2);
    PadRoundTrip(t.minute, 2);
    PadRoundTrip(t.second, 2);
    assert r[..2] == PadTo(t.hour, 2);
    assert r[2..4] == PadTo(t.minute, 2);
    assert r[4..] == PadTo(t.second, 2);
  }

  /** `%Y-%m-%d`. The C library does not pad a year below 1000. */
  function FormatDate(t: DateTime): (r: string)
    requires Valid(t)
    ensures r != [] && '0' <= r[0] <= '9'
  {
    NatToDecimal(t.year) + "-" + PadTo(t.month, 2) + "-" + PadTo(t.day, 2)
  }

  /** For a four-digit year the date is `YYYY-MM-DD` and reads back field by field. */
  lemma {:induction false} FormatDateRoundTrip(t: DateTime)
    requires Valid(t) && t.year >= 1000
    ensures |FormatDate(t)| == 10 && FormatDate(t)[4] == '-' && FormatDate(t)[7] == '-'
    ensures DecimalValue(FormatDate(t)[..4]) == t.year
    ensures DecimalValue(FormatDate(t)[5..7]) == t.month
    ensures DecimalValue(FormatDate(t)[8..]) == t.day
  {
    var y := NatToDecimal(t.year);
    DecimalLength(t.year, 4);
    assert |y| == 4 by {
      if |y| < 4 {
        ShortDecimalIsSmall(t.year, |y|);
      }
    }
    DecimalRoundTrip(t.year);
    PadRoundTrip(t.month, 2);
    PadRoundTrip(t.day, 2);
    FieldsOfDate(y, PadTo(t.month, 2), PadTo(t.day, 2));
  }

  /** Where the three fields sit in `year-month-day` for a four-digit year. */
  lemma {:induction false} FieldsOfDate(y: string, m: string, d: string)
    requires |y| == 4 && |m| == 2 && |d| == 2
    ensures var r := y + "-" + m + "-" + d;
            && |r| == 10 && r[4] == '-' && r[7] == '-'
            && r[..4] == y && r[5..7] == m && r[8..] == d && r[8..10] == d
  {
    var r := y + "-" + m + "-" + d;
    assert r[..4] == y;
    assert r[5..7] == m;
    assert r[8..] == d;
  }

  lemma {:induction false} ShortDecimalIsSmall(n: nat, w: nat)
    requires 1 <= w && |NatToDecimal(n)| <= w
    ensures n < Pow10(w)
  {
    if n >= 10 {
      ShortDecimalIsSmall(n / 10, w - 1);
    }
  }

  /** `datetime.isoformat()`: `YYYY-MM-DDTHH:MM:SS` with the year always
      padded to four digits, followed by `.ffffff` only when the microseconds
      are not zero. */
  function IsoFormat(t: DateTime): (r: string)
    requires Valid(t)
    ensures t.microsecond == 0 ==> |r| == 19
    ensures t.microsecond != 0 ==> |r| == 26 && r[19] == '.'
    ensures r[4] == '-' && r[7] == '-' && r[10] == 'T' && r[13] == ':' && r[16] == ':'
  {
    IsoParts(IsoDate(t), IsoTime(t), IsoFraction(t));
    IsoDate(t) + "T" + IsoTime(t) + IsoFraction(t)
  }

  /** Where the date, time and fraction sit in the isoformat string. */
  lemma {:induction false} IsoParts(d: string, tm: string, f: string)
    requires |d| == 10 && |tm| == 8
    ensures var r := d + "T" + tm + f;
            && |r| == 19 + |f| && r[..10] == d && r[10] == 'T' && r[11..19] == tm && r[19..] == f
            && (forall i :: 0 <= i < 10 ==> r[i] == d[i]) && (forall i :: 0 <= i < 8 ==> r[11 + i] == tm[i])
            && (forall i :: 0 <= i < |f| ==> r[19 + i] == f[i])
  {
    var r := d + "T" + tm + f;
    assert r[..10] == d;
    assert r[11..19] == tm;
    assert r[19..] == f;
  }

  /** A slice of a piece `d` found at offset `k` of `r` is a slice of `r`. */
  lemma {:induction false} SliceOfPiece(r: string, d: string, k: nat, i: nat, j: nat)
    requires k + |d| <= |r| && r[k..k + |d|] == d && i <= j <= |d|
    ensures r[k + i..k + j] == d[i..j]
  {
    forall n | 0 <= n < j - i
      ensures r[k + i..k + j][n] == d[i..j][n]
    {
      assert r[k + i + n] == r[k..k + |d|][i + n];
    }
  }

  /** The `YYYY-MM-DD` part, read back field by field. */
  function IsoDate(t: DateTime): (r: string)
    requires Valid(t)
    ensures |r| == 10 && r[4] == '-' && r[7] == '-'
    ensures ReadsAs(r[..4], t.year) && ReadsAs(r[5..7], t.month) && ReadsAs(r[8..10], t.day)
  {
    PadRoundTrip(t.year, 4);
    PadRoundTrip(t.month, 2);
    PadRoundTrip(t.day, 2);
    FieldsOfDate(PadTo(t.year, 4), PadTo(t.month, 2), PadTo(t.day, 2));
    PadTo(t.year, 4) + "-" + PadTo(t.month, 2) + "-" + PadTo(t.day, 2)
  }

  /** The `HH:MM:SS` part, read back field by field. */
  function IsoTime(t: DateTime): (r: string)
    requires Valid(t)
    ensures |r| == 8 && r[2] == ':' && r[5] == ':'
    ensures ReadsAs(r[..2], t.hour) && ReadsAs(r[3..5], t.minute) && ReadsAs(r[6..8], t.second)
  {
    PadRoundTrip(t.hour, 2);
    PadRoundTrip(t.minute, 2);
    PadRoundTrip(t.second, 2);
    FieldsOfTime(PadTo(t.hour, 2), PadTo(t.minute, 2), PadTo(t.second, 2));
    PadTo(t.hour, 2) + ":" + PadTo(t.minute, 2) + ":" + PadTo(t.second, 2)
  }

  /** The `.ffffff` part, empty when there are no microseconds. */
  function IsoFraction(t: DateTime): (r: string)
    requires Valid(t)
    ensures t.microsecond == 0 ==> r == []
    ensures t.microsecond != 0 ==> |r| == 7 && r[0] == '.'
    ensures t.microsecond != 0 ==> ReadsAs(r[1..7], t.microsecond)
  {
    PadRoundTrip(t.microsecond, 6);
    if t.microsecond == 0 then []
    else
      var r := "." + PadTo(t.microsecond, 6);
      assert r[1..7] == PadTo(t.microsecond, 6);
      r
  }

  /** Every field of the reading can be read back from its isoformat. */
  lemma {:induction false} IsoFormatRoundTrip(t: DateTime)
    requires Valid(t)
    ensures var r := IsoFormat(t);
            && ReadsAs(r[..4], t.year) && ReadsAs(r[5..7], t.month) && ReadsAs(r[8..10], t.day)
            && ReadsAs(r[11..13], t.hour) && ReadsAs(r[14..16], t.minute) && ReadsAs(r[17..19], t.second)
            && (t.microsecond != 0 ==> ReadsAs(r[20..26], t.microsecond))
  {
    IsoFieldsRead(IsoDate(t), IsoTime(t), IsoFraction(t), t);
  }

  /** The field read-back of `IsoFormatRoundTrip`, on the pieces alone. */
  lemma {:induction false} IsoFieldsRead(d: string, tm: string, f: string, t: DateTime)
    requires |d| == 10 && |tm| == 8 && (t.microsecond != 0 ==> |f| == 7)
    requires ReadsAs(d[..4], t.year) && ReadsAs(d[5..7], t.month) && ReadsAs(d[8..10], t.day)
    requires ReadsAs(tm[..2], t.hour) && ReadsAs(tm[3..5], t.minute) && ReadsAs(tm[6..8], t.second)
    requires t.microsecond != 0 ==> ReadsAs(f[1..7], t.microsecond)
    ensures var r := d + "T" + tm + f;
            && ReadsAs(r[..4], t.year) && ReadsAs(r[5..7], t.month) && ReadsAs(r[8..10], t.day)
            && ReadsAs(r[11..13], t.hour) && ReadsAs(r[14..16], t.minute) && ReadsAs(r[17..19], t.second)
            && (t.microsecond != 0 ==> ReadsAs(r[20..26], t.microsecond))
  {
    var r := d + "T" + tm + f;
    IsoParts(d, tm, f);
    assert r[0..0 + 10] == d && r[11..11 + 8] == tm && r[19..19 + |f|] == f;
    PieceReadsAs(r, d, 0, 0, 4, t.year);
    PieceReadsAs(r, d, 0, 5, 7, t.month);
    PieceReadsAs(r, d, 0, 8, 10, t.day);
    PieceReadsAs(r, tm, 11, 0, 2, t.hour);
    PieceReadsAs(r, tm, 11, 3, 5, t.minute);
    PieceReadsAs(r, tm, 11, 6, 8, t.second);
    if t.microsecond != 0 {
      PieceReadsAs(r, f, 19, 1, 7, t.microsecond);
    }
  }

  /** A field read from a piece of `r` reads the same from `r` itself. */
  lemma {:induction false} PieceReadsAs(r: string, d: string, k: nat, i: nat, j: nat, n: nat)
    requires k + |d| <= |r| && r[k..k + |d|] == d && i <= j <= |d|
    requires ReadsAs(d[i..j], n)
    ensures ReadsAs(r[k + i..k + j], n)
  {
    SliceOfPiece(r, d, k, i, j);
  }

  /** A number read from the front of a string, and how many characters it took. */
  datatype Field = Field(value: nat, width: nat)

  /** The `%m` directive of `strptime`, the pattern `1[0-2]|0[1-9]|[1-9]`
      with its first matching alternative. Only a `-` may follow, and after a
      two-character match the shorter alternative leaves a digit there, so
      backtracking never finds another parse. */
  function MonthField(s: string): (r: Option<Field>)
    ensures r.Some? ==> 1 <= r.value.value <= 12 && 1 <= r.value.width <= 2 && r.value.width <= |s|
    ensures r.Some? ==> ReadsAs(s[..r.value.width], r.value.value)
  {
    if |s| >= 2 && s[0] == '1' && '0' <= s[1] <= '2' then
      TwoDigits(s[..2]);
      Some(Field(10 + DigitValue(s[1]), 2))
    else if |s| >= 2 && s[0] == '0' && '1' <= s[1] <= '9' then
      TwoDigits(s[..2]);
      Some(Field(DigitValue(s[1]), 2))
    else if |s| >= 1 && '1' <= s[0] <= '9' then
      var p := s[..1];
      assert p[..|p| - 1] == [] && p[|p| - 1] == s[0];
      assert DecimalValue(p) == 10 * DecimalValue([]) + DigitValue(s[0]);
      Some(Field(DigitValue(s[0]), 1))
    else None
  }

  /** The `%d` directive, the pattern `3[01]|[12]\d|0[1-9]|[1-9]| [1-9]` with
      its first matching alternative; the space-led form reads the digit
      alone, as `int(" 7")` does. It ends the format, so the first
      alternative that matches is the one taken. */
  function DayField(s: string): (r: Option<Field>)
    ensures r.Some? ==> 1 <= r.value.value <= 31 && 1 <= r.value.width <= 2 && r.value.width <= |s|
  {
    if |s| >= 2 && s[0] == '3' && '0' <= s[1] <= '1' then Some(Field(30 + DigitValue(s[1]), 2))
    else if |s| >= 2 && '1' <= s[0] <= '2' && '0' <= s[1] <= '9' then Some(Field(10 * DigitValue(s[0]) + DigitValue(s[1]), 2))
    else if |s| >= 2 && s[0] == '0' && '1' <= s[1] <= '9' then Some(Field(DigitValue(s[1]), 2))
    else if |s| >= 1 && '1' <= s[0] <= '9' then Some(Field(DigitValue(s[0]), 1))
    else if |s| >= 2 && s[0] == ' ' && '1' <= s[1] <= '9' then Some(Field(DigitValue(s[1]), 2))
    else None
  }

  /** `datetime.strptime(s, "%Y-%m-%d")`, or None where it raises
      `ValueError`: a year of exactly four digits, `-`, the month, `-`, the
      day, nothing left over, and a date `datetime` accepts. */
  function StrptimeDate(s: string): (r: Option<DateTime>)
    ensures r.Some? ==> Valid(r.value)
    ensures r.Some? ==> r.value.hour == 0 && r.value.minute == 0 && r.value.second == 0 && r.value.microsecond == 0
    ensures r.Some? ==> |s| >= 8 && s[4] == '-' && ReadsAs(s[..4], r.value.year)
  {
    if |s| < 5 || !(forall i :: 0 <= i < 4 ==> '0' <= s[i] <= '9') || s[4] != '-' then None
    else
      match MonthField(s[5..])
      case None => None
      case Some(m) =>
        var k := 5 + m.width;
        assert s[5..][..m.width] == s[5..k];
        if k >= |s| || s[k] != '-' then None
        else
          match DayField(s[k + 1..])
          case None => None
          case Some(d) =>
            var y := DecimalValue(s[..4]);
            DecimalBound(s[..4]);
            if k + 1 + d.width != |s| then None
            else if y == 0 || d.value > DaysInMonth(y, m.value) then None
            else Some(DateTime(y, m.value, d.value, 0, 0, 0, 0))
  }

  /** A run of `n` digits is worth less than `10^n`. */
  lemma {:induction false} DecimalBound(s: string)
    requires forall i :: 0 <= i < |s| ==> '0' <= s[i] <= '9'
    ensures DecimalValue(s) < Pow10(|s|)
    decreases |s|
  {
    if s != [] {
      DecimalBound(s[..|s| - 1]);
    }
  }

  /** The date a save records parses back to the day it was saved on. */
  lemma {:induction false} StrptimeFormatDate(t: DateTime)
    requires Valid(t) && t.year >= 1000
    ensures StrptimeDate(FormatDate(t)) == Some(DateTime(t.year, t.month, t.day, 0, 0, 0, 0))
  {
    var s := FormatDate(t);
    FormatDateRoundTrip(t);
    PadRoundTrip(t.month, 2);
    PadRoundTrip(t.day, 2);
    FormatDateDigits(t);
    assert s[5..][..2] == s[5..7];
    assert s[8..][..2] == s[8..];
    MonthFieldOfTwo(s[5..], t.month);
    DayFieldOfTwo(s[8..], t.day);
    StrptimeOfTen(s, t.year, t.month, t.day);
  }

  /** The digits of a `YYYY-MM-DD` date sit around the two dashes. */
  lemma {:induction false} FormatDateDigits(t: DateTime)
    requires Valid(t) && t.year >= 1000
    ensures var s := FormatDate(t);
            |s| == 10 && forall i :: 0 <= i < 10 && i != 4 && i != 7 ==> '0' <= s[i] <= '9'
  {
    IsoDateIsFormatDate(t);
    assert FormatDate(t) == IsoDate(t);
  }

  /** A ten-character `YYYY-MM-DD` string with valid fields parses. */
  lemma {:induction false} StrptimeOfTen(s: string, y: nat, m: nat, d: nat)
    requires |s| == 10 && s[4] == '-' && s[7] == '-' && forall i :: 0 <= i < 4 ==> '0' <= s[i] <= '9'
    requires DecimalValue(s[..4]) == y && 1 <= y && 1 <= m <= 12 && 1 <= d <= DaysInMonth(y, m)
    requires MonthField(s[5..]) == Some(Field(m, 2)) && DayField(s[8..]) == Some(Field(d, 2))
    ensures StrptimeDate(s) == Some(DateTime(y, m, d, 0, 0, 0, 0))
  {
    assert s[5 + 2 + 1..] == s[8..];
  }

  /** Two digits worth a month are read whole as that month. */
  lemma {:induction false} MonthFieldOfTwo(s: string, m: nat)
    requires |s| >= 2 && ReadsAs(s[..2], m) && 1 <= m <= 12
    ensures MonthField(s) == Some(Field(m, 2))
  {
    TwoDigits(s[..2]);
  }

  /** Two digits worth a day are read whole as that day. */
  lemma {:induction false} DayFieldOfTwo(s: string, d: nat)
    requires |s| >= 2 && ReadsAs(s[..2], d) && 1 <= d <= 31
    ensures DayField(s) == Some(Field(d, 2))
  {
    TwoDigits(s[..2]);
  }

  lemma {:induction false} TwoDigits(s: string)
    requires |s| == 2 && '0' <= s[0] <= '9' && '0' <= s[1] <= '9'
    ensures DecimalValue(s) == 10 * DigitValue(s[0]) + DigitValue(s[1])
  {
    var p := s[..1];
    assert s[..|s| - 1] == p && p[..|p| - 1] == [];
    assert DecimalValue(p) == DigitValue(s[0]);
  }

  /** For a four-digit year the isoformat date is the `%Y-%m-%d` date. */
  lemma {:induction false} IsoDateIsFormatDate(t: DateTime)
    requires Valid(t) && t.year >= 1000
    ensures IsoFormat(t)[..10] == FormatDate(t)
  {
    var y := NatToDecimal(t.year);
    DecimalLength(t.year, 4);
    assert |y| == 4 by {
      if |y| < 4 {
        ShortDecimalIsSmall(t.year, |y|);
      }
    }
    PadSplit(t.year, 4);
    assert Zeros(0) + y == y;
    assert IsoFormat(t)[..10] == IsoDate(t);
  }

  /** Where the three fields sit in `hour:minute:second`. */
  lemma {:induction false} FieldsOfTime(h: string, m: string, s: string)
    requires |h| == 2 && |m| == 2 && |s| == 2
    ensures var r := h + ":" + m + ":" + s;
            && |r| == 8 && r[2] == ':' && r[5] == ':'
            && r[..2] == h && r[3..5] == m && r[6..] == s && r[6..8] == s
  {
    var r := h + ":" + m + ":" + s;
    assert r[..2] == h;
    assert r[3..5] == m;
    assert r[6..] == s;
  }
}
