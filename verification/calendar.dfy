/** The two timestamp formats of the store: `%Y-%m-%d` for a date and
    `%Y-%m-%d %H:%M:%S` for the moment a student was added. Parsing stands
    for `datetime.strptime` (including its calendar check) and formatting for
    `strftime`, both restricted to the zero-padded form the store writes. */
module Calendar {
  import opened Sequences

  datatype Date = Date(year: int, month: int, day: int)

  datatype DateTime = DateTime(date: Date, hour: int, minute: int, second: int)

  predicate IsLeapYear(y: int)
  {
    y % 4 == 0 && (y % 100 != 0 || y % 400 == 0)
  }

  function DaysInMonth(y: int, m: int): int
    requires 1 <= m <= 12
  {
    if m == 2 then (if IsLeapYear(y) then 29 else 28)
    else if m == 4 || m == 6 || m == 9 || m == 11 then 30
    else 31
  }

  /** The dates Python's `datetime.date` accepts. */
  predicate ValidDate(d: Date)
  {
    1 <= d.year <= 9999 && 1 <= d.month <= 12 && 1 <= d.day <= DaysInMonth(d.year, d.month)
  }

  /** The moments Python's `datetime.datetime` accepts (to the second). */
  predicate ValidDateTime(t: DateTime)
  {
    ValidDate(t.date) && 0 <= t.hour < 24 && 0 <= t.minute < 60 && 0 <= t.second < 60
  }

  predicate IsDigit(c: char)
  {
    '0' <= c <= '9'
  }

  predicate AllDigits(s: string)
  {
    forall i :: 0 <= i < |s| ==> IsDigit(s[i])
  }

  function Pow10(n: nat): nat
  {
    if n == 0 then 1 else 10 * Pow10(n - 1)
  }

  /** The value of a string of decimal digits. */
  function Decimal(s: string): nat
    requires AllDigits(s)
  {
    if s == [] then 0 else Decimal(s[..|s| - 1]) * 10 + (s[|s| - 1] as int - '0' as int)
  }

  /** `n` written with exactly `w` digits, zero-padded on the left. */
  function Padded(n: nat, w: nat): (r: string)
    ensures |r| == w && AllDigits(r)
  {
    if w == 0 then [] else Padded(n / 10, w - 1) + [(n % 10 + '0' as int) as char]
  }

  /** Reading back a padded number gives the number, when it fits. */
  lemma {:induction false} DecimalOfPadded(n: nat, w: nat)
    requires n < Pow10(w)
    ensures Decimal(Padded(n, w)) == n
  {
    if w > 0 {
      var p := Padded(n, w);
      assert p[..w - 1] == Padded(n / 10, w - 1);
      DecimalOfPadded(n / 10, w - 1);
    }
  }

  /** Re-padding the value of a digit string gives the string back. */
  lemma {:induction false} PaddedOfDecimal(s: string)
    requires AllDigits(s)
    ensures Decimal(s) < Pow10(|s|)
    ensures Padded(Decimal(s), |s|) == s
  {
    if s != [] {
      var init := s[..|s| - 1];
      PaddedOfDecimal(init);
      var d := s[|s| - 1] as int - '0' as int;
      assert Decimal(s) == Decimal(init) * 10 + d;
      assert (Decimal(init) * 10 + d) / 10 == Decimal(init);
      assert (Decimal(init) * 10 + d) % 10 == d;
      assert s == init + [s[|s| - 1]];
    }
  }

  /** `date.strftime("%Y-%m-%d")`. */
  function FormatDate(d: Date): (r: string)
    requires ValidDate(d)
    ensures |r| == 10 && r[4] == '-' && r[7] == '-'
  {
    Padded(d.year, 4) + "-" + Padded(d.month, 2) + "-" + Padded(d.day, 2)
  }

  /** `datetime.strftime("%Y-%m-%d %H:%M:%S")`: the date's text, a space,
      then the time with `:` between its fields. */
  function FormatTimestamp(t: DateTime): (r: string)
    requires ValidDateTime(t)
    ensures |r| == 19 && r[..10] == FormatDate(t.date)
    ensures r[10] == ' ' && r[13] == ':' && r[16] == ':'
  {
    FormatDate(t.date) + " " + Padded(t.hour, 2) + ":" + Padded(t.minute, 2) + ":" + Padded(t.second, 2)
  }

  /** `datetime.strptime(s, "%Y-%m-%d")`: `None` on every input `strptime`
      refuses, and also on the non-canonical forms it accepts (fields not
      padded with zeros or padded with a space, digits other than ASCII
      ones). A parsed date is a real calendar date, and the text it
      came from is exactly its formatted form. */
  function ParseDate(s: string): (r: Option<Date>)
    ensures r.Some? ==> ValidDate(r.value) && FormatDate(r.value) == s
  {
    if |s| == 10 && s[4] == '-' && s[7] == '-'
       && AllDigits(s[..4]) && AllDigits(s[5..7]) && AllDigits(s[8..])
    then
      var d := Date(Decimal(s[..4]), Decimal(s[5..7]), Decimal(s[8..]));
      if ValidDate(d) then
        PaddedOfDecimal(s[..4]);
        PaddedOfDecimal(s[5..7]);
        PaddedOfDecimal(s[8..]);
        assert s == s[..4] + "-" + s[5..7] + "-" + s[8..];
        Some(d)
      else None
    else None
  }

  /** `datetime.strptime(s, "%Y-%m-%d %H:%M:%S")`: `None` on every input
      `strptime` refuses, and also on the non-canonical forms it accepts
      (fields not padded with zeros or padded with a space, other white
      space than one space between date and time, digits other than ASCII
      ones). A parsed moment is valid, and the text it came from
      is exactly its formatted form. */
  function ParseTimestamp(s: string): (r: Option<DateTime>)
    ensures r.Some? ==> ValidDateTime(r.value) && FormatTimestamp(r.value) == s
  {
    if |s| == 19 && s[10] == ' ' && s[13] == ':' && s[16] == ':'
       && AllDigits(s[11..13]) && AllDigits(s[14..16]) && AllDigits(s[17..])
    then
      match ParseDate(s[..10])
      case None => None
      case Some(d) =>
        var t := DateTime(d, Decimal(s[11..13]), Decimal(s[14..16]), Decimal(s[17..]));
        if ValidDateTime(t) then
          PaddedOfDecimal(s[11..13]);
          PaddedOfDecimal(s[14..16]);
          PaddedOfDecimal(s[17..]);
          assert s == s[..10] + " " + s[11..13] + ":" + s[14..16] + ":" + s[17..];
          Some(t)
        else None
    else None
  }

  /** Every valid date survives formatting and parsing. */
  lemma ParseFormatDate(d: Date)
    requires ValidDate(d)
    ensures ParseDate(FormatDate(d)) == Some(d)
  {
    var s := FormatDate(d);
    var y, m, dd := Padded(d.year, 4), Padded(d.month, 2), Padded(d.day, 2);
    assert s[..4] == y && s[5..7] == m && s[8..] == dd;
    DecimalOfPadded(d.year, 4);
    DecimalOfPadded(d.month, 2);
    DecimalOfPadded(d.day, 2);
  }

  /** The text of a date determines the date. */
  lemma FormatDateInjective(d1: Date, d2: Date)
    requires ValidDate(d1) && ValidDate(d2)
    ensures FormatDate(d1) == FormatDate(d2) ==> d1 == d2
  {
    ParseFormatDate(d1);
    ParseFormatDate(d2);
  }

  /** Every valid moment survives formatting and parsing: a timestamp the
      store writes can always be read back. */
  lemma ParseFormatTimestamp(t: DateTime)
    requires ValidDateTime(t)
    ensures ParseTimestamp(FormatTimestamp(t)) == Some(t)
  {
    var s := FormatTimestamp(t);
    var h, mi, se := Padded(t.hour, 2), Padded(t.minute, 2), Padded(t.second, 2);
    assert s[..10] == FormatDate(t.date);
    assert s[11..13] == h && s[14..16] == mi && s[17..] == se;
    ParseFormatDate(t.date);
    DecimalOfPadded(t.hour, 2);
    DecimalOfPadded(t.minute, 2);
    DecimalOfPadded(t.second, 2);
  }

  /** The two cases named for the date search: a slash-separated date is
      refused, a dash-separated one is read. */
  lemma ParseDateExamples()
    ensures ParseDate("2023/01/01") == None
    ensures ParseDate("2023-01-01") == Some(Date(2023, 1, 1))
  {
    var s := "2023-01-01";
    assert s[..4] == "2023";
    assert s[5..7] == "01";
    assert s[8..] == "01";
    assert "2023"[..3] == "202" && "202"[..2] == "20" && "20"[..1] == "2" && "2"[..0] == "";
    assert "01"[..1] == "0" && "0"[..0] == "";
    assert Decimal("2023") == 2023;
    assert Decimal("01") == 1;
  }
}
