/**
  The two uses of `datetime.strptime` in the ingestion code, and `str()` of the datetime it returns:
  a listing date in "%Y-%m-%d" form and a bar's "%Y-%m-%d %H:%M" stamp, rendered back as
  "YYYY-MM-DD HH:MM:SS".
 */
module Dates {
  import opened Wrappers
  import opened PyValues

  datatype Date = Date(year: nat, month: nat, day: nat)

  datatype DateTime = DateTime(date: Date, hour: nat, minute: nat)

  /** Gregorian leap years. */
  predicate IsLeap(y: nat) {
    y % 4 == 0 && (y % 100 != 0 || y % 400 == 0)
  }

  function DaysInMonth(y: nat, m: nat): nat
    requires 1 <= m <= 12
  {
    if m == 2 then (if IsLeap(y) then 29 else 28)
    else if m == 4 || m == 6 || m == 9 || m == 11 then 30
    else 31
  }

  /** A date `datetime` accepts: years 1 to 9999, a real month and day. */
  predicate ValidDate(d: Date) {
    1 <= d.year <= 9999 && 1 <= d.month <= 12 && 1 <= d.day <= DaysInMonth(d.year, d.month)
  }

  predicate ValidDateTime(t: DateTime) {
    ValidDate(t.date) && t.hour < 24 && t.minute < 60
  }

  /** `n` written with exactly `w` decimal digits (leading zeros), the `%0wd` of `str(datetime)`. */
  function Pad(w: nat, n: nat): (s: string)
    ensures |s| == w && AllDigits(s)
  {
    if w == 0 then "" else Pad(w - 1, n / 10) + [DigitChar(n % 10)]
  }

  /** The value of the digits `s[i..i + w]`, or None when one of them is not a digit. */
  function Field(s: string, i: nat, w: nat): (r: Option<nat>)
    requires i + w <= |s|
    ensures r.Some? <==> AllDigits(s[i..i + w])
  {
    if AllDigits(s[i..i + w]) then Some(DigitsValue(s[i..i + w])) else None
  }

  /** `strptime(s, "%Y-%m-%d")` on zero-padded input; None where it raises ValueError. */
  function ParseDay(s: string): (r: Option<Date>)
    ensures r.Some? ==> ValidDate(r.value) && |s| == 10
  {
    if |s| != 10 || s[4] != '-' || s[7] != '-' then None
    else
      var y, m, d := Field(s, 0, 4), Field(s, 5, 2), Field(s, 8, 2);
      if y.None? || m.None? || d.None? then None
      else if ValidDate(Date(y.value, m.value, d.value)) then Some(Date(y.value, m.value, d.value))
      else None
  }

  /** `strptime(s, "%Y-%m-%d %H:%M")` on zero-padded input; None where it raises ValueError. */
  function ParseStamp(s: string): (r: Option<DateTime>)
    ensures r.Some? ==> ValidDateTime(r.value) && |s| == 16
  {
    if |s| != 16 || s[10] != ' ' || s[13] != ':' then None
    else
      var d := ParseDay(s[..10]);
      var h, mi := Field(s, 11, 2), Field(s, 14, 2);
      if d.None? || h.None? || mi.None? || h.value >= 24 || mi.value >= 60 then None
      else Some(DateTime(d.value, h.value, mi.value))
  }

  function ShowDay(d: Date): (s: string)
    ensures |s| == 10
  {
    Pad(4, d.year) + "-" + Pad(2, d.month) + "-" + Pad(2, d.day)
  }

  /** `str(t)` for a datetime whose seconds are zero: "YYYY-MM-DD HH:MM:00". */
  function Render(t: DateTime): (s: string)
    ensures |s| == 19
  {
    ShowDay(t.date) + " " + Pad(2, t.hour) + ":" + Pad(2, t.minute) + ":00"
  }

  lemma {:induction false} PadDigitsValue(t: string)
    requires AllDigits(t)
    ensures Pad(|t|, DigitsValue(t)) == t
  {
    if t != [] {
      var init := t[..|t| - 1];
      PadDigitsValue(init);
      assert init + [t[|t| - 1]] == t;
    }
  }

  lemma {:induction false} DigitsValueOfPad(w: nat, n: nat)
    requires n < Power10(w)
    ensures DigitsValue(Pad(w, n)) == n
  {
    if w > 0 {
      var s := Pad(w, n);
      assert s[..|s| - 1] == Pad(w - 1, n / 10);
      DigitsValueOfPad(w - 1, n / 10);
    }
  }

  function Power10(w: nat): (p: nat)
    ensures p >= 1
  {
    if w == 0 then 1 else 10 * Power10(w - 1)
  }

  /** Parsing a well-formed day and printing it back gives the same ten characters. */
  lemma ShowParseDay(s: string)
    requires ParseDay(s).Some?
    ensures ShowDay(ParseDay(s).value) == s
  {
    PadDigitsValue(s[0..4]);
    PadDigitsValue(s[5..7]);
    PadDigitsValue(s[8..10]);
    assert s == s[0..4] + "-" + s[5..7] + "-" + s[8..10];
  }

  /**
    `str(strptime(s, "%Y-%m-%d %H:%M"))` is `s` followed by ":00": the datetime column of a bar is
    its date, a space, its minute and zero seconds.
   */
  lemma RenderParseStamp(s: string)
    requires ParseStamp(s).Some?
    ensures Render(ParseStamp(s).value) == s + ":00"
  {
    var t := ParseStamp(s).value;
    ShowParseDay(s[..10]);
    PadDigitsValue(s[11..13]);
    PadDigitsValue(s[14..16]);
    assert s == s[..10] + " " + s[11..13] + ":" + s[14..16];
  }

  lemma ParseDayShow(d: Date)
    requires ValidDate(d)
    ensures ParseDay(ShowDay(d)) == Some(d)
  {
    var s := ShowDay(d);
    assert s[0..4] == Pad(4, d.year);
    assert s[5..7] == Pad(2, d.month);
    assert s[8..10] == Pad(2, d.day);
    assert Power10(2) == 100 && Power10(4) == 10000;
    DigitsValueOfPad(4, d.year);
    DigitsValueOfPad(2, d.month);
    DigitsValueOfPad(2, d.day);
  }

  /** Every valid datetime is accepted in its rendered form: the parser rejects nothing `str()` can print. */
  lemma ParseStampRender(t: DateTime)
    requires ValidDateTime(t)
    ensures ParseStamp(Render(t)[..16]) == Some(t)
  {
    var s := Render(t)[..16];
    assert s[..10] == ShowDay(t.date);
    ParseDayShow(t.date);
    assert s[11..13] == Pad(2, t.hour);
    assert s[14..16] == Pad(2, t.minute);
    assert Power10(2) == 100;
    DigitsValueOfPad(2, t.hour);
    DigitsValueOfPad(2, t.minute);
  }
}
