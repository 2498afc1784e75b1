/** The "Mon d, yyyy" date every page stamps on a session it writes, built
    from the month index, day of month and full year the browser clock
    reports, and the chart label cut from it. */
module Dates {
  import opened Wrappers
  import opened Text

  /** `Date.prototype.getMonth()` is always in 0..11. */
  type MonthIndex = m: int | 0 <= m < 12

  /** The clock reading a handler formats: the clock itself is an input. */
  datatype CalendarDate = CalendarDate(month: MonthIndex, day: nat, year: nat)

  const Months: seq<string> :=
    ["Jan", "Feb", "Mar", "Apr", "May", "Jun",
     "Jul", "Aug", "Sep", "Oct", "Nov", "Dec"]

  /** Month names are three letters and hold no comma, space or digit. */
  lemma MonthNameShape(m: MonthIndex)
    ensures |Months[m]| == 3
    ensures forall i | 0 <= i < 3 :: Months[m][i] != ',' && Months[m][i] != ' ' && !IsDigit(Months[m][i])
  {
  }

  /** `months[month] + " " + day + ", " + year`: the three-letter month
      name and a space, then the day's digits, ", " and the year's digits. */
  function FormatDate(d: CalendarDate): (r: string)
    ensures |r| >= 4 && r[..3] == Months[d.month] && r[3] == ' '
    ensures r[4..] == NatToString(d.day) + (", " + NatToString(d.year))
  {
    MonthNameShape(d.month);
    var r := Months[d.month] + " " + (NatToString(d.day) + (", " + NatToString(d.year)));
    assert r[4..] == NatToString(d.day) + (", " + NatToString(d.year));
    r
  }

  /** The label the activity chart puts under a session: the first field of
      its date split at commas. */
  function DateLabel(date: string): (r: string)
    ensures ',' !in r && r <= date
    ensures r == date || date[|r|] == ','
  {
    BeforeComma(date)
  }

  /** The index of a month name, or `None` for any other text. */
  function MonthOf(name: string): (r: Option<MonthIndex>)
    ensures r.Some? ==> Months[r.value] == name
    ensures r.None? ==> forall m: MonthIndex :: Months[m] != name
  {
    if name == "Jan" then Some(0) else if name == "Feb" then Some(1)
    else if name == "Mar" then Some(2) else if name == "Apr" then Some(3)
    else if name == "May" then Some(4) else if name == "Jun" then Some(5)
    else if name == "Jul" then Some(6) else if name == "Aug" then Some(7)
    else if name == "Sep" then Some(8) else if name == "Oct" then Some(9)
    else if name == "Nov" then Some(10) else if name == "Dec" then Some(11)
    else None
  }

  /** Reads a "Mon d, yyyy" string back into its parts: the inverse of
      `FormatDate`, used to state that the formatted date loses nothing. */
  function ParseDate(s: string): Option<CalendarDate> {
    if |s| < 4 || s[3] != ' ' then None
    else
      match MonthOf(s[..3])
      case None => None
      case Some(m) =>
        var ds := LeadingDigits(s[4..]);
        var rest := s[4 + |ds|..];
        if |ds| == 0 || |rest| < 2 || rest[..2] != ", " then None
        else
          match ParseInt(rest[2..])
          case None => None
          case Some(y) => Some(CalendarDate(m, DigitsValue(ds), y))
  }

  lemma MonthOfMonthName(m: MonthIndex)
    ensures MonthOf(Months[m]) == Some(m)
  {
  }

  /** The year follows the day's digits and ", ". */
  lemma FormatDatePieces(d: CalendarDate)
    ensures
      var s := FormatDate(d);
      s[4 + |NatToString(d.day)|..] == ", " + NatToString(d.year)
  {
    var s := FormatDate(d);
    assert s[4 + |NatToString(d.day)|..] == s[4..][|NatToString(d.day)|..];
  }

  /** `ParseDate` reads the month name, the run of day digits and the year
      behind ", ". */
  lemma ParseDateParts(s: string, m: MonthIndex, ds: string, yy: string, year: nat)
    requires |s| >= 4 && s[3] == ' ' && MonthOf(s[..3]) == Some(m)
    requires LeadingDigits(s[4..]) == ds && |ds| > 0
    requires s[4 + |ds|..] == ", " + yy && ParseInt(yy) == Some(year)
    ensures ParseDate(s) == Some(CalendarDate(m, DigitsValue(ds), year))
  {
    var rest := s[4 + |ds|..];
    assert rest[..2] == ", " && rest[2..] == yy;
  }

  /** Formatting then parsing gives back the clock reading. */
  lemma ParseFormatDate(d: CalendarDate)
    ensures ParseDate(FormatDate(d)) == Some(d)
  {
    var dd := NatToString(d.day);
    var yy := NatToString(d.year);
    var s := FormatDate(d);
    FormatDatePieces(d);
    MonthOfMonthName(d.month);
    LeadingDigitsOfRun(dd, ", " + yy);
    DigitsValueOfNatToString(d.day);
    NatToStringIsCanonical(d.year);
    ParseDateParts(s, d.month, dd, yy, d.year);
  }

  /** Two clock readings format to the same string only if they are equal. */
  lemma FormatDateInjective(d1: CalendarDate, d2: CalendarDate)
    ensures FormatDate(d1) == FormatDate(d2) <==> d1 == d2
  {
    if FormatDate(d1) == FormatDate(d2) {
      ParseFormatDate(d1);
      ParseFormatDate(d2);
    }
  }

  /** The chart label of a formatted date is `months[m] + " " + d`. */
  lemma DateLabelOfFormatDate(d: CalendarDate)
    ensures DateLabel(FormatDate(d)) == Months[d.month] + " " + NatToString(d.day)
  {
    var a := Months[d.month] + " " + NatToString(d.day);
    MonthNameShape(d.month);
    assert forall i | 0 <= i < |a| :: a[i] != ',';
    assert FormatDate(d) == a + "," + (" " + NatToString(d.year));
    BeforeCommaOfJoin(a, " " + NatToString(d.year));
  }
}
