/** The string and number conversions the pages rely on: the decimal
    rendering of a number (`n.toString()` and template literals), the
    integer parse of an id (`parseInt(s, 10)`), and the first field of
    `s.split(",")`. */
module Text {
  import opened Wrappers

  predicate IsDigit(c: char) {
    '0' <= c <= '9'
  }

  predicate AllDigits(s: string) {
    forall i | 0 <= i < |s| :: IsDigit(s[i])
  }

  function DigitValue(c: char): (d: nat)
    requires IsDigit(c)
    ensures d < 10
  {
    (c as int) - ('0' as int)
  }

  function DigitChar(d: nat): (c: char)
    requires d < 10
    ensures IsDigit(c) && DigitValue(c) == d
  {
    ('0' as int + d) as char
  }

  /** The decimal representation of `n`: digits only, never empty, and a
      leading zero only for zero itself. */
  function NatToString(n: nat): (r: string)
    ensures |r| >= 1 && AllDigits(r)
    ensures r[0] == '0' <==> n == 0
    decreases n
  {
    if n < 10 then [DigitChar(n)] else NatToString(n / 10) + [DigitChar(n % 10)]
  }

  /** The number a string of digits denotes, most significant digit first. */
  function DigitsValue(s: string): nat
    requires AllDigits(s)
    decreases |s|
  {
    if |s| == 0 then 0 else DigitsValue(s[..|s| - 1]) * 10 + DigitValue(s[|s| - 1])
  }

  /** The longest run of digits at the start of `s`. */
  function LeadingDigits(s: string): (r: string)
    ensures AllDigits(r) && r <= s
    ensures |r| == |s| || !IsDigit(s[|r|])
    decreases |s|
  {
    if |s| == 0 || !IsDigit(s[0]) then "" else [s[0]] + LeadingDigits(s[1..])
  }

  /** `parseInt(s, 10)` on strings without leading white space or sign:
      the value of the leading digit run, or `None` (NaN) when `s` does
      not start with a digit. */
  function ParseInt(s: string): (r: Option<nat>)
    ensures r.Some? <==> |s| > 0 && IsDigit(s[0])
  {
    if |s| == 0 || !IsDigit(s[0]) then None else Some(DigitsValue(LeadingDigits(s)))
  }

  /** A string is a canonical id when it is exactly the decimal
      representation of the number it parses to ("7", not "07" or "7a"). */
  predicate IsCanonical(s: string) {
    ParseInt(s).Some? && NatToString(ParseInt(s).value) == s
  }

  /** The first field of `s.split(",")`: everything before the first comma,
      or all of `s` when it holds none. */
  function BeforeComma(s: string): (r: string)
    ensures ',' !in r && r <= s
    ensures r == s || s[|r|] == ','
    decreases |s|
  {
    if |s| == 0 || s[0] == ',' then "" else [s[0]] + BeforeComma(s[1..])
  }

  lemma {:induction false} DigitsValueOfNatToString(n: nat)
    ensures DigitsValue(NatToString(n)) == n
    decreases n
  {
    var r := NatToString(n);
    if n < 10 {
      assert r[..0] == "";
    } else {
      var p := NatToString(n / 10);
      assert r == p + [DigitChar(n % 10)];
      assert r[..|r| - 1] == p;
      DigitsValueOfNatToString(n / 10);
    }
  }

  /** A digit run followed by anything that does not start with a digit
      has exactly that run as its leading digits. */
  lemma {:induction false} LeadingDigitsOfRun(ds: string, t: string)
    requires AllDigits(ds)
    requires |t| == 0 || !IsDigit(t[0])
    ensures LeadingDigits(ds + t) == ds
    decreases |ds|
  {
    if |ds| == 0 {
      assert ds + t == t;
    } else {
      assert (ds + t)[1..] == ds[1..] + t;
      LeadingDigitsOfRun(ds[1..], t);
      assert ds == [ds[0]] + ds[1..];
    }
  }

  /** `parseInt` reads back the number `toString` wrote, whatever
      non-digit text follows it. */
  lemma ParseIntOfNatToString(n: nat, t: string)
    requires |t| == 0 || !IsDigit(t[0])
    ensures ParseInt(NatToString(n) + t) == Some(n)
  {
    LeadingDigitsOfRun(NatToString(n), t);
    DigitsValueOfNatToString(n);
  }

  lemma NatToStringIsCanonical(n: nat)
    ensures IsCanonical(NatToString(n))
    ensures ParseInt(NatToString(n)) == Some(n)
  {
    ParseIntOfNatToString(n, "");
    assert NatToString(n) + "" == NatToString(n);
  }

  /** Canonical ids are equal exactly when the numbers they parse to are. */
  lemma CanonicalParseInjective(a: string, b: string)
    requires IsCanonical(a) && IsCanonical(b)
    ensures ParseInt(a) == ParseInt(b) <==> a == b
  {
  }

  /** The first field of `a + "," + b` is `a` when `a` holds no comma. */
  lemma BeforeCommaOfJoin(a: string, b: string)
    requires ',' !in a
    ensures BeforeComma(a + "," + b) == a
  {
    var s := a + "," + b;
    var r := BeforeComma(s);
    assert s[|a|] == ',';
    assert forall i | 0 <= i < |a| :: s[i] == a[i];
    assert r == s[..|r|] == a;
  }
}
