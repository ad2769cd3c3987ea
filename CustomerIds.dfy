/**
 * Customer numbers as text. After `dropna` the `CustomerID` column holds
 * whole numbers stored as floats, so `astype(str)` writes each one below
 * 10^16 in decimal followed by ".0" (17850 becomes "17850.0"); larger
 * numbers, printed in exponent notation, are outside this model.
 */
module CustomerIds {
  import opened Wrappers

  predicate IsDigit(c: char)
  {
    '0' <= c <= '9'
  }

  function DigitChar(d: nat): (c: char)
    requires d < 10
    ensures IsDigit(c)
  {
    ('0' as int + d) as char
  }

  function DigitValue(c: char): (d: nat)
    requires IsDigit(c)
    ensures d < 10
  {
    c as int - '0' as int
  }

  /** The decimal digits of n, most significant first, with no leading zeros. */
  function Decimal(n: nat): (s: string)
    ensures |s| > 0
    ensures forall i :: 0 <= i < |s| ==> IsDigit(s[i])
    decreases n
  {
    if n < 10 then [DigitChar(n)] else Decimal(n / 10) + [DigitChar(n % 10)]
  }

  /** The number a string of decimal digits denotes. */
  function ParseDecimal(s: string): nat
    requires forall i :: 0 <= i < |s| ==> IsDigit(s[i])
    decreases |s|
  {
    if s == [] then 0 else ParseDecimal(s[..|s| - 1]) * 10 + DigitValue(s[|s| - 1])
  }

  /** Reading back the digits of n gives n. */
  lemma {:induction false} DecimalRoundTrip(n: nat)
    ensures ParseDecimal(Decimal(n)) == n
    decreases n
  {
    if n >= 10 {
      DecimalRoundTrip(n / 10);
      var s := Decimal(n);
      assert s[..|s| - 1] == Decimal(n / 10);
    }
  }

  /** `astype(str)` of a customer number held as a float: its digits, then ".0". */
  function IdText(id: nat): (s: string)
    ensures |s| >= 3 && s[|s| - 2..] == ".0"
    ensures forall i :: 0 <= i < |s| - 2 ==> IsDigit(s[i])
  {
    Decimal(id) + ".0"
  }

  /** The customer number a text of the form digits + ".0" stands for; None for any other text. */
  function ParseIdText(s: string): (r: Option<nat>)
    ensures r.Some? <==> |s| >= 3 && s[|s| - 2..] == ".0" && forall i :: 0 <= i < |s| - 2 ==> IsDigit(s[i])
  {
    if |s| >= 3 && s[|s| - 2..] == ".0" && forall i :: 0 <= i < |s| - 2 ==> IsDigit(s[i])
    then Some(ParseDecimal(s[..|s| - 2]))
    else None
  }

  /** The text of a customer number reads back as that number. */
  lemma IdTextRoundTrip(id: nat)
    ensures ParseIdText(IdText(id)) == Some(id)
  {
    var s := IdText(id);
    assert s[..|s| - 2] == Decimal(id);
    DecimalRoundTrip(id);
  }

  /** The customer number of a text, 0 for a text that is not one. */
  function IdOfText(s: string): nat
  {
    match ParseIdText(s)
    case Some(n) => n
    case None => 0
  }

  /** `IdOfText` undoes `IdText`, so distinct customers keep distinct texts. */
  lemma IdTextInjective(a: nat, b: nat)
    ensures IdOfText(IdText(a)) == a
    ensures IdText(a) == IdText(b) <==> a == b
  {
    IdTextRoundTrip(a);
    IdTextRoundTrip(b);
  }
}
