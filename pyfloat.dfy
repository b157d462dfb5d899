/**
 * Python's `float(text)` for plain decimal notation: surrounding whitespace
 * is stripped, then an optional sign, digits, an optional point and more
 * digits, with at least one digit in all.
 */
module PyFloat {
  import opened Results
  import opened PyText

  predicate IsDigit(c: char) {
    '0' <= c <= '9'
  }

  predicate AllDigits(s: string) {
    forall i :: 0 <= i < |s| ==> IsDigit(s[i])
  }

  /** Characters that can occur in a decimal literal. */
  predicate IsNumeral(c: char) {
    IsDigit(c) || c == '.' || c == '+' || c == '-'
  }

  predicate AllNumerals(s: string) {
    forall i :: 0 <= i < |s| ==> IsNumeral(s[i])
  }

  /** The value of a run of decimal digits, most significant first. */
  function DigitsValue(s: string): nat
    requires AllDigits(s)
  {
    if s == [] then 0 else 10 * DigitsValue(s[..|s| - 1]) + (s[|s| - 1] as int - '0' as int)
  }

  function Pow10(n: nat): (r: nat)
    ensures r >= 1
  {
    if n == 0 then 1 else 10 * Pow10(n - 1)
  }

  /** Length of the run of digits at the start of `s`. */
  function LeadingDigits(s: string): (k: nat)
    ensures k <= |s| && AllDigits(s[..k])
    ensures k == |s| || !IsDigit(s[k])
  {
    if s == [] || !IsDigit(s[0]) then 0
    else
      var k := 1 + LeadingDigits(s[1..]);
      assert s[..k] == [s[0]] + s[1..][..k - 1];
      k
  }

  /** An unsigned literal: `d+`, `d+.`, `d+.d+` or `.d+`. */
  function ParseUnsigned(u: string): (r: Option<real>)
    ensures r.Some? ==> u != [] && AllNumerals(u) && r.value >= 0.0
  {
    var k := LeadingDigits(u);
    var whole := DigitsValue(u[..k]) as real;
    if k == |u| then
      if k > 0 then Some(whole) else None
    else if u[k] == '.' && AllDigits(u[k + 1..]) && (k > 0 || k + 1 < |u|) then
      assert forall i :: 0 <= i < |u| ==> (i < k ==> u[..k][i] == u[i]) && (k < i ==> u[k + 1..][i - k - 1] == u[i]);
      Some(whole + DigitsValue(u[k + 1..]) as real / Pow10(|u| - k - 1) as real)
    else
      None
  }

  /**
   * `float(t)`: `None` where Python raises `ValueError`. A text whose
   * stripped form holds anything but digits, a point or a sign is rejected.
   */
  function ParseFloat(t: string): (r: Option<real>)
    ensures r.Some? ==> Strip(t) != [] && AllNumerals(Strip(t))
  {
    var u := Strip(t);
    if u != [] && (u[0] == '+' || u[0] == '-') then
      match ParseUnsigned(u[1..])
      case None => None
      case Some(v) =>
        assert forall i :: 0 < i < |u| ==> u[1..][i - 1] == u[i];
        Some(if u[0] == '-' then -v else v)
    else
      ParseUnsigned(u)
  }

  /** Text holding a character that is neither whitespace nor part of a number does not parse. */
  lemma StrayCharacterRejected(t: string, p: nat)
    requires p < |t| && !IsSpace(t[p]) && !IsNumeral(t[p])
    ensures ParseFloat(t) == None
  {
    var r := Strip(t);
    var i0 := StripStart(t);
    assert i0 <= p < i0 + |r|;
    assert r[p - i0] == t[p];
  }

  /** The decimal digits of `n`, without leading zeros. */
  function ShowNat(n: nat): (s: string)
    ensures s != [] && AllDigits(s)
  {
    var d := ['0' + (n % 10) as char];
    if n < 10 then d else ShowNat(n / 10) + d
  }

  lemma {:induction false} ShowNatValue(n: nat)
    ensures DigitsValue(ShowNat(n)) == n
  {
    if n >= 10 {
      ShowNatValue(n / 10);
      var s := ShowNat(n);
      assert s[..|s| - 1] == ShowNat(n / 10);
    }
  }

  /** A whole number printed in decimal and followed by whitespace parses back to itself. */
  lemma {:induction false} ParseShowNat(n: nat, pad: string)
    requires AllSpace(pad)
    ensures ParseFloat(ShowNat(n) + pad) == Some(n as real)
  {
    var s := ShowNat(n);
    assert [] + s + pad == s + pad;
    StripPadded([], s, pad);
    assert Strip(s + pad) == s;
    assert IsDigit(s[0]);
    ParseDigits(s);
    ShowNatValue(n);
  }

  lemma ParseDigits(s: string)
    requires s != [] && AllDigits(s)
    ensures ParseUnsigned(s) == Some(DigitsValue(s) as real)
  {
    assert LeadingDigits(s) == |s|;
    assert s[..|s|] == s;
  }
}
