/**
 Decimal integers as text: Python's `int(s)` on a query-string value (the parse the
 handlers wrap in `try ... except ValueError`) and the decimal rendering used in
 default error codes such as `ERROR_404`.
 */
module Numerals {
  import opened Wrappers
  import Text

  predicate IsDigit(c: char) {
    '0' <= c <= '9'
  }

  function DigitValue(c: char): nat
    requires IsDigit(c)
  {
    c as int - '0' as int
  }

  function DigitChar(d: nat): char
    requires d < 10
  {
    (d + '0' as int) as char
  }

  /** The digit body `int()` accepts: digits, with single underscores only between digits. */
  predicate IsDigitRun(s: string) {
    && |s| > 0
    && IsDigit(s[0])
    && IsDigit(s[|s| - 1])
    && (forall i :: 0 <= i < |s| ==> IsDigit(s[i]) || s[i] == '_')
    && (forall i :: 0 <= i < |s| - 1 ==> !(s[i] == '_' && s[i + 1] == '_'))
  }

  /** The value of a digit run, underscores ignored. */
  function RunValue(s: string): nat
    requires forall i :: 0 <= i < |s| ==> IsDigit(s[i]) || s[i] == '_'
    decreases |s|
  {
    if |s| == 0 then 0
    else
      var last := s[|s| - 1];
      if last == '_' then RunValue(s[..|s| - 1])
      else 10 * RunValue(s[..|s| - 1]) + DigitValue(last)
  }

  /** Python's `int(s)` over ASCII: surrounding whitespace is ignored, one optional
      sign, then a digit run. `None` stands for the `ValueError` it raises. */
  function ParseInt(s: string): Option<int> {
    var t := Text.Strip(s);
    if |t| > 0 && (t[0] == '-' || t[0] == '+') then
      if IsDigitRun(t[1..]) then
        var v: int := RunValue(t[1..]);
        Some(if t[0] == '-' then -v else v)
      else None
    else if IsDigitRun(t) then Some(RunValue(t))
    else None
  }

  /** `str(n)` for a natural number: no sign, no leading zeros. */
  function ShowNat(n: nat): (r: string)
    ensures |r| > 0 && IsDigit(r[0]) && IsDigit(r[|r| - 1])
    ensures forall i :: 0 <= i < |r| ==> IsDigit(r[i])
    ensures RunValue(r) == n
    ensures |r| > 1 ==> r[0] != '0'
  {
    if n < 10 then [DigitChar(n)]
    else
      var r := ShowNat(n / 10) + [DigitChar(n % 10)];
      assert r[..|r| - 1] == ShowNat(n / 10);
      r
  }

  /** `str(i)` for any integer. */
  function ShowInt(i: int): string {
    if i < 0 then "-" + ShowNat(-i) else ShowNat(i)
  }

  /** Reading back what was written: every integer rendered in decimal is accepted by
      the parser and yields the same integer. */
  lemma ParseShow(i: int)
    ensures ParseInt(ShowInt(i)) == Some(i)
  {
    if i < 0 {
      ParseSignedRun(ShowNat(-i));
    } else {
      ParseRun(ShowNat(i));
    }
  }

  lemma ParseRun(s: string)
    requires IsDigitRun(s)
    ensures ParseInt(s) == Some(RunValue(s))
  {
    assert !Text.IsSpace(s[0]) && !Text.IsSpace(s[|s| - 1]);
    Text.StripOfTrimmed(s);
  }

  lemma ParseSignedRun(s: string)
    requires IsDigitRun(s)
    ensures var v: int := RunValue(s); ParseInt("-" + s) == Some(-v)
  {
    var t := "-" + s;
    assert t[1..] == s;
    assert t[0] == '-' && t[|t| - 1] == s[|s| - 1];
    Text.StripOfTrimmed(t);
    assert Text.Strip(t) == t;
    assert IsDigitRun(t[1..]);
  }

  /** Text that is blank after stripping is never an integer: `int("")` and `int("  ")`
      both raise. */
  lemma BlankIsNotInt(s: string)
    requires Text.IsBlank(s)
    ensures ParseInt(s) == None
  {
  }
}
