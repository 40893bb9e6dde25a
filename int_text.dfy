/** Integer parsing as Python's `int(text)` does it on text that has already been stripped of
    surrounding whitespace (hockey_scrape.py, the count cells of the row extraction), together
    with the decimal rendering `str(n)` that it inverts. Only ASCII digits are modelled. */
module IntText {
  import opened Options

  predicate IsDigit(c: char) { '0' <= c <= '9' }

  function DigitValue(c: char): (d: nat)
    requires IsDigit(c)
    ensures d < 10
  {
    (c as int) - ('0' as int)
  }

  function DigitChar(d: nat): (c: char)
    requires d < 10
    ensures IsDigit(c) && DigitValue(c) == d
  {
    ('0' as int + d) as char
  }

  /** Characters that may stand in the magnitude part of an integer literal. */
  predicate IsDigitOrUnderscore(c: char) { IsDigit(c) || c == '_' }

  /** A magnitude as `int` admits it: digits, with single underscores allowed between two digits. */
  predicate IsDigitRun(t: string)
  {
    && |t| > 0
    && IsDigit(t[0])
    && IsDigit(t[|t| - 1])
    && (forall i :: 0 <= i < |t| ==> IsDigitOrUnderscore(t[i]))
    && (forall i :: 0 <= i < |t| - 1 && t[i] == '_' ==> t[i + 1] != '_')
  }

  /** The value of a run of digits read in base 10, underscores skipped. */
  function DigitsValue(t: string): nat
    requires forall i :: 0 <= i < |t| ==> IsDigitOrUnderscore(t[i])
  {
    if t == [] then 0
    else
      var last := t[|t| - 1];
      assert IsDigitOrUnderscore(last);
      if last == '_' then DigitsValue(t[..|t| - 1])
      else DigitsValue(t[..|t| - 1]) * 10 + DigitValue(last)
  }

  /** `int(s)` for stripped text `s`: an optional sign then a digit run; anything else raises,
      which is `None` here. */
  function ParseInt(s: string): (r: Option<int>)
    ensures s == "" ==> r == None
    ensures r.Some? ==> forall i :: 0 <= i < |s| ==>
              IsDigitOrUnderscore(s[i]) || (i == 0 && (s[i] == '-' || s[i] == '+'))
    ensures r.Some? && |s| > 0 && s[0] == '-' ==> r.value <= 0
    ensures r.Some? && |s| > 0 && s[0] != '-' ==> r.value >= 0
  {
    if |s| > 0 && (s[0] == '-' || s[0] == '+') then
      var magnitude := s[1..];
      if IsDigitRun(magnitude) then
        var size: int := DigitsValue(magnitude);
        Some(if s[0] == '-' then -size else size)
      else None
    else if IsDigitRun(s) then Some(DigitsValue(s))
    else None
  }

  /** `str(n)` for a natural number: its decimal digits without leading zeros. */
  function ShowNat(n: nat): (s: string)
    ensures |s| > 0 && IsDigit(s[0])
    ensures forall i :: 0 <= i < |s| ==> IsDigit(s[i])
  {
    if n < 10 then [DigitChar(n)] else ShowNat(n / 10) + [DigitChar(n % 10)]
  }

  /** `str(n)` for an integer. */
  function ShowInt(n: int): (s: string)
    ensures s != ""
  {
    if n < 0 then "-" + ShowNat(-n) else ShowNat(n)
  }

  lemma {:induction false} DigitsValueOfShowNat(n: nat)
    ensures IsDigitRun(ShowNat(n))
    ensures DigitsValue(ShowNat(n)) == n
  {
    if n >= 10 {
      DigitsValueOfShowNat(n / 10);
      var s := ShowNat(n);
      assert s[..|s| - 1] == ShowNat(n / 10);
    }
  }

  /** Every integer written out in decimal parses back to itself. */
  lemma ParseShowInt(n: int)
    ensures ParseInt(ShowInt(n)) == Some(n)
  {
    if n < 0 {
      DigitsValueOfShowNat(-n);
      assert ShowInt(n)[1..] == ShowNat(-n);
    } else {
      DigitsValueOfShowNat(n);
    }
  }

  /** Text holding any character that is not a digit, an underscore or a leading sign does not
      parse. */
  lemma ForeignCharacterRejected(s: string, k: nat)
    requires k < |s|
    requires !IsDigitOrUnderscore(s[k]) && !(k == 0 && (s[k] == '-' || s[k] == '+'))
    ensures ParseInt(s) == None
  {
  }
}
