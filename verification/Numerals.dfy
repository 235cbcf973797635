/**
 `Node::IsNumerical`, the regular expression `[-+]?[0-9]*\.?[0-9]+([eE][-+]?[0-9]+)?`
 over the whole value. The matcher below scans once; the pattern says what may be
 split how, as the expression does, and the two agree.
 */
module Numerals {

  predicate IsDigit(c: char) {
    '0' <= c <= '9'
  }

  function DigitsEnd(s: string, i: nat): (j: nat)
    requires i <= |s|
    ensures i <= j <= |s|
    ensures forall k :: i <= k < j ==> IsDigit(s[k])
    ensures j < |s| ==> !IsDigit(s[j])
    decreases |s| - i
  {
    if i < |s| && IsDigit(s[i]) then DigitsEnd(s, i + 1) else i
  }

  function SignEnd(s: string, i: nat): (j: nat)
    requires i <= |s|
    ensures i <= j <= |s| && j <= i + 1
    ensures j == i + 1 ==> s[i] in "+-"
  {
    if i < |s| && s[i] in "+-" then i + 1 else i
  }

  /** One scan: each part takes all it can. */
  predicate IsNumerical(s: string) {
    var whole := SignEnd(s, 0);
    var point := DigitsEnd(s, whole);
    var fraction := if point < |s| && s[point] == '.' then point + 1 else point;
    var mantissa := DigitsEnd(s, fraction);
    && (if fraction > point then mantissa > fraction else point > whole)
    && (mantissa == |s| || IsExponent(s, mantissa))
  }

  predicate IsExponent(s: string, i: nat)
    requires i < |s|
  {
    && s[i] in "eE"
    && var digits := SignEnd(s, i + 1);
       digits < DigitsEnd(s, digits) == |s|
  }

  // ---------- the expression itself ----------

  predicate AllDigits(s: string, from: nat, to: nat)
    requires from <= to <= |s|
  {
    forall k :: from <= k < to ==> IsDigit(s[k])
  }

  /** An optional sign stands between `from` and `to`. */
  predicate OptionalSign(s: string, from: nat, to: nat)
    requires from <= to <= |s|
  {
    to == from || (to == from + 1 && s[from] in "+-")
  }

  /** `[-+]?[0-9]*\.?[0-9]+` cut at `sign`, `whole`, `point`, `end`. */
  predicate MantissaCut(s: string, sign: nat, whole: nat, point: nat, end: nat) {
    && sign <= whole <= point < end <= |s|
    && OptionalSign(s, 0, sign)
    && AllDigits(s, sign, whole)
    && (point == whole || (point == whole + 1 && s[whole] == '.'))
    && AllDigits(s, point, end)
  }

  /** `([eE][-+]?[0-9]+)?` from `end` on, its sign ending at `digits`. */
  predicate ExponentCut(s: string, end: nat, digits: nat)
    requires end <= |s|
  {
    end == |s| ||
    (&& end + 1 <= digits < |s|
     && s[end] in "eE"
     && OptionalSign(s, end + 1, digits)
     && AllDigits(s, digits, |s|))
  }

  ghost predicate MatchesPattern(s: string) {
    exists sign: nat, whole: nat, point: nat, end: nat, digits: nat ::
      MantissaCut(s, sign, whole, point, end) && ExponentCut(s, end, digits)
  }

  lemma {:induction false} DigitsEndIs(s: string, i: nat, j: nat)
    requires i <= j <= |s| && AllDigits(s, i, j) && (j < |s| ==> !IsDigit(s[j]))
    ensures DigitsEnd(s, i) == j
  {
    var k := DigitsEnd(s, i);
    assert k < |s| ==> !IsDigit(s[k]);
  }

  lemma ExponentScan(s: string, end: nat)
    requires end < |s| && IsExponent(s, end)
    ensures ExponentCut(s, end, SignEnd(s, end + 1))
  {
  }

  lemma ExponentFound(s: string, end: nat, digits: nat)
    requires end < |s| && ExponentCut(s, end, digits)
    ensures IsExponent(s, end)
  {
    assert IsDigit(s[digits]);
    assert SignEnd(s, end + 1) == digits;
    DigitsEndIs(s, digits, |s|);
  }

  lemma MantissaScan(s: string, sign: nat, whole: nat, point: nat, end: nat)
    requires MantissaCut(s, sign, whole, point, end)
    requires end < |s| ==> !IsDigit(s[end]) && s[end] != '.'
    ensures SignEnd(s, 0) == sign
    ensures var stop := DigitsEnd(s, sign);
            var fraction := if stop < |s| && s[stop] == '.' then stop + 1 else stop;
            DigitsEnd(s, fraction) == end && if fraction > stop then end > fraction else stop > sign
  {
    assert IsDigit(s[point]);
    if point == whole {
      DigitsEndIs(s, sign, end);
      DigitsEndIs(s, end, end);
    } else {
      DigitsEndIs(s, sign, whole);
      DigitsEndIs(s, point, end);
    }
  }

  lemma ScanMatches(s: string)
    requires IsNumerical(s)
    ensures MatchesPattern(s)
  {
    var sign := SignEnd(s, 0);
    var stop := DigitsEnd(s, sign);
    var fraction := if stop < |s| && s[stop] == '.' then stop + 1 else stop;
    var end := DigitsEnd(s, fraction);
    var digits := if end < |s| then SignEnd(s, end + 1) else end;
    if end < |s| {
      ExponentScan(s, end);
    }
    assert ExponentCut(s, end, digits);
    if fraction > stop {
      assert MantissaCut(s, sign, stop, fraction, end);
    } else {
      assert MantissaCut(s, sign, sign, sign, end);
    }
  }

  lemma MatchIsScanned(s: string, sign: nat, whole: nat, point: nat, end: nat, digits: nat)
    requires MantissaCut(s, sign, whole, point, end) && ExponentCut(s, end, digits)
    ensures IsNumerical(s)
  {
    MantissaScan(s, sign, whole, point, end);
    if end < |s| {
      ExponentFound(s, end, digits);
    }
  }

  /** The scan decides the expression. */
  lemma NumericalIsThePattern(s: string)
    ensures IsNumerical(s) <==> MatchesPattern(s)
  {
    if IsNumerical(s) {
      ScanMatches(s);
    }
    if MatchesPattern(s) {
      var sign: nat, whole: nat, point: nat, end: nat, digits: nat :|
        MantissaCut(s, sign, whole, point, end) && ExponentCut(s, end, digits);
      MatchIsScanned(s, sign, whole, point, end, digits);
    }
  }
}
