/** day_1.rs: calibration values made of the first and the last digit of a line,
    where the better reading also counts digits spelled out as words. */
module Trebuchet {
  import opened Wrappers
  import opened Text
  import opened Utils

  /** The digit characters of a line, in order (`filter(is_numeric)`, ASCII digits). */
  function Digits(s: string): (r: string)
    ensures |r| <= |s| && AllDigits(r)
  {
    if s == [] then []
    else
      var rest := Digits(s[1..]);
      assert forall i :: 1 <= i < |s| ==> s[i] == s[1..][i - 1];
      (if IsDigit(s[0]) then [s[0]] else []) + rest
  }

  /** `decode_calibration_value`: the first and the last digit written next to each
      other and parsed as a `u32`; a line without a digit panics. */
  function DecodeCalibrationValue(line: string): (r: Result<nat>)
    ensures r.Ok? <==> exists i :: 0 <= i < |line| && IsDigit(line[i])
    ensures r.Ok? ==> r.value <= 99
  {
    var characters := Digits(line);
    DigitsNone(line);
    if characters == [] then Err("no digit")
    else
      var joined := [characters[0], characters[|characters| - 1]];
      TwoDigits(characters[0], characters[|characters| - 1]);
      match ParseU32(joined)
      case None => Err("not a number")
      case Some(v) => Ok(v)
  }

  /** A line has no digit characters exactly when none of its characters is a digit. */
  lemma {:induction false} DigitsNone(s: string)
    ensures Digits(s) == [] <==> forall i :: 0 <= i < |s| ==> !IsDigit(s[i])
  {
    if s != [] {
      DigitsNone(s[1..]);
      assert forall i :: 1 <= i < |s| ==> s[i] == s[1..][i - 1];
    }
  }

  /** Two digits written together parse as ten times the first plus the second. */
  lemma TwoDigits(a: char, b: char)
    requires IsDigit(a) && IsDigit(b)
    ensures ParseU32([a, b]) == Some(10 * DigitValue(a) + DigitValue(b))
  {
    assert [a, b][..1] == [a];
    assert DecimalValue([a]) == DigitValue(a) by {
      assert [a][..0] == [];
    }
  }

  // ---------------------------------------------------------------- first and last digit

  /** The first digit of `s` is the first character of `s` that is a digit. */
  lemma {:induction false} FirstDigit(s: string) returns (i: nat)
    requires Digits(s) != []
    ensures i < |s| && s[i] == Digits(s)[0] && IsDigit(s[i])
    ensures forall j :: 0 <= j < i ==> !IsDigit(s[j])
  {
    if !IsDigit(s[0]) {
      var k := FirstDigit(s[1..]);
      assert forall j :: 1 <= j < k + 1 ==> s[j] == s[1..][j - 1];
      i := k + 1;
    } else {
      i := 0;
    }
  }

  lemma {:induction false} DigitsAppend(a: string, b: string)
    ensures Digits(a + b) == Digits(a) + Digits(b)
  {
    if a == [] {
      assert a + b == b;
    } else {
      assert (a + b)[0] == a[0] && (a + b)[1..] == a[1..] + b;
      DigitsAppend(a[1..], b);
    }
  }

  /** The last digit of `s` is the last character of `s` that is a digit. */
  lemma {:induction false} LastDigit(s: string) returns (i: nat)
    requires Digits(s) != []
    ensures i < |s| && s[i] == Digits(s)[|Digits(s)| - 1] && IsDigit(s[i])
    ensures forall j :: i < j < |s| ==> !IsDigit(s[j])
  {
    var init, c := s[..|s| - 1], s[|s| - 1];
    assert s == init + [c];
    DigitsAppend(init, [c]);
    assert Digits([c]) == (if IsDigit(c) then [c] else []) + Digits([]);
    if IsDigit(c) {
      i := |s| - 1;
    } else {
      i := LastDigit(init);
      assert forall j :: i < j < |init| ==> s[j] == init[j];
    }
  }

  /** The value is made of the first and the last digit character of the line. */
  lemma DecodeFirstLast(line: string) returns (i: nat, j: nat)
    requires DecodeCalibrationValue(line).Ok?
    ensures i <= j < |line| && IsDigit(line[i]) && IsDigit(line[j])
    ensures forall k :: 0 <= k < i ==> !IsDigit(line[k])
    ensures forall k :: j < k < |line| ==> !IsDigit(line[k])
    ensures DecodeCalibrationValue(line).value == 10 * DigitValue(line[i]) + DigitValue(line[j])
  {
    var cs := Digits(line);
    TwoDigits(cs[0], cs[|cs| - 1]);
    i := FirstDigit(line);
    j := LastDigit(line);
  }

  /** A line with a single digit `d` decodes to `11 * d`. */
  lemma DecodeOneDigit(line: string)
    requires |Digits(line)| == 1
    ensures DecodeCalibrationValue(line) == Ok(11 * DigitValue(Digits(line)[0]))
  {
    var cs := Digits(line);
    TwoDigits(cs[0], cs[0]);
  }

  // ---------------------------------------------------------------- better_decode_calibration_value

  /** The digit words, "one" first. */
  const DigitWords: seq<string> := ["one", "two", "three", "four", "five", "six", "seven", "eight", "nine"]

  /** The first `n` replacements of `better_decode_calibration_value`, in order: word
      `w` of digit `d` becomes `w`, then `d`, then `w` again, so that letters shared by
      two words (`eightwo`) stay for both. */
  function Rewrite(s: string, n: nat): string
    requires n <= |DigitWords|
  {
    if n == 0 then s
    else
      var w := DigitWords[n - 1];
      ReplaceAll(Rewrite(s, n - 1), w, w + [DigitChar(n)] + w)
  }

  /** `better_decode_calibration_value`. */
  function BetterDecodeCalibrationValue(line: string): (r: Result<nat>)
    ensures r.Ok? ==> r.value <= 99
  {
    DecodeCalibrationValue(Rewrite(line, |DigitWords|))
  }

  /** No digit word in the line: there is nothing to rewrite. */
  predicate NoDigitWord(line: string) {
    forall k :: 0 <= k < |DigitWords| ==> !Contains(line, DigitWords[k])
  }

  lemma {:induction false} RewriteAbsent(s: string, n: nat)
    requires n <= |DigitWords| && NoDigitWord(s)
    ensures Rewrite(s, n) == s
  {
    if n > 0 {
      RewriteAbsent(s, n - 1);
      var w := DigitWords[n - 1];
      ReplaceAbsent(s, w, w + [DigitChar(n)] + w);
    }
  }

  /** On a line that spells out no digit the better reading is the plain one. */
  lemma BetterDecodePlain(line: string)
    requires NoDigitWord(line)
    ensures BetterDecodeCalibrationValue(line) == DecodeCalibrationValue(line)
  {
    RewriteAbsent(line, |DigitWords|);
  }
}
