/**
 `convert_numbers_to_words` of backend_python/text_to_speech.py: every
 maximal run of digits is replaced by its spelled-out form (num2words, an
 oracle here), then three unit symbols are spelled out by plain literal
 replacement, in this order: "km²", "m²", "%".
 */
module Numerals {
  import opened PyStr

  const KmSquared: string := "km\U{B2}"
  const KmSquaredWords: string := " kilom\U{E8}tres carr\U{E9}s"
  const MSquared: string := "m\U{B2}"
  const MSquaredWords: string := " m\U{E8}tres carr\U{E9}s"
  const Percent: string := "%"
  const PercentWords: string := " pour cent"

  /** The digit class `\d`, restricted to ASCII. */
  predicate IsDigit(c: char) {
    '0' <= c <= '9'
  }

  predicate NoDigits(s: string) {
    forall c :: c in s ==> !IsDigit(c)
  }

  predicate AllDigits(s: string) {
    forall k :: 0 <= k < |s| ==> IsDigit(s[k])
  }

  /** Length of the digit run that starts `s`: `\d+` matches greedily. */
  function DigitRun(s: string): (n: nat)
    ensures n <= |s|
    ensures |s| > 0 && IsDigit(s[0]) ==> n > 0
  {
    if |s| == 0 || !IsDigit(s[0]) then 0 else 1 + DigitRun(s[1..])
  }

  /** The run is all digits and cannot be extended: it is maximal. */
  lemma {:induction false} DigitRunMaximal(s: string)
    ensures forall k :: 0 <= k < DigitRun(s) ==> IsDigit(s[k])
    ensures DigitRun(s) < |s| ==> !IsDigit(s[DigitRun(s)])
  {
    if |s| > 0 && IsDigit(s[0]) {
      DigitRunMaximal(s[1..]);
      assert forall k :: 1 <= k < DigitRun(s) ==> s[k] == s[1..][k - 1];
    }
  }

  /** `re.sub(r'\d+', numWord, s)`: each maximal digit run is handed to `numWord`. */
  function ExpandNumbers(s: string, numWord: string -> string): string
    decreases |s|
  {
    if |s| == 0 then ""
    else if IsDigit(s[0]) then
      var n := DigitRun(s);
      numWord(s[..n]) + ExpandNumbers(s[n..], numWord)
    else
      [s[0]] + ExpandNumbers(s[1..], numWord)
  }

  /** Digit-free text is left as it is. */
  lemma {:induction false} ExpandDigitFree(s: string, numWord: string -> string)
    requires NoDigits(s)
    ensures ExpandNumbers(s, numWord) == s
    decreases |s|
  {
    if |s| > 0 {
      assert s[0] in s;
      assert NoDigits(s[1..]) by {
        forall c | c in s[1..] ensures !IsDigit(c) {
          var k :| 0 <= k < |s[1..]| && s[1..][k] == c;
          assert s[k + 1] == c;
        }
      }
      ExpandDigitFree(s[1..], numWord);
      assert [s[0]] + s[1..] == s;
    }
  }

  /** When the oracle never writes a digit, no digit is left. */
  lemma {:induction false} ExpandLeavesNoDigits(s: string, numWord: string -> string)
    requires forall d :: NoDigits(numWord(d))
    ensures NoDigits(ExpandNumbers(s, numWord))
    decreases |s|
  {
    if |s| > 0 {
      if IsDigit(s[0]) {
        var n := DigitRun(s);
        ExpandLeavesNoDigits(s[n..], numWord);
        assert NoDigits(numWord(s[..n]));
      } else {
        ExpandLeavesNoDigits(s[1..], numWord);
      }
    }
  }

  /** A whole digit run goes to `numWord` in one piece. */
  lemma ExpandDigitRun(d: string, numWord: string -> string)
    requires |d| > 0 && AllDigits(d)
    ensures ExpandNumbers(d, numWord) == numWord(d)
  {
    var n := DigitRun(d);
    DigitRunMaximal(d);
    assert n == |d|;
    assert d[..n] == d;
  }

  /** The digit run at the head of `a + b`, when `a` ends it or `b` does not continue it. */
  lemma {:induction false} DigitRunConcat(a: string, b: string)
    requires (|a| > 0 && !IsDigit(a[|a| - 1])) || |b| == 0 || !IsDigit(b[0])
    ensures DigitRun(a) < |a| ==> DigitRun(a + b) == DigitRun(a)
    ensures DigitRun(a) == |a| ==> DigitRun(a + b) == |a|
    decreases |a|
  {
    if |a| == 0 {
      assert a + b == b;
    } else {
      assert (a + b)[0] == a[0];
      if IsDigit(a[0]) {
        assert (a + b)[1..] == a[1..] + b;
        if |a| > 1 {
          assert a[1..][|a[1..]| - 1] == a[|a| - 1];
        }
        DigitRunConcat(a[1..], b);
      }
    }
  }

  /** One unfolding of `ExpandNumbers` at a leading digit run of length `n`. */
  lemma ExpandUnfoldDigit(s: string, n: nat, numWord: string -> string)
    requires |s| > 0 && IsDigit(s[0]) && n == DigitRun(s)
    ensures ExpandNumbers(s, numWord) == numWord(s[..n]) + ExpandNumbers(s[n..], numWord)
  {
  }

  /** The digit run at the head of `a + b` is the one at the head of `a`. */
  lemma ExpandConcatUnfoldDigit(a: string, b: string, numWord: string -> string)
    requires |a| > 0 && IsDigit(a[0])
    requires !IsDigit(a[|a| - 1]) || |b| == 0 || !IsDigit(b[0])
    ensures ExpandNumbers(a + b, numWord)
            == numWord(a[..DigitRun(a)]) + ExpandNumbers(a[DigitRun(a)..] + b, numWord)
  {
    var s := a + b;
    var n := DigitRun(a);
    assert DigitRun(s) == n by {
      DigitRunConcat(a, b);
    }
    assert |s| > 0 && IsDigit(s[0]) by {
      assert s[0] == a[0];
    }
    ExpandUnfoldDigit(s, n, numWord);
    SameRun(s, a, b, n);
  }

  lemma SameRun(s: string, a: string, b: string, n: nat)
    requires s == a + b && n <= |a|
    ensures s[..n] == a[..n] && s[n..] == a[n..] + b
  {
  }

  /** One unfolding of `ExpandNumbers(a + b)` at a non-digit head. */
  lemma ExpandConcatUnfoldOther(a: string, b: string, numWord: string -> string)
    requires |a| > 0 && !IsDigit(a[0])
    ensures ExpandNumbers(a + b, numWord) == [a[0]] + ExpandNumbers(a[1..] + b, numWord)
  {
    assert (a + b)[0] == a[0];
    assert (a + b)[1..] == a[1..] + b;
  }

  lemma Regroup(whole: string, head: string, tail: string, left: string, right: string, first: string)
    requires whole == head + tail && tail == left + right && first == head + left
    ensures whole == first + right
  {
  }

  /**
   Expansion works piecewise: cutting the text where no digit run is split
   and expanding the parts gives the same result.
   */
  lemma {:induction false} ExpandNumbersConcat(a: string, b: string, numWord: string -> string)
    requires |a| == 0 || |b| == 0 || !IsDigit(a[|a| - 1]) || !IsDigit(b[0])
    ensures ExpandNumbers(a + b, numWord) == ExpandNumbers(a, numWord) + ExpandNumbers(b, numWord)
    decreases |a|
  {
    if |a| == 0 {
      assert a + b == b;
    } else if IsDigit(a[0]) {
      var n := DigitRun(a);
      if n < |a| {
        assert a[n..][|a[n..]| - 1] == a[|a| - 1];
        ExpandNumbersConcat(a[n..], b, numWord);
      } else {
        assert a[n..] + b == b;
      }
      ExpandConcatUnfoldDigit(a, b, numWord);
      ExpandUnfoldDigit(a, n, numWord);
      Regroup(ExpandNumbers(a + b, numWord), numWord(a[..n]), ExpandNumbers(a[n..] + b, numWord),
              ExpandNumbers(a[n..], numWord), ExpandNumbers(b, numWord), ExpandNumbers(a, numWord));
    } else {
      if |a| > 1 {
        assert a[1..][|a[1..]| - 1] == a[|a| - 1];
      }
      ExpandNumbersConcat(a[1..], b, numWord);
      ExpandConcatUnfoldOther(a, b, numWord);
      Regroup(ExpandNumbers(a + b, numWord), [a[0]], ExpandNumbers(a[1..] + b, numWord),
              ExpandNumbers(a[1..], numWord), ExpandNumbers(b, numWord), ExpandNumbers(a, numWord));
    }
  }

  /** With an identity oracle the text is unchanged: runs cover digits exactly once. */
  lemma {:induction false} ExpandNumbersIdentity(s: string, numWord: string -> string)
    requires forall d :: numWord(d) == d
    ensures ExpandNumbers(s, numWord) == s
    decreases |s|
  {
    if |s| > 0 {
      if IsDigit(s[0]) {
        var n := DigitRun(s);
        ExpandNumbersIdentity(s[n..], numWord);
        assert s[..n] + s[n..] == s;
      } else {
        ExpandNumbersIdentity(s[1..], numWord);
        assert [s[0]] + s[1..] == s;
      }
    }
  }

  /** The words written in place of the units hold no digit, no '%' and no '²'. */
  lemma UnitWordsPlain()
    ensures forall c :: c in KmSquaredWords ==> !IsDigit(c) && c != '%' && c != '\U{B2}'
    ensures forall c :: c in MSquaredWords ==> !IsDigit(c) && c != '%' && c != '\U{B2}'
    ensures forall c :: c in PercentWords ==> !IsDigit(c) && c != '%' && c != '\U{B2}'
  {
  }

  /** After the three unit rules a digit-free text is still digit-free. */
  lemma UnitRulesKeepNoDigits(s: string)
    requires NoDigits(s)
    ensures NoDigits(ReplaceAll(ReplaceAll(ReplaceAll(s, KmSquared, KmSquaredWords), MSquared, MSquaredWords), Percent, PercentWords))
  {
    UnitWordsPlain();
    var km := ReplaceAll(s, KmSquared, KmSquaredWords);
    var m := ReplaceAll(km, MSquared, MSquaredWords);
    var r := ReplaceAll(m, Percent, PercentWords);
    forall c | IsDigit(c)
      ensures c !in r
    {
      ReplaceAllKeepsOut(s, KmSquared, KmSquaredWords, c);
      ReplaceAllKeepsOut(km, MSquared, MSquaredWords, c);
      ReplaceAllKeepsOut(m, Percent, PercentWords, c);
    }
  }

  /** `convert_numbers_to_words(text)`. */
  function ConvertNumbersToWords(text: string, numWord: string -> string): (r: string)
    ensures '%' !in r
    ensures NoPair(r, 'm', '\U{B2}')
    ensures (forall d :: NoDigits(numWord(d))) ==> NoDigits(r)
  {
    var numbers := ExpandNumbers(text, numWord);
    var km := ReplaceAll(numbers, KmSquared, KmSquaredWords);
    var m := ReplaceAll(km, MSquared, MSquaredWords);
    assert (forall d :: NoDigits(numWord(d))) ==> NoDigits(ReplaceAll(m, Percent, PercentWords)) by {
      if forall d :: NoDigits(numWord(d)) {
        ExpandLeavesNoDigits(text, numWord);
        UnitRulesKeepNoDigits(numbers);
      }
    }
    UnitWordsPlain();
    ReplaceAllKeepsOut(m, Percent, PercentWords, '%');
    ReplaceAllNoPair(km, MSquared, MSquaredWords, 'm', '\U{B2}');
    ReplaceAllNoPair(m, Percent, PercentWords, 'm', '\U{B2}');
    ReplaceAll(m, Percent, PercentWords)
  }

  /** "km²" is spelled out as one unit, before the "m²" rule could see its tail. */
  lemma SquareKilometreFirst(numWord: string -> string)
    ensures ConvertNumbersToWords(KmSquared, numWord) == KmSquaredWords
  {
    var e := ExpandNumbers(KmSquared, numWord);
    var k := ReplaceAll(e, KmSquared, KmSquaredWords);
    var m := ReplaceAll(k, MSquared, MSquaredWords);
    var r := ReplaceAll(m, Percent, PercentWords);
    assert e == KmSquared by {
      ExpandDigitFree(KmSquared, numWord);
    }
    assert k == KmSquaredWords by {
      assert KmSquared[..|KmSquared|] == KmSquared;
      assert KmSquared[|KmSquared|..] == "";
    }
    assert m == KmSquaredWords by {
      UnitWordsPlain();
      AbsentWhenLastMissing(KmSquaredWords, MSquared);
      ReplaceAllAbsent(KmSquaredWords, MSquared, MSquaredWords);
    }
    assert r == KmSquaredWords by {
      UnitWordsPlain();
      AbsentWhenLastMissing(KmSquaredWords, Percent);
      ReplaceAllAbsent(KmSquaredWords, Percent, PercentWords);
    }
  }

  /** Text without digits, '%' or '²' passes through unchanged. */
  lemma PlainTextUnchanged(text: string, numWord: string -> string)
    requires NoDigits(text) && '%' !in text && '\U{B2}' !in text
    ensures ConvertNumbersToWords(text, numWord) == text
  {
    var e := ExpandNumbers(text, numWord);
    var k := ReplaceAll(e, KmSquared, KmSquaredWords);
    var m := ReplaceAll(k, MSquared, MSquaredWords);
    assert e == text by {
      ExpandDigitFree(text, numWord);
    }
    assert k == text by {
      AbsentWhenLastMissing(text, KmSquared);
      ReplaceAllAbsent(text, KmSquared, KmSquaredWords);
    }
    assert m == text by {
      AbsentWhenLastMissing(text, MSquared);
      ReplaceAllAbsent(text, MSquared, MSquaredWords);
    }
    AbsentWhenLastMissing(text, Percent);
    ReplaceAllAbsent(text, Percent, PercentWords);
  }
}
