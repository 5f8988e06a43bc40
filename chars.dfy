/** Character classes of the expression language (term.go:12-43).
    Every predicate asks whether a string contains at least one character of
    a class, exactly as the source does with strings.IndexAny. */
module Chars {

  const SignChs := "+-"
  const ExponentChs := "^"
  const PunctuationChs := "*/%"
  const LineChs := "+-"
  /** Written out; OperatorsAreTheThreeClasses ties it to the three classes. */
  const OperatorChs := "^*/%+-"
  const NumberChs := "0123456789."

  /** strings.IndexAny: the position of the first character of `s` that occurs in
      `chars`, or -1 when there is none. */
  function IndexAny(s: string, chars: string): (r: int)
    ensures -1 <= r < |s|
    ensures r == -1 <==> forall k :: 0 <= k < |s| ==> s[k] !in chars
    ensures r >= 0 ==> s[r] in chars && forall k :: 0 <= k < r ==> s[k] !in chars
  {
    if s == [] then -1
    else if s[0] in chars then 0
    else
      var r := IndexAny(s[1..], chars);
      assert forall k :: 1 <= k < |s| ==> s[k] == s[1..][k - 1];
      if r == -1 then -1 else r + 1
  }

  /** The operator characters are the exponent, punctuation and line characters, in that order. */
  lemma OperatorsAreTheThreeClasses()
    ensures OperatorChs == ExponentChs + PunctuationChs + LineChs
  {
  }

  /** Some character of `s` occurs in `chars`. */
  predicate ContainsAny(s: string, chars: string) {
    exists k :: 0 <= k < |s| && s[k] in chars
  }

  /** The six class tests of term.go:21-43 are the source's IndexAny tests. */
  lemma ClassTestsAreIndexAny(txt: string)
    ensures IsSign(txt) <==> IndexAny(txt, SignChs) != -1
    ensures IsOperator(txt) <==> IndexAny(txt, OperatorChs) != -1
    ensures IsNumeric(txt) <==> IndexAny(txt, NumberChs) != -1
    ensures IsExponent(txt) <==> IndexAny(txt, ExponentChs) != -1
    ensures IsPunctuation(txt) <==> IndexAny(txt, PunctuationChs) != -1
    ensures IsLine(txt) <==> IndexAny(txt, LineChs) != -1
  {
  }

  predicate IsSign(txt: string) {
    ContainsAny(txt, SignChs)
  }

  predicate IsOperator(txt: string) {
    ContainsAny(txt, OperatorChs)
  }

  predicate IsNumeric(txt: string) {
    ContainsAny(txt, NumberChs)
  }

  predicate IsExponent(txt: string) {
    ContainsAny(txt, ExponentChs)
  }

  predicate IsPunctuation(txt: string) {
    ContainsAny(txt, PunctuationChs)
  }

  predicate IsLine(txt: string) {
    ContainsAny(txt, LineChs)
  }

  /** A string holds a digit or a decimal point iff one of its two halves does. */
  lemma NumericConcat(a: string, b: string)
    ensures IsNumeric(a + b) <==> IsNumeric(a) || IsNumeric(b)
  {
    var ab := a + b;
    if IsNumeric(ab) {
      var k :| 0 <= k < |ab| && ab[k] in NumberChs;
      if k < |a| { assert a[k] == ab[k]; } else { assert b[k - |a|] == ab[k]; }
    }
    if IsNumeric(a) {
      var k :| 0 <= k < |a| && a[k] in NumberChs;
      assert ab[k] == a[k];
    }
    if IsNumeric(b) {
      var k :| 0 <= k < |b| && b[k] in NumberChs;
      assert ab[|a| + k] == b[k];
    }
  }

  /** On a one-character string each class test is membership of that character. */
  lemma SingleChar(c: char)
    ensures IsOperator([c]) <==> c in OperatorChs
    ensures IsNumeric([c]) <==> c in NumberChs
    ensures IsSign([c]) <==> c in SignChs
    ensures IsExponent([c]) <==> c in ExponentChs
    ensures IsPunctuation([c]) <==> c in PunctuationChs
    ensures IsLine([c]) <==> c in LineChs
  {
    assert [c][0] == c;
  }

  /** Membership in the operator and number classes, character by character. */
  lemma Members(c: char)
    ensures c in OperatorChs <==> c == '^' || c == '*' || c == '/' || c == '%' || c == '+' || c == '-'
    ensures c in NumberChs <==> '0' <= c <= '9' || c == '.'
    ensures c in SignChs <==> c == '+' || c == '-'
    ensures c in ExponentChs <==> c == '^'
    ensures c in PunctuationChs <==> c == '*' || c == '/' || c == '%'
    ensures c in LineChs <==> c == '+' || c == '-'
  {
  }

  /** Number characters and operator characters are disjoint. */
  lemma NumberNotOperator(c: char)
    ensures c in NumberChs ==> c !in OperatorChs
  {
  }
}
