/** Expressions parsed and evaluated end to end. The number parser is a parameter;
    each example states what it must read for the tokens involved. */
module CalcExamples {
  import opened Wrappers
  import opened Chars
  import opened Terms
  import opened Parser
  import opened ParserProps
  import opened Evaluator
  import opened EvaluatorProps

  /** A leaf not yet evaluated whose number text `n` reads as `v`. */
  lemma LeafReads(num: Numerics, variant: Variant, t: Term, n: string, v: real)
    requires t.terms == [] && !t.isParsed && t.text != ""
    requires NormalizeNumber(variant, t.text) == n && num.parseFloat(n) == Parsed(v, true)
    ensures CalcSpec(num, variant, t) == (t.(result := v, isParsed := true), Ok(v))
  {
  }

  /** The operator of a token that starts with an operator character. */
  lemma OperatorOf(t: Term, c: char)
    requires t.text != "" && t.text[0] == c && c in OperatorChs
    ensures Operator(t) == [c]
  {
  }

  // ---------------------------------------------------------------- "2(3)"

  /** The group "*(3)" evaluates to 3. */
  lemma StarGroupIsThree(num: Numerics, variant: Variant, g: Term)
    requires g == Term("*", false, 0.0, [Leaf("3")])
    requires num.parseFloat("3") == Parsed(3.0, true)
    ensures CalcSpec(num, variant, g).1 == Ok(3.0)
  {
    var c := Leaf("3");
    NumberTextUnchanged(variant, c.text);
    LeafReads(num, variant, c, "3", 3.0);
    OperatorOf(g, '*');
    assert !Negates(g);
    SoleChildFails(num, variant, g);
    if variant == AsWritten {
      SoleChildAsWritten(num, g);
    } else {
      SoleChildCorrected(num, g);
    }
  }

  /** "2(3)" is implicit multiplication and evaluates to 6. */
  lemma ImplicitProductIsSix(num: Numerics, variant: Variant, s: string)
    requires s == "2(3)"
    requires num.parseFloat("2") == Parsed(2.0, true) && num.parseFloat("3") == Parsed(3.0, true)
    ensures Wf(ParseSpec(s, 0).0)
    ensures CalcSpec(num, variant, ParseSpec(s, 0).0).1 == Ok(6.0)
  {
    ImplicitMultiplicationTree(s);
    var a := Leaf("2");
    var g := Term("*", false, 0.0, [Leaf("3")]);
    var t := Term("", false, 0.0, [a, g]);
    assert Wf(a) && Wf(g);
    assert Wf(t);
    NumberTextUnchanged(variant, a.text);
    LeafReads(num, variant, a, "2", 2.0);
    StarGroupIsThree(num, variant, g);
    OperatorOf(g, '*');
    ProductIsSigned(num, "*", 2.0, 3.0);
    PairGroup(num, variant, t, 2.0, 3.0);
  }

  // ---------------------------------------------------------------- "-3*-5"

  /** "-3*-5": the product of a negative left operand by a negative right operand
      is positive, 15. */
  lemma NegativeProduct(num: Numerics, variant: Variant, s: string)
    requires s == "-3*-5"
    requires num.parseFloat("-3") == Parsed(-3.0, true) && num.parseFloat("-5") == Parsed(-5.0, true)
    ensures Wf(ParseSpec(s, 0).0)
    ensures CalcSpec(num, variant, ParseSpec(s, 0).0).1 == Ok(15.0)
  {
    TokenRuns(s);
    var a := Leaf("-3");
    var b := Leaf("*-5");
    var t := Term("", false, 0.0, [a, b]);
    assert Wf(t);
    assert a.text == ['-'] + "3" && b.text == ['*'] + "-5";
    Members('-');
    Members('*');
    Members('3');
    SingleSignKept(variant, '-', "3");
    LeadingOperatorDropped(variant, '*', "-5");
    LeafReads(num, variant, a, "-3", -3.0);
    LeafReads(num, variant, b, "-5", -5.0);
    OperatorOf(b, '*');
    ProductIsSigned(num, "*", -3.0, -5.0);
    PairGroup(num, variant, t, -3.0, -5.0);
  }

  // ---------------------------------------------------------------- "(1+2)"

  /** The group "(1+2)" of "(1+2)" evaluates to 3. */
  lemma SumIsThree(num: Numerics, variant: Variant, g: Term)
    requires g == Term("", false, 0.0, [Leaf("1"), Leaf("+2")])
    requires num.parseFloat("1") == Parsed(1.0, true) && num.parseFloat("+2") == Parsed(2.0, true)
    ensures Wf(g) && CalcSpec(num, variant, g).1 == Ok(3.0)
  {
    var a := Leaf("1");
    var b := Leaf("+2");
    assert Wf(g);
    assert b.text == ['+'] + "2";
    Members('+');
    Members('2');
    NumberTextUnchanged(variant, a.text);
    SingleSignKept(variant, '+', "2");
    LeafReads(num, variant, a, "1", 1.0);
    LeafReads(num, variant, b, "+2", 2.0);
    OperatorOf(b, '+');
    LineOperatorsAdd(num, "+", 1.0, 2.0);
    PairGroup(num, variant, g, 1.0, 2.0);
  }

  /** As written, "(1+2)" evaluates to 0, the never-set result field of the inner
      group, and evaluating the same tree again gives 3. */
  lemma ParenthesisedSumAsWritten(num: Numerics, s: string)
    requires s == "(1+2)"
    requires num.parseFloat("1") == Parsed(1.0, true) && num.parseFloat("+2") == Parsed(2.0, true)
    ensures Wf(ParseSpec(s, 0).0)
    ensures var (t', r) := CalcSpec(num, AsWritten, ParseSpec(s, 0).0);
      r == Ok(0.0) && CalcSpec(num, AsWritten, t').1 == Ok(3.0)
  {
    ParenthesisedSumTree(s);
    var g := Term("", false, 0.0, [Leaf("1"), Leaf("+2")]);
    var t := Term("", false, 0.0, [g]);
    SumIsThree(num, AsWritten, g);
    assert Wf(t);
    StaleGroupResult(num, t);
    SecondReadOfSum(num, t, g);
  }

  /** As written, a second evaluation of "(1+2)" reads the folded leaf 3 that the
      first one left in the inner group. */
  lemma SecondReadOfSum(num: Numerics, t: Term, g: Term)
    requires t == Term("", false, 0.0, [g]) && Wf(t) && Wf(g) && |g.terms| >= 2 && !Negates(g)
    requires CalcSpec(num, AsWritten, g).1 == Ok(3.0)
    ensures CalcSpec(num, AsWritten, CalcSpec(num, AsWritten, t).0).1 == Ok(3.0)
  {
    var (t', _) := CalcSpec(num, AsWritten, t);
    var (c, _) := CalcSpec(num, AsWritten, g);
    SoleChildAsWritten(num, t);
    GroupReducesToOneLeaf(num, AsWritten, g);
    assert t'.terms == [c] && c.terms == [Synth(3.0)];
    SynthIsSignedLeaf(num, AsWritten, 3.0);
    SoleChildAsWritten(num, c);
    SoleChildAsWritten(num, t');
  }

  /** Corrected, "(1+2)" evaluates to 3, and to 3 again. */
  lemma ParenthesisedSumCorrected(num: Numerics, s: string)
    requires s == "(1+2)"
    requires num.parseFloat("1") == Parsed(1.0, true) && num.parseFloat("+2") == Parsed(2.0, true)
    ensures Wf(ParseSpec(s, 0).0)
    ensures var (t', r) := CalcSpec(num, Corrected, ParseSpec(s, 0).0);
      r == Ok(3.0) && CalcSpec(num, Corrected, t').1 == Ok(3.0)
  {
    ParenthesisedSumTree(s);
    var g := Term("", false, 0.0, [Leaf("1"), Leaf("+2")]);
    var t := Term("", false, 0.0, [g]);
    SumIsThree(num, Corrected, g);
    assert Wf(t);
    StaleGroupResult(num, t);
    CorrectedRecalcStable(num, t);
  }

  // ---------------------------------------------------------------- "3-+5"

  /** "3-+5": the "-" after "3" starts a token and the "+" stays in it. */
  lemma MinusPlusTree(s: string)
    requires s == "3-+5"
    ensures ParseSpec(s, 0) == (Term("", false, 0.0, [Leaf("3"), Leaf("-+5")]), 4)
  {
    ExampleChars();
    assert [s[0]] == "3" && [s[1]] == "-" && [s[2]] == "+" && [s[3]] == "5";
    assert "" + "3" == "3" && "-" + "+" == "-+" && "-+" + "5" == "-+5";
    OtherCharAppends(s, 0, [], Empty, "");
    assert ScanSpec(s, 0, [], Empty, "") == ScanSpec(s, 1, [], Leaf("3"), "3");
    OperatorStartsToken(s, 1, [], Leaf("3"), "3");
    assert Register([], Leaf("3")).0 == [Leaf("3")];
    assert ScanSpec(s, 1, [], Leaf("3"), "3") == ScanSpec(s, 2, [Leaf("3")], Leaf("-"), "-");
    OperatorRunContinues(s, 2, [Leaf("3")], Leaf("-"), "-");
    assert ScanSpec(s, 2, [Leaf("3")], Leaf("-"), "-") == ScanSpec(s, 3, [Leaf("3")], Leaf("-+"), "+");
    OtherCharAppends(s, 3, [Leaf("3")], Leaf("-+"), "+");
    assert ScanSpec(s, 3, [Leaf("3")], Leaf("-+"), "+") == ScanSpec(s, 4, [Leaf("3")], Leaf("-+5"), "5");
    EndStep(s, 4, [Leaf("3")], Leaf("-+5"), "5");
    assert Register([Leaf("3")], Leaf("-+5")).0 == [Leaf("3"), Leaf("-+5")];
  }

  /** "3-+5" evaluates to 8 as written, since the token "-+5" is read as "+5", and
      to -2 corrected. */
  lemma MinusPlusSubtracts(num: Numerics, variant: Variant, s: string)
    requires s == "3-+5"
    requires num.parseFloat("3") == Parsed(3.0, true)
    requires num.parseFloat("+5") == Parsed(5.0, true) && num.parseFloat("-5") == Parsed(-5.0, true)
    ensures Wf(ParseSpec(s, 0).0)
    ensures CalcSpec(num, variant, ParseSpec(s, 0).0).1 == Ok(if variant == AsWritten then 8.0 else -2.0)
  {
    MinusPlusTree(s);
    var a := Leaf("3");
    var b := Leaf("-+5");
    var t := Term("", false, 0.0, [a, b]);
    assert Wf(t);
    var y := if variant == AsWritten then 5.0 else -5.0;
    var n := if variant == AsWritten then "+5" else "-5";
    assert b.text == ['-', '+'] + "5";
    Members('-');
    Members('+');
    Members('5');
    NumberTextUnchanged(variant, a.text);
    TwoSignsCombine(variant, '-', '+', "5");
    assert NormalizeNumber(variant, b.text) == n;
    LeafReads(num, variant, a, "3", 3.0);
    LeafReads(num, variant, b, n, y);
    OperatorOf(b, '-');
    LineOperatorsAdd(num, "-", 3.0, y);
    PairGroup(num, variant, t, 3.0, y);
  }

  // ---------------------------------------------------------------- "-(5)"

  /** As written, "-(5)" evaluates to 5: the inner group stores 5 as its result
      before it negates its child, and the top-level group returns that stored
      result. Corrected, it evaluates to -5. */
  lemma NegatedFive(num: Numerics, variant: Variant, s: string)
    requires s == "-(5)"
    requires num.parseFloat("5") == Parsed(5.0, true)
    ensures Wf(ParseSpec(s, 0).0)
    ensures CalcSpec(num, variant, ParseSpec(s, 0).0).1 == Ok(if variant == AsWritten then 5.0 else -5.0)
  {
    NegatedGroupTree(s);
    var c := Leaf("5");
    var g := Term("-", false, 0.0, [c]);
    var t := Term("", false, 0.0, [g]);
    assert Wf(c) && Wf(g) && Wf(t);
    NumberTextUnchanged(variant, c.text);
    LeafReads(num, variant, c, "5", 5.0);
    OperatorOf(g, '-');
    assert Negates(g) && !Negates(t);
    if variant == AsWritten {
      SoleChildAsWritten(num, g);
      SoleChildAsWritten(num, t);
    } else {
      SoleChildCorrected(num, g);
      SoleChildCorrected(num, t);
    }
  }

  // ---------------------------------------------------------------- sign runs before a group

  /** A group whose prefix is a run of two operators, such as the "*-" of
      "2*-(3)", reads only the run's first character: its sole digit keeps its
      value, negated only when the run starts with "-"; the second operator
      is never applied. */
  lemma SignRunGroupValue(num: Numerics, variant: Variant, g: Term, o: char, p: char, d: char, v: real)
    requires g == Term([o, p], false, 0.0, [Leaf([d])]) && o in OperatorChs && '0' <= d <= '9'
    requires num.parseFloat([d]) == Parsed(v, true)
    ensures Wf(g)
    ensures CalcSpec(num, variant, g).1 == Ok(if o == '-' then -v else v)
  {
    DigitLeaf(num, variant, d, v);
    OperatorOf(g, o);
    assert Negates(g) <==> o == '-';
    SoleLeafGroup(num, variant, g, v);
  }

  /** A group whose one leaf evaluates to `v` gives `v`, negated for a `-` group:
      as written through the leaf's cached result, negated in place. */
  lemma SoleLeafGroup(num: Numerics, variant: Variant, g: Term, v: real)
    requires Wf(g) && |g.terms| == 1 && g.terms[0].terms == [] && CalcSpec(num, variant, g.terms[0]).1 == Ok(v)
    ensures CalcSpec(num, variant, g).1 == Ok(if Negates(g) then -v else v)
  {
    if variant == AsWritten {
      SoleLeafAsWritten(num, g, v);
    } else {
      SoleChildCorrected(num, g);
    }
  }

  /** As written the group returns its leaf's cached result, which is `v`. */
  lemma SoleLeafAsWritten(num: Numerics, g: Term, v: real)
    requires Wf(g) && |g.terms| == 1 && g.terms[0].terms == [] && CalcSpec(num, AsWritten, g.terms[0]).1 == Ok(v)
    ensures CalcSpec(num, AsWritten, g).1 == Ok(if Negates(g) then -v else v)
  {
    assert CalcSpec(num, AsWritten, g.terms[0]).0.result == v;
    SoleChildAsWritten(num, g);
  }

  /** The token of one digit reads as the number the parser gives for it. */
  lemma DigitLeaf(num: Numerics, variant: Variant, d: char, v: real)
    requires '0' <= d <= '9' && num.parseFloat([d]) == Parsed(v, true)
    ensures Wf(Leaf([d])) && CalcSpec(num, variant, Leaf([d])).1 == Ok(v)
  {
    NumberTextUnchanged(variant, [d]);
    LeafReads(num, variant, Leaf([d]), [d], v);
  }

  /** A digit followed by such a group: the group is joined by the run's first
      operator, applied to the digit and the group's value. */
  lemma SignRunPairValue(num: Numerics, variant: Variant, t: Term, n: char, o: char, p: char, d: char, x: real, y: real)
    requires t == Term("", false, 0.0, [Leaf([n]), Term([o, p], false, 0.0, [Leaf([d])])])
    requires '0' <= n <= '9' && '0' <= d <= '9' && o in OperatorChs
    requires num.parseFloat([n]) == Parsed(x, true) && num.parseFloat([d]) == Parsed(y, true)
    requires Combine(num, [o], x, if o == '-' then -y else y).Ok?
    ensures Wf(t)
    ensures CalcSpec(num, variant, t).1 == Ok(Combine(num, [o], x, if o == '-' then -y else y).value)
  {
    DigitLeaf(num, variant, n, x);
    SignRunGroupValue(num, variant, t.terms[1], o, p, d, y);
    OperatorOf(t.terms[1], o);
    assert Wf(t);
    PairGroup(num, variant, t, x, if o == '-' then -y else y);
  }

  /** "2*-(3)" evaluates to 6 in both variants, not -6: the group joins the
      product by "*" and its "-" is dropped. */
  lemma SignRunBeforeGroup(num: Numerics, variant: Variant, s: string)
    requires s == "2*-(3)"
    requires num.parseFloat("2") == Parsed(2.0, true) && num.parseFloat("3") == Parsed(3.0, true)
    ensures Wf(ParseSpec(s, 0).0)
    ensures CalcSpec(num, variant, ParseSpec(s, 0).0).1 == Ok(6.0)
  {
    Members('*');
    Members('-');
    SignRunGroupTree(s, '2', '*', '-', '3');
    ProductIsSigned(num, "*", 2.0, 3.0);
    SignRunPairValue(num, variant, ParseSpec(s, 0).0, '2', '*', '-', '3', 2.0, 3.0);
  }

  /** "1--(2)" evaluates to -1 in both variants, not 3: the group joins by "-",
      which only adds, and its first "-" negates it once. */
  lemma DoubleMinusBeforeGroup(num: Numerics, variant: Variant, s: string)
    requires s == "1--(2)"
    requires num.parseFloat("1") == Parsed(1.0, true) && num.parseFloat("2") == Parsed(2.0, true)
    ensures Wf(ParseSpec(s, 0).0)
    ensures CalcSpec(num, variant, ParseSpec(s, 0).0).1 == Ok(-1.0)
  {
    Members('-');
    SignRunGroupTree(s, '1', '-', '-', '2');
    LineOperatorsAdd(num, "-", 1.0, -2.0);
    SignRunPairValue(num, variant, ParseSpec(s, 0).0, '1', '-', '-', '2', 1.0, 2.0);
  }

  // ---------------------------------------------------------------- "2*3^2"

  /** "2*3^2": the first pass folds "3^2" to 9. As written the leaf it leaves is
      joined by "+", the sign of 9, instead of the "*" of "*3", so the expression
      evaluates to 2 + 9 = 11; corrected the leaf keeps "*" and it evaluates to
      2 * 9 = 18. */
  lemma PowerAfterProduct(num: Numerics, variant: Variant, s: string)
    requires s == "2*3^2"
    requires num.parseFloat("2") == Parsed(2.0, true) && num.parseFloat("3") == Parsed(3.0, true)
    requires num.pow(3.0, 2.0) == 9.0
    ensures Wf(ParseSpec(s, 0).0)
    ensures CalcSpec(num, variant, ParseSpec(s, 0).0).1 == Ok(if variant == AsWritten then 11.0 else 18.0)
  {
    PowerAfterProductTree(s);
    PowerGroup(num, variant, Term("", false, 0.0, [Leaf("2"), Leaf("*3"), Leaf("^2")]));
  }

  /** The group of "2", "*3", "^2" evaluates to 11 as written and to 18 corrected. */
  lemma PowerGroup(num: Numerics, variant: Variant, t: Term)
    requires t == Term("", false, 0.0, [Leaf("2"), Leaf("*3"), Leaf("^2")])
    requires num.parseFloat("2") == Parsed(2.0, true) && num.parseFloat("3") == Parsed(3.0, true)
    requires num.pow(3.0, 2.0) == 9.0
    ensures Wf(t) && CalcSpec(num, variant, t).1 == Ok(if variant == AsWritten then 11.0 else 18.0)
  {
    assert Wf(t);
    ChildrenBelow(t);
    ProductPowerLeaves(num, variant, t.terms);
    var z := PowerPasses(num, variant, Height(t), t.terms);
    FoldedGroupValue(num, variant, t, z);
  }

  /** The passes over children that evaluate to 2, 3 and 2, joined by "*" and "^",
      leave the one leaf of 11 as written and of 18 corrected. */
  lemma PowerPasses(num: Numerics, variant: Variant, h: nat, ts: seq<Term>) returns (z: real)
    requires Siblings(h, ts) && |ts| == 3 && Operator(ts[1]) == "*" && Operator(ts[2]) == "^"
    requires CalcSpec(num, variant, ts[0]).1 == Ok(2.0) && CalcSpec(num, variant, ts[1]).1 == Ok(3.0)
    requires CalcSpec(num, variant, ts[2]).1 == Ok(2.0) && num.pow(3.0, 2.0) == 9.0
    ensures z == (if variant == AsWritten then 11.0 else 18.0)
    ensures Passes(num, variant, h, ts, 0, 0) == ([Synth(z)], None)
  {
    var us := FoldPower(num, variant, h, ts);
    PowerFolds(num, variant, h, ts, us);
    z := PairAfterPower(num, variant, h, us);
  }

  /** The children "2", "*3" and "^2" evaluate to 2, 3 and 2; the leading "*" and
      "^" are their operators and are dropped from the numbers. */
  lemma ProductPowerLeaves(num: Numerics, variant: Variant, ts: seq<Term>)
    requires ts == [Leaf("2"), Leaf("*3"), Leaf("^2")]
    requires num.parseFloat("2") == Parsed(2.0, true) && num.parseFloat("3") == Parsed(3.0, true)
    ensures Operator(ts[1]) == "*" && Operator(ts[2]) == "^"
    ensures CalcSpec(num, variant, ts[0]).1 == Ok(2.0) && CalcSpec(num, variant, ts[1]).1 == Ok(3.0)
    ensures CalcSpec(num, variant, ts[2]).1 == Ok(2.0)
  {
    assert ts[1].text == ['*'] + "3" && ts[2].text == ['^'] + "2";
    Members('*');
    Members('^');
    Members('2');
    NumberTextUnchanged(variant, ts[0].text);
    LeadingOperatorDropped(variant, '*', "3");
    LeadingOperatorDropped(variant, '^', "2");
    LeafReads(num, variant, ts[0], "2", 2.0);
    LeafReads(num, variant, ts[1], "3", 3.0);
    LeafReads(num, variant, ts[2], "2", 2.0);
    OperatorOf(ts[1], '*');
    OperatorOf(ts[2], '^');
  }

  /** The first pass over "2", "*3", "^2" skips "*3" and folds "3^2". */
  lemma PowerFolds(num: Numerics, variant: Variant, h: nat, ts: seq<Term>, us: seq<Term>)
    requires Siblings(h, ts) && |ts| == 3 && Operator(ts[1]) == "*" && Operator(ts[2]) == "^"
    requires Collapse(num, variant, h, ts, 1) == Ok(us)
    ensures Passes(num, variant, h, ts, 0, 0) == Passes(num, variant, h, us, 0, 1)
  {
    StarOperator(ts[1]);
    assert Passes(num, variant, h, ts, 0, 0) == Passes(num, variant, h, ts, 0, 1);
    Members('^');
  }

  /** Folding "3^2" gives 9 and a leaf that caches 9; as written that leaf is
      joined by "+", the sign of 9, corrected by the "*" of "*3". */
  lemma FoldPower(num: Numerics, variant: Variant, h: nat, ts: seq<Term>) returns (us: seq<Term>)
    requires Siblings(h, ts) && |ts| == 3 && Operator(ts[1]) == "*" && Operator(ts[2]) == "^"
    requires CalcSpec(num, variant, ts[1]).1 == Ok(3.0) && CalcSpec(num, variant, ts[2]).1 == Ok(2.0)
    requires num.pow(3.0, 2.0) == 9.0
    ensures Collapse(num, variant, h, ts, 1) == Ok(us)
    ensures Siblings(h, us) && |us| == 2 && us[0] == ts[0]
    ensures us[1] == if variant == AsWritten then Synth(9.0) else Term("*", true, 9.0, [])
  {
    ExponentIsPow(num, "^", 3.0, 2.0);
    CollapseFoldsPair(num, variant, h, ts, 1);
    us := Collapse(num, variant, h, ts, 1).value;
    assert us[..1] == ts[..1];
    PunctuationSign("*");
  }

  /** The passes go on from the folded leaf: the second pass joins "2" to it by its
      operator, giving the leaf of 11 as written and of 18 corrected. */
  lemma PairAfterPower(num: Numerics, variant: Variant, h: nat, us: seq<Term>) returns (z: real)
    requires Siblings(h, us) && |us| == 2 && CalcSpec(num, variant, us[0]).1 == Ok(2.0)
    requires us[1] == if variant == AsWritten then Synth(9.0) else Term("*", true, 9.0, [])
    ensures z == (if variant == AsWritten then 11.0 else 18.0)
    ensures Passes(num, variant, h, us, 0, 1) == ([Synth(z)], None)
  {
    var x := us[1];
    CachedLeafUnchanged(num, variant, x);
    z := if variant == AsWritten then 11.0 else 18.0;
    if variant == AsWritten {
      SynthOperator(9.0);
      LineOperatorsAdd(num, Operator(x), 2.0, 9.0);
    } else {
      StarOperator(x);
      ProductIsSigned(num, Operator(x), 2.0, 9.0);
    }
    PairCollapse(num, variant, h, us, 2.0, 9.0);
    PairPasses(num, variant, h, us, z);
    assert Passes(num, variant, h, us, 0, 0) == Passes(num, variant, h, us, 0, 1);
  }

  /** A token that starts with "*" is joined by "*", which only the second pass handles. */
  lemma StarOperator(t: Term)
    requires t.text != "" && t.text[0] == '*'
    ensures Operator(t) == "*" && IsPunctuation("*") && !IsExponent("*") && !IsLine("*")
  {
    Members('*');
    OperatorOf(t, '*');
    PunctuationSign("*");
    OperatorHasOneClass("*");
  }
}
