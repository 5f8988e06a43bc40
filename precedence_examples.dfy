/** An expression evaluated through the reference evaluator of Precedence rather
    than pass by pass. */
module PrecedenceExamples {
  import opened Wrappers
  import opened Chars
  import opened Terms
  import opened Parser
  import opened ParserProps
  import opened Evaluator
  import opened EvaluatorProps
  import opened Precedence

  // ---------------------------------------------------------------- "1-2^2"

  /** "1-2^2" is 5 in both variants: the minus sign is part of the number token
      "-2", so `^` raises -2, giving 4, which is then added to 1. */
  lemma SignedBase(num: Numerics, variant: Variant, s: string)
    requires s == "1-2^2"
    requires num.parseFloat("1") == Parsed(1.0, true) && num.parseFloat("-2") == Parsed(-2.0, true)
    requires num.parseFloat("2") == Parsed(2.0, true)
    requires num.pow(-2.0, 2.0) == 4.0
    ensures Wf(ParseSpec(s, 0).0)
    ensures CalcSpec(num, variant, ParseSpec(s, 0).0).1 == Ok(5.0)
  {
    MinusPowerTree(s);
    var t := Term("", false, 0.0, [Leaf("1"), Leaf("-2"), Leaf("^2")]);
    assert Wf(t);
    SignedBaseLeaves(num, variant, t.terms);
    SignedBaseOperands(num, variant, t.terms);
    NoProductAmongThree(t.terms);
    GroupFollowsPrecedence(num, variant, t);
    SignedBaseEvaluates(num);
  }

  /** The children "1", "-2", "^2": their operators and the numbers they read as. */
  lemma SignedBaseLeaves(num: Numerics, variant: Variant, ts: seq<Term>)
    requires ts == [Leaf("1"), Leaf("-2"), Leaf("^2")]
    requires num.parseFloat("1") == Parsed(1.0, true) && num.parseFloat("-2") == Parsed(-2.0, true)
    requires num.parseFloat("2") == Parsed(2.0, true)
    ensures Operator(ts[1]) == "-" && !IsPunctuation(Operator(ts[1])) && Operator(ts[2]) == "^"
    ensures CalcSpec(num, variant, ts[0]).1 == Ok(1.0) && CalcSpec(num, variant, ts[1]).1 == Ok(-2.0)
    ensures CalcSpec(num, variant, ts[2]).1 == Ok(2.0)
  {
    NumberTextUnchanged(variant, ts[0].text);
    NegativeLeaf(num, variant, ts[1]);
    PowerLeaf(num, variant, ts[2]);
  }

  /** Three children joined by `-` and `^` that come to 1, -2 and 2 as operands:
      the `-` child adds its negative number. */
  lemma SignedBaseOperands(num: Numerics, variant: Variant, ts: seq<Term>)
    requires WfList(ts) && |ts| == 3 && Operator(ts[1]) == "-" && Operator(ts[2]) == "^"
    requires CalcSpec(num, variant, ts[0]).1 == Ok(1.0) && CalcSpec(num, variant, ts[1]).1 == Ok(-2.0)
    requires CalcSpec(num, variant, ts[2]).1 == Ok(2.0)
    ensures Operands(num, variant, ts) == [Operand('+', Ok(1.0)), Operand('+', Ok(-2.0)), Operand('^', Ok(2.0))]
  {
    var xs := Operands(num, variant, ts);
    assert xs[0] == Operand('+', Ok(1.0));
    assert xs[1] == Operand('+', Ok(-2.0));
    assert xs[2] == Operand('^', Ok(2.0));
  }

  /** Of three children, only the second can be a `*`, `/` or `%` child that a
      `^` child follows. */
  lemma NoProductAmongThree(ts: seq<Term>)
    requires WfList(ts) && |ts| == 3 && !IsPunctuation(Operator(ts[1]))
    ensures NoPowerAfterProduct(ts, 0)
  {
  }

  /** The token "-2" joins with `-`, keeps its sign and reads as -2. */
  lemma NegativeLeaf(num: Numerics, variant: Variant, t: Term)
    requires t == Leaf("-2") && num.parseFloat("-2") == Parsed(-2.0, true)
    ensures Operator(t) == "-" && !IsPunctuation(Operator(t)) && !IsExponent(Operator(t))
    ensures CalcSpec(num, variant, t).1 == Ok(-2.0)
  {
    Members('-');
    Members('2');
    SingleChar('-');
    assert t.text == ['-'] + "2";
    SingleSignKept(variant, '-', "2");
  }

  /** The token "^2" joins with `^` and reads as 2. */
  lemma PowerLeaf(num: Numerics, variant: Variant, t: Term)
    requires t == Leaf("^2") && num.parseFloat("2") == Parsed(2.0, true)
    ensures Operator(t) == "^"
    ensures CalcSpec(num, variant, t).1 == Ok(2.0)
  {
    Members('^');
    assert t.text == ['^'] + "2";
    LeadingOperatorDropped(variant, '^', "2");
  }

  /** The reference evaluation of 1, -2, ^2: the `^` level gives 4, the `+` level 5. */
  lemma SignedBaseEvaluates(num: Numerics)
    requires num.pow(-2.0, 2.0) == 4.0
    ensures Evaluate(num, 0, [Operand('+', Ok(1.0)), Operand('+', Ok(-2.0)), Operand('^', Ok(2.0))]) == Ok(5.0)
  {
    var one := Operand('+', Ok(1.0));
    var four := Operand('+', Ok(4.0));
    var power := [Operand('^', Ok(2.0))];
    var rest := [Operand('+', Ok(-2.0))] + power;
    assert rest[1..] == power && power[1..] == [];
    assert FoldLevel(num, 0, Operand('+', Ok(-2.0)), power) == Ok([four]);
    assert [one] + [four] == [one, four];
    assert FoldLevel(num, 0, one, rest) == Ok([one, four]);
    assert [four][1..] == [];
    assert FoldLevel(num, 1, one, [four]) == Ok([one, four]);
    assert FoldLevel(num, 2, one, [four]) == Ok([Operand('+', Ok(5.0))]);
    assert [one] + rest == [Operand('+', Ok(1.0)), Operand('+', Ok(-2.0)), Operand('^', Ok(2.0))];
  }
}
