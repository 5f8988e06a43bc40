/** Operator precedence: the three passes of Term.Calc (term.go:194-259) evaluate
    the children of a group as an expression over (operator, operand) pairs in
    which `^` binds tightest, then `*` `/` `%`, then `+` `-`, each level folded
    left to right. The reference evaluator here works on such pairs alone; the
    lemmas prove that the passes over any list of children agree with it. */
module Precedence {
  import opened Wrappers
  import opened Chars
  import opened Terms
  import opened Evaluator
  import opened EvaluatorProps

  /** An operand: the operator that joins it to its left neighbour, and the
      outcome of evaluating it. */
  datatype Operand = Operand(op: char, value: Result<real, CalcError>)

  /** The precedence level of an operator: 0 for `^`, 1 for `*` `/` `%`, 2 otherwise. */
  function Level(op: char): nat {
    if op == '^' then 0 else if op == '*' || op == '/' || op == '%' then 1 else 2
  }

  /** One level of precedence. Every run of operands joined by operators of level
      `g` is folded, left to right, into the first operand of the run, which keeps
      the operator that joins it to what precedes it. `acc` is the operand being
      built and `rest` the operands after it. An operand's error stops the fold
      when the operand takes part in one; so does an error of the arithmetic. */
  function FoldLevel(num: Numerics, g: nat, acc: Operand, rest: seq<Operand>): (r: Result<seq<Operand>, CalcError>)
    ensures r.Ok? ==> 1 <= |r.value| <= |rest| + 1 && r.value[0].op == acc.op
    decreases |rest|
  {
    if rest == [] then Ok([acc])
    else if Level(rest[0].op) != g then
      match FoldLevel(num, g, rest[0], rest[1..])
      case Err(e) => Err(e)
      case Ok(ys) => Ok([acc] + ys)
    else
      match JoinPair(num, acc, rest[0])
      case Err(e) => Err(e)
      case Ok(x) => FoldLevel(num, g, Operand(acc.op, Ok(x)), rest[1..])
  }

  /** Operand `b` joined to operand `a` under `b`'s operator: the error of `a`,
      else that of `b`, else the outcome of the arithmetic. */
  function JoinPair(num: Numerics, a: Operand, b: Operand): Result<real, CalcError> {
    if a.value.Err? then Err(a.value.error)
    else if b.value.Err? then Err(b.value.error)
    else Arith(num, b.op, a.value.value, b.value.value)
  }

  /** The reference evaluator: the levels from `g` on folded in turn; what is left
      at the end is the value. */
  function Evaluate(num: Numerics, g: nat, xs: seq<Operand>): Result<real, CalcError>
    requires xs != [] && g <= 3
    decreases 3 - g
  {
    if g == 3 then xs[0].value
    else
      match FoldLevel(num, g, xs[0], xs[1..])
      case Err(e) => Err(e)
      case Ok(ys) => Evaluate(num, g + 1, ys)
  }

  /** A fold leaves no operator of its level after the first operand, and none
      of a lower level that was not there before. */
  lemma {:induction false} FoldLevelClears(num: Numerics, g: nat, acc: Operand, rest: seq<Operand>)
    requires forall k :: 0 <= k < |rest| ==> Level(rest[k].op) >= g
    ensures var r := FoldLevel(num, g, acc, rest);
      r.Ok? ==> forall k :: 1 <= k < |r.value| ==> Level(r.value[k].op) > g
    decreases |rest|
  {
    if rest != [] {
      assert forall k :: 0 <= k < |rest[1..]| ==> rest[1..][k] == rest[k + 1];
      if Level(rest[0].op) != g {
        FoldLevelClears(num, g, rest[0], rest[1..]);
      } else {
        match JoinPair(num, acc, rest[0])
        case Err(_) =>
        case Ok(x) => FoldLevelClears(num, g, Operand(acc.op, Ok(x)), rest[1..]);
      }
    }
  }

  // ---------------------------------------------------------------- from children to operands

  /** The operator that joins child `k` to its left neighbour: `+` for the first
      child, and `+` for `-`, since both add and the operand carries its own sign
      (term.go:226-229). */
  function JoinOp(ts: seq<Term>, k: nat): char
    requires WfList(ts) && k < |ts|
  {
    if k == 0 then '+'
    else
      var op := Operator(ts[k]);
      if op == "-" then '+' else op[0]
  }

  /** The children as the reference evaluator sees them. */
  function Operands(num: Numerics, variant: Variant, ts: seq<Term>): (xs: seq<Operand>)
    requires WfList(ts)
    ensures |xs| == |ts|
    ensures forall k {:trigger xs[k]} :: 0 <= k < |ts| ==> xs[k] == Operand(JoinOp(ts, k), CalcSpec(num, variant, ts[k]).1)
  {
    seq(|ts|, k requires 0 <= k < |ts| => Operand(JoinOp(ts, k), CalcSpec(num, variant, ts[k]).1))
  }

  /** How the passes end: with the error that stopped them, or with the outcome of
      evaluating the first child they leave. */
  function Outcome(num: Numerics, variant: Variant, r: (seq<Term>, Option<CalcError>)): Result<real, CalcError>
    requires WfList(r.0) && r.0 != []
  {
    if r.1.Some? then Err(r.1.value) else CalcSpec(num, variant, r.0[0]).1
  }

  /** The reference evaluation part way through level `g`: the operands `done` are
      folded, `acc` is being built and `rest` is still to come. */
  function Resume(num: Numerics, g: nat, done: seq<Operand>, acc: Operand, rest: seq<Operand>): Result<real, CalcError>
    requires g < 3
  {
    match FoldLevel(num, g, acc, rest)
    case Err(e) => Err(e)
    case Ok(ys) => Evaluate(num, g + 1, done + ys)
  }

  /** Resume with the operands before `i` folded and operand `i` being built. */
  function ResumeAt(num: Numerics, g: nat, xs: seq<Operand>, i: nat): Result<real, CalcError>
    requires g < 3 && i < |xs|
  {
    Resume(num, g, xs[..i], xs[i], xs[i + 1..])
  }

  /** No child from `i` on, after the first, whose operator is `*`, `/` or `%` is
      followed by a child whose operator is `^`. */
  predicate NoPowerAfterProduct(ts: seq<Term>, i: nat)
    requires WfList(ts)
  {
    forall k :: i <= k && 1 <= k && k + 1 < |ts| ==> !(IsPunctuation(Operator(ts[k])) && IsExponent(Operator(ts[k + 1])))
  }

  /** The class test of a pass agrees with the level of the joining operator. */
  lemma LevelMatches(ts: seq<Term>, k: nat, g: nat)
    requires WfList(ts) && 1 <= k < |ts| && g < 3
    ensures InClass(g, Operator(ts[k])) <==> Level(JoinOp(ts, k)) == g
  {
    var op := Operator(ts[k]);
    assert op == [op[0]];
    SingleChar(op[0]);
    Members(op[0]);
  }

  /** LevelMatches on the operands of the children. */
  lemma OperandLevel(num: Numerics, variant: Variant, ts: seq<Term>, k: nat, g: nat, xs: seq<Operand>)
    requires WfList(ts) && 1 <= k < |ts| && g < 3 && xs == Operands(num, variant, ts)
    ensures k < |xs| && (InClass(g, Operator(ts[k])) <==> Level(xs[k].op) == g)
  {
    LevelMatches(ts, k, g);
  }

  /** The evaluation from level `g` starts with nothing folded. */
  lemma EvaluateStarts(num: Numerics, g: nat, xs: seq<Operand>)
    requires xs != [] && g < 3
    ensures Evaluate(num, g, xs) == ResumeAt(num, g, xs, 0)
  {
    assert xs[..0] == [];
    match FoldLevel(num, g, xs[0], xs[1..])
    case Err(_) =>
    case Ok(ys) => assert [] + ys == ys;
  }

  /** At the last operand, level `g` is done. */
  lemma ResumeAtEnd(num: Numerics, g: nat, xs: seq<Operand>, i: nat)
    requires g < 3 && i + 1 == |xs|
    ensures ResumeAt(num, g, xs, i) == Evaluate(num, g + 1, xs)
  {
    assert xs[i + 1..] == [];
    assert xs[..i] + [xs[i]] == xs;
  }

  /** An operand of another level ends the run being built. */
  lemma ResumeSkip(num: Numerics, g: nat, done: seq<Operand>, acc: Operand, rest: seq<Operand>)
    requires g < 3 && rest != [] && Level(rest[0].op) != g
    ensures Resume(num, g, done, acc, rest) == Resume(num, g, done + [acc], rest[0], rest[1..])
  {
    match FoldLevel(num, g, rest[0], rest[1..])
    case Err(_) =>
    case Ok(ys) => assert done + ([acc] + ys) == (done + [acc]) + ys;
  }

  /** An operand of level `g` is folded into the run being built. */
  lemma ResumeFold(num: Numerics, g: nat, done: seq<Operand>, acc: Operand, rest: seq<Operand>)
    requires g < 3 && rest != [] && Level(rest[0].op) == g
    ensures Resume(num, g, done, acc, rest) ==
      match JoinPair(num, acc, rest[0])
      case Err(e) => Err(e)
      case Ok(x) => Resume(num, g, done, Operand(acc.op, Ok(x)), rest[1..])
  {
  }

  /** The invariant of the passes at pass `g` and position `i`: the children are
      well formed, the passes before `g` are done, pass `g` skipped every child up
      to `i` and, as written, no `^` child follows a `*`, `/` or `%` child from `i`
      on. */
  predicate Stage(variant: Variant, h: nat, ts: seq<Term>, g: nat, i: nat) {
    var holds := Siblings(h, ts) && g < 3 && i < |ts| && DoneBefore(g, ts) && SkippedUpTo(g, ts, i) && (g == 2 ==> i == 0) &&
      (variant == AsWritten && g == 0 ==> NoPowerAfterProduct(ts, i));
    holds
  }

  /** The passes, from pass `g` at position `i` on, end as the reference evaluation
      part way through level `g` does, with the children before `i` folded and
      child `i` being built. As written this needs that no `^` child follows a `*`,
      `/` or `%` child from `i` on. */
  lemma {:induction false} PassesFollow(num: Numerics, variant: Variant, h: nat, ts: seq<Term>, g: nat, i: nat)
    requires Stage(variant, h, ts, g, i)
    ensures Outcome(num, variant, Passes(num, variant, h, ts, g, i)) == ResumeAt(num, g, Operands(num, variant, ts), i)
    decreases 3 - g, |ts| - i, 1
  {
    if i + 1 >= |ts| {
      NextPassFollows(num, variant, h, ts, g, i);
    } else if !InClass(g, Operator(ts[i + 1])) {
      SkipFollows(num, variant, h, ts, g, i);
    } else {
      FoldFollows(num, variant, h, ts, g, i);
    }
  }

  /** One step of the passes at the last child: the next pass starts. */
  lemma PassesNextStep(num: Numerics, variant: Variant, h: nat, ts: seq<Term>, g: nat, i: nat)
    requires Siblings(h, ts) && ts != [] && g < 3 && i + 1 >= |ts|
    ensures Passes(num, variant, h, ts, g, i) == Passes(num, variant, h, ts, g + 1, 0)
  {
  }

  /** One step of the passes over a child of another class: it is skipped. */
  lemma PassesSkipStep(num: Numerics, variant: Variant, h: nat, ts: seq<Term>, g: nat, i: nat)
    requires Siblings(h, ts) && g < 3 && i + 1 < |ts| && !InClass(g, Operator(ts[i + 1]))
    ensures Passes(num, variant, h, ts, g, i) == Passes(num, variant, h, ts, g, i + 1)
  {
  }

  /** One step of the passes over a child of class `g`: the pair is folded, and
      the passes stop at the first error. */
  lemma PassesFoldStep(num: Numerics, variant: Variant, h: nat, ts: seq<Term>, g: nat, i: nat)
    requires Siblings(h, ts) && g < 3 && i + 1 < |ts| && InClass(g, Operator(ts[i + 1]))
    ensures Collapse(num, variant, h, ts, i).Err? ==>
      Passes(num, variant, h, ts, g, i) == (ts, Some(Collapse(num, variant, h, ts, i).error))
    ensures Collapse(num, variant, h, ts, i).Ok? ==>
      Passes(num, variant, h, ts, g, i) == Passes(num, variant, h, Collapse(num, variant, h, ts, i).value, g, i)
  {
  }

  /** PassesFollow when pass `g` has reached the last child. */
  lemma {:induction false} NextPassFollows(num: Numerics, variant: Variant, h: nat, ts: seq<Term>, g: nat, i: nat)
    requires Stage(variant, h, ts, g, i) && i + 1 >= |ts|
    ensures Outcome(num, variant, Passes(num, variant, h, ts, g, i)) == ResumeAt(num, g, Operands(num, variant, ts), i)
    decreases 3 - g, |ts| - i, 0
  {
    NextStep(num, variant, h, ts, g, i);
    if g + 1 < 3 {
      PassesFollow(num, variant, h, ts, g + 1, 0);
      EvaluateStarts(num, g + 1, Operands(num, variant, ts));
    }
  }

  /** At the last child the passes and the reference evaluation both go on to the
      next level, and the next pass starts with the invariant of PassesFollow. */
  lemma NextStep(num: Numerics, variant: Variant, h: nat, ts: seq<Term>, g: nat, i: nat)
    requires Stage(variant, h, ts, g, i) && i + 1 >= |ts|
    ensures g + 1 < 3 ==> Stage(variant, h, ts, g + 1, 0)
    ensures Passes(num, variant, h, ts, g, i) == Passes(num, variant, h, ts, g + 1, 0)
    ensures ResumeAt(num, g, Operands(num, variant, ts), i) == Evaluate(num, g + 1, Operands(num, variant, ts))
  {
    assert DoneBefore(g + 1, ts);
    ResumeAtEnd(num, g, Operands(num, variant, ts), i);
    PassesNextStep(num, variant, h, ts, g, i);
  }

  /** PassesFollow when child `i + 1` is not of class `g`. */
  lemma {:induction false} SkipFollows(num: Numerics, variant: Variant, h: nat, ts: seq<Term>, g: nat, i: nat)
    requires Stage(variant, h, ts, g, i) && i + 1 < |ts| && !InClass(g, Operator(ts[i + 1]))
    ensures Outcome(num, variant, Passes(num, variant, h, ts, g, i)) == ResumeAt(num, g, Operands(num, variant, ts), i)
    decreases 3 - g, |ts| - i, 0
  {
    SkipStep(num, variant, h, ts, g, i);
    PassesFollow(num, variant, h, ts, g, i + 1);
  }

  /** Skipping child `i + 1` moves the passes and the reference evaluation on alike,
      and keeps the invariant of PassesFollow. */
  lemma SkipStep(num: Numerics, variant: Variant, h: nat, ts: seq<Term>, g: nat, i: nat)
    requires Stage(variant, h, ts, g, i) && i + 1 < |ts| && !InClass(g, Operator(ts[i + 1]))
    ensures Stage(variant, h, ts, g, i + 1)
    ensures Passes(num, variant, h, ts, g, i) == Passes(num, variant, h, ts, g, i + 1)
    ensures ResumeAt(num, g, Operands(num, variant, ts), i) == ResumeAt(num, g, Operands(num, variant, ts), i + 1)
  {
    SkipKeepsInvariant(variant, h, ts, g, i);
    OperandsSkip(num, variant, ts, g, i);
    PassesSkipStep(num, variant, h, ts, g, i);
  }

  /** The reference evaluation skips an operand of another level alike. */
  lemma OperandsSkip(num: Numerics, variant: Variant, ts: seq<Term>, g: nat, i: nat)
    requires WfList(ts) && g < 3 && i + 1 < |ts| && !InClass(g, Operator(ts[i + 1]))
    ensures ResumeAt(num, g, Operands(num, variant, ts), i) == ResumeAt(num, g, Operands(num, variant, ts), i + 1)
  {
    var xs := Operands(num, variant, ts);
    OperandLevel(num, variant, ts, i + 1, g, xs);
    ResumeSkipAt(num, g, xs, i);
  }

  /** Skipping child `i + 1` keeps the invariant of PassesFollow; the third pass
      skips nothing. */
  lemma SkipKeepsInvariant(variant: Variant, h: nat, ts: seq<Term>, g: nat, i: nat)
    requires Stage(variant, h, ts, g, i) && i + 1 < |ts| && !InClass(g, Operator(ts[i + 1]))
    ensures g != 2 && Stage(variant, h, ts, g, i + 1)
  {
    assert g != 2 by {
      if g == 2 {
        OperatorHasOneClass(Operator(ts[i + 1]));
        assert false;
      }
    }
    forall k | 1 <= k <= i + 1 && k < |ts|
      ensures !InClass(g, Operator(ts[k]))
    {
      if k <= i {
        assert 1 <= k <= i && k < |ts|;
      }
    }
  }

  /** ResumeSkip at position `i` of a list of operands. */
  lemma ResumeSkipAt(num: Numerics, g: nat, xs: seq<Operand>, i: nat)
    requires g < 3 && i + 1 < |xs| && Level(xs[i + 1].op) != g
    ensures ResumeAt(num, g, xs, i) == ResumeAt(num, g, xs, i + 1)
  {
    ResumeSkip(num, g, xs[..i], xs[i], xs[i + 1..]);
    assert xs[..i] + [xs[i]] == xs[..i + 1];
    assert xs[i + 1..][1..] == xs[i + 2..];
  }

  /** ResumeFold at position `i` of a list of operands. */
  lemma ResumeFoldAt(num: Numerics, g: nat, xs: seq<Operand>, i: nat)
    requires g < 3 && i + 1 < |xs| && Level(xs[i + 1].op) == g
    ensures ResumeAt(num, g, xs, i) ==
      match JoinPair(num, xs[i], xs[i + 1])
      case Err(e) => Err(e)
      case Ok(x) => Resume(num, g, xs[..i], Operand(xs[i].op, Ok(x)), xs[i + 2..])
  {
    ResumeFold(num, g, xs[..i], xs[i], xs[i + 1..]);
    assert xs[i + 1..][0] == xs[i + 1];
    assert xs[i + 1..][1..] == xs[i + 2..];
  }

  /** A fold at `i` in terms of the operands: it fails with the first error of the
      left operand, the right operand and the arithmetic, and else inserts the
      folded leaf of the arithmetic's value. */
  lemma CollapseOnOperands(num: Numerics, variant: Variant, h: nat, ts: seq<Term>, i: nat, xs: seq<Operand>)
    requires Siblings(h, ts) && i + 1 < |ts| && xs == Operands(num, variant, ts)
    ensures JoinPair(num, xs[i], xs[i + 1]).Err? ==> Collapse(num, variant, h, ts, i) == Err(JoinPair(num, xs[i], xs[i + 1]).error)
    ensures JoinPair(num, xs[i], xs[i + 1]).Ok? ==>
      Collapse(num, variant, h, ts, i).Ok? &&
      Collapse(num, variant, h, ts, i).value[i] == FoldedLeaf(variant, ts, i, JoinPair(num, xs[i], xs[i + 1]).value)
  {
    CollapseFoldsPair(num, variant, h, ts, i);
    var lr := CalcSpec(num, variant, ts[i]).1;
    var rr := CalcSpec(num, variant, ts[i + 1]).1;
    assert xs[i].value == lr && xs[i + 1] == Operand(JoinOp(ts, i + 1), rr);
    if lr.Ok? && rr.Ok? {
      ArithOfJoinOp(num, ts, i + 1);
      assert JoinPair(num, xs[i], xs[i + 1]) == Combine(num, Operator(ts[i + 1]), lr.value, rr.value);
    }
  }

  /** PassesFollow when children `i` and `i + 1` are folded. */
  lemma {:induction false} FoldFollows(num: Numerics, variant: Variant, h: nat, ts: seq<Term>, g: nat, i: nat)
    requires Stage(variant, h, ts, g, i) && i + 1 < |ts| && InClass(g, Operator(ts[i + 1]))
    ensures Outcome(num, variant, Passes(num, variant, h, ts, g, i)) == ResumeAt(num, g, Operands(num, variant, ts), i)
    decreases 3 - g, |ts| - i, 0
  {
    match Collapse(num, variant, h, ts, i)
    case Err(_) =>
      OperandsFoldErr(num, variant, h, ts, g, i);
      PassesFoldStep(num, variant, h, ts, g, i);
    case Ok(us) =>
      FoldKeepsStage(variant, h, ts, us, g, i);
      OperandsFoldOk(num, variant, h, ts, g, i, us);
      PassesFollow(num, variant, h, us, g, i);
      PassesFoldStep(num, variant, h, ts, g, i);
  }

  /** A fold that fails stops the reference evaluation with the same error. */
  lemma OperandsFoldErr(num: Numerics, variant: Variant, h: nat, ts: seq<Term>, g: nat, i: nat)
    requires Siblings(h, ts) && g < 3 && i + 1 < |ts| && InClass(g, Operator(ts[i + 1]))
    requires Collapse(num, variant, h, ts, i).Err?
    ensures ResumeAt(num, g, Operands(num, variant, ts), i) == Err(Collapse(num, variant, h, ts, i).error)
  {
    var xs := Operands(num, variant, ts);
    OperandLevel(num, variant, ts, i + 1, g, xs);
    ResumeFoldAt(num, g, xs, i);
    CollapseOnOperands(num, variant, h, ts, i, xs);
  }

  /** A fold that succeeds folds operands `i` and `i + 1` of the reference
      evaluation alike. */
  lemma OperandsFoldOk(num: Numerics, variant: Variant, h: nat, ts: seq<Term>, g: nat, i: nat, us: seq<Term>)
    requires Siblings(h, ts) && g < 3 && i + 1 < |ts| && InClass(g, Operator(ts[i + 1]))
    requires Collapse(num, variant, h, ts, i) == Ok(us) && JoinOp(us, i) == JoinOp(ts, i)
    ensures ResumeAt(num, g, Operands(num, variant, ts), i) == ResumeAt(num, g, Operands(num, variant, us), i)
  {
    var xs := Operands(num, variant, ts);
    OperandLevel(num, variant, ts, i + 1, g, xs);
    ResumeFoldAt(num, g, xs, i);
    CollapseOnOperands(num, variant, h, ts, i, xs);
    var x := JoinPair(num, xs[i], xs[i + 1]).value;
    FoldedLeafOperator(variant, ts, i, x);
    var ys := Operands(num, variant, us);
    OperandsAfterFold(num, variant, ts, us, i, xs, ys);
    ResumeAtFolded(num, g, xs, ys, i, x);
  }

  /** Operands `i` and `i + 1` folded into one of value `x`: the reference
      evaluation resumes with it being built. */
  lemma ResumeAtFolded(num: Numerics, g: nat, xs: seq<Operand>, ys: seq<Operand>, i: nat, x: real)
    requires g < 3 && i + 1 < |xs| && |ys| == |xs| - 1
    requires ys[..i] == xs[..i] && ys[i] == Operand(xs[i].op, Ok(x)) && ys[i + 1..] == xs[i + 2..]
    ensures ResumeAt(num, g, ys, i) == Resume(num, g, xs[..i], Operand(xs[i].op, Ok(x)), xs[i + 2..])
  {
  }

  /** A fold at `i` keeps the invariant of PassesFollow, and the new leaf is joined
      by the operator of child `i`. */
  lemma FoldKeepsStage(variant: Variant, h: nat, ts: seq<Term>, us: seq<Term>, g: nat, i: nat)
    requires Stage(variant, h, ts, g, i) && i + 1 < |ts| && InClass(g, Operator(ts[i + 1]))
    requires Siblings(h, us) && |us| == |ts| - 1 && us[..i] == ts[..i] && us[i + 1..] == ts[i + 2..]
    requires us[i] == FoldedLeaf(variant, ts, i, us[i].result)
    ensures Stage(variant, h, us, g, i) && JoinOp(us, i) == JoinOp(ts, i)
  {
    FoldedKeepsInvariant(variant, h, ts, us, g, i);
    FoldedJoinOp(variant, ts, us, g, i);
    NoPowerAfterFold(variant, ts, us, g, i);
  }

  /** The arithmetic of the source under the operator of child `k` is the plain
      arithmetic under its joining operator. */
  lemma ArithOfJoinOp(num: Numerics, ts: seq<Term>, k: nat)
    requires WfList(ts) && 1 <= k < |ts|
    ensures forall l: real, r: real {:trigger Combine(num, Operator(ts[k]), l, r)} ::
      Combine(num, Operator(ts[k]), l, r) == Arith(num, JoinOp(ts, k), l, r)
  {
    forall l: real, r: real
      ensures Combine(num, Operator(ts[k]), l, r) == Arith(num, JoinOp(ts, k), l, r)
    {
      CombineIsArithmetic(num, Operator(ts[k]), l, r);
    }
  }

  /** The leaf of a fold at `i` is joined by the same operator as child `i`. As
      written this needs that child `i` is not a `*`, `/` or `%` child followed by
      a `^` child. */
  lemma FoldedJoinOp(variant: Variant, ts: seq<Term>, us: seq<Term>, g: nat, i: nat)
    requires WfList(ts) && WfList(us) && g < 3 && i + 1 < |ts| && InClass(g, Operator(ts[i + 1]))
    requires |us| == |ts| - 1 && us[i] == FoldedLeaf(variant, ts, i, us[i].result)
    requires DoneBefore(g, ts) && SkippedUpTo(g, ts, i) && (g == 2 ==> i == 0)
    requires variant == AsWritten && g == 0 ==> NoPowerAfterProduct(ts, i)
    ensures JoinOp(us, i) == JoinOp(ts, i)
  {
    if i >= 1 {
      var op := Operator(ts[i]);
      FoldedLeafOperator(variant, ts, i, us[i].result);
      if !(variant == Corrected && IsPunctuation(op)) {
        assert 1 <= i <= i && i < |ts|;
        assert !InClass(g, op) && !Handled(g, op);
        OperatorHasOneClass(op);
        OperatorHasOneClass(Operator(ts[i + 1]));
        assert IsLine(op);
        assert op == [op[0]];
        SingleChar(op[0]);
        Members(op[0]);
        var sign := Operator(us[i]);
        assert sign == [sign[0]];
        SingleChar(sign[0]);
        Members(sign[0]);
      }
    }
  }

  /** A fold at `i` keeps the condition that no `^` child follows a `*`, `/` or
      `%` child from `i` on: the new leaf, as written, is joined by a sign. */
  lemma NoPowerAfterFold(variant: Variant, ts: seq<Term>, us: seq<Term>, g: nat, i: nat)
    requires WfList(ts) && WfList(us) && i + 1 < |ts|
    requires |us| == |ts| - 1 && us[i + 1..] == ts[i + 2..] && us[i] == FoldedLeaf(variant, ts, i, us[i].result)
    requires variant == AsWritten && g == 0 ==> NoPowerAfterProduct(ts, i)
    ensures variant == AsWritten && g == 0 ==> NoPowerAfterProduct(us, i)
  {
    if variant == AsWritten && g == 0 {
      FoldedLeafOperator(variant, ts, i, us[i].result);
      forall k | i <= k && 1 <= k && k + 1 < |us|
        ensures !(IsPunctuation(Operator(us[k])) && IsExponent(Operator(us[k + 1])))
      {
        if k > i {
          assert us[k] == us[i + 1..][k - i - 1] == ts[k + 1];
          assert us[k + 1] == us[i + 1..][k - i] == ts[k + 2];
        }
      }
    }
  }

  /** The operands after a fold at `i`: those before `i` and after `i + 1` are
      kept, and the two at `i` become one with child `i`'s operator and value `z`. */
  lemma OperandsAfterFold(num: Numerics, variant: Variant, ts: seq<Term>, us: seq<Term>, i: nat, xs: seq<Operand>, ys: seq<Operand>)
    requires WfList(ts) && WfList(us) && i + 1 < |ts|
    requires |us| == |ts| - 1 && us[..i] == ts[..i] && us[i + 1..] == ts[i + 2..]
    requires us[i].terms == [] && us[i].isParsed && JoinOp(us, i) == JoinOp(ts, i)
    requires xs == Operands(num, variant, ts) && ys == Operands(num, variant, us)
    ensures ys[..i] == xs[..i] && ys[i] == Operand(xs[i].op, Ok(us[i].result)) && ys[i + 1..] == xs[i + 2..]
  {
    forall k | 0 <= k < i
      ensures ys[k] == xs[k]
    {
      assert us[k] == us[..i][k] == ts[k];
      assert JoinOp(us, k) == JoinOp(ts, k);
    }
    forall k | i + 1 <= k < |us|
      ensures ys[k] == xs[k + 1]
    {
      assert us[k] == us[i + 1..][k - i - 1] == ts[k + 1];
      assert JoinOp(us, k) == JoinOp(ts, k + 1);
    }
    CachedLeafUnchanged(num, variant, us[i]);
    assert ys[..i] == xs[..i];
    assert ys[i + 1..] == xs[i + 2..];
  }

  // ---------------------------------------------------------------- the theorems

  /** The three passes over any list of children evaluate it by precedence: the
      error that stops them is the first error of the reference evaluation, and
      else the leaf they leave holds its value. The corrected passes always agree
      with the reference; the passes as written agree when no `^` child follows a
      `*`, `/` or `%` child. */
  lemma PassesFollowPrecedence(num: Numerics, variant: Variant, h: nat, ts: seq<Term>)
    requires Siblings(h, ts) && ts != []
    requires variant == AsWritten ==> NoPowerAfterProduct(ts, 0)
    ensures Outcome(num, variant, Passes(num, variant, h, ts, 0, 0)) == Evaluate(num, 0, Operands(num, variant, ts))
  {
    PassesFollow(num, variant, h, ts, 0, 0);
    EvaluateStarts(num, 0, Operands(num, variant, ts));
  }

  /** The value of a group whose children come to `e`: negated for a `-` group. */
  function Signed(t: Term, e: Result<real, CalcError>): Result<real, CalcError> {
    if e.Ok? && Negates(t) then Ok(-e.value) else e
  }

  /** A group of two or more children evaluates to the outcome of its passes,
      negated for a `-` group (term.go:194-266). */
  lemma GroupOutcome(num: Numerics, variant: Variant, t: Term)
    requires Wf(t) && |t.terms| >= 2
    ensures Siblings(Height(t), t.terms)
    ensures CalcSpec(num, variant, t).1 == Signed(t, Outcome(num, variant, Passes(num, variant, Height(t), t.terms, 0, 0)))
  {
    ChildrenBelow(t);
    var h := Height(t);
    assert OneChildOr(num, variant, t) == (t, None);
    PassesLeaveOne(num, variant, h, t.terms, 0, 0);
    var (ts, e) := Passes(num, variant, h, t.terms, 0, 0);
    if e.None? {
      var z := ts[0].result;
      assert ts == [Synth(z)];
      SynthIsSignedLeaf(num, variant, z);
      FoldedGroupValue(num, variant, t, z);
    }
  }

  /** A group of two or more children evaluates by precedence, negated for a `-`
      group; as written, this holds when no `^` child follows a `*`, `/` or `%`
      child. */
  lemma GroupFollowsPrecedence(num: Numerics, variant: Variant, t: Term)
    requires Wf(t) && |t.terms| >= 2
    requires variant == AsWritten ==> NoPowerAfterProduct(t.terms, 0)
    ensures CalcSpec(num, variant, t).1 == Signed(t, Evaluate(num, 0, Operands(num, variant, t.terms)))
  {
    GroupOutcome(num, variant, t);
    PassesFollowPrecedence(num, variant, Height(t), t.terms);
  }
}
