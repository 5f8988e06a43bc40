/** Properties of the evaluation model: leaf normalisation, pair arithmetic,
    the three reduction passes and the group result (term.go:146-267). */
module EvaluatorProps {
  import opened Wrappers
  import opened Chars
  import opened Terms
  import opened Evaluator

  // ---------------------------------------------------------------- leaves

  /** A text that starts with a digit or `.` reaches ParseFloat unchanged. */
  lemma NumberTextUnchanged(variant: Variant, text: string)
    requires text != "" && ('0' <= text[0] <= '9' || text[0] == '.')
    ensures NormalizeNumber(variant, text) == text
  {
    SingleChar(text[0]);
    Members(text[0]);
    assert text[..1] == [text[0]];
  }

  /** A leading character that is neither a sign nor a number character (a `^`,
      `*`, `/` or `%` that prefixed the token) is dropped, and nothing else changes. */
  lemma LeadingOperatorDropped(variant: Variant, c: char, x: string)
    requires c !in SignChs && c !in NumberChs
    ensures NormalizeNumber(variant, [c] + x) == x
  {
    var s := [c] + x;
    SingleChar(c);
    Members(c);
    assert s[0] == c && s[..1] == [c];
    assert !HasPrefix(s, '-', '-') && !HasPrefix(s, '+', '-') && !HasPrefix(s, '-', '+') && !HasPrefix(s, '+', '+');
    assert s[1..] == x;
  }

  /** A single sign in front of a non-sign is kept. */
  lemma SingleSignKept(variant: Variant, a: char, x: string)
    requires a in SignChs && (x == [] || x[0] !in SignChs)
    ensures NormalizeNumber(variant, [a] + x) == [a] + x
  {
    var s := [a] + x;
    SingleChar(a);
    Members(a);
    assert s[0] == a && s[..1] == [a];
    if x != [] {
      Members(x[0]);
      assert s[1] == x[0];
    }
    assert !HasPrefix(s, '-', '-') && !HasPrefix(s, '+', '-') && !HasPrefix(s, '-', '+') && !HasPrefix(s, '+', '+');
  }

  /** The sign two signs multiply to. */
  function SignProduct(a: char, b: char): char {
    if a == b then '+' else '-'
  }

  /** Two signs in front of a non-sign become one: their product, except that the
      source as written turns `-+` into `+` (term.go:161-163). */
  lemma TwoSignsCombine(variant: Variant, a: char, b: char, x: string)
    requires a in SignChs && b in SignChs && (x == [] || x[0] !in SignChs)
    ensures NormalizeNumber(variant, [a, b] + x)
      == [if variant == AsWritten && a == '-' && b == '+' then '+' else SignProduct(a, b)] + x
  {
    var s := [a, b] + x;
    Members(a);
    Members(b);
    assert s[0] == a && s[1] == b && s[2..] == x;
    var s1 := Rewrite(s, '-', '-', '+');
    var s2 := Rewrite(s1, '+', '-', '-');
    var s3 := Rewrite(s2, '-', '+', MinusPlus(variant));
    var s4 := Rewrite(s3, '+', '+', '+');
    var r := [if variant == AsWritten && a == '-' && b == '+' then '+' else SignProduct(a, b)] + x;
    assert s4 == r by {
      if x != [] {
        Members(x[0]);
      }
      if a == '-' && b == '-' {
        assert s1 == ['+'] + x;
      } else if a == '+' && b == '-' {
        assert s1 == s && s2 == ['-'] + x;
      } else if a == '-' && b == '+' {
        assert s1 == s && s2 == s && s3 == [MinusPlus(variant)] + x;
      } else {
        assert s1 == s && s2 == s && s3 == s && s4 == ['+'] + x;
      }
    }
    SingleChar(r[0]);
    Members(r[0]);
    assert r[..1] == [r[0]];
  }

  /** The third rewrite as written loses the minus of `-+`: `3-+5` has the token
      `-+5`, read as +5. The corrected rewrite reads it as -5. */
  lemma MinusPlusLosesMinus(s: string)
    requires s == "-+5"
    ensures NormalizeNumber(AsWritten, s) == "+5"
    ensures NormalizeNumber(Corrected, s) == "-5"
  {
    TwoSignsCombine(AsWritten, '-', '+', "5");
    TwoSignsCombine(Corrected, '-', '+', "5");
    assert ['-', '+'] + "5" == s;
  }

  /** Each rewrite is tried once, in order, so three signs are not reduced to one:
      `-+-5` only loses its first pair. */
  lemma RewritesApplyOnce(variant: Variant, s: string)
    requires s == "-+-5"
    ensures NormalizeNumber(variant, s) == [MinusPlus(variant)] + "-5"
  {
    var s3 := [MinusPlus(variant)] + "-5";
    assert !HasPrefix(s, '-', '-') && !HasPrefix(s, '+', '-') && HasPrefix(s, '-', '+');
    assert Rewrite(s, '-', '+', MinusPlus(variant)) == s3;
    assert !HasPrefix(s3, '+', '+');
    assert s3[..1] == [MinusPlus(variant)];
    SingleChar(MinusPlus(variant));
  }

  /** A cached leaf returns its result and stays as it is (term.go:149-151). */
  lemma CachedLeafUnchanged(num: Numerics, variant: Variant, t: Term)
    requires t.terms == [] && t.isParsed
    ensures CalcSpec(num, variant, t) == (t, Ok(t.result))
  {
  }

  /** A leaf that is evaluated is cached, so evaluating it again returns the same
      value; a leaf whose text is not a number fails with IsParsed left false,
      and fails again (term.go:174-181). */
  lemma LeafOutcome(num: Numerics, variant: Variant, t: Term)
    requires Wf(t) && t.terms == []
    ensures var (t', r) := CalcSpec(num, variant, t);
      t'.terms == [] && t'.text == t.text &&
      (r.Ok? ==> t'.isParsed && t'.result == r.value && CalcSpec(num, variant, t') == (t', r)) &&
      (r.Err? ==> r == Err(InvalidNumber) && !t'.isParsed && !t.isParsed && CalcSpec(num, variant, t').1 == r)
  {
  }

  // ---------------------------------------------------------------- arithmetic

  /** The plain reading of `left op right`: `+` and `-` add (the right operand
      carries its own sign), `%` takes the truncated remainder of the truncated
      operands. */
  function Arith(num: Numerics, op: char, l: real, r: real): Result<real, CalcError> {
    match op
    case '^' => Ok(num.pow(l, r))
    case '*' => Ok(l * r)
    case '/' => if r == 0.0 then Err(DivisionByZero) else Ok(l / r)
    case '%' => if Trunc(r) == 0 then Err(ModuloByZero) else Ok(Rem(Trunc(l), Trunc(r)) as real)
    case _ => Ok(l + r)
  }

  /** Truncation commutes with negation. */
  lemma TruncNegate(x: real)
    ensures Trunc(-x) == -Trunc(x)
  {
  }

  /** Go's remainder changes sign with the dividend. */
  lemma RemNegate(a: int, b: int)
    requires b != 0
    ensures Rem(-a, b) == -Rem(a, b)
  {
  }

  /** `+` and `-` both add: the right operand carries its own sign (term.go:226-229). */
  lemma LineOperatorsAdd(num: Numerics, op: string, l: real, r: real)
    requires |op| == 1 && (op[0] == '+' || op[0] == '-')
    ensures Combine(num, op, l, r) == Ok(l + r)
    ensures Combine(num, op, l, r) == Arith(num, op[0], l, r)
  {
  }

  /** `^` is math.Pow of the operands as they are (term.go:224-225). */
  lemma ExponentIsPow(num: Numerics, op: string, l: real, r: real)
    requires |op| == 1 && op[0] == '^'
    ensures Combine(num, op, l, r) == Ok(num.pow(l, r))
    ensures Combine(num, op, l, r) == Arith(num, op[0], l, r)
  {
  }

  // For `*`, `/` and `%` with a negative left operand the source computes with
  // |left| and negates the result (term.go:218-240); the next three lemmas show
  // that this is plain signed arithmetic.

  lemma ProductIsSigned(num: Numerics, op: string, l: real, r: real)
    requires |op| == 1 && op[0] == '*'
    ensures Combine(num, op, l, r) == Ok(l * r)
    ensures Combine(num, op, l, r) == Arith(num, op[0], l, r)
  {
    if l < 0.0 {
      PunctuationSign(op);
      assert Combine(num, op, l, r).value == -((-l) * r);
    }
  }

  lemma QuotientIsSigned(num: Numerics, op: string, l: real, r: real)
    requires |op| == 1 && op[0] == '/'
    ensures Combine(num, op, l, r) == if r == 0.0 then Err(DivisionByZero) else Ok(l / r)
    ensures Combine(num, op, l, r) == Arith(num, op[0], l, r)
  {
    if l < 0.0 {
      PunctuationSign(op);
      assert r != 0.0 ==> Combine(num, op, l, r).value == -((-l) / r);
    }
  }

  lemma RemainderIsSigned(num: Numerics, op: string, l: real, r: real)
    requires |op| == 1 && op[0] == '%'
    ensures Combine(num, op, l, r) == if Trunc(r) == 0 then Err(ModuloByZero) else Ok(Rem(Trunc(l), Trunc(r)) as real)
    ensures Combine(num, op, l, r) == Arith(num, op[0], l, r)
  {
    if l < 0.0 {
      PunctuationSign(op);
      if Trunc(r) != 0 {
        var a, b := Trunc(l), Trunc(r);
        var m := Rem(a, b);
        TruncNegate(l);
        RemNegate(a, b);
        assert Rem(Trunc(-l), b) == -m;
        assert Combine(num, op, l, r) == Ok(-((-m) as real));
        assert -((-m) as real) == m as real;
      }
    }
  }

  lemma PunctuationSign(op: string)
    requires |op| == 1 && (op[0] == '*' || op[0] == '/' || op[0] == '%')
    ensures IsPunctuation(op)
  {
    assert op == [op[0]];
    SingleChar(op[0]);
    Members(op[0]);
  }

  /** The source's arithmetic agrees with the plain reading for every operator
      and every pair of operands. */
  lemma CombineIsArithmetic(num: Numerics, op: string, l: real, r: real)
    requires |op| == 1 && op[0] in OperatorChs
    ensures Combine(num, op, l, r) == Arith(num, op[0], l, r)
  {
    if op[0] == '^' {
      ExponentIsPow(num, op, l, r);
    } else if op[0] == '*' {
      ProductIsSigned(num, op, l, r);
    } else if op[0] == '/' {
      QuotientIsSigned(num, op, l, r);
    } else if op[0] == '%' {
      RemainderIsSigned(num, op, l, r);
    } else {
      Members(op[0]);
      LineOperatorsAdd(num, op, l, r);
    }
  }

  /** The quotient of `n` by `d` on naturals. */
  function Quot(n: nat, d: nat): nat
    requires d > 0
    decreases n
  {
    if n < d then 0 else 1 + Quot(n - d, d)
  }

  lemma {:induction false} QuotMod(n: nat, d: nat)
    requires d > 0
    ensures n == Quot(n, d) * d + Mod(n, d)
    decreases n
  {
    if n >= d {
      QuotMod(n - d, d);
      assert (1 + Quot(n - d, d)) * d == Quot(n - d, d) * d + d;
    }
  }

  /** Go's integer division: the quotient truncated toward zero. */
  function TruncQuot(a: int, b: int): int
    requires b != 0
  {
    var q: int := Quot(Abs(a), Abs(b));
    if (a >= 0) == (b > 0) then q else -q
  }

  /** Rem is the remainder of truncated division, as the Go specification
      defines `%`: a == (a / b) * b + a % b. */
  lemma RemIsTruncatedRemainder(a: int, b: int)
    requires b != 0
    ensures a == TruncQuot(a, b) * b + Rem(a, b)
  {
    QuotMod(Abs(a), Abs(b));
    var q: int := Quot(Abs(a), Abs(b));
    if a >= 0 && b < 0 {
      assert q * Abs(b) == -q * b;
    } else if a < 0 && b > 0 {
      assert -(q * Abs(b)) == -q * b;
    } else if a < 0 && b < 0 {
      assert -(q * Abs(b)) == q * b;
    }
  }

  /** The folded leaf records the value: it is evaluated and cached, its text
      starts with `+` exactly when the value is not negative (term.go:242-250),
      its operator is that sign, and evaluating it returns the value. */
  lemma SynthIsSignedLeaf(num: Numerics, variant: Variant, v: real)
    ensures Synth(v).isParsed && Synth(v).result == v && Synth(v).terms == []
    ensures Synth(v).text[0] == '+' <==> v >= 0.0
    ensures Operator(Synth(v)) == [Synth(v).text[0]]
    ensures IsLine(Operator(Synth(v))) && !IsPunctuation(Operator(Synth(v))) && !IsExponent(Operator(Synth(v)))
    ensures CalcSpec(num, variant, Synth(v)) == (Synth(v), Ok(v))
  {
    SynthOperator(v);
  }

  /** The operator of the folded leaf is its sign, which only the third pass handles. */
  lemma SynthOperator(v: real)
    ensures Operator(Synth(v)) == [Synth(v).text[0]] && Synth(v).text[0] in SignChs
    ensures IsLine(Operator(Synth(v))) && !IsPunctuation(Operator(Synth(v))) && !IsExponent(Operator(Synth(v)))
  {
    var c := Synth(v).text[0];
    Members(c);
    SingleChar(c);
  }

  /** The leaf of a fold is evaluated and caches the value. Its operator is the
      sign of the value, or, corrected, the `*`, `/` or `%` of the child it replaces. */
  lemma FoldedLeafOperator(variant: Variant, ts: seq<Term>, i: nat, v: real)
    requires i < |ts| && (i >= 1 ==> ts[i].text != "")
    ensures var x := FoldedLeaf(variant, ts, i, v);
      x.isParsed && x.result == v && x.terms == [] && x.text != "" &&
      if variant == Corrected && i >= 1 && IsPunctuation(Operator(ts[i])) then
        Operator(x) == Operator(ts[i])
      else
        x == Synth(v) && IsLine(Operator(x)) && !IsPunctuation(Operator(x)) && !IsExponent(Operator(x))
  {
    if variant == Corrected && i >= 1 && IsPunctuation(Operator(ts[i])) {
      var op := Operator(ts[i]);
      SingleChar(op[0]);
      assert op == [op[0]] && op[..1] == op;
    } else {
      SynthOperator(v);
    }
  }

  // ---------------------------------------------------------------- passes

  /** Every operator belongs to the class of exactly one pass. */
  lemma OperatorHasOneClass(op: string)
    requires |op| == 1 && op[0] in OperatorChs
    ensures IsExponent(op) || IsPunctuation(op) || IsLine(op)
    ensures !(IsExponent(op) && IsPunctuation(op)) && !(IsExponent(op) && IsLine(op)) && !(IsPunctuation(op) && IsLine(op))
  {
    assert op == [op[0]];
    SingleChar(op[0]);
    Members(op[0]);
  }

  /** `op` belongs to the class of a pass before pass `g`. */
  predicate Handled(g: nat, op: string) {
    (g > 0 && IsExponent(op)) || (g > 1 && IsPunctuation(op)) || (g > 2 && IsLine(op))
  }

  /** No child after the first has an operator of a pass before `g`. */
  predicate DoneBefore(g: nat, ts: seq<Term>)
    requires WfList(ts)
  {
    forall k :: 1 <= k < |ts| ==> !Handled(g, Operator(ts[k]))
  }

  /** No child from the second up to child `i` has an operator of pass `g`. */
  predicate SkippedUpTo(g: nat, ts: seq<Term>, i: nat)
    requires WfList(ts)
  {
    forall k :: 1 <= k <= i && k < |ts| ==> !InClass(g, Operator(ts[k]))
  }

  /** A list that is down to one child holds a folded leaf. */
  predicate EndsFolded(ts: seq<Term>) {
    |ts| >= 2 || (ts != [] && ts[0] == Synth(ts[0].result))
  }

  /** The passes leave exactly one child, a folded leaf, when they do not fail and
      there were at least two children to fold (term.go:194-259): the invariant of
      pass `g` at position `i` is that no earlier pass's operator remains and that
      the operators skipped so far are not of class `g`. */
  lemma {:induction false} PassesLeaveOne(num: Numerics, variant: Variant, h: nat, ts: seq<Term>, g: nat, i: nat)
    requires Siblings(h, ts) && ts != [] && g <= 3
    requires DoneBefore(g, ts) && (g < 3 ==> SkippedUpTo(g, ts, i)) && (g == 2 ==> i == 0)
    requires EndsFolded(ts)
    ensures LeftOne(Passes(num, variant, h, ts, g, i))
    decreases 3 - g, |ts|, |ts| - i, 1
  {
    if g == 3 {
      assert |ts| < 2 by {
        if |ts| >= 2 {
          OperatorHasOneClass(Operator(ts[1]));
          assert false;
        }
      }
    } else if i + 1 >= |ts| {
      NextPassLeavesOne(num, variant, h, ts, g, i);
    } else if !InClass(g, Operator(ts[i + 1])) {
      SkipLeavesOne(num, variant, h, ts, g, i);
    } else {
      FoldLeavesOne(num, variant, h, ts, g, i);
    }
  }

  /** PassesLeaveOne when pass `g` has reached the last child. */
  lemma {:induction false} NextPassLeavesOne(num: Numerics, variant: Variant, h: nat, ts: seq<Term>, g: nat, i: nat)
    requires Siblings(h, ts) && ts != [] && g < 3 && i + 1 >= |ts|
    requires DoneBefore(g, ts) && SkippedUpTo(g, ts, i) && (g == 2 ==> i == 0)
    requires EndsFolded(ts)
    ensures LeftOne(Passes(num, variant, h, ts, g, i))
    decreases 3 - g, |ts|, |ts| - i, 0
  {
    assert DoneBefore(g + 1, ts);
    PassesLeaveOne(num, variant, h, ts, g + 1, 0);
  }

  /** PassesLeaveOne when child `i + 1` is not of class `g`. */
  lemma {:induction false} SkipLeavesOne(num: Numerics, variant: Variant, h: nat, ts: seq<Term>, g: nat, i: nat)
    requires Siblings(h, ts) && g < 3 && i + 1 < |ts| && !InClass(g, Operator(ts[i + 1]))
    requires DoneBefore(g, ts) && SkippedUpTo(g, ts, i) && (g == 2 ==> i == 0)
    requires EndsFolded(ts)
    ensures LeftOne(Passes(num, variant, h, ts, g, i))
    decreases 3 - g, |ts|, |ts| - i, 0
  {
    assert g != 2 by {
      if g == 2 {
        OperatorHasOneClass(Operator(ts[i + 1]));
        assert false;
      }
    }
    assert SkippedUpTo(g, ts, i + 1) by {
      forall k | 1 <= k <= i + 1 && k < |ts|
        ensures !InClass(g, Operator(ts[k]))
      {
        if k <= i {
          assert 1 <= k <= i && k < |ts|;
        }
      }
    }
    PassesLeaveOne(num, variant, h, ts, g, i + 1);
  }

  /** PassesLeaveOne when children `i` and `i + 1` are folded. */
  lemma {:induction false} FoldLeavesOne(num: Numerics, variant: Variant, h: nat, ts: seq<Term>, g: nat, i: nat)
    requires Siblings(h, ts) && g < 3 && i + 1 < |ts| && InClass(g, Operator(ts[i + 1]))
    requires DoneBefore(g, ts) && SkippedUpTo(g, ts, i) && (g == 2 ==> i == 0)
    ensures LeftOne(Passes(num, variant, h, ts, g, i))
    decreases 3 - g, |ts|, |ts| - i, 0
  {
    match Collapse(num, variant, h, ts, i)
    case Err(_) =>
    case Ok(us) =>
      FoldedKeepsInvariant(variant, h, ts, us, g, i);
      PassesLeaveOne(num, variant, h, us, g, i);
  }

  /** The passes ended without error and left one folded leaf. */
  predicate LeftOne(r: (seq<Term>, Option<CalcError>)) {
    r.1.None? ==> |r.0| == 1 && r.0[0] == Synth(r.0[0].result)
  }

  /** A fold at `i` keeps the invariant of PassesLeaveOne: the new leaf's operator
      is a sign, which no pass before the third handles, or, corrected, the `*`, `/`
      or `%` of child `i`, which only the first pass can find there. */
  lemma FoldedKeepsInvariant(variant: Variant, h: nat, ts: seq<Term>, us: seq<Term>, g: nat, i: nat)
    requires Siblings(h, ts) && Siblings(h, us) && g < 3 && i + 1 < |ts|
    requires |us| == |ts| - 1 && us[..i] == ts[..i] && us[i + 1..] == ts[i + 2..]
    requires us[i] == FoldedLeaf(variant, ts, i, us[i].result)
    requires DoneBefore(g, ts) && SkippedUpTo(g, ts, i) && (g == 2 ==> i == 0)
    ensures DoneBefore(g, us) && SkippedUpTo(g, us, i) && EndsFolded(us)
  {
    var x := us[i];
    FoldedLeafOperator(variant, ts, i, x.result);
    if variant == Corrected && i >= 1 && IsPunctuation(Operator(ts[i])) {
      OperatorHasOneClass(Operator(ts[i]));
      assert g == 0 by {
        assert 1 <= i <= i && i < |ts|;
      }
    }
    forall k | 1 <= k < |us|
      ensures !Handled(g, Operator(us[k])) && (k <= i ==> !InClass(g, Operator(us[k])))
    {
      if k < i {
        assert us[k] == us[..i][k] == ts[k];
      } else if k > i {
        assert us[k] == us[i + 1..][k - i - 1] == ts[k + 1];
      }
    }
  }

  /** A fold succeeds exactly when both operands evaluate and their combination
      does; it stops at the first of these that fails, and the leaf it inserts holds
      the combination (term.go:208-255). */
  lemma CollapseFoldsPair(num: Numerics, variant: Variant, h: nat, ts: seq<Term>, i: nat)
    requires Siblings(h, ts) && i + 1 < |ts|
    ensures var lr := CalcSpec(num, variant, ts[i]).1;
      var rr := CalcSpec(num, variant, ts[i + 1]).1;
      var c := Collapse(num, variant, h, ts, i);
      (lr.Err? ==> c == Err(lr.error)) &&
      (lr.Ok? && rr.Err? ==> c == Err(rr.error)) &&
      (lr.Ok? && rr.Ok? ==>
        var v := Combine(num, Operator(ts[i + 1]), lr.value, rr.value);
        (v.Err? ==> c == Err(v.error)) &&
        (v.Ok? ==> c.Ok? && c.value[i] == FoldedLeaf(variant, ts, i, v.value)))
  {
  }

  /** Passes over a single child change nothing (term.go:194-195 with one child). */
  lemma PassesSingleton(num: Numerics, variant: Variant, h: nat, ts: seq<Term>)
    requires Siblings(h, ts) && |ts| == 1
    ensures Passes(num, variant, h, ts, 0, 0) == (ts, None)
  {
    assert Passes(num, variant, h, ts, 2, 0) == (ts, None);
    assert Passes(num, variant, h, ts, 1, 0) == (ts, None);
  }

  // ---------------------------------------------------------------- group results

  /** A group of two or more children is reduced to one folded leaf when no pair
      fails (term.go:194-259), its own cached fields are left as they were, and its
      value is that leaf's value, negated for a `-` group (term.go:262-266). As
      written the negation is stored in the leaf; corrected, the leaf is kept. */
  lemma GroupReducesToOneLeaf(num: Numerics, variant: Variant, t: Term)
    requires Wf(t) && |t.terms| >= 2
    ensures var (t', r) := CalcSpec(num, variant, t);
      t'.isParsed == t.isParsed && t'.result == t.result &&
      (r.Ok? ==> |t'.terms| == 1 && t'.terms[0].terms == [] && t'.terms[0].isParsed) &&
      (r.Ok? && variant == AsWritten ==>
        r.value == t'.terms[0].result &&
        t'.terms[0] == Synth(if Negates(t) then -r.value else r.value).(result := r.value)) &&
      (r.Ok? && variant == Corrected ==>
        t'.terms[0] == Synth(t'.terms[0].result) &&
        r.value == if Negates(t) then -t'.terms[0].result else t'.terms[0].result)
  {
    ChildrenBelow(t);
    var h := Height(t);
    assert OneChildOr(num, variant, t) == (t, None);
    PassesLeaveOne(num, variant, h, t.terms, 0, 0);
  }

  /** The evaluation of a group with a single child, step by step: the child is
      evaluated, the group adopts its value and is marked evaluated (term.go:184-192),
      the passes find nothing to fold, and Finish decides the group's value. */
  lemma SoleChildSteps(num: Numerics, variant: Variant, t: Term)
    requires Wf(t) && |t.terms| == 1
    ensures var (c, cr) := CalcSpec(num, variant, t.terms[0]);
      var t1 := t.(isParsed := true, result := if cr.Ok? then cr.value else 0.0, terms := [c]);
      CalcSpec(num, variant, t) == if cr.Ok? then Finish(variant, t1, cr.value) else (t1, Err(cr.error))
  {
    ChildrenBelow(t);
    var (c, cr) := CalcSpec(num, variant, t.terms[0]);
    var t1 := t.(isParsed := true, result := if cr.Ok? then cr.value else 0.0, terms := [c]);
    assert OneChildOr(num, variant, t) == (t1, if cr.Ok? then None else Some(cr.error));
    if cr.Ok? {
      PassesSingleton(num, variant, Height(t), t1.terms);
    }
  }

  /** A group whose single child fails fails with the child's error; it is marked
      evaluated with a result of 0 (term.go:187-191). */
  lemma SoleChildFails(num: Numerics, variant: Variant, t: Term)
    requires Wf(t) && |t.terms| == 1
    ensures var (t', r) := CalcSpec(num, variant, t);
      var (c, cr) := CalcSpec(num, variant, t.terms[0]);
      cr.Err? ==> t'.isParsed && t'.result == 0.0 && t'.terms == [c] && r == cr
  {
    SoleChildSteps(num, variant, t);
  }

  /** As written, a group with a single child that evaluates adopts the child's
      value and is marked evaluated (term.go:184-192), but returns the child's
      cached result field, negated in place for a `-` group (term.go:262-266). */
  lemma SoleChildAsWritten(num: Numerics, t: Term)
    requires Wf(t) && |t.terms| == 1
    ensures var (t', r) := CalcSpec(num, AsWritten, t);
      var (c, cr) := CalcSpec(num, AsWritten, t.terms[0]);
      cr.Ok? ==>
        t'.isParsed && t'.result == cr.value &&
        t'.terms == [if Negates(t) then c.(result := -c.result) else c] &&
        r == Ok(if Negates(t) then -c.result else c.result)
  {
    SoleChildSteps(num, AsWritten, t);
  }

  /** Corrected, a group with a single child that evaluates adopts the child's
      value, is marked evaluated and returns that value, negated for a `-` group;
      the child is left as its own evaluation left it. */
  lemma SoleChildCorrected(num: Numerics, t: Term)
    requires Wf(t) && |t.terms| == 1
    ensures var (t', r) := CalcSpec(num, Corrected, t);
      var (c, cr) := CalcSpec(num, Corrected, t.terms[0]);
      cr.Ok? ==>
        t'.isParsed && t'.result == cr.value && t'.terms == [c] &&
        r == Ok(if Negates(t) then -cr.value else cr.value)
  {
    SoleChildSteps(num, Corrected, t);
  }

  /** As written, a group whose single child is a group of two or more children
      returns that child's cached result field, which the child's evaluation never
      sets (term.go:188 and term.go:266), instead of the child's value; corrected,
      it returns the child's value. A `-` group negates either. */
  lemma StaleGroupResult(num: Numerics, t: Term)
    requires Wf(t) && |t.terms| == 1 && |t.terms[0].terms| >= 2
    ensures var cr := CalcSpec(num, AsWritten, t.terms[0]).1;
      cr.Ok? ==> CalcSpec(num, AsWritten, t).1 == Ok(if Negates(t) then -t.terms[0].result else t.terms[0].result)
    ensures var cr := CalcSpec(num, Corrected, t.terms[0]).1;
      cr.Ok? ==> CalcSpec(num, Corrected, t).1 == Ok(if Negates(t) then -cr.value else cr.value)
  {
    ChildrenBelow(t);
    GroupReducesToOneLeaf(num, AsWritten, t.terms[0]);
    SoleChildAsWritten(num, t);
    SoleChildCorrected(num, t);
  }

  /** Passes over a single child change nothing, from any pass on. */
  lemma PassesOnOne(num: Numerics, variant: Variant, h: nat, ts: seq<Term>, g: nat)
    requires Siblings(h, ts) && |ts| == 1 && g <= 3
    ensures Passes(num, variant, h, ts, g, 0) == (ts, None)
    decreases 3 - g
  {
    if g < 3 {
      PassesOnOne(num, variant, h, ts, g + 1);
    }
  }

  /** The passes over two operands whose fold gives `z` leave the one leaf `Synth(z)`. */
  lemma PairPasses(num: Numerics, variant: Variant, h: nat, ts: seq<Term>, z: real)
    requires Siblings(h, ts) && |ts| == 2
    requires Collapse(num, variant, h, ts, 0) == Ok([Synth(z)])
    ensures Passes(num, variant, h, ts, 0, 0) == ([Synth(z)], None)
  {
    var op := Operator(ts[1]);
    OperatorHasOneClass(op);
    PassesOnOne(num, variant, h, [Synth(z)], 0);
    PassesOnOne(num, variant, h, [Synth(z)], 1);
    PassesOnOne(num, variant, h, [Synth(z)], 2);
    if IsExponent(op) {
      assert Passes(num, variant, h, ts, 0, 0) == Passes(num, variant, h, [Synth(z)], 0, 0);
    } else if IsPunctuation(op) {
      assert Passes(num, variant, h, ts, 0, 0) == Passes(num, variant, h, ts, 1, 0);
      assert Passes(num, variant, h, ts, 1, 0) == Passes(num, variant, h, [Synth(z)], 1, 0);
    } else {
      assert Passes(num, variant, h, ts, 0, 0) == Passes(num, variant, h, ts, 1, 0);
      assert Passes(num, variant, h, ts, 1, 0) == Passes(num, variant, h, ts, 2, 0);
      assert Passes(num, variant, h, ts, 2, 0) == Passes(num, variant, h, [Synth(z)], 2, 0);
    }
  }

  /** A group of two operands evaluates to their combination under the second
      operand's operator (term.go:194-259), negated for a `-` group (term.go:262-266). */
  lemma PairGroup(num: Numerics, variant: Variant, t: Term, x: real, y: real)
    requires Wf(t) && |t.terms| == 2
    requires CalcSpec(num, variant, t.terms[0]).1 == Ok(x) && CalcSpec(num, variant, t.terms[1]).1 == Ok(y)
    requires Combine(num, Operator(t.terms[1]), x, y).Ok?
    ensures var z := Combine(num, Operator(t.terms[1]), x, y).value;
      CalcSpec(num, variant, t).1 == Ok(if Negates(t) then -z else z)
  {
    ChildrenBelow(t);
    var z := Combine(num, Operator(t.terms[1]), x, y).value;
    PairCollapse(num, variant, Height(t), t.terms, x, y);
    PairPasses(num, variant, Height(t), t.terms, z);
    FoldedGroupValue(num, variant, t, z);
  }

  /** Two operands that evaluate to `x` and `y` fold into the one leaf of their
      combination. */
  lemma PairCollapse(num: Numerics, variant: Variant, h: nat, ts: seq<Term>, x: real, y: real)
    requires Siblings(h, ts) && |ts| == 2
    requires CalcSpec(num, variant, ts[0]).1 == Ok(x) && CalcSpec(num, variant, ts[1]).1 == Ok(y)
    requires Combine(num, Operator(ts[1]), x, y).Ok?
    ensures Collapse(num, variant, h, ts, 0) == Ok([Synth(Combine(num, Operator(ts[1]), x, y).value)])
  {
    var z := Combine(num, Operator(ts[1]), x, y).value;
    CollapseFoldsPair(num, variant, h, ts, 0);
    var c := Collapse(num, variant, h, ts, 0);
    assert c.Ok? && |c.value| == 1 && c.value[0] == Synth(z);
    assert c.value == [Synth(z)];
  }

  /** A group of two or more children whose passes leave the one leaf `Synth(z)`
      evaluates to `z`, negated for a `-` group (term.go:262-266). */
  lemma FoldedGroupValue(num: Numerics, variant: Variant, t: Term, z: real)
    requires Wf(t) && |t.terms| >= 2 && Siblings(Height(t), t.terms)
    requires Passes(num, variant, Height(t), t.terms, 0, 0) == ([Synth(z)], None)
    ensures CalcSpec(num, variant, t).1 == Ok(if Negates(t) then -z else z)
  {
    assert OneChildOr(num, variant, t) == (t, None);
    assert CalcSpec(num, variant, t) == Finish(variant, t.(terms := [Synth(z)]), z);
  }

  // ---------------------------------------------------------------- evaluating twice

  /** As written, a group whose single child is an evaluated leaf returns that
      leaf's cached result, negated for a `-` group. */
  lemma CachedSoleValue(num: Numerics, u: Term, c: Term)
    requires Wf(u) && u.terms == [c] && c.terms == [] && c.isParsed
    ensures CalcSpec(num, AsWritten, u).1 == Ok(if Negates(u) then -c.result else c.result)
  {
    CachedLeafUnchanged(num, AsWritten, c);
    SoleChildAsWritten(num, u);
  }

  /** As written, evaluating a `-` group of two or more children a second time
      returns the opposite value: the first evaluation stored the negation in the
      folded leaf, the second negates it back (term.go:262-266). */
  lemma NegatedGroupFlips(num: Numerics, t: Term)
    requires Wf(t) && |t.terms| >= 2 && Negates(t)
    ensures var (t', r) := CalcSpec(num, AsWritten, t);
      r.Ok? ==> CalcSpec(num, AsWritten, t').1 == Ok(-r.value)
  {
    var (t', r) := CalcSpec(num, AsWritten, t);
    GroupReducesToOneLeaf(num, AsWritten, t);
    if r.Ok? {
      var c := t'.terms[0];
      assert t'.terms == [c];
      CachedSoleValue(num, t', c);
    }
  }

  /** As written, a group of two or more children that does not negate, such as
      the top-level term of an expression with an operator outside any
      parentheses, evaluates to the same value a second time. */
  lemma RecalcStable(num: Numerics, t: Term)
    requires Wf(t) && |t.terms| >= 2 && !Negates(t)
    ensures var (t', r) := CalcSpec(num, AsWritten, t);
      r.Ok? ==> CalcSpec(num, AsWritten, t').1 == r
  {
    var (t', r) := CalcSpec(num, AsWritten, t);
    GroupReducesToOneLeaf(num, AsWritten, t);
    if r.Ok? {
      var c := t'.terms[0];
      assert t'.terms == [c];
      CachedSoleValue(num, t', c);
    }
  }

  /** The value of a group whose single child `c` evaluates to `v`, corrected. */
  lemma SoleValueCorrected(num: Numerics, u: Term, c: Term, v: real)
    requires Wf(u) && u.terms == [c] && Wf(c) && CalcSpec(num, Corrected, c).1 == Ok(v)
    ensures CalcSpec(num, Corrected, u).1 == Ok(if Negates(u) then -v else v)
  {
    SoleChildSteps(num, Corrected, u);
  }

  /** A state that the corrected evaluation reads without evaluating anything: an
      evaluated leaf, or a group whose single child is settled. */
  predicate Settled(t: Term)
    decreases t
  {
    if t.terms == [] then t.isParsed else |t.terms| == 1 && Settled(t.terms[0])
  }

  /** The value a settled state stands for. */
  function Val(t: Term): real
    requires Settled(t)
    decreases t
  {
    if t.terms == [] then t.result
    else if Negates(t) then -Val(t.terms[0])
    else Val(t.terms[0])
  }

  /** Corrected, an evaluation that succeeds leaves a settled state that stands for
      the value it returned. */
  lemma {:induction false} CorrectedSettles(num: Numerics, t: Term)
    requires Wf(t)
    ensures var (t', r) := CalcSpec(num, Corrected, t);
      r.Ok? ==> Settled(t') && Val(t') == r.value
    decreases Height(t)
  {
    if t.terms == [] {
    } else if |t.terms| == 1 {
      ChildrenBelow(t);
      CorrectedSettles(num, t.terms[0]);
      SoleChildSteps(num, Corrected, t);
    } else {
      GroupReducesToOneLeaf(num, Corrected, t);
    }
  }

  /** Corrected, a settled state evaluates to the value it stands for. */
  lemma {:induction false} SettledIsCached(num: Numerics, u: Term)
    requires Wf(u) && Settled(u)
    ensures CalcSpec(num, Corrected, u).1 == Ok(Val(u))
    decreases u
  {
    if u.terms != [] {
      SettledIsCached(num, u.terms[0]);
      SoleValueCorrected(num, u, u.terms[0], Val(u.terms[0]));
    }
  }

  /** Corrected, evaluating any well-formed term a second time returns the value
      the first evaluation returned. */
  lemma CorrectedRecalcStable(num: Numerics, t: Term)
    requires Wf(t)
    ensures var (t', r) := CalcSpec(num, Corrected, t);
      r.Ok? ==> CalcSpec(num, Corrected, t').1 == r
  {
    var (t', r) := CalcSpec(num, Corrected, t);
    CorrectedSettles(num, t);
    if r.Ok? {
      SettledIsCached(num, t');
    }
  }
}
