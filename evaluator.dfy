/** Evaluation of a parsed term: Term.Calc (term.go:146-267).

    A leaf parses its text as a number (once; the value is cached in the leaf).
    A group first evaluates a sole child, then runs three passes over its
    children, one per operator class in order of precedence (`^`, then `*` `/` `%`,
    then `+-`). Each pass folds a child and its right neighbour into a
    synthesised leaf whenever the neighbour's operator belongs to the class.
    A group whose text starts with `-` negates its value.

    strconv.ParseFloat and math.Pow are parameters. Go updates the term in
    place; here the method returns the updated term together with the outcome. */
module Evaluator {
  import opened Wrappers
  import opened Chars
  import opened Terms

  /** What strconv.ParseFloat returns: a value (set even on failure) and whether it succeeded. */
  datatype Parsed = Parsed(value: real, ok: bool)

  /** The numeric primitives the evaluator calls. */
  datatype Numerics = Numerics(parseFloat: string -> Parsed, pow: (real, real) -> real)

  /** Ways an evaluation can fail: a leaf that is not a number, a division by zero
      (where Go yields an infinity) and a modulo by zero (where Go panics). */
  datatype CalcError = InvalidNumber | DivisionByZero | ModuloByZero

  /** The source as written, or with its three defects corrected: the rewrite of a
      `-+` prefix, the operator a folded leaf combines with and the value a group
      returns (see README, Findings). */
  datatype Variant = AsWritten | Corrected

  /** strings.HasPrefix with a two-character prefix `ab`. */
  predicate HasPrefix(s: string, a: char, b: char) {
    |s| >= 2 && s[0] == a && s[1] == b
  }

  /** One of the four sign rewrites of term.go:155-166: a prefix `ab` becomes `to`. */
  function Rewrite(s: string, a: char, b: char, to: char): (r: string)
    ensures |r| <= |s|
    ensures s != [] ==> r != []
    ensures !HasPrefix(s, a, b) ==> r == s
  {
    if HasPrefix(s, a, b) then [to] + s[2..] else s
  }

  /** What the third rewrite turns `-+` into: `+` as written (term.go:161-163),
      `-` in the corrected variant. */
  function MinusPlus(variant: Variant): char {
    if variant == AsWritten then '+' else '-'
  }

  /** The text handed to ParseFloat (term.go:153-170): the four sign rewrites
      applied one after the other, each at most once, then a leading character
      that is neither a number character nor a sign dropped. */
  function NormalizeNumber(variant: Variant, text: string): (n: string)
    requires text != ""
    ensures |n| <= |text|
  {
    var a := Rewrite(text, '-', '-', '+');
    var b := Rewrite(a, '+', '-', '-');
    var c := Rewrite(b, '-', '+', MinusPlus(variant));
    var d := Rewrite(c, '+', '+', '+');
    if !IsNumeric(d[..1]) && !IsSign(d[..1]) then d[1..] else d
  }

  /** The leaf branch of Calc (term.go:147-181). */
  function LeafCalc(num: Numerics, variant: Variant, t: Term): (r: (Term, Result<real, CalcError>))
    requires t.terms == [] && (t.isParsed || t.text != "")
    ensures r.0.terms == [] && r.0.text == t.text
    ensures r.1.Ok? <==> r.0.isParsed
    ensures r.1.Ok? ==> r.0.result == r.1.value
  {
    if t.isParsed then (t, Ok(t.result))
    else
      var p := num.parseFloat(NormalizeNumber(variant, t.text));
      if p.ok then (t.(result := p.value, isParsed := true), Ok(p.value))
      else (t.(result := p.value), Err(InvalidNumber))
  }

  /** Go's conversion of a float64 to int: truncation toward zero. */
  function Trunc(x: real): (n: int)
    ensures x >= 0.0 ==> n as real <= x < n as real + 1.0
    ensures x < 0.0 ==> n as real - 1.0 < x <= n as real
    ensures x >= 0.0 ==> n >= 0
    ensures x <= 0.0 ==> n <= 0
  {
    if x >= 0.0 then x.Floor else -((-x).Floor)
  }

  function Abs(n: int): (m: int)
    ensures m >= 0 && (m == n || m == -n)
  {
    if n < 0 then -n else n
  }

  /** The remainder of `n` divided by `d` on naturals. */
  function Mod(n: nat, d: nat): (m: nat)
    requires d > 0
    ensures m < d && (n < d ==> m == n)
    decreases n
  {
    if n < d then n else Mod(n - d, d)
  }

  /** Go's `%` on int: the remainder of the division truncated toward zero, which
      is smaller than the divisor in magnitude and takes the sign of the dividend. */
  function Rem(a: int, b: int): (r: int)
    requires b != 0
    ensures -Abs(b) < r < Abs(b)
    ensures r == 0 || (r > 0 <==> a > 0)
  {
    var m: int := Mod(Abs(a), Abs(b));
    if a >= 0 then m else -m
  }

  /** The arithmetic of term.go:218-240 for `left operator right`. For punctuation
      with a negative left operand the source computes with |left| and negates
      the result. */
  function Combine(num: Numerics, op: string, left: real, right: real): Result<real, CalcError>
    requires |op| == 1
  {
    var neg := IsPunctuation(op) && left < 0.0;
    var l := if neg then -left else left;
    var r :=
      match op[0]
      case '^' => Ok(num.pow(l, right))
      case '+' => Ok(l + right)
      case '-' => Ok(l + right)
      case '*' => Ok(l * right)
      case '/' => if right == 0.0 then Err(DivisionByZero) else Ok(l / right)
      case '%' => if Trunc(right) == 0 then Err(ModuloByZero) else Ok(Rem(Trunc(l), Trunc(right)) as real)
      case _ => Ok(0.0);
    if neg && r.Ok? then Ok(-r.value) else r
  }

  /** The leaf that replaces a folded pair (term.go:242-250): its text starts with
      the sign of the value, it is evaluated, and it caches the value. */
  function Synth(v: real): Term {
    Term(if v >= 0.0 then "+" else "-", true, v, [])
  }

  /** The leaf that replaces children `i` and `i + 1` when they fold to `v`. As
      written it is Synth(v), whose operator is the sign of `v`, so the operator
      that joined child `i` to its left neighbour is lost: in `2*3^2` the `*` of
      `*3` is gone once `3^2` is folded. Corrected, a child after the first whose
      operator is `*`, `/` or `%` passes that operator on to the leaf. */
  function FoldedLeaf(variant: Variant, ts: seq<Term>, i: nat, v: real): Term
    requires i < |ts| && (i >= 1 ==> ts[i].text != "")
  {
    if variant == Corrected && i >= 1 && IsPunctuation(Operator(ts[i])) then Term(Operator(ts[i]), true, v, [])
    else Synth(v)
  }

  /** The class test of term.go:202-204 for pass `g`. */
  predicate InClass(g: nat, op: string) {
    (g == 0 && IsExponent(op)) || (g == 1 && IsPunctuation(op)) || (g == 2 && IsLine(op))
  }

  /** Well-formed children that are all shallower than `h`. */
  predicate Siblings(h: nat, ts: seq<Term>) {
    WfList(ts) && forall k :: 0 <= k < |ts| ==> Height(ts[k]) < h
  }

  /** The evaluation of a term: its new state and its value or error. */
  function CalcSpec(num: Numerics, variant: Variant, t: Term): (r: (Term, Result<real, CalcError>))
    requires Wf(t)
    ensures Wf(r.0) && r.0.text == t.text && Height(r.0) <= Height(t)
    ensures t.terms == [] <==> r.0.terms == []
    decreases Height(t), 2
  {
    if t.terms == [] then LeafCalc(num, variant, t)
    else
      ChildrenBelow(t);
      var (t1, e1) := OneChildOr(num, variant, t);
      MaxHeightBelow(t1.terms, Height(t));
      if e1.Some? then (t1, Err(e1.value))
      else
        var (ts, e) := Passes(num, variant, Height(t), t1.terms, 0, 0);
        MaxHeightBelow(ts, Height(t));
        var t2 := t1.(terms := ts);
        if e.Some? then (t2, Err(e.value))
        else Finish(variant, t2, if |t.terms| == 1 then t1.result else ts[0].result)
  }

  /** A group with a single child (term.go:184-192): the group is marked evaluated
      and its result is the child's value, or 0 when the child fails. */
  function OneChild(num: Numerics, variant: Variant, t: Term): (r: (Term, Option<CalcError>))
    requires Wf(t) && |t.terms| == 1
    ensures Wf(r.0) && r.0.text == t.text && |r.0.terms| == 1 && Height(r.0.terms[0]) < Height(t)
    decreases Height(t), 1, 0
  {
    ChildrenBelow(t);
    var (c, cr) := CalcSpec(num, variant, t.terms[0]);
    var t1 := t.(isParsed := true, result := if cr.Ok? then cr.value else 0.0, terms := [c]);
    (t1, if cr.Ok? then None else Some(cr.error))
  }

  /** The state before the passes: a sole child has been evaluated (term.go:184-192). */
  function OneChildOr(num: Numerics, variant: Variant, t: Term): (r: (Term, Option<CalcError>))
    requires Wf(t) && t.terms != []
    ensures Wf(r.0) && r.0.text == t.text && r.0.terms != []
    ensures forall k :: 0 <= k < |r.0.terms| ==> Height(r.0.terms[k]) < Height(t)
    ensures |t.terms| > 1 ==> r == (t, None)
    decreases Height(t), 1, 1
  {
    ChildrenBelow(t);
    if |t.terms| == 1 then OneChild(num, variant, t) else (t, None)
  }

  /** The three passes (term.go:194-259), from pass `g` and position `i` on: the
      children left at the end, or those present when an error stopped them. */
  function Passes(num: Numerics, variant: Variant, h: nat, ts: seq<Term>, g: nat, i: nat): (r: (seq<Term>, Option<CalcError>))
    requires Siblings(h, ts) && ts != [] && g <= 3
    ensures Siblings(h, r.0) && 1 <= |r.0| <= |ts|
    decreases h, 1, 3 - g, |ts|, |ts| - i
  {
    if g == 3 then (ts, None)
    else if i + 1 >= |ts| then Passes(num, variant, h, ts, g + 1, 0)
    else if !InClass(g, Operator(ts[i + 1])) then Passes(num, variant, h, ts, g, i + 1)
    else
      match Collapse(num, variant, h, ts, i)
      case Err(e) => (ts, Some(e))
      case Ok(ts1) => Passes(num, variant, h, ts1, g, i)
  }

  /** Folding children `i` and `i + 1` into one synthesised leaf (term.go:208-255).
      The two operands are evaluated as copies, so their new state is dropped. */
  function Collapse(num: Numerics, variant: Variant, h: nat, ts: seq<Term>, i: nat): (r: Result<seq<Term>, CalcError>)
    requires Siblings(h, ts) && i + 1 < |ts|
    ensures r.Ok? ==> |r.value| == |ts| - 1 && Siblings(h, r.value)
    ensures r.Ok? ==> r.value[..i] == ts[..i] && r.value[i + 1..] == ts[i + 2..]
    ensures r.Ok? ==> r.value[i] == FoldedLeaf(variant, ts, i, r.value[i].result)
    decreases h, 0
  {
    var (_, lr) := CalcSpec(num, variant, ts[i]);
    if lr.Err? then Err(lr.error)
    else
      var (_, rr) := CalcSpec(num, variant, ts[i + 1]);
      if rr.Err? then Err(rr.error)
      else
        match Combine(num, Operator(ts[i + 1]), lr.value, rr.value)
        case Err(e) => Err(e)
        case Ok(v) =>
          var x := FoldedLeaf(variant, ts, i, v);
          ReplacePair(h, ts, i, x, ts[..i] + [x] + ts[i + 2..]);
          Ok(ts[..i] + [x] + ts[i + 2..])
  }

  /** A group whose prefix starts with `-` negates its value (term.go:262); the rest
      of a longer prefix such as "--" or "*-" is ignored. */
  predicate Negates(t: Term) {
    t.text != "" && Operator(t) == "-"
  }

  /** The end of Calc for a group (term.go:262-266). `v` is the value the group's
      remaining child evaluated to. As written, a `-` group negates the cached
      result of its first child in place and returns that cached field; the
      corrected variant returns `v`, negated for a `-` group, and leaves the
      child alone. */
  function Finish(variant: Variant, t: Term, v: real): (r: (Term, Result<real, CalcError>))
    requires Wf(t) && t.terms != []
    ensures Wf(r.0) && r.0.text == t.text && |r.0.terms| == |t.terms| && MaxHeight(r.0.terms) == MaxHeight(t.terms)
    ensures r.1.Ok?
  {
    var neg := Negates(t);
    match variant
    case AsWritten =>
      if neg then
        var c := t.terms[0].(result := -t.terms[0].result);
        FirstResultSet(t.terms, c.result);
        (t.(terms := t.terms[0 := c]), Ok(c.result))
      else (t, Ok(t.terms[0].result))
    case Corrected =>
      (t, Ok(if neg then -v else v))
  }

  /** The text of a leaf rewritten step by step into what ParseFloat reads (term.go:153-170). */
  method Normalize(variant: Variant, text: string) returns (number: string)
    requires text != ""
    ensures number == NormalizeNumber(variant, text)
  {
    number := text;
    ghost var a := Rewrite(number, '-', '-', '+');
    if HasPrefix(number, '-', '-') {
      number := ['+'] + number[2..];
    }
    assert number == a;
    ghost var b := Rewrite(number, '+', '-', '-');
    if HasPrefix(number, '+', '-') {
      number := ['-'] + number[2..];
    }
    assert number == b;
    ghost var c := Rewrite(number, '-', '+', MinusPlus(variant));
    if HasPrefix(number, '-', '+') {
      number := [MinusPlus(variant)] + number[2..];
    }
    assert number == c;
    ghost var d := Rewrite(number, '+', '+', '+');
    if HasPrefix(number, '+', '+') {
      number := ['+'] + number[2..];
    }
    assert number == d;
    var first := number[..1];
    if !IsNumeric(first) && !IsSign(first) {
      number := number[1..];
    }
  }

  /** The leaf branch of Term.Calc (term.go:147-181). */
  method CalcLeaf(num: Numerics, variant: Variant, t: Term) returns (t': Term, r: Result<real, CalcError>)
    requires t.terms == [] && (t.isParsed || t.text != "")
    ensures (t', r) == LeafCalc(num, variant, t)
  {
    if t.isParsed {
      return t, Ok(t.result);
    }
    var number := Normalize(variant, t.text);
    var p := num.parseFloat(number);
    t' := t.(result := p.value);
    if !p.ok {
      return t', Err(InvalidNumber);
    }
    t' := t'.(isParsed := true);
    return t', Ok(p.value);
  }

  /** Term.Calc (term.go:146-267): evaluates `t`, returning its new state together
      with its value or the error that stopped the evaluation. */
  method Calc(num: Numerics, variant: Variant, t: Term) returns (t': Term, r: Result<real, CalcError>)
    requires Wf(t)
    ensures (t', r) == CalcSpec(num, variant, t)
    decreases Height(t), 2
  {
    if t.terms == [] {
      t', r := CalcLeaf(num, variant, t);
      return;
    }
    ChildrenBelow(t);
    var term := t;
    if |term.terms| == 1 {
      var child, cr := Calc(num, variant, term.terms[0]);
      term := term.(isParsed := true, terms := [child]);
      if cr.Err? {
        term := term.(result := 0.0);
        assert OneChild(num, variant, t) == (term, Some(cr.error));
        return term, Err(cr.error);
      }
      term := term.(result := cr.value);
    }
    assert (term, None) == OneChildOr(num, variant, t);
    MaxHeightBelow(term.terms, Height(t));
    var err;
    var terms;
    terms, err := Reduce(num, variant, Height(t), term.terms);
    term := term.(terms := terms);
    if err.Some? {
      return term, Err(err.value);
    }
    var value := if |t.terms| == 1 then term.result else term.terms[0].result;
    t', r := Finish(variant, term, value).0, Finish(variant, term, value).1;
  }

  /** The three passes of Term.Calc (term.go:194-259) over the children `ts`: the
      children left at the end, or those present when an error stopped the passes. */
  method Reduce(num: Numerics, variant: Variant, h: nat, ts: seq<Term>) returns (terms: seq<Term>, err: Option<CalcError>)
    requires Siblings(h, ts) && ts != []
    ensures (terms, err) == Passes(num, variant, h, ts, 0, 0)
    decreases h, 1
  {
    terms := ts;
    var group := 0;
    while group < 3
      invariant group <= 3
      invariant Siblings(h, terms) && terms != []
      invariant Passes(num, variant, h, terms, group, 0) == Passes(num, variant, h, ts, 0, 0)
      decreases 3 - group
    {
      var i := 0;
      while i < |terms| - 1
        invariant Siblings(h, terms) && terms != []
        invariant Passes(num, variant, h, terms, group, i) == Passes(num, variant, h, ts, 0, 0)
        decreases |terms|, |terms| - i
      {
        var operator := Operator(terms[i + 1]);
        if InClass(group, operator) {
          var folded := Fold(num, variant, h, terms, i);
          if folded.Err? {
            return terms, Some(folded.error);
          }
          terms := folded.value;
        } else {
          i := i + 1;
        }
      }
      group := group + 1;
    }
    err := None;
  }

  /** Folding children `i` and `i + 1` into one synthesised leaf (term.go:208-255).
      The operands are evaluated as copies: their new state is dropped. */
  method Fold(num: Numerics, variant: Variant, h: nat, terms: seq<Term>, i: nat) returns (r: Result<seq<Term>, CalcError>)
    requires Siblings(h, terms) && i + 1 < |terms|
    ensures r == Collapse(num, variant, h, terms, i)
    decreases h, 0
  {
    var left := terms[i];
    var right := terms[i + 1];
    var operator := Operator(right);
    var _, lr := Calc(num, variant, left);
    if lr.Err? {
      return Err(lr.error);
    }
    var _, rr := Calc(num, variant, right);
    if rr.Err? {
      return Err(rr.error);
    }
    var result := Combine(num, operator, lr.value, rr.value);
    if result.Err? {
      return Err(result.error);
    }
    var newTerm := Synth(result.value);
    if variant == Corrected && i >= 1 && IsPunctuation(Operator(left)) {
      newTerm := Term(Operator(left), true, result.value, []);
    }
    return Ok(terms[..i] + [newTerm] + terms[i + 2..]);
  }

  /** Changing the cached result of the first child changes neither the shape nor
      the height of a list of children. */
  lemma FirstResultSet(ts: seq<Term>, x: real)
    requires ts != []
    ensures WfList(ts) ==> WfList(ts[0 := ts[0].(result := x)])
    ensures MaxHeight(ts[0 := ts[0].(result := x)]) == MaxHeight(ts)
  {
    var us := ts[0 := ts[0].(result := x)];
    assert us[1..] == ts[1..];
    assert Height(us[0]) == Height(ts[0]);
    if WfList(ts) {
      assert Wf(ts[0]);
      assert Wf(us[0]);
      assert forall k :: 1 <= k < |us| ==> us[k] == ts[k];
    }
  }

  /** Replacing children `i` and `i + 1` by one well-formed shallow leaf keeps the
      list well formed, shortens it by one and keeps the children around it. */
  lemma ReplacePair(h: nat, ts: seq<Term>, i: nat, x: Term, us: seq<Term>)
    requires Siblings(h, ts) && i + 1 < |ts|
    requires Wf(x) && x.text != "" && Height(x) < h
    requires us == ts[..i] + [x] + ts[i + 2..]
    ensures |us| == |ts| - 1 && us[i] == x
    ensures us[..i] == ts[..i] && us[i + 1..] == ts[i + 2..]
    ensures Siblings(h, us)
  {
    forall k | 0 <= k < |us|
      ensures Wf(us[k]) && Height(us[k]) < h && (k >= 1 ==> us[k].text != "")
    {
      if k < i {
        assert us[k] == ts[k];
      } else if k > i {
        assert us[k] == ts[k + 1];
      }
    }
    assert us[..i] == ts[..i];
    assert us[i + 1..] == ts[i + 2..];
  }

}
