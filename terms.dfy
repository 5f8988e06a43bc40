/** The expression tree of term.go:45-78: the Term record, its printable form
    and the operator a term combines with. */
module Terms {
  import opened Chars

  /** A leaf holds a signed number token in `text` and no children; a group holds
      its parenthesised children in `terms`, and `text` is then the operator prefix
      it combines with. `isParsed` and `result` cache an evaluated value. */
  datatype Term = Term(text: string, isParsed: bool, result: real, terms: seq<Term>)

  /** The zero value `Term{}`. */
  const Empty := Term("", false, 0.0, [])

  function Leaf(text: string): Term {
    Term(text, false, 0.0, [])
  }

  /** String(): the text, then the children in parentheses when there are any. */
  function ToString(t: Term): string
    decreases t
  {
    t.text + if t.terms == [] then "" else "(" + ConcatStrings(t.terms) + ")"
  }

  /** The concatenation of the printed children, in order. */
  function ConcatStrings(ts: seq<Term>): string
    decreases ts
  {
    if ts == [] then "" else ConcatStrings(ts[..|ts| - 1]) + ToString(ts[|ts| - 1])
  }

  lemma ConcatStringsAppend(ts: seq<Term>, t: Term)
    ensures ConcatStrings(ts + [t]) == ConcatStrings(ts) + ToString(t)
  {
    assert (ts + [t])[..|ts|] == ts;
  }

  /** Operator(): the first character of the text when it is an operator, else "+".
      The source slices the first character, so the text must not be empty. */
  function Operator(t: Term): (op: string)
    requires t.text != ""
    ensures |op| == 1 && op[0] in OperatorChs
    ensures t.text[0] in OperatorChs ==> op == [t.text[0]]
    ensures t.text[0] !in OperatorChs ==> op == "+"
  {
    var ch := t.text[..1];
    if IsOperator(ch) then ch else "+"
  }

  /** Nesting depth: 0 for a leaf, one more than the deepest child for a group. */
  function Height(t: Term): nat
    decreases t
  {
    if t.terms == [] then 0 else 1 + MaxHeight(t.terms)
  }

  function MaxHeight(ts: seq<Term>): nat
    decreases ts
  {
    if ts == [] then 0
    else
      var h := Height(ts[0]);
      var m := MaxHeight(ts[1..]);
      if h < m then m else h
  }

  lemma {:induction false} MaxHeightBounds(ts: seq<Term>, k: nat)
    requires k < |ts|
    ensures Height(ts[k]) <= MaxHeight(ts)
    decreases |ts|
  {
    if k > 0 {
      MaxHeightBounds(ts[1..], k - 1);
    }
  }

  /** Every child of a group is strictly shallower than the group. */
  lemma ChildrenBelow(t: Term)
    ensures forall k :: 0 <= k < |t.terms| ==> Height(t.terms[k]) < Height(t)
  {
    forall k | 0 <= k < |t.terms| ensures Height(t.terms[k]) < Height(t) {
      MaxHeightBounds(t.terms, k);
    }
  }

  /** A group whose children are all shallower than `h` is at most `h` deep. */
  lemma {:induction false} MaxHeightBelow(ts: seq<Term>, h: nat)
    requires forall k :: 0 <= k < |ts| ==> Height(ts[k]) < h
    ensures ts != [] ==> MaxHeight(ts) < h
    decreases |ts|
  {
    if ts != [] {
      assert Height(ts[0]) < h;
      MaxHeightBelow(ts[1..], h);
    }
  }

  /** The shape Calc needs to evaluate a term without a runtime panic: a leaf that
      is not yet evaluated has text (term.go:168 slices its first character), every
      child after the first has text (Operator is read on it, term.go:200), and the
      children are well formed themselves. */
  predicate Wf(t: Term)
    decreases t
  {
    (t.terms == [] ==> t.isParsed || t.text != "") &&
    (forall k :: 1 <= k < |t.terms| ==> t.terms[k].text != "") &&
    (forall k :: 0 <= k < |t.terms| ==> Wf(t.terms[k]))
  }

  /** The same conditions on a list of siblings. */
  predicate WfList(ts: seq<Term>) {
    (forall k :: 1 <= k < |ts| ==> ts[k].text != "") &&
    (forall k :: 0 <= k < |ts| ==> Wf(ts[k]))
  }
}
