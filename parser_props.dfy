/** What the parser of term.go:89-145 guarantees about the trees it builds. */
module ParserProps {
  import opened Chars
  import opened Terms
  import opened Parser

  /** registerTerm only appends a term with text or children. */
  predicate NonEmpty(t: Term) {
    t.text != "" || t.terms != []
  }

  /** No child anywhere in the tree is the zero term: a bare "()" is dropped. */
  predicate NoEmptyChildren(t: Term)
    decreases t
  {
    forall k :: 0 <= k < |t.terms| ==> NonEmpty(t.terms[k]) && NoEmptyChildren(t.terms[k])
  }

  /** Every registered child has text or children, and none of theirs is empty. */
  predicate AllClean(acc: seq<Term>) {
    forall k :: 0 <= k < |acc| ==> NonEmpty(acc[k]) && NoEmptyChildren(acc[k])
  }

  lemma {:induction false} ParseDropsEmptyChildren(text: string, i: nat)
    ensures NoEmptyChildren(ParseSpec(text, i).0)
    decreases Remaining(text, i), 2
  {
    ScanDropsEmptyChildren(text, i, [], Empty, "");
  }

  lemma {:induction false} ScanDropsEmptyChildren(text: string, i: nat, acc: seq<Term>, v: Term, lastCh: string)
    requires AllClean(acc) && NoEmptyChildren(v)
    ensures NoEmptyChildren(ScanSpec(text, i, acc, v, lastCh).0)
    decreases Remaining(text, i), 1
  {
    if i >= |text| || text[i] == ')' {
      RegisterClean(acc, v);
    } else if text[i] == '(' {
      OpenDropsEmptyChildren(text, i, acc, v);
    } else {
      CharDropsEmptyChildren(text, i, acc, v, lastCh);
    }
  }

  /** ScanDropsEmptyChildren at a "(". */
  lemma {:induction false} OpenDropsEmptyChildren(text: string, i: nat, acc: seq<Term>, v: Term)
    requires i < |text| && text[i] == '('
    requires AllClean(acc) && NoEmptyChildren(v)
    ensures NoEmptyChildren(ScanOpen(text, i, acc, v).0)
    decreases Remaining(text, i), 0
  {
    var numeric := IsNumeric(v.text);
    RegisterClean(acc, v);
    var acc1 := if numeric then Register(acc, v).0 else acc;
    var op := if numeric then "*" else v.text;
    var (g, j) := ParseSpec(text, i + 1);
    ParseDropsEmptyChildren(text, i + 1);
    var g1 := g.(text := op + g.text);
    assert NoEmptyChildren(g1);
    RegisterClean(acc1, g1);
    var (acc2, v2) := Register(acc1, g1);
    ScanDropsEmptyChildren(text, j + 1, acc2, v2, [text[i]]);
  }

  /** ScanDropsEmptyChildren at a character other than a parenthesis. */
  lemma {:induction false} CharDropsEmptyChildren(text: string, i: nat, acc: seq<Term>, v: Term, lastCh: string)
    requires i < |text| && text[i] != '(' && text[i] != ')'
    requires AllClean(acc) && NoEmptyChildren(v)
    ensures NoEmptyChildren(ScanChar(text, i, acc, v, lastCh).0)
    decreases Remaining(text, i), 0
  {
    var ch := [text[i]];
    if IsOperator(ch) && !IsOperator(lastCh) {
      RegisterClean(acc, v);
      var (acc1, v1) := Register(acc, v);
      ScanDropsEmptyChildren(text, i + 1, acc1, v1.(text := v1.text + ch), ch);
    } else {
      ScanDropsEmptyChildren(text, i + 1, acc, v.(text := v.text + ch), ch);
    }
  }

  /** Registering keeps the children clean and leaves a pending term without
      children of its own. */
  lemma RegisterClean(acc: seq<Term>, v: Term)
    requires AllClean(acc) && NoEmptyChildren(v)
    ensures AllClean(Register(acc, v).0) && NoEmptyChildren(Register(acc, v).1)
  {
    if NonEmpty(v) {
      var r := acc + [v];
      assert forall k :: 0 <= k < |acc| ==> r[k] == acc[k];
    }
  }

  // ---------------------------------------------------------------------------
  // Round trip: printing the parsed tree gives back the text in parentheses.

  /** Parentheses balance: scanning from index i at nesting depth d, the depth
      never drops below zero and ends at zero. */
  predicate DepthOk(s: string, i: nat, d: nat)
    decreases |s| - i
  {
    if i >= |s| then d == 0
    else if s[i] == '(' then DepthOk(s, i + 1, d + 1)
    else if s[i] == ')' then d > 0 && DepthOk(s, i + 1, d - 1)
    else DepthOk(s, i + 1, d)
  }

  predicate Balanced(s: string) {
    DepthOk(s, 0, 0)
  }

  /** Only digits, ".", operators and parentheses; no "()"; no "(" directly after
      a digit or "." (that would insert an implicit "*"). */
  predicate Printable(s: string) {
    (forall k :: 0 <= k < |s| ==> AllowedAt(s, k)) &&
    (forall k :: 0 <= k < |s| - 1 ==> !EmptyGroupAt(s, k) && !ImplicitProductAt(s, k))
  }

  /** A digit, ".", an operator or a parenthesis at index k. */
  predicate AllowedAt(s: string, k: nat) {
    k < |s| && (s[k] in NumberChs || s[k] in OperatorChs || s[k] == '(' || s[k] == ')')
  }

  /** "()" at index k. */
  predicate EmptyGroupAt(s: string, k: nat) {
    k + 1 < |s| && s[k] == '(' && s[k + 1] == ')'
  }

  /** A digit or "." at index k followed by "(". */
  predicate ImplicitProductAt(s: string, k: nat) {
    k + 1 < |s| && s[k] in NumberChs && s[k + 1] == '('
  }

  /** Where a scan at nesting depth d stops: at the end of the text at depth 0,
      otherwise at the ")" that closes the group, with the text after it
      balanced from depth d - 1. */
  predicate Ends(s: string, k: nat, d: nat) {
    if d == 0 then k == |s| else k < |s| && s[k] == ')' && DepthOk(s, k + 1, d - 1)
  }

  lemma {:induction false} ScanEnds(s: string, i: nat, d: nat, acc: seq<Term>, v: Term, lastCh: string)
    requires i <= |s| && DepthOk(s, i, d)
    ensures Ends(s, ScanSpec(s, i, acc, v, lastCh).1, d)
    decreases |s| - i, 1
  {
    if i == |s| || s[i] == ')' {
      EndStep(s, i, acc, v, lastCh);
    } else if s[i] == '(' {
      ScanOpenEnds(s, i, d, acc, v);
    } else {
      CharStep(s, i, acc, v, lastCh);
      var ch := [s[i]];
      if IsOperator(ch) && !IsOperator(lastCh) {
        var (acc1, v1) := Register(acc, v);
        ScanEnds(s, i + 1, d, acc1, v1.(text := v1.text + ch), ch);
      } else {
        ScanEnds(s, i + 1, d, acc, v.(text := v.text + ch), ch);
      }
    }
  }

  lemma {:induction false} ScanOpenEnds(s: string, i: nat, d: nat, acc: seq<Term>, v: Term)
    requires i < |s| && s[i] == '(' && DepthOk(s, i + 1, d + 1)
    ensures Ends(s, ScanOpen(s, i, acc, v).1, d)
    decreases |s| - i, 0
  {
    GroupEnds(s, i, d);
    var numeric := IsNumeric(v.text);
    var acc1 := if numeric then Register(acc, v).0 else acc;
    var op := if numeric then "*" else v.text;
    var (g, j) := ParseSpec(s, i + 1);
    var (acc2, v2) := Register(acc1, g.(text := op + g.text));
    ScanEnds(s, j + 1, d, acc2, v2, [s[i]]);
  }

  /** The group opened by the "(" at index i ends at the matching ")". */
  lemma {:induction false} GroupEnds(s: string, i: nat, d: nat)
    requires i < |s| && DepthOk(s, i + 1, d + 1)
    ensures ParseSpec(s, i + 1).1 < |s| && s[ParseSpec(s, i + 1).1] == ')'
    ensures DepthOk(s, ParseSpec(s, i + 1).1 + 1, d)
    decreases |s| - (i + 1), 2
  {
    ScanEnds(s, i + 1, d + 1, [], Empty, "");
    assert d + 1 - 1 == d;
  }

  /** The result r of a scan from index i prints, after the terms already
      registered in acc and the pending text of v, as the text from i up to
      where the scan stopped. */
  predicate PrintsBack(s: string, i: nat, acc: seq<Term>, v: Term, r: (Term, nat)) {
    i <= r.1 <= |s| && ConcatStrings(r.0.terms) == ConcatStrings(acc) + v.text + s[i..r.1]
  }

  lemma {:induction false} ScanPrints(s: string, i: nat, d: nat, acc: seq<Term>, v: Term, lastCh: string)
    requires Printable(s) && i <= |s| && DepthOk(s, i, d)
    requires v.terms == []
    requires IsNumeric(v.text) ==> !IsOperator(lastCh) && i >= 1 && s[i - 1] in NumberChs
    ensures PrintsBack(s, i, acc, v, ScanSpec(s, i, acc, v, lastCh))
    decreases |s| - i, 2
  {
    ScanEnds(s, i, d, acc, v, lastCh);
    if i == |s| || s[i] == ')' {
      EndStep(s, i, acc, v, lastCh);
      EndGlue(acc, v, s, i);
    } else if s[i] == '(' {
      ScanPrintsOpen(s, i, d, acc, v, lastCh);
    } else {
      ScanPrintsChar(s, i, d, acc, v, lastCh);
    }
  }

  /** A character other than "(" and ")" either starts a token or extends the pending one. */
  lemma {:induction false} ScanPrintsChar(s: string, i: nat, d: nat, acc: seq<Term>, v: Term, lastCh: string)
    requires Printable(s) && i < |s| && DepthOk(s, i, d) && s[i] != '(' && s[i] != ')'
    requires v.terms == []
    requires IsNumeric(v.text) ==> !IsOperator(lastCh) && i >= 1 && s[i - 1] in NumberChs
    ensures PrintsBack(s, i, acc, v, ScanSpec(s, i, acc, v, lastCh))
    decreases |s| - i, 1
  {
    var ch := [s[i]];
    assert AllowedAt(s, i);
    SingleChar(s[i]);
    NumberNotOperator(s[i]);
    CharStep(s, i, acc, v, lastCh);
    if IsOperator(ch) && !IsOperator(lastCh) {
      ScanPrintsToken(s, i, d, acc, v);
    } else {
      NumericConcat(v.text, ch);
      var v2 := v.(text := v.text + ch);
      ScanPrints(s, i + 1, d, acc, v2, ch);
      CharGlue(ConcatStrings(acc), v.text, s[i]);
      PrintsCons(s, i, acc, v, acc, v2, ScanSpec(s, i + 1, acc, v2, ch));
    }
  }

  /** An operator after a non-operator registers the pending term and starts a new one. */
  lemma {:induction false} ScanPrintsToken(s: string, i: nat, d: nat, acc: seq<Term>, v: Term)
    requires Printable(s) && i < |s| && DepthOk(s, i, d) && s[i] != '(' && s[i] != ')'
    requires v.terms == [] && IsOperator([s[i]])
    ensures var ch := [s[i]];
      PrintsBack(s, i, acc, v, ScanSpec(s, i + 1, Register(acc, v).0, Register(acc, v).1.(text := Register(acc, v).1.text + ch), ch))
    decreases |s| - i, 0
  {
    var ch := [s[i]];
    var (acc1, v1) := Register(acc, v);
    assert v1.text == "";
    assert v1.text + ch == ch;
    var v2 := v1.(text := v1.text + ch);
    NumberNotOperator(s[i]);
    ScanPrints(s, i + 1, d, acc1, v2, ch);
    RegisterGlue(acc, v, s[i]);
    PrintsCons(s, i, acc, v, acc1, v2, ScanSpec(s, i + 1, acc1, v2, ch));
  }

  /** The scan stops at the end of the text or at a ")", registering the pending term. */
  lemma EndStep(s: string, i: nat, acc: seq<Term>, v: Term, lastCh: string)
    requires i <= |s| && (i == |s| || s[i] == ')')
    ensures ScanSpec(s, i, acc, v, lastCh) == (Term("", false, 0.0, Register(acc, v).0), i)
  {
  }

  /** One step of the scan at a character other than a parenthesis. */
  lemma CharStep(s: string, i: nat, acc: seq<Term>, v: Term, lastCh: string)
    requires i < |s| && s[i] != '(' && s[i] != ')'
    ensures IsOperator([s[i]]) && !IsOperator(lastCh) ==>
      ScanSpec(s, i, acc, v, lastCh) ==
      ScanSpec(s, i + 1, Register(acc, v).0, Register(acc, v).1.(text := Register(acc, v).1.text + [s[i]]), [s[i]])
    ensures !(IsOperator([s[i]]) && !IsOperator(lastCh)) ==>
      ScanSpec(s, i, acc, v, lastCh) == ScanSpec(s, i + 1, acc, v.(text := v.text + [s[i]]), [s[i]])
  {
  }

  lemma EndGlue(acc: seq<Term>, v: Term, s: string, i: nat)
    requires v.terms == [] && i <= |s|
    ensures ConcatStrings(Register(acc, v).0) == ConcatStrings(acc) + v.text + s[i..i]
  {
    var x := ConcatStrings(acc);
    assert s[i..i] == [];
    if v.text != "" {
      ConcatStringsAppend(acc, v);
      assert ToString(v) == v.text;
      assert Register(acc, v).0 == acc + [v];
    } else {
      assert Register(acc, v).0 == acc;
      assert x + v.text + s[i..i] == x;
    }
  }

  lemma RegisterGlue(acc: seq<Term>, v: Term, c: char)
    requires v.terms == []
    ensures ConcatStrings(Register(acc, v).0) + (Register(acc, v).1.text + [c]) == ConcatStrings(acc) + v.text + [c]
  {
    if v.text != "" { ConcatStringsAppend(acc, v); }
  }

  lemma CharGlue(x: string, y: string, c: char)
    ensures x + (y + [c]) == x + y + [c]
  {
  }

  /** A scan step that moved the character at index i into the pending text. */
  lemma PrintsCons(s: string, i: nat, acc: seq<Term>, v: Term, acc1: seq<Term>, v1: Term, r: (Term, nat))
    requires i < |s| && PrintsBack(s, i + 1, acc1, v1, r)
    requires ConcatStrings(acc1) + v1.text == ConcatStrings(acc) + v.text + [s[i]]
    ensures PrintsBack(s, i, acc, v, r)
  {
    assert s[i..r.1] == [s[i]] + s[i + 1..r.1];
  }

  /** A scan step that registered the text from index i to j. */
  lemma PrintsJoin(s: string, i: nat, j: nat, acc: seq<Term>, v: Term, acc1: seq<Term>, r: (Term, nat))
    requires i <= j && PrintsBack(s, j, acc1, Empty, r)
    requires ConcatStrings(acc1) == ConcatStrings(acc) + v.text + s[i..j]
    ensures PrintsBack(s, i, acc, v, r)
  {
    assert s[i..r.1] == s[i..j] + s[j..r.1];
  }

  lemma {:induction false} ScanPrintsOpen(s: string, i: nat, d: nat, acc: seq<Term>, v: Term, lastCh: string)
    requires Printable(s) && i < |s| && s[i] == '(' && DepthOk(s, i + 1, d + 1)
    requires v.terms == []
    requires IsNumeric(v.text) ==> !IsOperator(lastCh) && i >= 1 && s[i - 1] in NumberChs
    ensures PrintsBack(s, i, acc, v, ScanOpen(s, i, acc, v))
    decreases |s| - i, 1
  {
    var ch := [s[i]];
    SignsBeforeOpen(s, i, v, lastCh);
    OpenPrints(s, i, d, acc, v);
    var g, j := ParseSpec(s, i + 1).0, ParseSpec(s, i + 1).1;
    AfterGroupPrints(s, i, j, d, acc, v, acc + [Prefixed(g, v.text)], ch);
  }

  /** No "(" directly follows a digit or ".", so the pending text before one is
      only a sign run. */
  lemma SignsBeforeOpen(s: string, i: nat, v: Term, lastCh: string)
    requires Printable(s) && i < |s| && s[i] == '('
    requires IsNumeric(v.text) ==> !IsOperator(lastCh) && i >= 1 && s[i - 1] in NumberChs
    ensures !IsNumeric(v.text)
  {
    if i >= 1 { PrintableAt(s, i - 1); }
  }

  /** The scan after the ")" at index j of a group opened at index i, glued to
      the text of that group. */
  lemma {:induction false} AfterGroupPrints(s: string, i: nat, j: nat, d: nat, acc: seq<Term>, v: Term, acc1: seq<Term>, ch: string)
    requires Printable(s) && i < j < |s| && DepthOk(s, j + 1, d)
    requires ConcatStrings(acc1) == ConcatStrings(acc) + v.text + s[i..j + 1]
    ensures PrintsBack(s, i, acc, v, ScanSpec(s, j + 1, acc1, Empty, ch))
    decreases |s| - i, 0
  {
    ScanPrints(s, j + 1, d, acc1, Empty, ch);
    PrintsJoin(s, i, j + 1, acc, v, acc1, ScanSpec(s, j + 1, acc1, Empty, ch));
  }

  /** The scan at a "(" that follows a sign run registers the group prefixed by
      that sign run, and the group prints as the text up to its ")". */
  lemma {:induction false} OpenPrints(s: string, i: nat, d: nat, acc: seq<Term>, v: Term)
    requires Printable(s) && i < |s| && s[i] == '(' && DepthOk(s, i + 1, d + 1) && !IsNumeric(v.text)
    ensures ParseSpec(s, i + 1).1 < |s| && s[ParseSpec(s, i + 1).1] == ')'
    ensures DepthOk(s, ParseSpec(s, i + 1).1 + 1, d)
    ensures ScanOpen(s, i, acc, v) ==
            ScanSpec(s, ParseSpec(s, i + 1).1 + 1, acc + [Prefixed(ParseSpec(s, i + 1).0, v.text)], Empty, [s[i]])
    ensures ConcatStrings(acc + [Prefixed(ParseSpec(s, i + 1).0, v.text)]) ==
            ConcatStrings(acc) + v.text + s[i..ParseSpec(s, i + 1).1 + 1]
    decreases |s| - (i + 1), 4
  {
    GroupPrints(s, i, d);
    var g, j := ParseSpec(s, i + 1).0, ParseSpec(s, i + 1).1;
    // no "()": the group has children
    PrintableAt(s, i);
    assert j != i + 1;
    assert g.terms != [];
    var g1 := Prefixed(g, v.text);
    PrintGroup(g, v.text, s[i + 1..j]);
    ConcatStringsAppend(acc, g1);
    OpenStep(s, i, acc, v);
    SliceWrap(s, i, j);
  }

  lemma SliceWrap(s: string, i: nat, j: nat)
    requires i < j < |s| && s[i] == '(' && s[j] == ')'
    ensures s[i..j + 1] == "(" + s[i + 1..j] + ")"
  {
  }

  /** The group g with the operator text `prefix` in front. */
  function Prefixed(g: Term, prefix: string): Term {
    g.(text := prefix + g.text)
  }

  /** The group opened by the "(" at index i ends at a matching ")" and prints
      as the text between them. */
  lemma {:induction false} GroupPrints(s: string, i: nat, d: nat)
    requires Printable(s) && i < |s| && DepthOk(s, i + 1, d + 1)
    ensures ParseSpec(s, i + 1).1 < |s| && s[ParseSpec(s, i + 1).1] == ')'
    ensures DepthOk(s, ParseSpec(s, i + 1).1 + 1, d)
    ensures ConcatStrings(ParseSpec(s, i + 1).0.terms) == s[i + 1..ParseSpec(s, i + 1).1]
    decreases |s| - (i + 1), 3
  {
    GroupEnds(s, i, d);
    ScanPrints(s, i + 1, d + 1, [], Empty, "");
  }

  lemma PrintGroup(g: Term, prefix: string, inner: string)
    requires g.text == "" && g.terms != [] && ConcatStrings(g.terms) == inner
    ensures ToString(Prefixed(g, prefix)) == prefix + "(" + inner + ")"
  {
  }

  /** One step of the scan at a "(" that follows a sign run and opens a group
      with children. */
  lemma OpenStep(s: string, i: nat, acc: seq<Term>, v: Term)
    requires i < |s| && s[i] == '(' && !IsNumeric(v.text)
    requires ParseSpec(s, i + 1).0.terms != []
    ensures ScanOpen(s, i, acc, v) ==
            ScanSpec(s, ParseSpec(s, i + 1).1 + 1, acc + [Prefixed(ParseSpec(s, i + 1).0, v.text)], Empty, [s[i]])
  {
  }

  lemma PrintableAt(s: string, k: nat)
    requires Printable(s) && k + 1 < |s|
    ensures !(s[k] == '(' && s[k + 1] == ')')
    ensures !(s[k] in NumberChs && s[k + 1] == '(')
  {
    assert !EmptyGroupAt(s, k) && !ImplicitProductAt(s, k);
  }

  /** String() of the tree of a non-empty printable, balanced text is the text in
      parentheses. */
  lemma RoundTrip(s: string)
    requires s != [] && Printable(s) && Balanced(s)
    ensures ToString(ParseSpec(s, 0).0) == "(" + s + ")"
  {
    ScanEnds(s, 0, 0, [], Empty, "");
    ScanPrints(s, 0, 0, [], Empty, "");
    assert s[0..|s|] == s;
  }

  // ---------------------------------------------------------------------------
  // The parsed tree can be evaluated without a panic.

  /** No ")(" in the text: a group never follows a group directly, so no group
      after the first child gets an empty operator prefix. */
  predicate NoAdjacentGroups(s: string) {
    forall k :: 0 <= k < |s| - 1 ==> !AdjacentGroupsAt(s, k)
  }

  /** ")(" at index k. */
  predicate AdjacentGroupsAt(s: string, k: nat) {
    k + 1 < |s| && s[k] == ')' && s[k + 1] == '('
  }

  lemma {:induction false} ParseWf(s: string, i: nat)
    requires NoAdjacentGroups(s)
    ensures WfList(ParseSpec(s, i).0.terms)
    decreases Remaining(s, i), 1, 0
  {
    ScanWf(s, i, [], Empty, "");
  }

  lemma {:induction false} ScanWf(s: string, i: nat, acc: seq<Term>, v: Term, lastCh: string)
    requires NoAdjacentGroups(s)
    requires WfList(acc) && v.terms == []
    requires acc != [] && v.text == "" && i < |s| ==> i >= 1 && s[i - 1] == ')'
    ensures WfList(ScanSpec(s, i, acc, v, lastCh).0.terms)
    decreases Remaining(s, i), 0, 2
  {
    if i >= |s| || s[i] == ')' {
      if NonEmpty(v) { WfListAppend(acc, v); }
    } else if s[i] == '(' {
      if IsNumeric(v.text) {
        ScanWfNumberGroup(s, i, acc, v, lastCh);
      } else {
        ScanWfSignGroup(s, i, acc, v, lastCh);
      }
    } else {
      var ch := [s[i]];
      if IsOperator(ch) && !IsOperator(lastCh) {
        if NonEmpty(v) { WfListAppend(acc, v); }
        var (acc1, v1) := Register(acc, v);
        ScanWf(s, i + 1, acc1, v1.(text := v1.text + ch), ch);
      } else {
        ScanWf(s, i + 1, acc, v.(text := v.text + ch), ch);
      }
    }
  }

  /** At "(" after a token with a digit or ".": that token and the group prefixed
      by "*" are registered. */
  lemma {:induction false} ScanWfNumberGroup(s: string, i: nat, acc: seq<Term>, v: Term, lastCh: string)
    requires NoAdjacentGroups(s)
    requires WfList(acc) && v.terms == []
    requires i < |s| && s[i] == '(' && IsNumeric(v.text)
    ensures WfList(ScanSpec(s, i, acc, v, lastCh).0.terms)
    decreases Remaining(s, i), 0, 0
  {
    ParseWf(s, i + 1);
    var g, j := ParseSpec(s, i + 1).0, ParseSpec(s, i + 1).1;
    NumberBeforeGroup(s, i, acc, v, lastCh);
    assert v.text != "";
    WfListAppend(acc, v);
    WfGroup(g, "*");
    WfListAppend(acc + [v], Prefixed(g, "*"));
    ScanWf(s, j + 1, acc + [v] + [Prefixed(g, "*")], Empty, "(");
  }

  /** At "(" after a token without a digit or ".": the group prefixed by that
      token is registered. */
  lemma {:induction false} ScanWfSignGroup(s: string, i: nat, acc: seq<Term>, v: Term, lastCh: string)
    requires NoAdjacentGroups(s)
    requires WfList(acc) && v.terms == []
    requires i < |s| && s[i] == '(' && !IsNumeric(v.text)
    requires acc != [] && v.text == "" ==> i >= 1 && s[i - 1] == ')'
    ensures WfList(ScanSpec(s, i, acc, v, lastCh).0.terms)
    decreases Remaining(s, i), 0, 1
  {
    ParseWf(s, i + 1);
    SignsBeforeGroup(s, i, acc, v, lastCh);
    PrefixAfterChild(s, i, acc, v);
    ScanWfAfterGroup(s, i, ParseSpec(s, i + 1).1, acc, Prefixed(ParseSpec(s, i + 1).0, v.text));
  }

  /** An empty prefix after a registered child would need ")(" just before i. */
  lemma PrefixAfterChild(s: string, i: nat, acc: seq<Term>, v: Term)
    requires NoAdjacentGroups(s) && i < |s| && s[i] == '('
    requires acc != [] && v.text == "" ==> i >= 1 && s[i - 1] == ')'
    ensures acc != [] ==> v.text != ""
  {
    if i >= 1 { NotAdjacentAt(s, i - 1); }
  }

  /** The scan resumes after the ")" at j of a group g1 that is registered if it is
      not empty. */
  lemma {:induction false} ScanWfAfterGroup(s: string, i: nat, j: nat, acc: seq<Term>, g1: Term)
    requires NoAdjacentGroups(s)
    requires i < |s| && i <= j && (j < |s| ==> s[j] == ')')
    requires WfList(acc) && WfList(g1.terms)
    requires acc != [] ==> g1.text != ""
    ensures WfList(ScanSpec(s, j + 1, Register(acc, g1).0, Register(acc, g1).1, "(").0.terms)
    decreases Remaining(s, i), 0, 0
  {
    if NonEmpty(g1) {
      assert Wf(g1);
      WfListAppend(acc, g1);
      ScanWf(s, j + 1, acc + [g1], Empty, "(");
    } else {
      ScanWf(s, j + 1, acc, g1, "(");
    }
  }

  /** A parsed group with its prefix is well formed once it is not empty. */
  lemma WfGroup(g: Term, prefix: string)
    requires WfList(g.terms) && NonEmpty(Prefixed(g, prefix))
    ensures Wf(Prefixed(g, prefix))
  {
  }

  lemma NotAdjacentAt(s: string, k: nat)
    requires NoAdjacentGroups(s) && k + 1 < |s|
    ensures !(s[k] == ')' && s[k + 1] == '(')
  {
    assert !AdjacentGroupsAt(s, k);
  }

  lemma WfListAppend(acc: seq<Term>, x: Term)
    requires WfList(acc) && Wf(x)
    requires acc != [] ==> x.text != ""
    ensures WfList(acc + [x])
  {
    var r := acc + [x];
    forall k | 0 <= k < |r| ensures Wf(r[k]) && (k >= 1 ==> r[k].text != "") {
      if k < |acc| { assert r[k] == acc[k]; } else { assert r[k] == x; }
    }
  }

  /** The tree NewTerm builds from a text without ")(" satisfies what Calc needs,
      as soon as it has a child at all. */
  lemma ParsedTreeIsEvaluable(s: string)
    requires NoAdjacentGroups(s)
    requires ParseSpec(s, 0).0.terms != []
    ensures Wf(ParseSpec(s, 0).0)
  {
    ParseWf(s, 0);
  }

  // ---------------------------------------------------------------------------
  // Tokenising rules, one scan step each.

  /** An operator character that does not follow one closes the pending token
      (registering it when it is not empty) and starts a new token holding just
      that character. */
  lemma OperatorStartsToken(s: string, i: nat, acc: seq<Term>, v: Term, lastCh: string)
    requires i < |s| && s[i] in OperatorChs && !IsOperator(lastCh)
    ensures Register(acc, v).1.text == ""
    ensures ScanSpec(s, i, acc, v, lastCh) ==
            ScanSpec(s, i + 1, Register(acc, v).0, Register(acc, v).1.(text := [s[i]]), [s[i]])
  {
    SingleChar(s[i]);
    assert "" + [s[i]] == [s[i]];
  }

  /** An operator character that follows one stays in the pending token. */
  lemma OperatorRunContinues(s: string, i: nat, acc: seq<Term>, v: Term, lastCh: string)
    requires i < |s| && s[i] in OperatorChs && IsOperator(lastCh)
    ensures ScanSpec(s, i, acc, v, lastCh) == ScanSpec(s, i + 1, acc, v.(text := v.text + [s[i]]), [s[i]])
  {
  }

  /** Any other character except a parenthesis is appended to the pending token. */
  lemma OtherCharAppends(s: string, i: nat, acc: seq<Term>, v: Term, lastCh: string)
    requires i < |s| && s[i] !in OperatorChs && s[i] != '(' && s[i] != ')'
    ensures ScanSpec(s, i, acc, v, lastCh) == ScanSpec(s, i + 1, acc, v.(text := v.text + [s[i]]), [s[i]])
  {
    SingleChar(s[i]);
  }

  /** At "(" after a pending token with a digit or ".", that token becomes its
      own child, the group gets the prefix "*", and the scan resumes after the
      group's ")". */
  lemma NumberBeforeGroup(s: string, i: nat, acc: seq<Term>, v: Term, lastCh: string)
    requires i < |s| && s[i] == '(' && IsNumeric(v.text)
    ensures ScanSpec(s, i, acc, v, lastCh) ==
            ScanSpec(s, ParseSpec(s, i + 1).1 + 1, Register(acc, v).0 + [Prefixed(ParseSpec(s, i + 1).0, "*")], Empty, "(")
  {
    assert [s[i]] == "(";
  }

  /** At "(" after a pending token without a digit or ".", that token's text
      becomes the group's prefix, and the scan resumes after the group's ")". */
  lemma SignsBeforeGroup(s: string, i: nat, acc: seq<Term>, v: Term, lastCh: string)
    requires i < |s| && s[i] == '(' && !IsNumeric(v.text)
    ensures ScanSpec(s, i, acc, v, lastCh) ==
            ScanSpec(s, ParseSpec(s, i + 1).1 + 1, Register(acc, Prefixed(ParseSpec(s, i + 1).0, v.text)).0,
                     Register(acc, Prefixed(ParseSpec(s, i + 1).0, v.text)).1, "(")
  {
    assert [s[i]] == "(";
  }

  // ---------------------------------------------------------------------------
  // Tokenising examples.

  /** The character classes of the characters in the examples below. */
  lemma ExampleChars()
    ensures '-' in OperatorChs && '*' in OperatorChs && '+' in OperatorChs && '^' in OperatorChs
    ensures '1' !in OperatorChs && '2' !in OperatorChs && '3' !in OperatorChs && '5' !in OperatorChs
    ensures IsOperator("-") && IsOperator("*") && IsOperator("+")
    ensures !IsOperator("1") && !IsOperator("2") && !IsOperator("3") && !IsOperator("5") && !IsOperator("")
    ensures IsNumeric("2") && !IsNumeric("")
  {
    ExampleOperators();
    ExampleDigits();
  }

  lemma ExampleOperators()
    ensures '-' in OperatorChs && '*' in OperatorChs && '+' in OperatorChs && '^' in OperatorChs
    ensures IsOperator("-") && IsOperator("*") && IsOperator("+")
  {
    SingleChar('-'); SingleChar('*'); SingleChar('+'); SingleChar('^');
  }

  lemma ExampleDigits()
    ensures '1' !in OperatorChs && '2' !in OperatorChs && '3' !in OperatorChs && '5' !in OperatorChs
    ensures !IsOperator("1") && !IsOperator("2") && !IsOperator("3") && !IsOperator("5") && !IsOperator("")
    ensures IsNumeric("2") && !IsNumeric("")
  {
    SingleChar('1'); SingleChar('2'); SingleChar('3'); SingleChar('5');
    Members('1'); Members('2'); Members('3'); Members('5');
  }

  /** "-3*-5": the "*" after "3" starts a new token and the "-" after "*" stays in it. */
  lemma TokenRuns(s: string)
    requires s == "-3*-5"
    ensures ParseSpec(s, 0) == (Term("", false, 0.0, [Leaf("-3"), Leaf("*-5")]), 5)
  {
    ExampleChars();
    assert [s[0]] == "-" && [s[1]] == "3" && [s[2]] == "*" && [s[3]] == "-" && [s[4]] == "5";
    assert "-" + "3" == "-3" && "*" + "-" == "*-" && "*-" + "5" == "*-5";
    OperatorStartsToken(s, 0, [], Empty, "");
    assert ScanSpec(s, 0, [], Empty, "") == ScanSpec(s, 1, [], Leaf("-"), "-");
    OtherCharAppends(s, 1, [], Leaf("-"), "-");
    assert ScanSpec(s, 1, [], Leaf("-"), "-") == ScanSpec(s, 2, [], Leaf("-3"), "3");
    OperatorStartsToken(s, 2, [], Leaf("-3"), "3");
    assert Register([], Leaf("-3")).0 == [Leaf("-3")];
    assert ScanSpec(s, 2, [], Leaf("-3"), "3") == ScanSpec(s, 3, [Leaf("-3")], Leaf("*"), "*");
    OperatorRunContinues(s, 3, [Leaf("-3")], Leaf("*"), "*");
    assert ScanSpec(s, 3, [Leaf("-3")], Leaf("*"), "*") == ScanSpec(s, 4, [Leaf("-3")], Leaf("*-"), "-");
    OtherCharAppends(s, 4, [Leaf("-3")], Leaf("*-"), "-");
    assert ScanSpec(s, 4, [Leaf("-3")], Leaf("*-"), "-") == ScanSpec(s, 5, [Leaf("-3")], Leaf("*-5"), "5");
    EndStep(s, 5, [Leaf("-3")], Leaf("*-5"), "5");
    assert Register([Leaf("-3")], Leaf("*-5")).0 == [Leaf("-3"), Leaf("*-5")];
  }

  /** "2*3^2": each operator after a digit starts a new token. */
  lemma PowerAfterProductTree(s: string)
    requires s == "2*3^2"
    ensures ParseSpec(s, 0) == (Term("", false, 0.0, [Leaf("2"), Leaf("*3"), Leaf("^2")]), 5)
  {
    ProductTokens(s);
    PowerTokens(s);
    assert ParseSpec(s, 0) == ScanSpec(s, 0, [], Empty, "");
  }

  /** The tokens "2" and "*3" of "2*3^2". */
  lemma ProductTokens(s: string)
    requires s == "2*3^2"
    ensures ScanSpec(s, 0, [], Empty, "") == ScanSpec(s, 3, [Leaf("2")], Leaf("*3"), "3")
  {
    ExampleChars();
    assert [s[0]] == "2" && [s[1]] == "*" && [s[2]] == "3";
    assert "" + "2" == "2" && "*" + "3" == "*3";
    OtherCharAppends(s, 0, [], Empty, "");
    assert ScanSpec(s, 0, [], Empty, "") == ScanSpec(s, 1, [], Leaf("2"), "2");
    OperatorStartsToken(s, 1, [], Leaf("2"), "2");
    assert Register([], Leaf("2")).0 == [Leaf("2")];
    assert ScanSpec(s, 1, [], Leaf("2"), "2") == ScanSpec(s, 2, [Leaf("2")], Leaf("*"), "*");
    OtherCharAppends(s, 2, [Leaf("2")], Leaf("*"), "*");
  }

  /** The token "^2" of "2*3^2", and the end of the text. */
  lemma PowerTokens(s: string)
    requires s == "2*3^2"
    ensures ScanSpec(s, 3, [Leaf("2")], Leaf("*3"), "3") == (Term("", false, 0.0, [Leaf("2"), Leaf("*3"), Leaf("^2")]), 5)
  {
    ExampleChars();
    assert [s[3]] == "^" && [s[4]] == "2";
    assert "^" + "2" == "^2";
    OperatorStartsToken(s, 3, [Leaf("2")], Leaf("*3"), "3");
    assert Register([Leaf("2")], Leaf("*3")).0 == [Leaf("2"), Leaf("*3")];
    assert ScanSpec(s, 3, [Leaf("2")], Leaf("*3"), "3") == ScanSpec(s, 4, [Leaf("2"), Leaf("*3")], Leaf("^"), "^");
    OtherCharAppends(s, 4, [Leaf("2"), Leaf("*3")], Leaf("^"), "^");
    assert ScanSpec(s, 4, [Leaf("2"), Leaf("*3")], Leaf("^"), "^") == ScanSpec(s, 5, [Leaf("2"), Leaf("*3")], Leaf("^2"), "2");
    EndStep(s, 5, [Leaf("2"), Leaf("*3")], Leaf("^2"), "2");
    assert Register([Leaf("2"), Leaf("*3")], Leaf("^2")).0 == [Leaf("2"), Leaf("*3"), Leaf("^2")];
  }

  /** "1-2^2": the minus sign after a digit starts the token "-2", which the
      following `^` then raises. */
  lemma MinusPowerTree(s: string)
    requires s == "1-2^2"
    ensures ParseSpec(s, 0) == (Term("", false, 0.0, [Leaf("1"), Leaf("-2"), Leaf("^2")]), 5)
  {
    DifferenceTokens(s);
    RaisedTokens(s);
    assert ParseSpec(s, 0) == ScanSpec(s, 0, [], Empty, "");
  }

  /** The tokens "1" and "-2" of "1-2^2". */
  lemma DifferenceTokens(s: string)
    requires s == "1-2^2"
    ensures ScanSpec(s, 0, [], Empty, "") == ScanSpec(s, 3, [Leaf("1")], Leaf("-2"), "2")
  {
    ExampleChars();
    assert [s[0]] == "1" && [s[1]] == "-" && [s[2]] == "2";
    assert "" + "1" == "1" && "-" + "2" == "-2";
    OtherCharAppends(s, 0, [], Empty, "");
    assert ScanSpec(s, 0, [], Empty, "") == ScanSpec(s, 1, [], Leaf("1"), "1");
    OperatorStartsToken(s, 1, [], Leaf("1"), "1");
    assert Register([], Leaf("1")).0 == [Leaf("1")];
    assert ScanSpec(s, 1, [], Leaf("1"), "1") == ScanSpec(s, 2, [Leaf("1")], Leaf("-"), "-");
    OtherCharAppends(s, 2, [Leaf("1")], Leaf("-"), "-");
  }

  /** The last token "^2" of "1-2^2". */
  lemma RaisedTokens(s: string)
    requires s == "1-2^2"
    ensures ScanSpec(s, 3, [Leaf("1")], Leaf("-2"), "2") == (Term("", false, 0.0, [Leaf("1"), Leaf("-2"), Leaf("^2")]), 5)
  {
    ExampleChars();
    assert [s[3]] == "^" && [s[4]] == "2";
    assert "^" + "2" == "^2";
    OperatorStartsToken(s, 3, [Leaf("1")], Leaf("-2"), "2");
    assert Register([Leaf("1")], Leaf("-2")).0 == [Leaf("1"), Leaf("-2")];
    assert ScanSpec(s, 3, [Leaf("1")], Leaf("-2"), "2") == ScanSpec(s, 4, [Leaf("1"), Leaf("-2")], Leaf("^"), "^");
    OtherCharAppends(s, 4, [Leaf("1"), Leaf("-2")], Leaf("^"), "^");
    assert ScanSpec(s, 4, [Leaf("1"), Leaf("-2")], Leaf("^"), "^") == ScanSpec(s, 5, [Leaf("1"), Leaf("-2")], Leaf("^2"), "2");
    EndStep(s, 5, [Leaf("1"), Leaf("-2")], Leaf("^2"), "2");
    assert Register([Leaf("1"), Leaf("-2")], Leaf("^2")).0 == [Leaf("1"), Leaf("-2"), Leaf("^2")];
  }

  /** A group "(d)" opened at `i - 1` whose only character is a digit `d` holds the
      single token "d". */
  lemma DigitGroup(s: string, i: nat, d: char)
    requires i + 1 < |s| && s[i] == d && s[i + 1] == ')' && '0' <= d <= '9'
    ensures ParseSpec(s, i) == (Term("", false, 0.0, [Leaf([d])]), i + 1)
  {
    Members(d);
    assert "" + [d] == [d];
    OtherCharAppends(s, i, [], Empty, "");
    assert ScanSpec(s, i, [], Empty, "") == ScanSpec(s, i + 1, [], Leaf([d]), [d]);
    EndStep(s, i + 1, [], Leaf([d]), [d]);
    assert Register([], Leaf([d])).0 == [Leaf([d])];
    assert ParseSpec(s, i) == ScanSpec(s, i, [], Empty, "");
  }

  /** A text that starts with a digit `n` holds the token "n" after its first character. */
  lemma LeadingDigit(s: string, n: char)
    requires |s| > 0 && s[0] == n && '0' <= n <= '9'
    ensures ParseSpec(s, 0) == ScanSpec(s, 1, [], Leaf([n]), [n])
  {
    Members(n);
    assert "" + [n] == [n];
    OtherCharAppends(s, 0, [], Empty, "");
  }

  /** "2(3)": the number before "(" is its own child and the group's prefix is "*". */
  lemma ImplicitMultiplicationTree(s: string)
    requires s == "2(3)"
    ensures ParseSpec(s, 0) == (Term("", false, 0.0, [Leaf("2"), Term("*", false, 0.0, [Leaf("3")])]), 4)
  {
    ExampleChars();
    DigitGroup(s, 2, '3');
    var g := Term("", false, 0.0, [Leaf("3")]);
    LeadingDigit(s, '2');
    NumberBeforeGroup(s, 1, [], Leaf("2"), "2");
    assert Register([], Leaf("2")).0 + [Prefixed(g, "*")] == [Leaf("2"), Prefixed(g, "*")];
    assert ScanSpec(s, 1, [], Leaf("2"), "2") == ScanSpec(s, 4, [Leaf("2"), Prefixed(g, "*")], Empty, "(");
    EndStep(s, 4, [Leaf("2"), Prefixed(g, "*")], Empty, "(");
    assert "*" + "" == "*";
    assert Prefixed(g, "*") == Term("*", false, 0.0, [Leaf("3")]);
  }

  /** The group "(1+2)" holds the tokens "1" and "+2". */
  lemma SumGroup(s: string)
    requires s == "(1+2)"
    ensures ParseSpec(s, 1) == (Term("", false, 0.0, [Leaf("1"), Leaf("+2")]), 4)
  {
    ExampleChars();
    assert [s[1]] == "1" && [s[2]] == "+" && [s[3]] == "2";
    assert "" + "1" == "1" && "+" + "2" == "+2";
    OtherCharAppends(s, 1, [], Empty, "");
    assert ScanSpec(s, 1, [], Empty, "") == ScanSpec(s, 2, [], Leaf("1"), "1");
    OperatorStartsToken(s, 2, [], Leaf("1"), "1");
    assert Register([], Leaf("1")).0 == [Leaf("1")];
    assert ScanSpec(s, 2, [], Leaf("1"), "1") == ScanSpec(s, 3, [Leaf("1")], Leaf("+"), "+");
    OtherCharAppends(s, 3, [Leaf("1")], Leaf("+"), "+");
    assert ScanSpec(s, 3, [Leaf("1")], Leaf("+"), "+") == ScanSpec(s, 4, [Leaf("1")], Leaf("+2"), "2");
    EndStep(s, 4, [Leaf("1")], Leaf("+2"), "2");
    assert Register([Leaf("1")], Leaf("+2")).0 == [Leaf("1"), Leaf("+2")];
    assert ParseSpec(s, 1) == ScanSpec(s, 1, [], Empty, "");
  }

  /** "(1+2)": a top-level group whose only child is the parenthesised group. */
  lemma ParenthesisedSumTree(s: string)
    requires s == "(1+2)"
    ensures ParseSpec(s, 0) == (Term("", false, 0.0, [Term("", false, 0.0, [Leaf("1"), Leaf("+2")])]), 5)
  {
    ExampleChars();
    SumGroup(s);
    var g := Term("", false, 0.0, [Leaf("1"), Leaf("+2")]);
    SignsBeforeGroup(s, 0, [], Empty, "");
    assert "" + "" == "";
    assert Prefixed(g, "") == g;
    assert Register([], g).0 == [g];
    assert ScanSpec(s, 0, [], Empty, "") == ScanSpec(s, 5, [g], Empty, "(");
    EndStep(s, 5, [g], Empty, "(");
  }

  /** "-(5)": a top-level group whose only child is the group "(5)" prefixed by "-". */
  lemma NegatedGroupTree(s: string)
    requires s == "-(5)"
    ensures ParseSpec(s, 0) == (Term("", false, 0.0, [Term("-", false, 0.0, [Leaf("5")])]), 4)
  {
    ExampleChars();
    DigitGroup(s, 2, '5');
    var g := Term("", false, 0.0, [Leaf("5")]);
    assert [s[0]] == "-";
    assert "" + "-" == "-";
    OperatorStartsToken(s, 0, [], Empty, "");
    assert ScanSpec(s, 0, [], Empty, "") == ScanSpec(s, 1, [], Leaf("-"), "-");
    SignsBeforeGroup(s, 1, [], Leaf("-"), "-");
    assert "-" + "" == "-";
    assert Prefixed(g, "-") == Term("-", false, 0.0, [Leaf("5")]);
    assert Register([], Prefixed(g, "-")).0 == [Prefixed(g, "-")];
    assert ScanSpec(s, 1, [], Leaf("-"), "-") == ScanSpec(s, 4, [Prefixed(g, "-")], Empty, "(");
    EndStep(s, 4, [Prefixed(g, "-")], Empty, "(");
  }

  /** A digit, two operators and a parenthesised digit, such as "2*-(3)": the
      digit is its own child and the whole operator run becomes the group's
      prefix. */
  lemma SignRunGroupTree(s: string, n: char, o: char, p: char, d: char)
    requires s == [n, o, p, '(', d, ')'] && '0' <= n <= '9' && '0' <= d <= '9'
    requires o in OperatorChs && p in OperatorChs
    ensures ParseSpec(s, 0) == (Term("", false, 0.0, [Leaf([n]), Term([o, p], false, 0.0, [Leaf([d])])]), 6)
  {
    SignRunTokens(s, n, o, p);
    DigitGroup(s, 4, d);
    var g := Term("", false, 0.0, [Leaf([d])]);
    Members(o);
    Members(p);
    SingleChar(o);
    SingleChar(p);
    assert [o, p] == [o] + [p];
    NumericConcat([o], [p]);
    assert !IsNumeric([o, p]);
    SignsBeforeGroup(s, 3, [Leaf([n])], Leaf([o, p]), [p]);
    assert [o, p] + "" == [o, p];
    assert Prefixed(g, [o, p]) == Term([o, p], false, 0.0, [Leaf([d])]);
    assert Register([Leaf([n])], Prefixed(g, [o, p])).0 == [Leaf([n]), Prefixed(g, [o, p])];
    EndStep(s, 6, [Leaf([n]), Prefixed(g, [o, p])], Empty, "(");
  }

  /** The first three characters of such a text: the digit is registered when
      the first operator starts a new token, and the second operator joins it. */
  lemma SignRunTokens(s: string, n: char, o: char, p: char)
    requires |s| > 3 && s[0] == n && s[1] == o && s[2] == p && '0' <= n <= '9'
    requires o in OperatorChs && p in OperatorChs
    ensures ParseSpec(s, 0) == ScanSpec(s, 3, [Leaf([n])], Leaf([o, p]), [p])
  {
    Members(n);
    SingleChar(n);
    SingleChar(o);
    assert "" + [n] == [n] && [o] + [p] == [o, p];
    OtherCharAppends(s, 0, [], Empty, "");
    assert ScanSpec(s, 0, [], Empty, "") == ScanSpec(s, 1, [], Leaf([n]), [n]);
    OperatorStartsToken(s, 1, [], Leaf([n]), [n]);
    assert Register([], Leaf([n])).0 == [Leaf([n])];
    assert ScanSpec(s, 1, [], Leaf([n]), [n]) == ScanSpec(s, 2, [Leaf([n])], Leaf([o]), [o]);
    OperatorRunContinues(s, 2, [Leaf([n])], Leaf([o]), [o]);
  }
}
