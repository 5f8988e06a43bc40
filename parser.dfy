/** The parser of term.go:80-145: one left-to-right scan that builds a Term
    tree and recurses on "(". */
module Parser {
  import opened Wrappers
  import opened Chars
  import opened Terms

  /** The error NewTerm and parse may return; the source never produces one. */
  datatype ParseError = ParseError(message: string)

  /** registerTerm (term.go:93-98): the pending term `v` is appended when it has
      text or children, and is then reset to the zero term. */
  function Register(acc: seq<Term>, v: Term): (seq<Term>, Term) {
    if v.text != "" || v.terms != [] then (acc + [v], Empty) else (acc, v)
  }

  /** Characters left to scan from index i. */
  function Remaining(text: string, i: nat): nat {
    if i <= |text| then |text| - i else 0
  }

  /** The result of parse(text, i): the group built and the index where the scan
      stopped. */
  function ParseSpec(text: string, i: nat): (r: (Term, nat))
    ensures r.0.text == "" && !r.0.isParsed && r.0.result == 0.0
    ensures r.1 >= i
    ensures r.1 < |text| ==> text[r.1] == ')'
    decreases Remaining(text, i), 2
  {
    ScanSpec(text, i, [], Empty, "")
  }

  /** The loop of parse from index i, with `acc` the children registered so far
      (current.Terms), `v` the pending term and `lastCh` the previous character.
      At the end of the text or at a ")" the pending term is registered and the
      group is returned. */
  function ScanSpec(text: string, i: nat, acc: seq<Term>, v: Term, lastCh: string): (r: (Term, nat))
    ensures r.0.text == "" && !r.0.isParsed && r.0.result == 0.0
    ensures r.1 >= i
    ensures r.1 < |text| ==> text[r.1] == ')'
    decreases Remaining(text, i), 1
  {
    if i >= |text| || text[i] == ')' then
      (Term("", false, 0.0, Register(acc, v).0), i)
    else if text[i] == '(' then
      ScanOpen(text, i, acc, v)
    else
      ScanChar(text, i, acc, v, lastCh)
  }

  /** The loop body at a "(": a pending number is registered and followed by an
      implicit "*"; otherwise the pending text (a sign run) becomes the operator
      in front of the group parsed from i + 1, which is then registered. */
  function ScanOpen(text: string, i: nat, acc: seq<Term>, v: Term): (r: (Term, nat))
    requires i < |text| && text[i] == '('
    ensures r.0.text == "" && !r.0.isParsed && r.0.result == 0.0
    ensures r.1 >= i
    ensures r.1 < |text| ==> text[r.1] == ')'
    decreases Remaining(text, i), 0
  {
    var numeric := IsNumeric(v.text);
    var acc1 := if numeric then Register(acc, v).0 else acc;
    var op := if numeric then "*" else v.text;
    var (g, j) := ParseSpec(text, i + 1);
    var (acc2, v2) := Register(acc1, g.(text := op + g.text));
    ScanSpec(text, j + 1, acc2, v2, [text[i]])
  }

  /** The loop body at any other character: an operator after a non-operator
      starts a new pending term, every other character extends the pending text. */
  function ScanChar(text: string, i: nat, acc: seq<Term>, v: Term, lastCh: string): (r: (Term, nat))
    requires i < |text|
    ensures r.0.text == "" && !r.0.isParsed && r.0.result == 0.0
    ensures r.1 >= i
    ensures r.1 < |text| ==> text[r.1] == ')'
    decreases Remaining(text, i), 0
  {
    var ch := [text[i]];
    if IsOperator(ch) && !IsOperator(lastCh) then
      var (acc1, v1) := Register(acc, v);
      ScanSpec(text, i + 1, acc1, v1.(text := v1.text + ch), ch)
    else
      ScanSpec(text, i + 1, acc, v.(text := v.text + ch), ch)
  }

  /** parse(text, i): scans from `start` until the end of the text or a ")" and
      returns the group of the children found, the index where it stopped, and
      no error. */
  method Parse(text: string, start: nat) returns (t: Term, next: nat, err: Option<ParseError>)
    ensures err == None
    ensures (t, next) == ParseSpec(text, start)
    decreases Remaining(text, start)
  {
    var current: seq<Term> := [];
    var v := Empty;
    var lastCh := "";
    var i := start;
    while i < |text|
      invariant start <= i
      invariant ScanSpec(text, i, current, v, lastCh) == ParseSpec(text, start)
      decreases |text| - i
    {
      var ch := [text[i]];
      if text[i] == '(' {
        var op := v.text;
        if IsNumeric(op) {
          // registerTerm(): v holds a digit, so it is non-empty
          current, v := current + [v], Empty;
          op := "*";
        }
        var inner: Option<ParseError>;
        v, i, inner := Parse(text, i + 1);
        v := v.(text := op + v.text);
        if v.text != "" || v.terms != [] {
          current, v := current + [v], Empty;
        }
      } else if text[i] == ')' {
        break;
      } else if IsOperator(ch) && !IsOperator(lastCh) {
        if v.text != "" || v.terms != [] {
          current, v := current + [v], Empty;
        }
        v := v.(text := v.text + ch);
      } else {
        v := v.(text := v.text + ch);
      }
      lastCh := ch;
      i := i + 1;
    }
    if v.text != "" || v.terms != [] {
      current, v := current + [v], Empty;
    }
    t, next, err := Term("", false, 0.0, current), i, None;
  }

  /** NewTerm: the tree of the whole text. */
  method NewTerm(text: string) returns (t: Term, err: Option<ParseError>)
    ensures err == None
    ensures t == ParseSpec(text, 0).0
  {
    var next: nat;
    t, next, err := Parse(text, 0);
  }
}
