# term: a verified model of the expression engine

The model covers the expression engine of `term.go`. It has two parts.

- **The parser** (`parse`, `NewTerm`, the character-class tests and `Operator`). It makes one left-to-right scan over the text and recurses at each `(`. The result is a `Term` tree:
  - A leaf holds a signed number token such as `-3` or `*-5`.
  - A group holds the children of one pair of parentheses. Its text is the operator prefix in front of it.
  - A number directly before `(` becomes an implicit `*`.
- **The evaluator** (`Term.Calc`).
  - A leaf normalises its sign prefix, parses the number and caches the value.
  - A group first evaluates a sole child.
  - It then makes three passes over its children, one per class: `^`, then `* / %`, then `+ -`. Each pass folds a child and its right neighbour into a synthesised leaf when the neighbour's operator is of that class.
  - A group whose prefix starts with `-` negates its value. Only the prefix's first character counts.

Modules:

- `Wrappers`: `Option` and `Result`.
- `Chars` (term.go:12-43): the character classes.
- `Terms` (term.go:45-78): the `Term` datatype, `String()` as `ToString`, and `Operator()`.
- `Parser` (term.go:80-145):
  - `ParseSpec`/`ScanSpec` are the specification functions.
  - `Parse` is the loop with recursion, proved equal to `ParseSpec`.
  - `NewTerm` is the entry point.
- `ParserProps`: what the parser guarantees about the trees it builds, and worked examples.
- `Evaluator` (term.go:146-267):
  - `CalcSpec` is the specification function.
  - `Calc` is the method with the nested pass loops (`Reduce`, `Fold`), proved equal to `CalcSpec`.
- `EvaluatorProps`: normalisation, arithmetic, the pass invariant, the group result and re-evaluation.
- `Precedence`: an independent reference evaluator over (operator, operand) pairs, where `^` binds tightest, then `* / %`, then `+ -`, each level folded left to right. It comes with the proof that the three passes over any list of children agree with it.
- `CalcExamples`: expressions parsed and evaluated end to end.
- `PrecedenceExamples`: an expression evaluated through the reference evaluator.

Design decisions:

- **Values, not mutation.** `Term` is a datatype. `Calc` takes a term and returns its new state together with a `Result`. This matches the fields Go updates in place: `IsParsed`, `Result`, `Terms`.
- **Numbers are `real`.** `strconv.ParseFloat` and `math.Pow` are parameters (`Numerics`). Each example states what the number parser must return for its tokens.
- **The number parser's failure value.** A failed `ParseFloat` still sets `Result` (term.go:174). The model stores the value the parameter returns.
- **`Variant`.** The evaluator takes a `Variant` parameter:
  - `AsWritten` follows the source.
  - `Corrected` fixes the three defects under Findings.
  - Everything else is shared by both variants.

Behaviours of the source that the model follows exactly:

- **The sign rewrites.** The four sign rewrites at term.go:155-166 are four checks in sequence. More than one of them can apply: `--+` becomes `++`, which becomes `+`.
- **What a group returns.** A group of two or more children never stores its own `Result`. `Calc` returns the cached result of the remaining child (term.go:266).
- **Re-evaluation.** Evaluating a term twice does not always give the same value (see Findings).
- **Signs belong to numbers.** An operator character after a digit starts a new token, and a `-` stays in that token as the sign of its number, so `1-2^2` is `1 + (-2)^2 = 5`. `^` is folded left to right like the other levels, so `2^3^2` is `(2^3)^2`.
- **A group's prefix counts by its first character.** The whole operator run in front of `(` becomes the group's text (term.go:106-134). `Operator()` reads only its first character (term.go:70-78), and the sign rewrites of term.go:155-166 apply only to leaves. So `2*-(3)` is `2 * 3 = 6` and `1--(2)` is `1 + (-2) = -1`.

## Model

| member | source | states |
|---|---|---|
| Chars.IndexAny | term.go:22 | -1 exactly when no character of the string is in the class; otherwise the first position that holds a class character |
| Chars.ClassTestsAreIndexAny | term.go:21-43 | each of the six class tests `IsSign`, `IsOperator`, `IsNumeric`, `IsExponent`, `IsPunctuation` and `IsLine` holds exactly when `strings.IndexAny` finds a character of its class |
| Chars.OperatorsAreTheThreeClasses | term.go:17 | the operator characters are the exponent, punctuation and line characters concatenated |
| Chars.NumericConcat | term.go:29-31 | a concatenation contains a digit or `.` exactly when one of its halves does |
| Chars.SingleChar | term.go:21-43 | on a one-character string every class test is membership of that character |
| Chars.Members | term.go:12-19 | each class, character by character |
| Chars.NumberNotOperator | term.go:12-19 | no number character is an operator character |
| Terms.Operator | term.go:70-78 | one operator character: the first character of the text when it is an operator, `+` otherwise; requires non-empty text |
| Terms.ConcatStringsAppend | term.go:59-65 | `ToString` (`String()`) of the children: printing one more child appends its printed form |
| Parser.ParseSpec | term.go:89-145 | the group has empty text, is not evaluated and has result 0; the stop index is at least the start; below the length it is at a `)` |
| Parser.ScanSpec | term.go:101-144 | the same for the loop started from any state: the stop index is at least the current index and is at a `)` when inside the text |
| Parser.ScanOpen | term.go:106-124 | the same, for the `(` step |
| Parser.ScanChar | term.go:127-135 | the same, for a step at any other character |
| Parser.Parse | term.go:89-145 | never returns an error; returns the tree and stop index of `ParseSpec` |
| Parser.NewTerm | term.go:80-87 | never returns an error; returns the tree of the whole text |
| ParserProps.ParseDropsEmptyChildren | term.go:93-98 | every child anywhere in a parsed tree has text or children, so a bare `()` is dropped |
| ParserProps.RegisterClean | term.go:93-98 | `Register` appends only a term with text or children, and keeps the registered children free of empty terms |
| ParserProps.ScanEnds | term.go:101-144 | on balanced text a scan at depth d stops at the end (depth 0) or at the `)` that closes its group |
| ParserProps.GroupEnds | term.go:117 | the group opened at a `(` ends at its matching `)`, and the rest of the text is balanced one level up |
| ParserProps.ScanPrints | term.go:101-144 | the children registered from index i print as the text scanned from i up to where the scan stopped |
| ParserProps.GroupPrints | term.go:106-124 | the children of a nested group print as the text between its parentheses |
| ParserProps.PrintGroup | term.go:52-68 | `ToString` of a group with prefix p and children printing as x is p + "(" + x + ")" |
| ParserProps.RoundTrip | term.go:52-145 | `String()` of the tree of a non-empty balanced text is the text in parentheses, when the text has only digits, `.`, operators and parentheses, no `()` and no `(` right after a digit or `.` |
| ParserProps.ParseWf | term.go:106-124 | on a text without `)(` every child after the first has non-empty text, and every leaf has text |
| ParserProps.ParsedTreeIsEvaluable | term.go:80-145 | the tree of a text without `)(` that has a child is well formed, which is what `Calc` needs to run without a panic |
| ParserProps.OperatorStartsToken | term.go:128-131 | an operator character after a non-operator registers the pending token and starts a new one holding just that character |
| ParserProps.OperatorRunContinues | term.go:128-134 | an operator character after an operator is appended to the pending token |
| ParserProps.OtherCharAppends | term.go:132-134 | any other character that is not a parenthesis is appended to the pending token |
| ParserProps.NumberBeforeGroup | term.go:106-124 | at `(` a pending token with a digit or `.` is registered, the group gets the prefix `*`, and the scan resumes after the group's `)` |
| ParserProps.SignsBeforeGroup | term.go:106-124 | at `(` a pending token without a digit or `.` becomes the group's prefix, and the scan resumes after the group's `)` |
| ParserProps.EndStep | term.go:125-144 | at the end of the text or at `)` the pending token is registered and the scan stops at that index |
| ParserProps.TokenRuns | term.go:127-135 | `-3*-5` parses into the children `-3` and `*-5` |
| ParserProps.ImplicitMultiplicationTree | term.go:106-124 | `2(3)` parses into `2` followed by the group `*` with child `3` |
| ParserProps.ParenthesisedSumTree | term.go:106-124 | `(1+2)` parses into a top-level group whose only child is the group of `1` and `+2` |
| ParserProps.NegatedGroupTree | term.go:106-124 | `-(5)` parses into a top-level group whose only child is the group `-` with child `5` |
| ParserProps.DigitGroup | term.go:125-144 | a single digit, any of `0` to `9`, before `)` is scanned into a group holding that one leaf, and the scan stops at the `)` |
| ParserProps.SignRunGroupTree | term.go:106-134 | a digit, two operators and a parenthesised digit, such as `2*-(3)`, parse into the digit's leaf and a group whose prefix is the whole two-operator run |
| ParserProps.PowerAfterProductTree | term.go:127-135 | `2*3^2` parses into the children `2`, `*3` and `^2` |
| ParserProps.MinusPowerTree | term.go:127-135 | `1-2^2` parses into the children `1`, `-2` and `^2` |
| Evaluator.Rewrite | term.go:155-166 | one sign rewrite leaves a text without that two-character prefix (`HasPrefix`) unchanged, never lengthens it and never empties it |
| Evaluator.NormalizeNumber | term.go:153-170 | the text handed to `ParseFloat` is never longer than the leaf's text |
| Evaluator.Normalize | term.go:153-170 | the step-by-step rewrites compute `NormalizeNumber` |
| Evaluator.LeafCalc | term.go:147-181 | a leaf keeps its text and stays a leaf; it succeeds exactly when it ends up evaluated, and then caches the value it returns |
| Evaluator.CalcLeaf | term.go:147-181 | the leaf branch computes `LeafCalc` |
| Evaluator.Trunc | term.go:235 | Go's float-to-int conversion truncates toward zero and keeps the sign |
| Evaluator.Rem | term.go:235 | Go's `%` is smaller than the divisor in magnitude and takes the sign of the dividend |
| Evaluator.Mod | term.go:235 | the remainder on naturals is below the divisor and is the dividend when that is smaller |
| Evaluator.CalcSpec | term.go:147-267 | evaluation keeps a term well formed, keeps its text, never deepens it, and a leaf stays a leaf |
| Evaluator.OneChild | term.go:184-192 | a one-child group stays one-child and well formed, with its text kept |
| Evaluator.OneChildOr | term.go:184-192 | a group of two or more children is untouched before the passes |
| Evaluator.Passes | term.go:194-259 | the passes keep the children well formed and shallower, and leave between one and the original number of them |
| Evaluator.Collapse | term.go:208-255 | a fold shortens the children by exactly one, keeps the children before and after the pair, and puts a synthesised leaf at the pair's place |
| Evaluator.Finish | term.go:262-266 | the end of a group keeps its shape, height and text, and returns a value |
| Evaluator.Calc | term.go:147-267 | the method with its loops computes `CalcSpec` |
| Evaluator.Reduce | term.go:194-259 | the nested pass loops, whose inner index does not advance after a fold, compute `Passes` |
| Evaluator.Fold | term.go:208-255 | one fold computes `Collapse` |
| Evaluator.FirstResultSet | term.go:262-264 | negating the first child's cached result keeps the children well formed and their height |
| Evaluator.ReplacePair | term.go:252-253 | replacing a pair by one shallow leaf keeps the children well formed and shortens them by one |
| EvaluatorProps.NumberTextUnchanged | term.go:153-170 | a token that starts with a digit or `.` reaches `ParseFloat` unchanged |
| EvaluatorProps.LeadingOperatorDropped | term.go:168-170 | a leading character that is neither a sign nor a number character is dropped, and nothing else changes |
| EvaluatorProps.SingleSignKept | term.go:153-170 | a single sign before a non-sign is kept |
| EvaluatorProps.TwoSignsCombine | term.go:155-166 | two signs before a non-sign become their product; the exception is `-+`, which becomes `MinusPlus(variant)`: `+` as written, `-` corrected |
| EvaluatorProps.MinusPlusLosesMinus | term.go:161-163 | as written, the token `-+5` is read as `+5`; corrected, as `-5` |
| EvaluatorProps.RewritesApplyOnce | term.go:155-166 | each rewrite is tried once in its turn, so `-+-5` loses only its first pair |
| EvaluatorProps.CachedLeafUnchanged | term.go:148-151 | an evaluated leaf returns its cached result and is unchanged |
| EvaluatorProps.LeafOutcome | term.go:147-181 | a leaf that evaluates is cached and gives the same value again; a leaf that is not a number fails with `IsParsed` false, and fails again |
| EvaluatorProps.TruncNegate | term.go:235 | truncation commutes with negation |
| EvaluatorProps.RemNegate | term.go:235 | Go's remainder changes sign with the dividend |
| EvaluatorProps.LineOperatorsAdd | term.go:226-229 | `+` and `-` both add the operands |
| EvaluatorProps.ExponentIsPow | term.go:224-225 | `^` is `math.Pow` of the operands |
| EvaluatorProps.ProductIsSigned | term.go:218-240 | taking the absolute value of a negative left operand and negating the product gives the plain signed product |
| EvaluatorProps.QuotientIsSigned | term.go:218-240 | the same for `/`; a zero divisor is an error |
| EvaluatorProps.RemainderIsSigned | term.go:218-240 | the same for `%` on the truncated operands; a divisor that truncates to zero is an error |
| EvaluatorProps.PunctuationSign | term.go:218 | `*`, `/` and `%` are punctuation operators |
| EvaluatorProps.CombineIsArithmetic | term.go:218-240 | for every operator and all operands the source's arithmetic `Combine` equals the plain signed reading `Arith` |
| EvaluatorProps.QuotMod | term.go:235 | division on naturals: n = q * d + r |
| EvaluatorProps.RemIsTruncatedRemainder | term.go:235 | `Rem` is the remainder of truncated division: a = (a / b) * b + a % b |
| EvaluatorProps.SynthIsSignedLeaf | term.go:242-253 | the synthesised leaf is evaluated and caches the value; its text starts with `+` exactly when the value is not negative; its operator is that sign, handled only by the third pass; evaluating it returns the value |
| EvaluatorProps.SynthOperator | term.go:242-250 | the operator of a synthesised leaf (`Synth`) is the sign of its value; it is a line operator and neither punctuation nor exponent |
| EvaluatorProps.FoldedLeafOperator | term.go:242-250 | the leaf of a fold (`FoldedLeaf`) is evaluated and caches the value. As written it is the synthesised leaf, joined by the sign of the value. Corrected, a `*`, `/` or `%` child after the first passes its operator on to the leaf |
| EvaluatorProps.OperatorHasOneClass | term.go:202-204 | every operator belongs to the class of exactly one pass |
| EvaluatorProps.PassesLeaveOne | term.go:194-259 | when the passes do not fail and there was a pair to fold, they leave exactly one child, a synthesised leaf |
| EvaluatorProps.NextPassLeavesOne | term.go:194-195 | that invariant survives moving on to the next pass |
| EvaluatorProps.SkipLeavesOne | term.go:258 | it survives skipping a child whose operator is not of the pass |
| EvaluatorProps.FoldLeavesOne | term.go:252-255 | it survives a fold, which does not advance the index |
| EvaluatorProps.FoldedKeepsInvariant | term.go:242-255 | after a fold no operator of an earlier pass remains, and the children skipped so far are still not of the current pass |
| EvaluatorProps.CollapseFoldsPair | term.go:208-253 | a fold fails with the left operand's error, else the right operand's, else the arithmetic's; otherwise the leaf it inserts holds the combination |
| EvaluatorProps.PassesSingleton | term.go:194-195 | the passes leave a single child alone |
| EvaluatorProps.PassesOnOne | term.go:194-195 | the same from any pass on |
| EvaluatorProps.GroupReducesToOneLeaf | term.go:194-266 | a group of two or more children keeps its own `IsParsed` and `Result` and ends with one synthesised leaf. As written it returns that leaf's cached result, negated in the leaf for a `-` group. Corrected, it returns the leaf's value, negated for a `-` group, and leaves the leaf alone |
| EvaluatorProps.SoleChildSteps | term.go:184-266 | a one-child group evaluates its child, adopts the value, is marked evaluated, and then `Finish` decides the value |
| EvaluatorProps.SoleChildFails | term.go:187-191 | a one-child group whose child fails is marked evaluated with result 0 and fails with the child's error |
| EvaluatorProps.SoleChildAsWritten | term.go:184-266 | as written, a one-child group adopts the child's value, but returns the child's cached result negated in place for a `-` group |
| EvaluatorProps.SoleChildCorrected | term.go:184-192 | corrected, a one-child group returns the child's value, negated for a `-` group, and keeps the child as evaluated |
| EvaluatorProps.StaleGroupResult | term.go:266 | as written, a group whose only child is a group of two or more children returns that child's never-set result field; corrected, it returns the child's value |
| EvaluatorProps.PairPasses | term.go:194-259 | two operands whose fold gives z leave the single leaf for z |
| EvaluatorProps.PairCollapse | term.go:208-253 | two operands that evaluate to x and y fold into the leaf of their combination |
| EvaluatorProps.PairGroup | term.go:194-266 | a two-child group evaluates to the combination of its operands under the second one's operator, negated for a `-` group |
| EvaluatorProps.FoldedGroupValue | term.go:262-266 | a group whose passes leave the leaf for z evaluates to z, negated for a `-` group |
| EvaluatorProps.CachedSoleValue | term.go:148-151 | as written, a group whose only child is an evaluated leaf returns that cached result, negated for a `-` group |
| EvaluatorProps.NegatedGroupFlips | term.go:262-264 | as written, evaluating a `-` group of two or more children a second time returns the opposite value |
| EvaluatorProps.RecalcStable | term.go:262-266 | as written, a group of two or more children that does not negate evaluates to the same value a second time |
| EvaluatorProps.SoleValueCorrected | term.go:184-192 | corrected, a one-child group whose child evaluates to v returns v, negated for a `-` group |
| EvaluatorProps.CorrectedSettles | term.go:147-267 | corrected, a successful evaluation leaves a state that stands for the value it returned |
| EvaluatorProps.SettledIsCached | term.go:148-151 | corrected, such a state evaluates to the value it stands for |
| EvaluatorProps.CorrectedRecalcStable | term.go:147-267 | corrected, evaluating any well-formed term a second time returns the value of the first evaluation |
| CalcExamples.StarGroupIsThree | term.go:184-192 | the group `*(3)` evaluates to 3 |
| CalcExamples.ImplicitProductIsSix | main_test.go:16 | `2(3)` evaluates to 6 |
| CalcExamples.NegativeProduct | main_test.go:18 | `-3*-5` evaluates to 15 |
| CalcExamples.SumIsThree | term.go:194-259 | the group `(1+2)` evaluates to 3 |
| CalcExamples.ParenthesisedSumAsWritten | term.go:266 | as written, `(1+2)` evaluates to 0, and evaluating the same tree again gives 3 |
| CalcExamples.SecondReadOfSum | term.go:148-151 | as written, the second evaluation of `(1+2)` reads the folded leaf 3 |
| CalcExamples.ParenthesisedSumCorrected | term.go:266 | corrected, `(1+2)` evaluates to 3, and to 3 again |
| CalcExamples.MinusPlusTree | term.go:127-135 | `3-+5` parses into the children `3` and `-+5` |
| CalcExamples.MinusPlusSubtracts | term.go:161-163 | `3-+5` evaluates to 8 as written and to -2 corrected |
| CalcExamples.NegatedFive | term.go:184-192 | `-(5)` evaluates to 5 as written, since the inner group stores 5 before it negates its child; corrected, it evaluates to -5 |
| CalcExamples.SignRunGroupValue | term.go:262-266 | a group with a two-operator prefix and one digit evaluates to the digit's value, negated exactly when the prefix's first character is `-`; the second operator has no effect |
| CalcExamples.SignRunBeforeGroup | term.go:70-78 | `2*-(3)` evaluates to 6 in both variants: the group joins by `*` and its `-` is dropped |
| CalcExamples.DoubleMinusBeforeGroup | term.go:262-264 | `1--(2)` evaluates to -1 in both variants: the group joins by `-`, which adds, and its first `-` negates it once |
| CalcExamples.PowerAfterProduct | term.go:242-250 | `2*3^2` evaluates to 11 as written, because the leaf of `3^2` is joined by `+` and not by `*`; corrected, it evaluates to 18 |
| CalcExamples.PowerGroup | term.go:194-266 | the group of `2`, `*3` and `^2` evaluates to 11 as written and to 18 corrected |
| Precedence.FoldLevelClears | term.go:194-259 | after the reference evaluator folds level g, no operand after the first is joined by an operator of level g, and no operator of a lower level appears |
| Precedence.LevelMatches | term.go:202-204 | the class test of pass g (`InClass`) holds for a child exactly when the operator joining it has precedence level g |
| Precedence.PassesNextStep | term.go:194-195 | at the last child a pass ends and the next pass starts at the first child |
| Precedence.PassesSkipStep | term.go:202-258 | a child whose operator is not of the pass's class is skipped, and the index moves on |
| Precedence.PassesFoldStep | term.go:205-256 | a child whose operator is of the pass's class is folded into its left neighbour and the index stays; an error of the fold stops the passes with that error |
| Precedence.CollapseOnOperands | term.go:208-253 | a fold fails with the first error among the left operand, the right operand and the arithmetic; otherwise it inserts the folded leaf of the arithmetic's value |
| Precedence.ArithOfJoinOp | term.go:218-240 | the source's arithmetic under a child's operator is the plain arithmetic under the operator that joins the child, `-` counting as `+` |
| Precedence.FoldedJoinOp | term.go:242-253 | the leaf of a fold is joined by the same operator as the left child it replaces; as written this needs that the left child is not a `*`, `/` or `%` child followed by a `^` child |
| Precedence.NoPowerAfterFold | term.go:242-253 | a fold keeps the condition that no `^` child follows a `*`, `/` or `%` child |
| Precedence.SkipKeepsInvariant | term.go:258 | skipping a child keeps the invariant of the passes; the third pass skips nothing |
| Precedence.FoldKeepsStage | term.go:242-255 | a fold keeps the invariant of the passes |
| Precedence.PassesFollow | term.go:194-259 | from any point that satisfies the invariant, the passes end as the reference evaluation does from the same point: with its first error, or with a leaf holding its value |
| Precedence.PassesFollowPrecedence | term.go:194-259 | the three passes over any list of children end with the first error of the reference evaluation, or with a leaf holding its value. Corrected, for every list; as written, when no `^` child follows a `*`, `/` or `%` child |
| Precedence.GroupOutcome | term.go:194-266 | a group of two or more children evaluates to the outcome of its passes, negated for a `-` group (`Negates`) |
| Precedence.GroupFollowsPrecedence | term.go:194-266 | a group of two or more children evaluates to the reference evaluation of its children, negated for a `-` group. Corrected, for every group; as written, when no `^` child follows a `*`, `/` or `%` child |
| PrecedenceExamples.SignedBase | term.go:127-259 | `1-2^2` evaluates to 5 in both variants: the `-` is part of the number `-2`, which `^` raises |

## Left out

- main.go (flag parsing, bootstrap, space stripping, printing) is not part of this model. It is input, output and command-line plumbing.
- Floating point. Numbers are `real`.
  - `strconv.ParseFloat` and `math.Pow` are parameters of the model, so the syntax `ParseFloat` accepts is not modelled: exponent notation, `Inf`, `NaN`.
  - Rounding, infinities, NaN and `-0` are not modelled.
- The digits of a synthesised leaf's text (`fmt` `%v`, term.go:245-247) are left out. Its text is only the sign, `+` or `-`, which is all `Operator()` reads afterwards. `String()` of an evaluated tree therefore shows only signs where Go prints numbers.
- Evaluator.Combine: a zero divisor for `/` gives `Err(DivisionByZero)`. In Go (term.go:233) it gives ±Inf or NaN, which `real` cannot represent.
- Evaluator.Combine: a right operand that truncates to 0 for `%` gives `Err(ModuloByZero)`. Go panics at run time (term.go:235). Modelling it as an error keeps the operation total without a precondition its caller cannot check.
- Evaluator.Trunc: overflow of Go's `int(...)` conversion for values outside the 64-bit range is not modelled; truncation is unbounded.
- Panics on an empty text in `Operator()` (term.go:71) and in the leaf branch (term.go:168) are not modelled. They are excluded by the `Wf` precondition of `CalcSpec` and `Calc`. `ParsedTreeIsEvaluable` proves the parser produces such trees for texts without `)(`.
- Logging through `common.Error` is left out. Errors are returned as values.
- Parser.Parse: the error return after the recursive call (term.go:118-120) is not modelled as a separate path, because `parse` never returns an error. The model proves that it never does.
- Aliasing in Go is not modelled.
  - The operands `left := term.Terms[i]` are copies that share their `Terms` backing arrays with the tree.
  - The model evaluates the operands as values and drops their new state, since the pair is replaced right after.
  - After an error inside a nested fold, Go may leave the partly rewritten nested children visible through the shared array. The model returns the children as they were before the failed fold.
- Strings are sequences of characters. Go slices strings by byte (`t.Text[:1]` at term.go:71, `text[i : i+1]` at term.go:103). The two readings agree on the ASCII text the engine handles. A multi-byte character is not modelled byte by byte.
- The panic on adjacent groups such as `(1)(2)` is not modelled. The second group has empty text, so `Operator()` at term.go:71 slices an empty string. `Wf` excludes such trees. `ParsedTreeIsEvaluable` covers exactly the texts without `)(`.
- A run of operators in front of a group counts only by its first character, in both variants. The group's sign is not combined with the rest of the run as a leaf's sign is (term.go:155-166). So `2*-(3)` is 6 and `1--(2)` is -1, as `CalcExamples.SignRunBeforeGroup` and `CalcExamples.DoubleMinusBeforeGroup` prove. In the reference evaluator of `Precedence` each operand's value is the child's own value, so this behaviour is part of the values it is given.
- The `Corrected` variant fixes only the three defects under Findings. It keeps the sign as part of the number under `^` (`1-2^2` is 5) and keeps `^` left-associative.
- Precedence.GroupFollowsPrecedence: as written, it is stated only for groups in which no `^` child follows a `*`, `/` or `%` child. Folding `^` after such a child loses the `*`, `/` or `%` (see Findings), and `CalcExamples.PowerAfterProduct` gives the value in that case.
- The randomised concatenation test (main_test.go:96-123) depends on a random source and is not modelled.
- ParserProps.RoundTrip holds only for texts with:
  - digits, `.`, operators and balanced parentheses only;
  - no `()`;
  - no `(` right after a digit or `.`.

  Outside these conditions `String()` does not print the text back: `()` is dropped and an implicit `*` is inserted.

## Findings

| source | as written | input that shows it | evidently intended | confidence | as-written member | corrected member |
|---|---|---|---|---|---|---|
| term.go:262-266 | a group returns `Terms[0].Result`, negated in place for a `-` group; a group of two or more children never sets its own `Result`, and a one-child group stores its result before its child is negated | `(1+2)` evaluates to 0; `-(5)` evaluates to 5; evaluating a `-` group twice flips its sign | a group returns the value its remaining child evaluated to, negated once for a `-` group, without changing the child's cached result, so a second evaluation returns the same value | not executed | EvaluatorProps.StaleGroupResult, CalcExamples.ParenthesisedSumAsWritten, CalcExamples.NegatedFive, EvaluatorProps.NegatedGroupFlips | EvaluatorProps.CorrectedRecalcStable, CalcExamples.ParenthesisedSumCorrected |
| term.go:161-163 | the prefix `-+` is rewritten to `+` | `3-+5` evaluates to 8 | `-+` is rewritten to `-`, so `3-+5` evaluates to -2 | not executed | EvaluatorProps.MinusPlusLosesMinus, CalcExamples.MinusPlusSubtracts | EvaluatorProps.TwoSignsCombine, CalcExamples.MinusPlusSubtracts |
| term.go:242-250 | the leaf that replaces a folded pair gets only the sign of its value as text, so the `*`, `/` or `%` that joined the left child to its neighbour is lost when a `^` pass folds that child | `2*3^2` evaluates to 2 + 9 = 11 | the leaf keeps the operator of the child it replaces, so `2*3^2` evaluates to 18 | not executed | CalcExamples.PowerAfterProduct | EvaluatorProps.FoldedLeafOperator, Precedence.GroupFollowsPrecedence, CalcExamples.PowerAfterProduct |
