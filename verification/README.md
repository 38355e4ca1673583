# Kconfig engine, image hashes and the CAMEO header: a verified model

This project models the configuration engine under `scripts/config` (the three-valued
expression optimiser, symbol evaluation, the cycle check, the menu tree, the macro expander,
the configuration file and the expression printer), the streaming hashes of
`scripts/mkhash.c` and the header checksums of `scripts/cameo-tag.py`, and proves what their
code and documentation promise. `dafny verify dfyconfig.toml` checks everything.

How the pieces fit together:

- `Tristate`, `Expr`: no < mod < yes, expressions, environments and the value of an
  expression, including the string and number comparison of symbols.
- `ExprEquality`, `ExprTransform`, `ExprDups`, `ExprPaths`: the optimiser passes as functions on
  expressions, with value preservation, normal forms and termination. `ExprCanon` says what the
  equality test decides, and `ExprJoins` what duplicate elimination leaves. `ExprDups` also runs the
  pairwise walk of duplicate elimination in place, with both cursors as paths into the one tree
  they share. `ExprNodes` holds the other passes as they are coded, overwriting heap nodes, and
  proves that each computes its function.
- `ExprPrint`: printing with few parentheses and reading back by the grammar.
- `Symbols`, `SymbolCheck`: the equations symbol values satisfy and the depth-first search for
  cycles. `SymbolRules`: what those values are, rule by rule. `SymbolRun`: evaluation on demand as a
  function from cells to cells, for any table, a symbol met again while it is under way counting as what its cell holds. `SymbolSound`: where what
  is read has no cycles, this gives the one solution. `SymbolOrder`: a cycle where it does not.
  `SymbolEval`: the code with its lazily filled cells, proved to compute that function. `Choices`: the
  member a choice stands for.
- `MenuShape`, `MenuLift`, `MenuDeps`, `MenuInherit`, `MenuRecords`, `MenuChoices`, `Menu`: the stored
  menu tree, where finalisation moves its nodes, the dependencies it pushes down, what it records
  for symbols and which entries it makes members of choices. A node's properties are listed with
  the node they belong to. Nodes are numbered in the order the parser creates them, which is menu
  order, so a subtree is an interval of numbers. The test choice=y that finalisation puts in front
  of a member's expressions is kept beside the rest of them.
- `Preprocess`, `PreprocessCalls`: macro expansion, and what references and calls stand for.
  `ConfText`, `ConfData`: the configuration file.
- `Words32`, `Blocks`, `Sha256`, `Sha256Stream`, `Md5`, `HashTables`: the hashes and their tables.
  The order of computation is
  settled for any words with an associative and commutative addition; bits come in only where
  the code rewrites a bitwise function.
- `Cameo`: CRC-32, its residue, and the header that satisfies two checksums at once.

Assumptions that run through the expression modules (`Expr.WellFormed`, `Expr.Admissible`):
the constants y, m and n have their values; a bool is never mod; the text of a bool or
tristate spells its value; the C library's number parser is a parameter that does not read
y, m, n as numbers; and a tristate is not tested for equality with a constant that looks like
the number 0, 1 or 2. Where the last one fails, joining two tests changes the value:
`ExprDups.JoinConstsFails` gives an input, and `ExprDups.JoinConstsExact` shows that the join is
right exactly when the two constants do not both denote the symbol's value.

Where the code does not do what it is for, a lemma gives an input and another the exact condition:

- A symbol defined in several places should be possible wherever one definition is. The code ORs
  the definitions' dependencies but skips absent ones, which mean yes:
  `MenuRecords.FreeDefinitionDropped`, `MenuRecords.DirectDependency`.
- A select should force its target as far as its condition says. For selecting symbols other than
  tristates FOO!=n is shortened to FOO, so a yes that rests on FOO being mod becomes mod:
  `MenuRecords.SelectLowered`, `ExprTransform.TransBoolExact`, `MenuChoices.StoredCondition`. The
  condition there, `MenuInherit.Lowered`, is one on the simplified expression that is handed to
  `expr_trans_bool`; it cannot be read off the menu file without simplifying what is written there.
- In mode yes exactly one member of a choice should be yes, but a hidden member keeps its default:
  `Choices.HiddenDefaultYes`, `Choices.ExactlyOne`.
- Evaluation should not depend on the order of requests, but the check for recursion does not look
  at the bounds of ranges. With A default 5, range B B, and B default 7, range A A, asking for A first
  makes both 5 and asking for B first makes both 7: `SymbolOrder.RangeCycleMissed`. Without a cycle in
  what is read the order never matters: `SymbolSound.AnsweredFromSolution`, carried by
  `SymbolEval.CheckAndEvaluate`. With one it may or may not: for two numbers that bound each other it
  does not exactly if their defaults are the same number, `SymbolOrder.RangeCycleExact`.
- A clause with too many arguments should be reported. With exactly sixteen commas outside
  parentheses the code writes behind its vector of sixteen arguments, which the model shows as the
  outcome `StoreOutOfBounds`: `Preprocess.SixteenCommas`, `Preprocess.ClauseInBounds`.
- What a configuration file sets should depend on the file. For a comment sign without a newline the
  code looks at bytes of its buffer that the line has not written. They come from outside the file
  exactly if the file is that sign after nothing but empty lines: `ConfData.ReadExact`, with the
  input "#" in `ConfData.LoneHashReads`. Otherwise they are those of the last line with more than one
  character, which is then taken for a comment from its third character on, unless it is one:
  `ConfData.HashEffect`. So "xxCONFIG_A is not set", a newline and "#" unset A:
  `ConfData.StrayComment`, `ConfData.StrayCommentA`.

The header comment of `expr_transform` says that it allocates a new expression; the code
overwrites the old one, and `ExprNodes.TransformNode` follows the code.

## Model

| member | source | states |
|---|---|---|
| Expr.CompareYmn | scripts/config/expr.c:1073-1083 | comparing a logical symbol with y, m or n gives equality exactly when their tristate values are equal |
| Expr.CompareConst | scripts/config/expr.c:1073-1083 | comparing a tristate with any constant gives equality exactly when its value is the one the constant denotes, numbers included |
| Expr.RelSigned | scripts/config/expr.c:1068-1098 | where both symbols read as signed numbers the six relations are those of the numbers |
| Expr.RelUnsigned | scripts/config/expr.c:1080-1098 | where one is unsigned they are those of the 64-bit words, a negative number counting from the top |
| Expr.RelText | scripts/config/expr.c:1078-1098 | where one is no number they go by the first differing character, a proper prefix being smaller |
| Expr.RelLogical | scripts/config/expr.c:1007-1012 | of two bools or tristates they are those of n < m < y |
| ExprEquality.ElimYnValue | scripts/config/expr.c:316-397 | dropping y and n operands keeps the value in every environment |
| ExprEquality.ElimYnShrinks | scripts/config/expr.c:305-397 | no y or n operand is left; the tree gets smaller if there is a unit operand to drop and is unchanged if there is no y or n operand |
| ExprEquality.DropCommonValue | scripts/config/expr.c:150-190 | one operand value shared by both trees turns both new values back into both old ones |
| ExprEquality.DropCommonSeparates | scripts/config/expr.c:150-190 | afterwards no operand of the one tree equals an operand of the other on that level, apart from units |
| ExprEquality.ExprEqSound | scripts/config/expr.c:252-303 | expressions found equal have equal values in every environment |
| ExprEquality.EliminateEqValue | scripts/config/expr.c:221-241 | one function built from a minimum and a maximum maps both new values to both old values |
| ExprEquality.EliminateEqShrinks | scripts/config/expr.c:221-241 | neither expression grows, and both end up free of y and n operands |
| ExprCanon.ExprEqReflexive | scripts/config/expr.c:252-303 | every expression equals itself |
| ExprCanon.ExprEqExact | scripts/config/expr.c:252-303 | without y and n operands two expressions are found equal exactly if they are the same up to the order and nesting of the operands of each AND and OR |
| ExprCanon.DropCommonRest | scripts/config/expr.c:150-190 | what is removed on a level is what the two collections of operands have in common, each as often as it occurs in both |
| ExprCanon.AllShared | scripts/config/expr.c:221-241 | after removing from an AND and a second expression what they share, the second is y exactly if all its operands are among those of the first |
| ExprTransform.TransformValue | scripts/config/expr.c:694-849 | rewriting keeps the exact tristate value of every expression |
| ExprTransform.TransformNormal | scripts/config/expr.c:694-849 | NOT is left only on symbols other than y, m, n, and no bool is tested against y, m or n |
| ExprTransform.TransformFixed | scripts/config/expr.c:694-849 | the expressions the pass leaves alone are exactly those in that normal form |
| ExprTransform.TransformIdempotent | scripts/config/expr.c:694-849 | a second pass changes nothing |
| ExprTransform.Transform | scripts/config/expr.c:694-849 | terminates and never gains weight, where NOT doubles its operand although De Morgan adds a node |
| ExprTransform.TransBoolKeepsNo | scripts/config/expr.c:402-426 | on negation normal form, replacing FOO!=n by FOO keeps whether the value is no and never raises it |
| ExprTransform.TransBoolUnderNot | scripts/config/expr.c:402-426 | under NOT, outside normal form, being no is kept exactly while the symbol is not mod |
| ExprTransform.TransBoolExact | scripts/config/expr.c:402-426 | the value itself is kept exactly if it is not a yes that rests on a tristate being mod |
| MenuInherit.ShortenedVisibility | scripts/config/menu.c:383-385 | the computed visibility of a symbol that is not tristate is unchanged by it |
| ExprTransform.TransCompareValue | scripts/config/expr.c:922-985 | the test of an expression against y or n is exactly the test of its value, where no negated part is mod and all bare symbols are logical |
| ExprTransform.TransCompareNegated | scripts/config/expr.c:954-954 | for a negated symbol the test is right exactly while the symbol is not mod |
| ExprDups.JoinOrValue | scripts/config/expr.c:431-493 | every join under OR keeps the value of the disjunction |
| ExprDups.JoinAndValue | scripts/config/expr.c:495-587 | every join under AND keeps the value of the conjunction |
| ExprDups.JoinConstsExact | scripts/config/expr.c:539-553 | joining an equality and an inequality test of a tristate with different constants is right exactly when the constants do not both denote its value |
| ExprDups.JoinConstsFails | scripts/config/expr.c:539-553 | a number-like constant for which it is wrong |
| ExprDups.JoinValue | scripts/config/expr.c:431-587 | any successful join on either level keeps the value |
| ExprDups.Optimizer.EliminateDups1 | scripts/config/expr.c:596-651 | the walk of both cursors over the one tree that is overwritten does to the level what the walk as a function does, joins counted, and touches nothing outside |
| ExprDups.Optimizer.CompareOperands | scripts/config/expr.c:617-648 | the same for one pair of operands |
| ExprDups.Optimizer.TidyOperand | scripts/config/expr.c:620-625 | the same inside an operand of the other connective |
| ExprDups.WalkProperties | scripts/config/expr.c:596-651 | the walk keeps the value and shape of the level; each join leaves a unit to remove, and without a join nothing has changed and no pair of operands can be joined |
| ExprDups.EliminateDups | scripts/config/expr.c:664-686 | the loop over passes ends, keeps the value in every admissible environment, never grows the tree, and leaves no pair of operands that can be joined |
| ExprDups.OptimizedFixed | scripts/config/expr.c:664-686 | the expressions it leaves alone are exactly those without such a pair |
| ExprJoins.JoinExact | scripts/config/expr.c:431-587 | two operands are joined exactly if they are equal or one of the listed pairs of tests of one symbol, in either order |
| ExprJoins.MatchingValue | scripts/config/expr.c:431-587 | for each such pair one symbol, constant or test has the value of both in every environment |
| ExprJoins.OptimizedTidy | scripts/config/expr.c:664-686 | no level of the result has two equal operands or such a pair, and exactly the expressions without them are left alone |
| ExprJoins.NoEqualOperands | scripts/config/expr.c:664-686 | no two operands of a level of the result are the same expression, or the same up to order and nesting where they have no y or n operands |
| ExprNodes.EliminateYn | scripts/config/expr.c:316-397 | overwriting nodes in place computes the value-level pass and uses no node from outside the tree |
| ExprNodes.TransBoolNode | scripts/config/expr.c:402-426 | the same for FOO!=n |
| ExprNodes.TransformRelNode | scripts/config/expr.c:717-762 | the tests of bools against y, m and n, with a new node only for a negation |
| ExprNodes.PushNot | scripts/config/expr.c:789-806 | De Morgan in place: the operand node becomes one negation, a new node the other |
| ExprNodes.TransformNode | scripts/config/expr.c:694-849 | the in-place pass computes the value-level one, whatever node it returns |
| ExprNodes.Copy | scripts/config/expr.c:66-105 | a copy shares no node with the original and stands for the same expression |
| ExprNodes.DropCommonNodes | scripts/config/expr.c:150-190 | the in-place walk over two separate trees computes the pair of the value-level one and keeps them separate |
| ExprNodes.EliminateEqNodes | scripts/config/expr.c:221-241 | the same for both levels and the clean-up |
| ExprNodes.ExprEqNodes | scripts/config/expr.c:252-303 | equality is decided on copies: the answer is that of the value level and the operands are not touched |
| ExprPrint.PrintParse | scripts/config/expr.c:1104-1228 | reading the printed tokens back gives the expression with its AND and OR chains nested to the left |
| ExprPrint.PrintParseExact | scripts/config/expr.c:1138-1228 | the very same tree comes back exactly if its chains are nested to the left |
| ExprPrint.LeftValue | scripts/config/parser.tab.c:1677-1719 | the tree that comes back has the same value in every environment |
| ExprPrint.LeftPrint | scripts/config/expr.c:1138-1228 | nesting does not show: both forms print alike, in any context |
| ExprPrint.FewParentheses | scripts/config/expr.c:1104-1148 | only an OR inside an AND or NOT and an AND inside a NOT are put in parentheses |
| ExprPrint.ParseSound | scripts/config/parser.tab.c:1677-1719 | whatever the parser returns is a derivation of the tokens by the expression rules |
| ExprPrint.Printer.PrintExpr | scripts/config/expr.c:1138-1228 | the recursive printer appends exactly those tokens |
| Symbols.StepAgrees | scripts/config/symbol.c:304-446 | a symbol's value depends only on the symbols the cycle check looks at and the bounds of its ranges |
| Symbols.DependsExactly | scripts/config/symbol.c:1144-1190 | the dependencies the cycle check looks at are the direct, reverse and implied ones, conditions of properties and expressions of defaults, and nothing else |
| SymbolRules.VisibleIsBest | scripts/config/symbol.c:183-205 | visibility is the highest condition of a prompt, mod counting as yes where the symbol cannot be mod |
| SymbolRules.DefaultRule | scripts/config/symbol.c:372-377 | in a solution, without a visible user value, imply or select, a bool or tristate is the minimum of expression and condition of the first default whose condition is not no, or no if there is none |
| SymbolRules.UserRule | scripts/config/symbol.c:359-368 | a user value counts as far as the symbol is visible, whatever the defaults and implies |
| SymbolRules.ImplyRule | scripts/config/symbol.c:378-383 | an imply raises the default, but not above the direct dependency |
| SymbolRules.LogicalRule | scripts/config/symbol.c:352-393 | selects raise that value to what is demanded, unless the direct dependency is no, which makes the symbol no |
| SymbolRules.OwnValueExists | scripts/config/symbol.c:352-393 | every bool and tristate falls under one of these rules |
| SymbolRules.TextRule | scripts/config/symbol.c:394-410 | a string, or a number without a range in force, has the user text where visible, else the text of the symbol that is its first active default, else none |
| SymbolRules.RangeRule | scripts/config/symbol.c:123-155 | with a range in force a number within it is kept, one below it becomes the lower bound and one above it the upper bound |
| SymbolRules.OwnTextExists | scripts/config/symbol.c:394-410 | every such symbol falls under one of these rules |
| Symbols.ClampedInRange | scripts/config/symbol.c:123-155 | a number within its range is kept, and the result is within the range exactly if the range is not empty |
| Symbols.SolutionUnique | scripts/config/symbol.c:304-446 | if what is read is ranked, the values are determined by the declarations |
| Symbols.RankedNoRanges | scripts/config/symbol.c:1163-1180 | where no number has a range, what the cycle check looks at is all that is read |
| Symbols.SolutionExists | scripts/config/symbol.c:304-446 | then there are such values |
| Symbols.SolutionWellFormed | scripts/config/symbol.c:748-770 | computed values form an environment in which the optimiser's assumptions hold |
| Symbols.SelectRespected | scripts/config/symbol.c:385-392 | a selected symbol is at least the minimum of selector and condition, or no if its own dependency is no |
| SymbolCheck.RankedAcyclic | scripts/config/symbol.c:1109-1190 | a rank that falls along dependencies excludes cycles |
| SymbolCheck.Checker.CheckSym | scripts/config/symbol.c:1229-1261 | a symbol met again on the path closes a real cycle, and otherwise everything below it is settled |
| SymbolCheck.Checker.CheckExprDeps | scripts/config/symbol.c:1109-1141 | the walk over an expression reports only symbols still on the path |
| SymbolCheck.Checker.CheckSymDeps | scripts/config/symbol.c:1144-1190 | the walk over a declaration covers all its dependencies unless it reports one |
| SymbolCheck.Checker.CheckDeps | scripts/config/symbol.c:1229-1261 | marks and the path are as before afterwards; with nothing reported the symbol is settled |
| SymbolCheck.Checker.CheckAll | scripts/config/parser.tab.c:1978-1981 | over all symbols, no top-level call returns a symbol unless recursion is an error |
| SymbolCheck.FindRecursion | scripts/config/parser.tab.c:1978-1981 | an error is counted exactly if recursion is an error and the graph has a cycle; something is reported exactly if it has one |
| SymbolRun.RunSym | scripts/config/symbol.c:304-446 | evaluation of a symbol on demand ends for any table, cyclic or not, fills its cell and never changes a cell that is marked already |
| SymbolRun.RunExpr | scripts/config/expr.c:1030-1102 | the same for an expression |
| SymbolSound.ExprOk | scripts/config/expr.c:1030-1102 | where what is read is ranked, its value is that in the unique solution |
| SymbolSound.VisibilityFilled | scripts/config/symbol.c:177-238 | visibility and the three dependencies get their values in the unique solution |
| SymbolSound.RangeOk | scripts/config/symbol.c:123-155 | a text out of range is replaced by the bound it violates, bounds being evaluated on demand |
| SymbolSound.SymOk | scripts/config/symbol.c:304-446 | every cell that is marked and not under way holds the unique solution, before and after |
| SymbolSound.AnsweredFromSolution | scripts/config/symbol.c:304-446 | there is one solution, and any sequence of requests in any order is answered from it |
| SymbolOrder.MutualPasses | scripts/config/symbol.c:1163-1180 | two numbers that bound each other are not a cycle to the check |
| SymbolOrder.FirstAsked | scripts/config/symbol.c:401-418 | the number asked for first keeps its default and the other is adjusted to it, from within the evaluation of the first |
| SymbolOrder.RangeCycleExact | scripts/config/symbol.c:123-155 | for two such numbers the order of requests does not matter exactly if both defaults are the same number |
| SymbolOrder.RangeCycleMissed | scripts/config/symbol.c:140-154 | with defaults 5 and 7 both are 5 if A is asked for first and 7 if B is, and the check finds nothing |
| SymbolEval.Evaluator.CalcExpr | scripts/config/expr.c:1030-1102 | the code for expressions leaves the cells and the value of that function, for any table |
| SymbolEval.Evaluator.CalcVisibility | scripts/config/symbol.c:177-238 | the same for visibility and dependencies |
| SymbolEval.Evaluator.ValidateRange | scripts/config/symbol.c:123-155 | the same for the range, with the text stored before its bounds are evaluated |
| SymbolEval.Evaluator.CalcValue | scripts/config/symbol.c:304-446 | the same for a symbol, whose cell is marked first and set to no or the empty text before its value is known |
| SymbolEval.Evaluator.ClearAllValid | scripts/config/symbol.c:448-457 | all cells are forgotten and keep what they hold |
| SymbolEval.EvaluateInOrder | scripts/config/symbol.c:304-457 | requests are answered as that function does, and from the unique solution where what is read has no cycles |
| SymbolEval.CheckAndEvaluate | scripts/config/parser.tab.c:1978-1981 | a configuration is refused exactly if its dependencies are cyclic; any other is evaluated, and to its unique solution if it has no ranges or they close no cycle |
| Choices.Calculator.CalcVisibility | scripts/config/symbol.c:177-205 | a member is visible exactly if one of its prompts is, mod not counting for a tristate member in mode yes |
| Choices.ShownExact | scripts/config/symbol.c:185-199 | a prompt is enough if its condition is not no, or yes for a tristate member in mode yes |
| Choices.Calculator.ChoiceDefault | scripts/config/symbol.c:246-270 | the first active default with a visible member, else the first visible member, else none |
| Choices.Calculator.CalcChoice | scripts/config/symbol.c:272-302 | the user's pick if visible, else the default; without a visible member the choice falls back to no; it counts as set by the user only if all visible members were |
| Choices.Calculator.CalcMode | scripts/config/symbol.c:350-394 | a choice gets the value an ordinary symbol would have |
| Choices.ModeBounds | scripts/config/symbol.c:350-394 | the mode is at least what is demanded of a possible choice and at most its visibility or that demand, and not mod where it cannot be |
| Choices.ModeExact | scripts/config/symbol.c:352-393 | the mode is the user value within visibility or what is demanded if that is higher, and no for an impossible choice of which something is demanded |
| Choices.MandatoryMode | scripts/config/menu.c:578-591 | with the demand recorded for choices that are not optional, a visible and possible choice is never no |
| Choices.RecordedMode | scripts/config/menu.c:578-591 | from what finalisation records: a choice none of whose prompts is optional is not no wherever it is visible and possible |
| Choices.Calculator.CalcMember | scripts/config/symbol.c:352-393 | a fully visible member is yes exactly if it is the chosen one; any other has the user's value within its visibility, or its default |
| Choices.HiddenRule | scripts/config/symbol.c:372-377 | a hidden member has the minimum of expression and condition of its first default whose condition is not no |
| Choices.Calculator.CalcGroup | scripts/config/symbol.c:352-417 | in mode yes with a visible member the chosen one is yes, the other visible ones are no, and hidden ones have their defaults |
| Choices.ExactlyOne | scripts/config/symbol.c:352-393 | exactly one member is yes if and only if no hidden member has a default of yes |
| Choices.HiddenDefaultYes | scripts/config/symbol.c:352-393 | two members, one of them hidden, that are both yes |
| Choices.ChosenUnique | scripts/config/symbol.c:246-302 | the rule picks no more than one member |
| Choices.PickFirst | scripts/config/symbol.c:290-293 | the user pick is chosen if it is visible |
| Choices.DefaultNext | scripts/config/symbol.c:246-259 | otherwise the first default in force that names a visible member |
| Choices.VisibleLast | scripts/config/symbol.c:262-266 | otherwise the first visible member |
| MenuDeps.RewriteMValue | scripts/config/menu.c:83-106 | after rewriting, a bare m is worth m && MODULES and everything else what it was |
| MenuDeps.RewriteMNode | scripts/config/menu.c:83-106 | the in-place rewriting computes that |
| MenuDeps.ConjoinValue | scripts/config/menu.c:335-339 | the combined dependency is the minimum of inherited and own in every admissible environment |
| MenuDeps.ConjoinNormal | scripts/config/menu.c:335-339 | it is in negation normal form |
| MenuDeps.ShortenedValue | scripts/config/menu.c:383-385 | for symbols other than tristates a condition drops to mod exactly where it is a yes that rests on a tristate being mod, and is kept elsewhere |
| MenuDeps.DependsSymbolSound | scripts/config/expr.c:879-906 | with an absolute dependency the expression is not no only while the symbol is not no |
| MenuDeps.DependsSymbolExact | scripts/config/expr.c:879-906 | a dependency is absolute exactly if one of the AND operands is s, s=y, s=m or s!=n |
| MenuDeps.ContainsSymbolExact | scripts/config/expr.c:851-877 | an expression contains exactly the symbols evaluation may read in it |
| MenuDeps.TestNotNoValue | scripts/config/menu.c:435-437 | the simplified test is yes where the expression is not no, and no elsewhere |
| MenuDeps.BelongsSound | scripts/config/menu.c:442-470 | an entry belongs below a symbol only if, whenever its condition is not no, the symbol or the condition of its prompt is not no |
| MenuDeps.BelongsOutright | scripts/config/menu.c:446-448 | an entry whose condition has the symbol s, s=y, s=m or s!=n among its AND operands always belongs there |
| MenuDeps.BelongsExact | scripts/config/menu.c:442-470 | where the test of the condition is an AND without y and n operands, an entry belongs below the symbol exactly if it mentions it and has such an operand or all operands of the test of the prompt of the symbol |
| MenuShape.StoredIsOrig | scripts/config/menu.c:48-77 | in a stored tree the parent links name exactly the children each node lists |
| MenuShape.SamePreorder | scripts/config/menu.c:285-592 | two trees over the same nodes in menu order have the same preorder |
| MenuLift.FlattenedPar | scripts/config/menu.c:549-563 | flattening gives a node the parent `p` exactly if its parent was a child of `p` without a prompt |
| MenuLift.GatheredNext | scripts/config/menu.c:472-474 | a further finalised sibling keeps every node below where it was put |
| MenuLift.GatheredFlat | scripts/config/menu.c:485-563 | after flattening every node below `p` hangs from its nearest ancestor with a prompt |
| MenuInherit.FinalDepValue | scripts/config/menu.c:325-339 | the dependency a node inherits is the minimum of its own and all enclosing ones, m read as m && MODULES, up to a choice |
| MenuInherit.FinalPropValue | scripts/config/menu.c:366-386 | a property's condition is the minimum of that and what is written, and for symbols other than tristates mod exactly where shortening loses a yes |
| MenuChoices.MembersRegister | scripts/config/menu.c:486-525 | an entry directly below a choice becomes a member unless its symbol is one; each symbol is a member once, and ties are those of the members |
| MenuChoices.TiedExactly | scripts/config/menu.c:508-517 | an entry directly below one choice, whose symbol is defined nowhere else, is tied to choice=y exactly if the choice is a tristate and the symbol is not |
| MenuChoices.TieSource | scripts/config/menu.c:508-517 | only such entries are tied, to a choice they are directly below |
| MenuChoices.StoredDependency | scripts/config/menu.c:508-517 | the dependency stored for a node is that minimum, or no if the node is tied to a choice that is not yes |
| MenuChoices.StoredCondition | scripts/config/menu.c:508-517 | the same for every condition stored for it, in terms of the conditions as written |
| MenuChoices.PromptWithinDependency | scripts/config/menu.c:366-386 | a prompt is hidden exactly if that minimum or its own condition is no, or the choice the node is tied to is not yes |
| MenuRecords.SelectsHold | scripts/config/menu.c:391-395 | in a computed configuration the target of a select is at least the minimum of the selecting symbol and the condition as written, lowered only where shortening lowers it, or no if its own dependency is no |
| MenuRecords.HighestDemand | scripts/config/menu.c:391-399 | a symbol has a reverse dependency exactly if some node selects it or it is a choice that cannot be n, with the value of the highest such demand in terms of the conditions as written, and no other; the same for implies |
| MenuRecords.SelectLowered | scripts/config/menu.c:383-395 | a bool that selects B if FOO!=n forces B only to mod while FOO is mod |
| MenuRecords.DirectValue | scripts/config/menu.c:483-483 | a symbol's direct dependency is the highest enclosing minimum among its conditional definitions, and absent if it has none |
| MenuRecords.DirectDependency | scripts/config/menu.c:483-483 | it is the highest among all definitions exactly if there are not both conditional and unconditional ones, or a conditional one is yes |
| MenuRecords.FreeDefinitionDropped | scripts/config/menu.c:483-483 | a symbol defined freely and once more under X has a direct dependency of no while X is no |
| Menu.MenuTree.ProcessProp | scripts/config/menu.c:366-400 | the condition is combined, and the term of a select or imply is added to what its target has, and nothing else |
| Menu.MenuTree.ProcessChild | scripts/config/menu.c:329-400 | one child inherits and its selects and implies are recorded, all other nodes keep what they have |
| Menu.MenuTree.PropagateToKids | scripts/config/menu.c:328-400 | all children inherit, and only they |
| Menu.MenuTree.AdoptKids | scripts/config/menu.c:550-554 | all children of a node get its parent, and the last one is found |
| Menu.MenuTree.Splice | scripts/config/menu.c:549-560 | the children follow the node in its chain, everything else stays |
| Menu.MenuTree.Flatten | scripts/config/menu.c:485-563 | the chain becomes the flattened one; no node without a prompt keeps children; below a choice everything in the chain is registered |
| Menu.MenuTree.TakeOver | scripts/config/menu.c:477-481 | the collected siblings become the list of the node, and the rest follows it |
| Menu.MenuTree.CollectFollowers | scripts/config/menu.c:435-475 | the following entries that belong below the symbol move there, and the first sibling that is not below it does not belong there |
| Menu.FollowerMoves | scripts/config/menu.c:442-475 | the sibling directly behind a childless entry moves below it if its condition has an operand s, s=y, s=m or s!=n |
| Menu.MenuTree.RecordMode | scripts/config/menu.c:587-591 | a choice that cannot be n gets its prompt's condition && m as a demand |
| Menu.MenuTree.Finalize | scripts/config/menu.c:285-592 | one node with everything below it and all it takes over is finalised, and nothing else is touched |
| Menu.MenuTree.FinalizeAll | scripts/config/menu.c:285-592 | every node is finalised once and in menu order and preorder is kept; every listed child names its list owner, and only nodes with a prompt and the main menu have children; nodes move only below earlier siblings where they belong, the first sibling behind a childless entry that is not below it does not belong there, and the one directly behind it ends up below it if its condition has an operand s, s=y, s=m or s!=n and the entry has a prompt; each node ends up under its nearest ancestor with a prompt; all dependencies are inherited, direct and reverse dependencies hold the terms of all nodes and nothing else, and choices have all their members |
| Preprocess.EnterBudget | scripts/config/preprocess.c:251-277 | entering a variable uses up one of the remaining entries |
| Preprocess.CloseMatches | scripts/config/preprocess.c:470-480 | a reference ends exactly where the nesting depth first falls below that of its opening parenthesis |
| Preprocess.SplitJoin | scripts/config/preprocess.c:385-400 | splitting a clause loses nothing and cuts at every comma outside parentheses |
| Preprocess.StoresInBounds | scripts/config/preprocess.c:385-399 | all slots written for the parts of a clause exist exactly if there are not seventeen parts |
| Preprocess.ClauseInBounds | scripts/config/preprocess.c:385-399 | that is the condition for an evaluated clause, and seventeen parts have no defined outcome |
| Preprocess.SixteenCommas | scripts/config/preprocess.c:399-399 | sixteen commas make such a clause |
| Preprocess.FewCommasSafe | scripts/config/preprocess.c:385-399 | if neither the text nor any variable has sixteen commas, no expansion writes out of bounds |
| Preprocess.PlainText | scripts/config/preprocess.c:495-537 | text without "$(" expands to itself |
| Preprocess.Concatenation | scripts/config/preprocess.c:495-537 | expansion of a concatenation is that of the parts, left to right, if the cut is not inside a reference |
| Preprocess.CountersForbid | scripts/config/preprocess.c:251-277 | an expansion that succeeds also succeeds, with the same text, where variables were entered less often: the counters only forbid |
| Preprocess.CycleFails | scripts/config/preprocess.c:260-265 | a variable on a cycle of references never has a value |
| Preprocess.LayeredExpands | scripts/config/preprocess.c:251-277 | without cycles every text of plain references has one |
| PreprocessCalls.CallLaw | scripts/config/preprocess.c:346-439 | a call of a recursive variable is its value with each positional reference replaced by the argument of that number, in which the arguments of the caller have been put in before |
| PreprocessCalls.ArgumentFirst | scripts/config/preprocess.c:357-366 | a positional reference stands for that argument, whatever variables there are |
| PreprocessCalls.VariableSecond | scripts/config/preprocess.c:251-277 | a variable wins over functions and the environment; one that is not recursive stands for its value as it is |
| PreprocessCalls.PlaceFunctions | scripts/config/preprocess.c:120-139 | what filename and lineno stand for, which take no arguments |
| PreprocessCalls.CommandFunctions | scripts/config/preprocess.c:125-179 | what info and shell stand for, which take one |
| PreprocessCalls.CheckFunctions | scripts/config/preprocess.c:112-188 | what error-if and warning-if stand for, which take two |
| PreprocessCalls.EnvironmentLast | scripts/config/preprocess.c:423-430 | any other name stands for the environment variable if it has no arguments, and else for nothing |
| PreprocessCalls.TokenEnds | scripts/config/preprocess.c:495-537 | a token ends at the first character that cannot be part of one |
| Preprocess.Preprocessor.VariableExpand | scripts/config/preprocess.c:251-277 | the value of a variable, with its counter back where it was unless an error is reported |
| Preprocess.Preprocessor.SplitClause | scripts/config/preprocess.c:363-400 | the parts of the clause in the vector of sixteen slots, an error if there are too many, or the store out of bounds; the slots written are those of the specification |
| Preprocess.Preprocessor.Evaluate | scripts/config/preprocess.c:346-439 | positional argument, else variable, else built-in function, else environment, else nothing |
| Preprocess.Preprocessor.FindClose | scripts/config/preprocess.c:470-480 | the closing parenthesis |
| Preprocess.Preprocessor.ExpandDollar | scripts/config/preprocess.c:453-488 | the reference at the cursor, with the cursor behind it, or an error |
| Preprocess.Preprocessor.ExpandString | scripts/config/preprocess.c:495-537 | ends in the text the definition of expansion gives or in a reported error; all counters are restored and the buffer size is the output length plus one |
| ConfText.EscapeRoundTrip | scripts/config/confdata.c:253-268 | unescaping undoes escaping, whatever follows the closing quote |
| ConfText.EscapeInjective | scripts/config/symbol.c:854-895 | no two values are written alike |
| ConfText.EscapedUnchanged | scripts/config/symbol.c:854-895 | text without quotes and backslashes is written as it is |
| ConfText.EscapedSize | scripts/config/symbol.c:861-874 | the first pass computes the size of the escaped text with quotes and NUL |
| ConfText.EscapeString | scripts/config/symbol.c:854-895 | the second pass writes the escaped text and fills the buffer exactly |
| ConfText.MoveDown | scripts/config/confdata.c:262-262 | the text behind a backslash moves one place to the left, nothing else |
| ConfText.Unescape | scripts/config/confdata.c:253-268 | unescaping in place gives the unescaped text, and fails exactly if there is no closing quote |
| ConfData.StringValid | scripts/config/symbol.c:537-578 | accepts exactly the int and hex texts of the documented form |
| ConfData.ValidIntExact | scripts/config/symbol.c:544-556 | the ints accepted are exactly the decimal numerals without leading zeros, with or without a minus sign |
| ConfData.Config.SetSymVal | scripts/config/confdata.c:230-289 | sets the symbol to what the text means for its type, or leaves it |
| ConfData.LogicalAssignment | scripts/config/confdata.c:235-256 | y and n set a bool or tristate, m only a tristate, and nothing else counts |
| ConfData.TextualAssignment | scripts/config/confdata.c:257-284 | a string is set to the text between quotes and a number to a valid numeral, and both are left alone otherwise |
| ConfData.AssignmentCr | scripts/config/confdata.c:472-478 | a carriage return before the end of the line is not part of the value |
| ConfData.UnsetOther | scripts/config/confdata.c:459-467 | an "is not set" comment leaves symbols of other types alone |
| ConfData.GetLine | scripts/config/confdata.c:292-344 | one line overwrites the start of the buffer, with a NUL behind it, and nothing else unless the buffer has to grow |
| ConfData.Config.ReadHash | scripts/config/confdata.c:439-467 | a comment sign has the effect of what the buffer holds behind the second character, which is cut before the space behind the name |
| ConfData.Config.ReadAssignment | scripts/config/confdata.c:468-500 | an assignment sets the symbol to what the text means for its type and changes nothing before its name |
| ConfData.Config.ReadLine | scripts/config/confdata.c:437-503 | one line has the effect of its assignment or "is not set" comment, a comment sign alone that of what older lines have left; what it leaves itself is that of the specification as far as a comment sign sees it |
| ConfData.Config.Read | scripts/config/confdata.c:427-528 | forgets all values and applies all lines in order through one buffer, whose first contents decide only for a file that is a comment sign after empty lines |
| ConfData.WriteSymbol | scripts/config/confdata.c:608-629 | the line for a symbol |
| ConfData.WrittenComment | scripts/config/confdata.c:608-629 | exactly the symbols that are n are written as comments |
| ConfData.WriteConfig | scripts/config/confdata.c:731-749 | the lines of all symbols in order |
| ConfData.ReadExact | scripts/config/confdata.c:436-441 | what is read depends on the file alone exactly if it is not a comment sign after nothing but empty lines |
| ConfData.LoneHashReads | scripts/config/confdata.c:440-441 | the file "#" unsets A or not, by what the buffer held at first |
| ConfData.HashEffect | scripts/config/confdata.c:436-467 | after a line of more than one character a comment sign at the end of the file takes that line for a comment from its third character on, unless it was one |
| ConfData.StrayComment | scripts/config/confdata.c:436-467 | a line that sets nothing unsets a symbol once a comment sign follows it |
| ConfData.StrayCommentA | scripts/config/confdata.c:436-467 | at the file "xxCONFIG_A is not set", newline, "#" |
| ConfData.LineRoundTrip | scripts/config/confdata.c:608-629 | the line written for a symbol sets it to its value |
| ConfData.WriteReadRoundTrip | scripts/config/confdata.c:731-749 | reading back gives every written symbol its value, whatever it had before |
| ConfData.WriteReadNothingElse | scripts/config/confdata.c:346-369 | no other symbol gets a value and none is added |
| Sha256.RoundSame | scripts/mkhash.c:495-498 | the round as coded, with its order of additions, is that of section 6.2.2 of FIPS 180-4 |
| Sha256.Rnd | scripts/mkhash.c:495-507 | a round on the array with rotating indices is a round on eight named variables |
| Sha256.ExtendSchedule | scripts/mkhash.c:509-511 | sixteen further words of the message schedule |
| Sha256.MixBlock | scripts/mkhash.c:519-536 | sixteen further rounds |
| Sha256.Transform | scripts/mkhash.c:458-563 | the in-place compression is that of section 6.2.2 of FIPS 180-4, for every state and block |
| Sha256Stream.ChIdentity | scripts/mkhash.c:450-450 | the rewritten Ch is the one of section 4.1.2 of FIPS 180-4 |
| Sha256Stream.MajIdentity | scripts/mkhash.c:451-451 | the rewritten Maj is the one of section 4.1.2 of FIPS 180-4 |
| HashTables.Sha256Constants | scripts/mkhash.c:462-479 | the constants are the first 32 bits behind the point of the cube roots of the first 64 primes |
| HashTables.Sha256Start | scripts/mkhash.c:603-618 | the initial hash value comes from the square roots of the first eight primes |
| Sha256Stream.SHA256Transform | scripts/mkhash.c:458-563 | the same on 32-bit words and big-endian bytes |
| Sha256Stream.Context.Update | scripts/mkhash.c:621-658 | the state is the fold over full blocks, the buffer holds the tail, the counter the bit length |
| Sha256Stream.Context.Pad | scripts/mkhash.c:573-599 | padding as in section 5.1.1 of FIPS 180-4 |
| Sha256Stream.Context.Final | scripts/mkhash.c:664-675 | the digest of everything hashed |
| Sha256Stream.Sha256File | scripts/mkhash.c:715-728 | the digest does not depend on how the message was cut into chunks |
| Blocks.SeenMore | scripts/mkhash.c:639-643 | data that does not complete a block only goes to the buffer |
| Blocks.SeenBlock | scripts/mkhash.c:645-649 | data that completes it makes one step |
| Blocks.PadBlocks | scripts/mkhash.c:579-598 | one or two final blocks make up the padded message |
| Md5.MixSame | scripts/mkhash.c:157-161 | the rewritten F, G and H are those of section 3.4 of RFC 1321 |
| HashTables.Md5Rounds | scripts/mkhash.c:212-281 | the words and rotations of the 64 steps follow the pattern of section 3.4 of RFC 1321 |
| Md5.FourSteps | scripts/mkhash.c:166-169 | four steps with renamed variables are four steps of the shifting form |
| Md5.Body | scripts/mkhash.c:189-297 | the fold over one or more blocks |
| Md5.CountMore | scripts/mkhash.c:316-319 | the carry is seen from the low part getting smaller: the pair encodes the byte total |
| Md5.CountBits | scripts/mkhash.c:365-373 | the two parts make up the low 64 bits of the bit length |
| Md5.Context.Hash | scripts/mkhash.c:310-343 | the state is the fold over full blocks, the buffer holds the tail, the pair the byte count |
| Md5.Context.End | scripts/mkhash.c:345-396 | padding and length as in sections 3.1 and 3.2 of RFC 1321, then the digest |
| Md5.Md5File | scripts/mkhash.c:700-713 | the digest does not depend on how the message was cut into chunks |
| Cameo.TableTop | scripts/cameo-tag.py:79-80 | the CRC table's highest byte is zero only for the byte zero |
| Cameo.DrivenToZero | scripts/cameo-tag.py:83-84 | the register is driven to zero by its own bytes, lowest first, and by no others |
| Cameo.Residue | scripts/cameo-tag.py:83-84 | appending four bytes makes the CRC all ones exactly if they are the inverted CRC |
| Cameo.CameoSum | scripts/cameo-tag.py:76-77 | the byte sum, modulo 2^32, big-endian |
| Cameo.ChecksumHeader | scripts/cameo-tag.py:82-94 | the final header carries the tag with the sum of its bytes 0 to 55, and its CRC with the CRC field zeroed is the all ones stored there; only the named fields change |
| Cameo.RootTag | scripts/cameo-tag.py:116-117 | the appended tag satisfies the same check |

## Left out

- E_LIST and E_RANGE nodes, and freeing of nodes.
- Symbols.SolutionUnique: does not model changes of the modules symbol during evaluation, or choices; `strtoll` and `sprintf` for ranges are parameters.
- Symbols.SolutionExists: the same.
- SymbolRules.LogicalRule: the same; a member of a choice follows the rules in `Choices`.
- SymbolRun.RunSym: the same, and the branches for choices and their members.
- SymbolEval.Evaluator.CalcValue: the same; marks for what is written and what has changed are not modelled.
- SymbolEval.Evaluator.ClearAllValid: does not evaluate the modules symbol again at the end, its value being given.
- SymbolEval.EvaluateInOrder: the same.
- SymbolEval.CheckAndEvaluate: where bounds close a cycle the answers are what the run gives; no condition on the table says in general when their order matters, since it turns on the numbers.
- Choices.Calculator.CalcGroup: conditions are read in an environment in which the choice has its mode; choices are not part of the evaluator.
- SymbolCheck.Checker.CheckDeps: does not model the branches for choices and their members (`sym_check_choice_deps`) and the printing of the cycle found.
- Menu.MenuTree.FinalizeAll: does not model the settling of choice types, so types are those in force after it, or warnings.
- ExprDups.EliminateDups: the tree is a value and the two cursors are paths into it, because they alias; replacing a subtree is writing through a path.
- Preprocess.Preprocessor.ExpandString: strings are sequences without NUL, what happens after a store out of bounds is not modelled, `strtoul`, the shell and the environment are parameters, printing by `info` and `warning-if` is not modelled.
- PreprocessCalls.CallLaw: the parts of the call are text without commas and parentheses, and positional references.
- Definition of variables (`variable_add`) and the list of referenced environment variables.
- MenuDeps.BelongsExact: for other tests than an AND only soundness (`MenuDeps.BelongsSound`) and the outright case (`MenuDeps.BelongsOutright`) are stated.
- ConfData.Config.Read: reads user values only; auto.conf, choice members, menu headings and warnings are not modelled; where the first contents of the buffer have no NUL the text ends with the buffer.
- ConfData.WriteReadRoundTrip: strings are free of newline and NUL, and names of space, equals sign, newline and NUL.
- Header output (`autoconf.h`), defconfig output, and file handling.
- The lexer: the expression grammar starts from tokens; the parser tables are replaced by a parser that follows the declared precedences.
- Sha256Stream.Sha256File: for messages under 2^61 bytes, as FIPS 180-4 requires.
- The additive constants of MD5, which come from the sine, are given.
- The digest as hexadecimal text, and reading of files, in `mkhash.c`.
- User interfaces, command lines and all other scripts.
