/**
 Two numbers that bound each other: the check for recursion lets them pass, and what they
 evaluate to depends on which is asked for first.
 */
module SymbolOrder {
  import opened Tristate
  import opened Expr
  import opened SymbolCheck
  import opened Symbols
  import opened SymbolRun

  type Parser = (SymType, string) -> int
  type Printer = (SymType, int) -> string

  /** A number with a default and both bounds of its range at symbol `other`. */
  function Number(name: string, dflt: string, other: nat): Decl {
    var s := Config(other, Int);
    Decl(name, Int, [Prop(Default, None, Some(Symbol(Quoted(dflt))), None),
                     Prop(Range, None, None, Some(Bounds(s, s)))], None, None, None, None, None)
  }

  /** A with default `a` and range B to B, and B with default `b` and range A to A. */
  function Mutual(a: string, b: string, parse: Parser, show: Printer): Table {
    Table([Number("A", a, 1), Number("B", b, 0)], NO, (_, _) => NotANumber, parse, show)
  }


  lemma NumberSyms(name: string, dflt: string, other: nat)
    ensures DeclSyms(Number(name, dflt, other)) == {Quoted(dflt)}
  {
    var props := Number(name, dflt, other).props;
    assert props[1..][1..] == [];
    assert PropsSyms(props) == PropSyms(props[0]) + (PropSyms(props[1..][0]) + PropsSyms(props[1..][1..]));
  }

  lemma MutualPasses(a: string, b: string, parse: Parser, show: Printer)
    ensures !HasCycle(Mutual(a, b, parse, show))
  {
    var t := Mutual(a, b, parse, show);
    NumberSyms("A", a, 1);
    NumberSyms("B", b, 0);
    assert Ranked(t, [0, 0]);
    RankedAcyclic(t, [0, 0]);
  }

  // ----- the run -----

  /** Symbol `id` of the two is under evaluation. */
  ghost predicate Pair(t: Table, cs: Cells, id: nat, text: string) {
    |cs| == |t.decls| == 2 && id < 2 && t.decls[id] == Number(t.decls[id].name, text, 1 - id)
  }

  lemma NoDep(t: Table, cs: Cells, k: SymType, absent: Tri)
    requires |cs| == |t.decls|
    ensures RunDep(t, cs, k, None, absent) == Answer(cs, Promote(t, k, absent))
  {
    assert RunOpt(t, cs, None, absent) == Answer(cs, absent);
  }

  lemma NoDeps(t: Table, cs: Cells, id: nat, text: string)
    requires Pair(t, cs, id, text) && cs[id].valid
    ensures RunDeps(t, cs, id) == cs[id := cs[id].(dir := YES, rev := NO, imp := NO)]
  {
    var c1 := cs[id := cs[id].(dir := YES)];
    var c2 := c1[id := c1[id].(rev := NO)];
    NoDep(t, cs, Int, YES);
    NoDep(t, c1, Int, NO);
    NoDep(t, c2, Int, NO);
  }

  lemma NoPrompts(t: Table, cs: Cells, id: nat, text: string)
    requires Pair(t, cs, id, text) && cs[id].valid
    ensures RunVisibility(t, cs, id) == cs[id := Cell(true, cs[id].curr, NO, YES, NO, NO)]
  {
    var props := t.decls[id].props;
    assert RunPrompts(t, cs, props, 0) == Answer(cs, NO);
    assert RunPrompts(t, cs, props, 1) == Answer(cs, NO);
    assert RunPrompts(t, cs, props, 2) == Answer(cs, NO);
    var c := cs[id := cs[id].(visible := NO)];
    NoDeps(t, c, id, text);
  }

  lemma OwnText(t: Table, cs: Cells, id: nat, text: string)
    requires Pair(t, cs, id, text)
    ensures RunPlain(t, cs, id) == Answer(cs, text)
  {
    var props := t.decls[id].props;
    assert RunOpt(t, cs, None, YES) == Answer(cs, YES);
    assert RunActive(t, cs, Default, props, 0) == Answer(cs, (Some(props[0]), YES));
    assert RunNeed(t, cs, Quoted(text)) == cs;
    assert RunDefaultText(t, cs, props) == Answer(cs, text);
  }

  lemma OwnRange(t: Table, cs: Cells, id: nat, text: string)
    requires Pair(t, cs, id, text)
    ensures var s := Config(1 - id, Int); RunRange(t, cs, id, text) == RunClamp(t, cs, Int, Bounds(s, s), text)
  {
    var props := t.decls[id].props;
    assert RunActive(t, cs, Range, props, 1) == Answer(cs, (Some(props[1]), YES));
    assert RunActive(t, cs, Range, props, 0) == RunActive(t, cs, Range, props, 1);
  }

  /** The text, or the other number where that is different. */
  function Adjusted(t: Table, text: string, n: int): string {
    if t.parse(Int, text) == n then text else t.show(Int, n)
  }

  /** With the other number already there, it is the only one allowed. */
  lemma ClampToOther(t: Table, cs: Cells, id: nat, text: string)
    requires Pair(t, cs, id, text) && t.decls[1 - id].kind == Int && cs[1 - id].valid
    ensures var s := Config(1 - id, Int);
            RunClamp(t, cs, Int, Bounds(s, s), text) ==
            Answer(cs, Adjusted(t, text, t.parse(Int, cs[1 - id].curr.raw)))
  {
    var s := Config(1 - id, Int);
    assert RunNeed(t, cs, s) == cs by { assert RunSym(t, cs, 1 - id) == cs; }
    assert RunBound(t, cs, Int, s) == Answer(cs, t.parse(Int, cs[1 - id].curr.raw));
  }

  /** What is left to do once the symbol is marked. */
  lemma RunMarked(t: Table, cs: Cells, id: nat, text: string)
    requires Pair(t, cs, id, text) && !cs[id].valid
    ensures var s := Config(1 - id, Int);
            var c := cs[id := Cell(true, SymVal(NO, text), NO, YES, NO, NO)];
            var b := RunClamp(t, c, Int, Bounds(s, s), text);
            RunSym(t, cs, id) == PutCurr(b.cells, id, SymVal(NO, b.value))
  {
    var c := Marked(cs, id);
    NoPrompts(t, c, id, text);
    var c1 := PutCurr(RunVisibility(t, c, id), id, NoValue(Int));
    OwnText(t, c1, id, text);
    var c2 := PutCurr(c1, id, SymVal(NO, text));
    assert c2 == cs[id := Cell(true, SymVal(NO, text), NO, YES, NO, NO)];
    OwnRange(t, c2, id, text);
    assert RunSym(t, cs, id) == RunCurr(t, c1, id);
  }

  /** A table of two numbers that bound each other, by position. */
  ghost predicate Both(t: Table, cs: Cells, id: nat, text: string, other: string) {
    Pair(t, cs, id, text) && Pair(t, cs, 1 - id, other) && forall n: int :: t.parse(Int, t.show(Int, n)) == n
  }

  /** The second one gives way to the first, even while that is under way. */
  lemma SecondAsked(t: Table, cs: Cells, id: nat, text: string, other: string)
    requires Both(t, cs, id, text, other) && !cs[id].valid && cs[1 - id].valid
    ensures var v := Adjusted(t, text, t.parse(Int, cs[1 - id].curr.raw));
            RunSym(t, cs, id) == cs[id := Cell(true, SymVal(NO, v), NO, YES, NO, NO)]
  {
    RunMarked(t, cs, id, text);
    var c := cs[id := Cell(true, SymVal(NO, text), NO, YES, NO, NO)];
    ClampToOther(t, c, id, text);
  }

  /** The first one makes the second give way, and so it is within its range. */
  lemma FirstAsked(t: Table, cs: Cells, id: nat, text: string, other: string)
    requires Both(t, cs, id, text, other) && !cs[id].valid && !cs[1 - id].valid
    ensures var r := RunSym(t, cs, id);
            && r[id].curr == SymVal(NO, text)
            && r[1 - id].valid && r[1 - id].curr == SymVal(NO, Adjusted(t, other, t.parse(Int, text)))
  {
    RunMarked(t, cs, id, text);
    var s, c := Config(1 - id, Int), cs[id := Cell(true, SymVal(NO, text), NO, YES, NO, NO)];
    SecondAsked(t, c, 1 - id, other, text);
    var c' := RunSym(t, c, 1 - id);
    assert RunNeed(t, c, s) == c' && RunNeed(t, c', s) == c' by { assert RunSym(t, c', 1 - id) == c'; }
    assert RunBound(t, c, Int, s) == RunBound(t, c', Int, s) == Answer(c', t.parse(Int, text));
    assert RunClamp(t, c, Int, Bounds(s, s), text) == Answer(c', text);
  }

  /** Both are asked for, `id` first. */
  lemma BothAsked(t: Table, id: nat, text: string, other: string)
    requires Both(t, Blank(t), id, text, other)
    ensures RunAll(t, Blank(t), [id, 1 - id], 2).value ==
            [SymVal(NO, text), SymVal(NO, Adjusted(t, other, t.parse(Int, text)))]
  {
    FirstAsked(t, Blank(t), id, text, other);
    var first := Ask(t, Blank(t), id);
    TwoAsked(t, Blank(t), id, 1 - id);
    assert Ask(t, first.cells, 1 - id) == Answer(first.cells, first.cells[1 - id].curr);
  }

  lemma TwoAsked(t: Table, cs: Cells, i: nat, j: nat)
    requires |cs| == |t.decls| && i < |cs| && j < |cs|
    ensures var a := Ask(t, cs, i); RunAll(t, cs, [i, j], 2).value == [a.value, Ask(t, a.cells, j).value]
  {
    var a := Ask(t, cs, i);
    assert RunAll(t, cs, [i, j], 0) == Answer(cs, []);
    assert RunAll(t, cs, [i, j], 1) == Answer(a.cells, [] + [a.value]);
  }

  /** Each order makes the number that is asked for first the value of both. */
  lemma RangeCycleRuns(a: string, b: string, parse: Parser, show: Printer)
    requires forall n: int :: parse(Int, show(Int, n)) == n
    ensures var t := Mutual(a, b, parse, show);
            && RunAll(t, Blank(t), [0, 1], 2).value == [SymVal(NO, a), SymVal(NO, Adjusted(t, b, parse(Int, a)))]
            && RunAll(t, Blank(t), [1, 0], 2).value == [SymVal(NO, b), SymVal(NO, Adjusted(t, a, parse(Int, b)))]
  {
    var t := Mutual(a, b, parse, show);
    BothAsked(t, 0, a, b);
    BothAsked(t, 1, b, a);
  }

  /** The order of requests does not matter exactly if both defaults are the same number. */
  lemma RangeCycleExact(a: string, b: string, parse: Parser, show: Printer)
    requires forall n: int :: parse(Int, show(Int, n)) == n
    ensures var t := Mutual(a, b, parse, show);
            var u, v := RunAll(t, Blank(t), [0, 1], 2).value, RunAll(t, Blank(t), [1, 0], 2).value;
            u[0] == v[1] && u[1] == v[0] <==> parse(Int, a) == parse(Int, b)
  {
    RangeCycleRuns(a, b, parse, show);
  }

  /** Defaults 5 and 7: both are 5 or both are 7, and the check for recursion reports nothing. */
  lemma RangeCycleMissed(parse: Parser, show: Printer)
    requires forall n: int :: parse(Int, show(Int, n)) == n
    requires parse(Int, "5") == 5 && parse(Int, "7") == 7 && show(Int, 5) == "5" && show(Int, 7) == "7"
    ensures var t := Mutual("5", "7", parse, show);
            && !HasCycle(t)
            && RunAll(t, Blank(t), [0, 1], 2).value == [SymVal(NO, "5"), SymVal(NO, "5")]
            && RunAll(t, Blank(t), [1, 0], 2).value == [SymVal(NO, "7"), SymVal(NO, "7")]
  {
    MutualPasses("5", "7", parse, show);
    RangeCycleRuns("5", "7", parse, show);
  }
}
