/**
 Symbol evaluation as it is coded: cells are updated in place, and every method leaves the
 cells that evaluation as a function gives, for any table.
 */
module SymbolEval {
  import opened Tristate
  import opened Expr
  import opened SymbolCheck
  import opened Symbols
  import opened SymbolRun
  import opened SymbolSound

  /** All values forgotten. */
  function Cleared(cs: Cells): Cells {
    seq(|cs|, i requires 0 <= i < |cs| => cs[i].(valid := false))
  }

  lemma Unchanged(cs: Cells, id: nat)
    requires id < |cs|
    ensures PutCurr(cs, id, cs[id].curr) == cs
  {
  }

  class Evaluator {
    const t: Table
    var cells: Cells

    predicate Inv()
      reads this
    {
      |cells| == |t.decls|
    }

    constructor (t: Table)
      ensures Inv() && this.t == t && cells == Blank(t)
    {
      this.t := t;
      cells := Blank(t);
    }

    method Need(s: Sym)
      requires Inv()
      modifies this
      ensures Inv() && cells == RunNeed(t, old(cells), s)
      decreases Unfilled(cells), 1, 0
    {
      if Declared(t, s) { CalcValue(s.id); }
    }

    /** The value of an expression, evaluating the symbols in it as needed. */
    method CalcExpr(e: Expr) returns (v: Tri)
      requires Inv()
      modifies this
      ensures Inv() && Answer(cells, v) == RunExpr(t, old(cells), e)
      decreases Unfilled(cells), 2, Size(e)
    {
      match e
      case Symbol(s) =>
        Need(s);
        v := SymTri(t, Values(cells), s);
      case Not(x) =>
        var w := CalcExpr(x);
        v := TriNot(w);
      case Bin(c, l, r) =>
        var w1 := CalcExpr(l);
        var w2 := CalcExpr(r);
        v := Apply(c, w1, w2);
      case Rel(_, a, b) =>
        Need(a);
        Need(b);
        v := Value(e, EnvOf(t, Values(cells)));
    }

    method CalcOpt(e: Option<Expr>, absent: Tri) returns (v: Tri)
      requires Inv()
      modifies this
      ensures Inv() && Answer(cells, v) == RunOpt(t, old(cells), e, absent)
      decreases Unfilled(cells), 3, 0
    {
      if e.Some? { v := CalcExpr(e.value); } else { v := absent; }
    }

    /** One dependency, with mod promoted where the symbol cannot be mod. */
    method CalcDep(k: SymType, e: Option<Expr>, absent: Tri) returns (v: Tri)
      requires Inv()
      modifies this
      ensures Inv() && Answer(cells, v) == RunDep(t, old(cells), k, e, absent)
      decreases Unfilled(cells), 4, 0
    {
      v := CalcOpt(e, absent);
      v := Promote(t, k, v);
    }

    method BestOfPrompts(props: seq<Prop>) returns (v: Tri)
      requires Inv()
      modifies this
      ensures Inv() && Answer(cells, v) == RunPrompts(t, old(cells), props, |props|)
      decreases Unfilled(cells), 4, 0
    {
      v := NO;
      for i := 0 to |props|
        invariant Inv() && Answer(cells, v) == RunPrompts(t, old(cells), props, i)
      {
        if props[i].HasText() {
          var w := CalcOpt(props[i].visible, YES);
          v := TriOr(v, w);
        }
      }
    }

    /** Fills in the three dependency values of the symbol under evaluation. */
    method CalcDeps(id: nat)
      requires Inv() && id < |cells| && cells[id].valid
      modifies this
      ensures Inv() && cells == RunDeps(t, old(cells), id)
      decreases Unfilled(cells), 5, 0
    {
      var d := t.decls[id];
      var dir := CalcDep(d.kind, d.dirDep, YES);
      cells := Put(cells, id, cells[id].(dir := dir));
      var rev := CalcDep(d.kind, d.revDep, NO);
      cells := Put(cells, id, cells[id].(rev := rev));
      var imp := CalcDep(d.kind, d.implied, NO);
      cells := Put(cells, id, cells[id].(imp := imp));
    }

    /** Fills in visibility and the three dependency values of the symbol under evaluation. */
    method CalcVisibility(id: nat)
      requires Inv() && id < |cells| && cells[id].valid
      modifies this
      ensures Inv() && cells == RunVisibility(t, old(cells), id)
      decreases Unfilled(cells), 6, 0
    {
      var d := t.decls[id];
      var vis := BestOfPrompts(d.props);
      if vis == MOD && (d.kind != Tristate || t.modules == NO) { vis := YES; }
      cells := Put(cells, id, cells[id].(visible := vis));
      CalcDeps(id);
    }

    /** The first property of the kind whose condition is not no, with the value of that condition. */
    method GetActive(props: seq<Prop>, kind: PropKind) returns (p: Option<Prop>, w: Tri)
      requires Inv()
      modifies this
      ensures Inv() && Answer(cells, (p, w)) == RunActive(t, old(cells), kind, props, 0)
      decreases Unfilled(cells), 4, 0
    {
      for i := 0 to |props|
        invariant Inv() && Unfilled(cells) <= old(Unfilled(cells))
        invariant RunActive(t, old(cells), kind, props, 0) == RunActive(t, cells, kind, props, i)
      {
        if props[i].kind == kind {
          w := CalcOpt(props[i].visible, YES);
          if w != NO { return Some(props[i]), w; }
        }
      }
      return None, NO;
    }

    method CalcLogical(id: nat) returns (v: Tri)
      requires Inv() && id < |cells|
      modifies this
      ensures Inv() && Answer(cells, v) == RunLogical(t, old(cells), id)
      decreases Unfilled(cells), 6, 0
    {
      var d := t.decls[id];
      v := NO;
      if cells[id].visible != NO && d.user.Some? {
        v := TriAnd(d.user.value, cells[id].visible);
      } else {
        var p, w := GetActive(d.props, Default);
        if p.Some? {
          v := CalcOpt(p.value.expr, YES);
          v := TriAnd(v, w);
        }
        if cells[id].imp != NO {
          v := TriOr(v, cells[id].imp);
          v := TriAnd(v, cells[id].dir);
        }
      }
      if cells[id].dir == NO && cells[id].rev != NO { v := NO; } else { v := TriOr(v, cells[id].rev); }
      v := Promote(t, d.kind, v);
    }

    method CalcPlain(id: nat) returns (text: string)
      requires Inv() && id < |cells|
      modifies this
      ensures Inv() && Answer(cells, text) == RunPlain(t, old(cells), id)
      decreases Unfilled(cells), 6, 0
    {
      var d := t.decls[id];
      if cells[id].visible != NO && d.userText.Some? { return d.userText.value; }
      text := "";
      var p, _ := GetActive(d.props, Default);
      if p.Some? && IsSymbol(p.value.expr) {
        var s := p.value.expr.value.sym;
        Need(s);
        text := SymRaw(t, Values(cells), s);
      }
    }

    /** A bound of a range. */
    method CalcBound(k: SymType, s: Sym) returns (v: int)
      requires Inv()
      modifies this
      ensures Inv() && Answer(cells, v) == RunBound(t, old(cells), k, s)
      decreases Unfilled(cells), 4, 0
    {
      Need(s);
      v := BoundValue(t, k, s, Values(cells));
    }

    /** Replaces the text of the symbol under evaluation by a bound if it is out of range. */
    method ValidateRange(id: nat)
      requires Inv() && id < |cells| && cells[id].valid && cells[id].curr.tri == NO
      modifies this
      ensures Inv()
      ensures var b := RunRange(t, old(cells), id, old(cells)[id].curr.raw);
              cells == PutCurr(b.cells, id, SymVal(NO, b.value))
      decreases Unfilled(cells), 7, 0
    {
      var d, text := t.decls[id], cells[id].curr.raw;
      Unchanged(cells, id);
      if !IsNumber(d.kind) { return; }
      var p, _ := GetActive(d.props, Range);
      Unchanged(cells, id);
      if p.None? || p.value.bounds.None? { return; }
      var b := p.value.bounds.value;
      var v := t.parse(d.kind, text);
      var bound := CalcBound(d.kind, b.low);
      if v >= bound {
        bound := CalcBound(d.kind, b.high);
        Unchanged(cells, id);
        if v <= bound { return; }
      }
      cells := PutCurr(cells, id, SymVal(NO, t.show(d.kind, bound)));
    }

    /** The value of the symbol under evaluation, once its visibility is known. */
    method CalcCurr(id: nat)
      requires Inv() && id < |cells| && cells[id].valid
      modifies this
      ensures Inv() && cells == RunCurr(t, old(cells), id)
      decreases Unfilled(cells), 8, 0
    {
      if IsLogicalType(t.decls[id].kind) {
        var v := CalcLogical(id);
        cells := PutCurr(cells, id, SymVal(v, "n"));
      } else {
        var text := CalcPlain(id);
        cells := PutCurr(cells, id, SymVal(NO, text));
        ValidateRange(id);
      }
    }

    /** Evaluates one symbol unless its cell is filled already. */
    method CalcValue(id: nat)
      requires Inv() && id < |cells|
      modifies this
      ensures Inv() && cells == RunSym(t, old(cells), id)
      decreases Unfilled(cells), 0, 0
    {
      if cells[id].valid { return; }
      var d := t.decls[id];
      cells := Marked(cells, id);
      if d.kind == Unknown {
        cells := PutCurr(cells, id, SymVal(NO, d.name));
        return;
      }
      CalcVisibility(id);
      cells := PutCurr(cells, id, NoValue(d.kind));
      CalcCurr(id);
    }

    /** Forgets all computed values. */
    method ClearAllValid()
      requires Inv()
      modifies this
      ensures Inv() && cells == Cleared(old(cells))
    {
      for i := 0 to |cells|
        invariant Inv() && cells[i..] == old(cells)[i..] && cells[..i] == Cleared(old(cells))[..i]
      {
        cells := cells[i := cells[i].(valid := false)];
      }
    }
  }

  /** What is read has no cycles. */
  ghost predicate Acyclic(t: Table) {
    exists rank :: RankedReads(t, rank)
  }

  /** There is one solution, and the answers are its values. */
  ghost predicate FromOnlySolution(t: Table, requests: seq<nat>, answers: seq<SymVal>) {
    exists sol :: Solution(t, sol) && (forall u | Solution(t, u) :: u == sol) && Answers(sol, requests, answers)
  }

  /** Answers requests in order; where what is read has no cycles the order does not matter. */
  method EvaluateInOrder(t: Table, requests: seq<nat>) returns (answers: seq<SymVal>)
    requires Exist(requests, |t.decls|)
    ensures answers == RunAll(t, Blank(t), requests, |requests|).value
    ensures Acyclic(t) ==> FromOnlySolution(t, requests, answers)
  {
    var ev := new Evaluator(t);
    ev.ClearAllValid();
    assert Cleared(Blank(t)) == Blank(t);
    answers := [];
    for k := 0 to |requests|
      invariant ev.Inv() && ev.t == t && Answer(ev.cells, answers) == RunAll(t, Blank(t), requests, k)
    {
      ev.CalcValue(requests[k]);
      answers := answers + [ev.cells[requests[k]].curr];
    }
    if Acyclic(t) {
      ghost var rank :| RankedReads(t, rank);
      var _ := AnsweredFromSolution(t, rank, requests);
    }
  }

  /**
   The check after parsing and then evaluation: a configuration is refused exactly if its
   dependencies are cyclic.  The check does not look at bounds of ranges, so the answers are
   those of the only solution if there are none, or if they close no cycle.
   */
  method CheckAndEvaluate(t: Table, requests: seq<nat>) returns (answers: Option<seq<SymVal>>)
    requires Exist(requests, |t.decls|)
    ensures answers.None? <==> HasCycle(t)
    ensures answers.Some? ==> answers.value == RunAll(t, Blank(t), requests, |requests|).value
    ensures answers.Some? && (NoRanges(t) || Acyclic(t)) ==> FromOnlySolution(t, requests, answers.value)
  {
    var errors, _, rank := FindRecursion(t, true);
    if errors > 0 { return None; }
    if NoRanges(t) { RankedNoRanges(t, rank); }
    var rs := EvaluateInOrder(t, requests);
    answers := Some(rs);
  }
}
