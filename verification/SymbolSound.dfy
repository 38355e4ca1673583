/**
 Where what is read is ranked, evaluation on demand fills the cells with the one solution of
 the symbol equations, whatever the order in which symbols are asked for.
 */
module SymbolSound {
  import opened Tristate
  import opened Expr
  import opened Symbols
  import opened SymbolRun

  /** A ranked table with its solution, and the symbols whose evaluation has begun and not ended. */
  datatype Known = Known(t: Table, rank: seq<nat>, sol: Valuation, active: set<nat>)

  /** A finished cell holds the solution and the symbol's visibility and dependencies in it. */
  ghost predicate CellOk(t: Table, sol: Valuation, i: nat, c: Cell)
    requires |sol| == |t.decls| && i < |sol|
  {
    c.curr == sol[i] && (t.decls[i].kind != Unknown ==> PartsOk(t, sol, i, c))
  }

  ghost predicate PartsOk(t: Table, sol: Valuation, i: nat, c: Cell)
    requires |sol| == |t.decls| && i < |sol|
  {
    var d, env := t.decls[i], EnvOf(t, sol);
    c.visible == Visible(t, d, env) && DepsOk(t, d, env, c)
  }

  ghost predicate DepsOk(t: Table, d: Decl, env: Env, c: Cell) {
    && c.dir == DepValue(t, d, d.dirDep, YES, env)
    && c.rev == DepValue(t, d, d.revDep, NO, env)
    && c.imp == DepValue(t, d, d.implied, NO, env)
  }

  ghost predicate Sound(k: Known, cs: Cells) {
    && RankedReads(k.t, k.rank) && Solution(k.t, k.sol) && |cs| == |k.t.decls|
    && (forall a <- k.active :: a < |cs| && cs[a].valid)
    && (forall i | 0 <= i < |cs| && cs[i].valid && i !in k.active :: CellOk(k.t, k.sol, i, cs[i]))
  }

  /** All symbols of `syms` rank below `bound`, and nothing below `bound` is under way. */
  ghost predicate Below(k: Known, syms: set<Sym>, bound: nat) {
    && |k.rank| == |k.t.decls|
    && (forall s <- syms | Declared(k.t, s) :: k.rank[s.id] < bound)
    && (forall a <- k.active :: a < |k.rank| && bound <= k.rank[a])
  }

  /** The symbol under evaluation and the ranks below it. */
  ghost predicate Under(k: Known, cs: Cells, id: nat) {
    && Sound(k, cs) && id < |cs| && id in k.active
    && Below(k, ReadSyms(k.t.decls[id]), k.rank[id])
  }

  lemma {:induction false} NeedOk(k: Known, cs: Cells, s: Sym, bound: nat)
    requires Sound(k, cs) && Below(k, {s}, bound)
    ensures var r := RunNeed(k.t, cs, s);
            Sound(k, r) && AgreeOn(k.t, Values(r), k.sol, {s})
    decreases bound, 0, 0
  {
    if Declared(k.t, s) {
      SymOk(k, cs, s.id);
      assert s.id !in k.active;
    }
  }

  lemma {:induction false} ExprOk(k: Known, cs: Cells, e: Expr, bound: nat)
    requires Sound(k, cs) && Below(k, ExprSyms(e), bound)
    ensures var r := RunExpr(k.t, cs, e); Sound(k, r.cells) && r.value == Value(e, EnvOf(k.t, k.sol))
    decreases bound, 0, Size(e)
  {
    match e
    case Symbol(s) => NeedOk(k, cs, s, bound);
    case Not(x) => ExprOk(k, cs, x, bound);
    case Bin(_, l, r) =>
      ExprOk(k, cs, l, bound);
      ExprOk(k, RunExpr(k.t, cs, l).cells, r, bound);
    case Rel(_, a, b) =>
      var c1 := RunNeed(k.t, cs, a);
      NeedOk(k, cs, a, bound);
      NeedOk(k, c1, b, bound);
      var c2 := RunNeed(k.t, c1, b);
      assert AgreeOn(k.t, Values(c2), k.sol, {a}) by { assert Declared(k.t, a) ==> a.id !in k.active; }
      ValueAgrees(k.t, Values(c2), k.sol, e);
  }

  lemma {:induction false} OptOk(k: Known, cs: Cells, e: Option<Expr>, absent: Tri, bound: nat)
    requires Sound(k, cs) && Below(k, OptSyms(e), bound)
    ensures var r := RunOpt(k.t, cs, e, absent);
            Sound(k, r.cells) && r.value == if e.Some? then Value(e.value, EnvOf(k.t, k.sol)) else absent
    decreases bound, 1, 0
  {
    if e.Some? { ExprOk(k, cs, e.value, bound); }
  }

  lemma {:induction false} PromptsOk(k: Known, cs: Cells, props: seq<Prop>, n: nat, bound: nat)
    requires Sound(k, cs) && Below(k, PropsSyms(props), bound) && n <= |props|
    ensures var r := RunPrompts(k.t, cs, props, n);
            Sound(k, r.cells) && r.value == BestPrompt(props, n, EnvOf(k.t, k.sol))
    decreases bound, 2, n
  {
    if n > 0 {
      PromptsOk(k, cs, props, n - 1, bound);
      PropInProps(props, n - 1);
      if props[n - 1].HasText() {
        OptOk(k, RunPrompts(k.t, cs, props, n - 1).cells, props[n - 1].visible, YES, bound);
      }
    }
  }

  lemma {:induction false} ActiveOk(k: Known, cs: Cells, kind: PropKind, props: seq<Prop>, i: nat, bound: nat)
    requires Sound(k, cs) && Below(k, PropsSyms(props), bound) && i <= |props| && (kind == Default || kind == Range)
    ensures var r := RunActive(k.t, cs, kind, props, i);
            && Sound(k, r.cells) && r.value.0 == ActiveProp(kind, props, i, EnvOf(k.t, k.sol))
            && (r.value.0.Some? ==> r.value.1 == ValueOpt(r.value.0.value.visible, EnvOf(k.t, k.sol)))
    decreases bound, 2, |props| - i
  {
    if i < |props| {
      PropInProps(props, i);
      if props[i].kind == kind {
        OptOk(k, cs, props[i].visible, YES, bound);
        ActiveOk(k, RunOpt(k.t, cs, props[i].visible, YES).cells, kind, props, i + 1, bound);
      } else {
        ActiveOk(k, cs, kind, props, i + 1, bound);
      }
    }
  }

  /** Writing to the cell under evaluation. */
  lemma PutOk(k: Known, cs: Cells, id: nat, c: Cell)
    requires Sound(k, cs) && id < |cs| && id in k.active && c.valid
    ensures Sound(k, Put(cs, id, c))
  {
  }

  lemma {:induction false} DepOk(k: Known, cs: Cells, d: Decl, e: Option<Expr>, absent: Tri, bound: nat)
    requires Sound(k, cs) && Below(k, OptSyms(e), bound)
    ensures var r := RunDep(k.t, cs, d.kind, e, absent);
            Sound(k, r.cells) && r.value == DepValue(k.t, d, e, absent, EnvOf(k.t, k.sol))
    decreases bound, 2, 0
  {
    OptOk(k, cs, e, absent, bound);
  }

  lemma {:induction false} DepsFilled(k: Known, cs: Cells, id: nat)
    requires Under(k, cs, id)
    ensures var r := RunDeps(k.t, cs, id);
            && Sound(k, r) && r[id].(dir := cs[id].dir, rev := cs[id].rev, imp := cs[id].imp) == cs[id]
            && DepsOk(k.t, k.t.decls[id], EnvOf(k.t, k.sol), r[id])
    decreases k.rank[id], 3, 0
  {
    var t, d, bound := k.t, k.t.decls[id], k.rank[id];
    DepOk(k, cs, d, d.dirDep, YES, bound);
    var dir := RunDep(t, cs, d.kind, d.dirDep, YES);
    PutOk(k, dir.cells, id, dir.cells[id].(dir := dir.value));
    var c1 := Put(dir.cells, id, dir.cells[id].(dir := dir.value));
    DepOk(k, c1, d, d.revDep, NO, bound);
    var rev := RunDep(t, c1, d.kind, d.revDep, NO);
    PutOk(k, rev.cells, id, rev.cells[id].(rev := rev.value));
    var c2 := Put(rev.cells, id, rev.cells[id].(rev := rev.value));
    DepOk(k, c2, d, d.implied, NO, bound);
    var imp := RunDep(t, c2, d.kind, d.implied, NO);
    PutOk(k, imp.cells, id, imp.cells[id].(imp := imp.value));
  }

  lemma {:induction false} VisibilityFilled(k: Known, cs: Cells, id: nat)
    requires Under(k, cs, id)
    ensures var r := RunVisibility(k.t, cs, id);
            Sound(k, r) && PartsOk(k.t, k.sol, id, r[id])
    decreases k.rank[id], 4, 0
  {
    var t, d := k.t, k.t.decls[id];
    PromptsOk(k, cs, d.props, |d.props|, k.rank[id]);
    var a := RunPrompts(t, cs, d.props, |d.props|);
    var vis := Visible(t, d, EnvOf(t, k.sol));
    PutOk(k, a.cells, id, a.cells[id].(visible := vis));
    DepsFilled(k, Put(a.cells, id, a.cells[id].(visible := vis)), id);
  }

  lemma DefaultBelow(k: Known, props: seq<Prop>, p: Prop, bound: nat)
    requires Below(k, PropsSyms(props), bound) && p in props && p.kind == Default
    ensures Below(k, OptSyms(p.expr), bound)
  {
    var i :| 0 <= i < |props| && props[i] == p;
    PropInProps(props, i);
  }

  lemma {:induction false} DefaultOk(k: Known, cs: Cells, d: Decl, bound: nat)
    requires Sound(k, cs) && Below(k, PropsSyms(d.props), bound)
    ensures var r := RunDefault(k.t, cs, d.props); Sound(k, r.cells) && r.value == DefaultTri(d, EnvOf(k.t, k.sol))
    decreases bound, 3, 0
  {
    ActiveOk(k, cs, Default, d.props, 0, bound);
    var p := RunActive(k.t, cs, Default, d.props, 0);
    if p.value.0.Some? {
      DefaultBelow(k, d.props, p.value.0.value, bound);
      OptOk(k, p.cells, p.value.0.value.expr, YES, bound);
    }
  }

  lemma {:induction false} LogicalOk(k: Known, cs: Cells, id: nat)
    requires Under(k, cs, id) && PartsOk(k.t, k.sol, id, cs[id])
    ensures var r := RunLogical(k.t, cs, id);
            Sound(k, r.cells) && r.value == LogicalValue(k.t, k.t.decls[id], cs[id].visible, EnvOf(k.t, k.sol))
    decreases k.rank[id], 4, 0
  {
    DefaultOk(k, cs, k.t.decls[id], k.rank[id]);
  }

  lemma {:induction false} DefaultTextOk(k: Known, cs: Cells, props: seq<Prop>, bound: nat)
    requires Sound(k, cs) && Below(k, PropsSyms(props), bound)
    ensures var r, p := RunDefaultText(k.t, cs, props), ActiveProp(Default, props, 0, EnvOf(k.t, k.sol));
            && Sound(k, r.cells)
            && r.value == if p.Some? && IsSymbol(p.value.expr) then SymRaw(k.t, k.sol, p.value.expr.value.sym) else ""
    decreases bound, 3, 0
  {
    ActiveOk(k, cs, Default, props, 0, bound);
    var p := RunActive(k.t, cs, Default, props, 0);
    if p.value.0.Some? && IsSymbol(p.value.0.value.expr) {
      DefaultBelow(k, props, p.value.0.value, bound);
      NeedOk(k, p.cells, p.value.0.value.expr.value.sym, bound);
    }
  }

  lemma {:induction false} PlainOk(k: Known, cs: Cells, id: nat)
    requires Under(k, cs, id) && PartsOk(k.t, k.sol, id, cs[id])
    ensures var r := RunPlain(k.t, cs, id);
            Sound(k, r.cells) && r.value == PlainValue(k.t, k.t.decls[id], k.sol)
    decreases k.rank[id], 4, 0
  {
    DefaultTextOk(k, cs, k.t.decls[id].props, k.rank[id]);
  }

  lemma {:induction false} BoundOk(k: Known, cs: Cells, kind: SymType, s: Sym, bound: nat)
    requires Sound(k, cs) && Below(k, {s}, bound)
    ensures var r := RunBound(k.t, cs, kind, s); Sound(k, r.cells) && r.value == BoundValue(k.t, kind, s, k.sol)
    decreases bound, 1, 0
  {
    NeedOk(k, cs, s, bound);
  }

  lemma {:induction false} ClampOk(k: Known, cs: Cells, kind: SymType, b: Bounds, text: string, bound: nat)
    requires Sound(k, cs) && Below(k, {b.low, b.high}, bound)
    ensures var r := RunClamp(k.t, cs, kind, b, text);
            Sound(k, r.cells) && r.value == Clamped(k.t, kind, b, text, k.sol)
    decreases bound, 2, 0
  {
    BoundOk(k, cs, kind, b.low, bound);
    BoundOk(k, RunBound(k.t, cs, kind, b.low).cells, kind, b.high, bound);
  }

  lemma {:induction false} RangeOk(k: Known, cs: Cells, id: nat)
    requires Under(k, cs, id)
    ensures var r := RunRange(k.t, cs, id, PlainValue(k.t, k.t.decls[id], k.sol));
            Sound(k, r.cells) && r.value == TextualValue(k.t, k.t.decls[id], k.sol)
    decreases k.rank[id], 3, 0
  {
    var d := k.t.decls[id];
    if IsNumber(d.kind) {
      ActiveOk(k, cs, Range, d.props, 0, k.rank[id]);
      var p := RunActive(k.t, cs, Range, d.props, 0);
      if p.value.0.Some? && p.value.0.value.bounds.Some? {
        BoundInProps(d.props, p.value.0.value);
        ClampOk(k, p.cells, d.kind, p.value.0.value.bounds.value, PlainValue(k.t, d, k.sol), k.rank[id]);
      }
    }
  }

  /** The value of the symbol under evaluation is the one the declaration calls for. */
  lemma {:induction false} CurrFilled(k: Known, cs: Cells, id: nat)
    requires Under(k, cs, id) && PartsOk(k.t, k.sol, id, cs[id]) && k.t.decls[id].kind != Unknown
    ensures var r := RunCurr(k.t, cs, id);
            Sound(k, r) && r[id] == cs[id].(curr := Step(k.t, k.sol, k.t.decls[id]))
    decreases k.rank[id], 5, 0
  {
    var t, d := k.t, k.t.decls[id];
    if IsLogicalType(d.kind) {
      LogicalOk(k, cs, id);
      var a := RunLogical(t, cs, id);
      PutOk(k, a.cells, id, a.cells[id].(curr := SymVal(a.value, "n")));
    } else {
      PlainOk(k, cs, id);
      var a := RunPlain(t, cs, id);
      PutOk(k, a.cells, id, a.cells[id].(curr := SymVal(NO, a.value)));
      var c := PutCurr(a.cells, id, SymVal(NO, a.value));
      RangeOk(k, c, id);
      var b := RunRange(t, c, id, a.value);
      PutOk(k, b.cells, id, b.cells[id].(curr := SymVal(NO, b.value)));
    }
  }

  lemma ReadsBelow(k: Known, cs: Cells, id: nat)
    requires Sound(k, cs) && id < |cs| && id in k.active
    requires forall a <- k.active :: k.rank[id] <= k.rank[a]
    ensures Under(k, cs, id)
  {
    forall s <- ReadSyms(k.t.decls[id]) | Declared(k.t, s) ensures k.rank[s.id] < k.rank[id] {
      assert Reads(k.t, id, s.id);
    }
  }

  /** Any symbol may be asked for that ranks below those under way. */
  lemma {:induction false} SymOk(k: Known, cs: Cells, id: nat)
    requires Sound(k, cs) && id < |cs| && forall a <- k.active :: k.rank[id] < k.rank[a]
    ensures var r := RunSym(k.t, cs, id); Sound(k, r)
    decreases k.rank[id], 6, 0
  {
    if !cs[id].valid {
      var d, c := k.t.decls[id], Marked(cs, id);
      var k' := k.(active := k.active + {id});
      assert Sound(k', c);
      assert k.sol[id] == Step(k.t, k.sol, d);
      if d.kind == Unknown {
        PutOk(k', c, id, c[id].(curr := SymVal(NO, d.name)));
        Finished(k, RunSym(k.t, cs, id), id);
      } else {
        ReadsBelow(k', c, id);
        VisibilityFilled(k', c, id);
        var c1 := RunVisibility(k.t, c, id);
        PutOk(k', c1, id, c1[id].(curr := NoValue(d.kind)));
        var c2 := PutCurr(c1, id, NoValue(d.kind));
        ReadsBelow(k', c2, id);
        CurrFilled(k', c2, id);
        Finished(k, RunSym(k.t, cs, id), id);
      }
    }
  }

  /** The evaluation of a symbol ends with its cell filled. */
  lemma Finished(k: Known, cs: Cells, id: nat)
    requires Sound(k.(active := k.active + {id}), cs) && id < |cs| && CellOk(k.t, k.sol, id, cs[id])
    ensures Sound(k, cs)
  {
  }

  lemma AskOk(k: Known, cs: Cells, id: nat)
    requires Sound(k, cs) && k.active == {} && id < |cs|
    ensures var r := Ask(k.t, cs, id); Sound(k, r.cells) && r.value == k.sol[id]
  {
    SymOk(k, cs, id);
    assert CellOk(k.t, k.sol, id, RunSym(k.t, cs, id)[id]);
  }

  /** The answers are the values of the symbols asked for. */
  ghost predicate Answers(sol: Valuation, requests: seq<nat>, vals: seq<SymVal>) {
    && |vals| <= |requests|
    && forall j | 0 <= j < |vals| :: requests[j] < |sol| && vals[j] == sol[requests[j]]
  }

  lemma AnswersNext(sol: Valuation, requests: seq<nat>, vals: seq<SymVal>, v: SymVal)
    requires Answers(sol, requests, vals) && |vals| < |requests| && requests[|vals|] < |sol|
    requires v == sol[requests[|vals|]]
    ensures Answers(sol, requests, vals + [v])
  {
  }

  lemma {:induction false} AllSound(k: Known, cs: Cells, requests: seq<nat>, n: nat)
    requires Sound(k, cs) && k.active == {} && n <= |requests| && Exist(requests, |cs|)
    ensures Sound(k, RunAll(k.t, cs, requests, n).cells)
  {
    if n > 0 {
      AllSound(k, cs, requests, n - 1);
      AskOk(k, RunAll(k.t, cs, requests, n - 1).cells, requests[n - 1]);
    }
  }

  /** Requests in any order are answered from the solution. */
  lemma {:induction false} AllOk(k: Known, cs: Cells, requests: seq<nat>, n: nat)
    requires Sound(k, cs) && k.active == {} && n <= |requests| && Exist(requests, |cs|)
    ensures Answers(k.sol, requests, RunAll(k.t, cs, requests, n).value)
  {
    if n > 0 {
      AllOk(k, cs, requests, n - 1);
      AllSound(k, cs, requests, n - 1);
      var a, id := RunAll(k.t, cs, requests, n - 1), requests[n - 1];
      AskOk(k, a.cells, id);
      AnswersNext(k.sol, requests, a.value, Ask(k.t, a.cells, id).value);
    }
  }

  /** Where what is read is ranked there is one solution, and all requests are answered from it. */
  lemma AnsweredFromSolution(t: Table, rank: seq<nat>, requests: seq<nat>) returns (sol: Valuation)
    requires RankedReads(t, rank) && Exist(requests, |t.decls|)
    ensures Solution(t, sol) && forall u | Solution(t, u) :: u == sol
    ensures Answers(sol, requests, RunAll(t, Blank(t), requests, |requests|).value)
  {
    sol := SolutionExists(t, rank);
    AllOk(Known(t, rank, sol, {}), Blank(t), requests, |requests|);
    forall u | Solution(t, u) ensures u == sol {
      forall i | 0 <= i < |u| ensures u[i] == sol[i] { SolutionUnique(t, rank, u, sol, i); }
    }
  }
}
