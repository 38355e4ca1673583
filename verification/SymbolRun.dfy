/**
 Symbol evaluation on demand, as a function from cells to cells, for any table: every symbol
 has a cell that is marked before its evaluation begins and then only read, so a symbol that
 is met again while it is under way counts as what its cell holds at that moment.
 */
module SymbolRun {
  import opened Tristate
  import opened Expr
  import opened Symbols

  datatype Cell = Cell(valid: bool, curr: SymVal, visible: Tri, dir: Tri, rev: Tri, imp: Tri)

  type Cells = seq<Cell>

  /** What a part of the evaluation finds, and the cells after it. */
  datatype Answer<T> = Answer(cells: Cells, value: T)

  /** How many symbols are still to be evaluated. */
  function Unfilled(cs: Cells): nat {
    if cs == [] then 0 else Unfilled(cs[1..]) + if cs[0].valid then 0 else 1
  }

  lemma {:induction false} UnfilledPut(cs: Cells, id: nat, c: Cell)
    requires id < |cs|
    ensures c.valid == cs[id].valid ==> Unfilled(cs[id := c]) == Unfilled(cs)
    ensures c.valid && !cs[id].valid ==> Unfilled(cs[id := c]) == Unfilled(cs) - 1
  {
    if id > 0 {
      assert cs[id := c][1..] == cs[1..][id - 1 := c];
      UnfilledPut(cs[1..], id - 1, c);
    } else {
      assert cs[id := c][1..] == cs[1..];
    }
  }

  /** Cells already filled stay as they are. */
  ghost predicate Keeps(cs: Cells, cs': Cells) {
    |cs'| == |cs| && forall i | 0 <= i < |cs| && cs[i].valid :: cs'[i] == cs[i]
  }

  /** The same but for the cell of `id`. */
  ghost predicate KeepsBut(cs: Cells, cs': Cells, id: nat) {
    |cs'| == |cs| && forall i | 0 <= i < |cs| && i != id && cs[i].valid :: cs'[i] == cs[i]
  }

  function Put(cs: Cells, id: nat, c: Cell): (r: Cells)
    requires id < |cs| && c.valid == cs[id].valid
    ensures |r| == |cs| && Unfilled(r) == Unfilled(cs)
  {
    UnfilledPut(cs, id, c);
    cs[id := c]
  }

  function PutCurr(cs: Cells, id: nat, v: SymVal): (r: Cells)
    requires id < |cs|
    ensures |r| == |cs| && Unfilled(r) == Unfilled(cs)
  {
    Put(cs, id, cs[id].(curr := v))
  }

  function Values(cs: Cells): (vals: Valuation)
    ensures |vals| == |cs|
  {
    seq(|cs|, i requires 0 <= i < |cs| => cs[i].curr)
  }

  // ----- evaluation -----

  /** Makes the value of `s` available. */
  function RunNeed(t: Table, cs: Cells, s: Sym): (r: Cells)
    requires |cs| == |t.decls|
    ensures Keeps(cs, r) && (Declared(t, s) ==> r[s.id].valid) && Unfilled(r) <= Unfilled(cs)
    decreases Unfilled(cs), 1, 0
  {
    if Declared(t, s) then RunSym(t, cs, s.id) else cs
  }

  function RunExpr(t: Table, cs: Cells, e: Expr): (r: Answer<Tri>)
    requires |cs| == |t.decls|
    ensures Keeps(cs, r.cells) && Unfilled(r.cells) <= Unfilled(cs)
    decreases Unfilled(cs), 2, Size(e)
  {
    match e
    case Symbol(s) => var c := RunNeed(t, cs, s); Answer(c, SymTri(t, Values(c), s))
    case Not(x) => var a := RunExpr(t, cs, x); Answer(a.cells, TriNot(a.value))
    case Bin(c, left, right) =>
      var a := RunExpr(t, cs, left);
      var b := RunExpr(t, a.cells, right);
      Answer(b.cells, Apply(c, a.value, b.value))
    case Rel(_, a, b) =>
      var c := RunNeed(t, RunNeed(t, cs, a), b);
      Answer(c, Value(e, EnvOf(t, Values(c))))
  }

  function RunOpt(t: Table, cs: Cells, e: Option<Expr>, absent: Tri): (r: Answer<Tri>)
    requires |cs| == |t.decls|
    ensures Keeps(cs, r.cells) && Unfilled(r.cells) <= Unfilled(cs)
    decreases Unfilled(cs), 3, 0
  {
    if e.Some? then RunExpr(t, cs, e.value) else Answer(cs, absent)
  }

  /** The best of all prompts' conditions, over the first `n` properties. */
  function RunPrompts(t: Table, cs: Cells, props: seq<Prop>, n: nat): (r: Answer<Tri>)
    requires |cs| == |t.decls| && n <= |props|
    ensures Keeps(cs, r.cells) && Unfilled(r.cells) <= Unfilled(cs)
    decreases Unfilled(cs), 4, n
  {
    if n == 0 then Answer(cs, NO)
    else
      var best := RunPrompts(t, cs, props, n - 1);
      if !props[n - 1].HasText() then best
      else
        var a := RunOpt(t, best.cells, props[n - 1].visible, YES);
        Answer(a.cells, TriOr(best.value, a.value))
  }

  /** The first property of the kind, from `i` on, whose condition is not no, and that condition. */
  function RunActive(t: Table, cs: Cells, kind: PropKind, props: seq<Prop>, i: nat): (r: Answer<(Option<Prop>, Tri)>)
    requires |cs| == |t.decls| && i <= |props|
    ensures Keeps(cs, r.cells) && Unfilled(r.cells) <= Unfilled(cs)
    ensures r.value.0.Some? ==> r.value.0.value in props && r.value.0.value.kind == kind
    decreases Unfilled(cs), 4, |props| - i
  {
    if i == |props| then Answer(cs, (None, NO))
    else if props[i].kind != kind then RunActive(t, cs, kind, props, i + 1)
    else
      var a := RunOpt(t, cs, props[i].visible, YES);
      if a.value != NO then Answer(a.cells, (Some(props[i]), a.value))
      else RunActive(t, a.cells, kind, props, i + 1)
  }

  /** One dependency, with mod promoted where the symbol cannot be mod. */
  function RunDep(t: Table, cs: Cells, k: SymType, e: Option<Expr>, absent: Tri): (r: Answer<Tri>)
    requires |cs| == |t.decls|
    ensures Keeps(cs, r.cells) && Unfilled(r.cells) <= Unfilled(cs)
    decreases Unfilled(cs), 4, 0
  {
    var a := RunOpt(t, cs, e, absent);
    Answer(a.cells, Promote(t, k, a.value))
  }

  /** Fills in the three dependency values of the symbol under evaluation. */
  function RunDeps(t: Table, cs: Cells, id: nat): (r: Cells)
    requires |cs| == |t.decls| && id < |cs| && cs[id].valid
    ensures KeepsBut(cs, r, id) && r[id].valid && Unfilled(r) <= Unfilled(cs)
    decreases Unfilled(cs), 5, 0
  {
    var d := t.decls[id];
    var dir := RunDep(t, cs, d.kind, d.dirDep, YES);
    var c1 := Put(dir.cells, id, dir.cells[id].(dir := dir.value));
    var rev := RunDep(t, c1, d.kind, d.revDep, NO);
    var c2 := Put(rev.cells, id, rev.cells[id].(rev := rev.value));
    var imp := RunDep(t, c2, d.kind, d.implied, NO);
    Put(imp.cells, id, imp.cells[id].(imp := imp.value))
  }

  function RunVisibility(t: Table, cs: Cells, id: nat): (r: Cells)
    requires |cs| == |t.decls| && id < |cs| && cs[id].valid
    ensures KeepsBut(cs, r, id) && r[id].valid && Unfilled(r) <= Unfilled(cs)
    decreases Unfilled(cs), 6, 0
  {
    var d := t.decls[id];
    var a := RunPrompts(t, cs, d.props, |d.props|);
    var vis := if a.value == MOD && (d.kind != Tristate || t.modules == NO) then YES else a.value;
    RunDeps(t, Put(a.cells, id, a.cells[id].(visible := vis)), id)
  }

  /** The default of a logical symbol. */
  function RunDefault(t: Table, cs: Cells, props: seq<Prop>): (r: Answer<Tri>)
    requires |cs| == |t.decls|
    ensures Keeps(cs, r.cells) && Unfilled(r.cells) <= Unfilled(cs)
    decreases Unfilled(cs), 5, 0
  {
    var p := RunActive(t, cs, Default, props, 0);
    if p.value.0.None? then Answer(p.cells, NO)
    else
      var a := RunOpt(t, p.cells, p.value.0.value.expr, YES);
      Answer(a.cells, TriAnd(a.value, p.value.1))
  }

  function RunLogical(t: Table, cs: Cells, id: nat): (r: Answer<Tri>)
    requires |cs| == |t.decls| && id < |cs|
    ensures Keeps(cs, r.cells) && Unfilled(r.cells) <= Unfilled(cs)
    decreases Unfilled(cs), 6, 0
  {
    var d := t.decls[id];
    var own :=
      if cs[id].visible != NO && d.user.Some? then Answer(cs, TriAnd(d.user.value, cs[id].visible))
      else
        var dflt := RunDefault(t, cs, d.props);
        var c := dflt.cells[id];
        if c.imp != NO then Answer(dflt.cells, TriAnd(TriOr(dflt.value, c.imp), c.dir)) else dflt;
    var c := own.cells[id];
    Answer(own.cells, Promote(t, d.kind, if c.dir == NO && c.rev != NO then NO else TriOr(own.value, c.rev)))
  }

  /** The text of the default of any other symbol. */
  function RunDefaultText(t: Table, cs: Cells, props: seq<Prop>): (r: Answer<string>)
    requires |cs| == |t.decls|
    ensures Keeps(cs, r.cells) && Unfilled(r.cells) <= Unfilled(cs)
    decreases Unfilled(cs), 5, 0
  {
    var p := RunActive(t, cs, Default, props, 0);
    if p.value.0.Some? && IsSymbol(p.value.0.value.expr) then
      var s := p.value.0.value.expr.value.sym;
      var c := RunNeed(t, p.cells, s);
      Answer(c, SymRaw(t, Values(c), s))
    else Answer(p.cells, "")
  }

  function RunPlain(t: Table, cs: Cells, id: nat): (r: Answer<string>)
    requires |cs| == |t.decls| && id < |cs|
    ensures Keeps(cs, r.cells) && Unfilled(r.cells) <= Unfilled(cs)
    decreases Unfilled(cs), 6, 0
  {
    var d := t.decls[id];
    if cs[id].visible != NO && d.userText.Some? then Answer(cs, d.userText.value)
    else RunDefaultText(t, cs, d.props)
  }

  function RunBound(t: Table, cs: Cells, k: SymType, s: Sym): (r: Answer<int>)
    requires |cs| == |t.decls|
    ensures Keeps(cs, r.cells) && Unfilled(r.cells) <= Unfilled(cs)
    decreases Unfilled(cs), 4, 0
  {
    var c := RunNeed(t, cs, s);
    Answer(c, BoundValue(t, k, s, Values(c)))
  }

  /** The text `text`, or the bound it violates; the upper bound is evaluated only if the lower one is met. */
  function RunClamp(t: Table, cs: Cells, k: SymType, b: Bounds, text: string): (r: Answer<string>)
    requires |cs| == |t.decls|
    ensures Keeps(cs, r.cells) && Unfilled(r.cells) <= Unfilled(cs)
    decreases Unfilled(cs), 5, 0
  {
    var v := t.parse(k, text);
    var low := RunBound(t, cs, k, b.low);
    if v < low.value then Answer(low.cells, t.show(k, low.value))
    else
      var high := RunBound(t, low.cells, k, b.high);
      Answer(high.cells, if v <= high.value then text else t.show(k, high.value))
  }

  function RunRange(t: Table, cs: Cells, id: nat, text: string): (r: Answer<string>)
    requires |cs| == |t.decls| && id < |cs|
    ensures Keeps(cs, r.cells) && Unfilled(r.cells) <= Unfilled(cs)
    decreases Unfilled(cs), 6, 0
  {
    var d := t.decls[id];
    if !IsNumber(d.kind) then Answer(cs, text)
    else
      var p := RunActive(t, cs, Range, d.props, 0);
      if p.value.0.Some? && p.value.0.value.bounds.Some?
      then RunClamp(t, p.cells, d.kind, p.value.0.value.bounds.value, text)
      else Answer(p.cells, text)
  }

  predicate IsLogicalType(k: SymType) {
    k == Boolean || k == Tristate
  }

  /** The value of the symbol under evaluation; a text is stored before its range is looked at. */
  function RunCurr(t: Table, cs: Cells, id: nat): (r: Cells)
    requires |cs| == |t.decls| && id < |cs| && cs[id].valid
    ensures KeepsBut(cs, r, id) && r[id].valid && Unfilled(r) <= Unfilled(cs)
    decreases Unfilled(cs), 7, 0
  {
    if IsLogicalType(t.decls[id].kind) then
      var a := RunLogical(t, cs, id);
      PutCurr(a.cells, id, SymVal(a.value, "n"))
    else
      var a := RunPlain(t, cs, id);
      var b := RunRange(t, PutCurr(a.cells, id, SymVal(NO, a.value)), id, a.value);
      PutCurr(b.cells, id, SymVal(NO, b.value))
  }

  /** The value counted for a symbol that is met again before it has one. */
  function NoValue(k: SymType): SymVal {
    SymVal(NO, if IsLogicalType(k) then "n" else "")
  }

  function Marked(cs: Cells, id: nat): (r: Cells)
    requires id < |cs| && !cs[id].valid
    ensures |r| == |cs| && Unfilled(r) < Unfilled(cs)
  {
    UnfilledPut(cs, id, cs[id].(valid := true));
    cs[id := cs[id].(valid := true)]
  }

  /** Evaluates one symbol unless its cell is filled already. */
  function RunSym(t: Table, cs: Cells, id: nat): (r: Cells)
    requires |cs| == |t.decls| && id < |cs|
    ensures Keeps(cs, r) && r[id].valid && Unfilled(r) <= Unfilled(cs)
    decreases Unfilled(cs), 0, 0
  {
    if cs[id].valid then cs
    else
      var d, c := t.decls[id], Marked(cs, id);
      if d.kind == Unknown then PutCurr(c, id, SymVal(NO, d.name))
      else RunCurr(t, PutCurr(RunVisibility(t, c, id), id, NoValue(d.kind)), id)
  }

  function Ask(t: Table, cs: Cells, id: nat): (r: Answer<SymVal>)
    requires |cs| == |t.decls| && id < |cs|
    ensures Keeps(cs, r.cells) && r.cells[id].valid && r.value == r.cells[id].curr
  {
    var c := RunSym(t, cs, id);
    Answer(c, c[id].curr)
  }

  predicate Exist(requests: seq<nat>, n: nat) {
    forall j | 0 <= j < |requests| :: requests[j] < n
  }

  /** The answers to the first `n` requests. */
  function RunAll(t: Table, cs: Cells, requests: seq<nat>, n: nat): (r: Answer<seq<SymVal>>)
    requires |cs| == |t.decls| && n <= |requests| && Exist(requests, |cs|)
    ensures |r.cells| == |cs| && |r.value| == n
  {
    if n == 0 then Answer(cs, [])
    else
      var a := RunAll(t, cs, requests, n - 1);
      var b := Ask(t, a.cells, requests[n - 1]);
      Answer(b.cells, a.value + [b.value])
  }

  /** Nothing evaluated yet. */
  function Blank(t: Table): (cs: Cells)
    ensures |cs| == |t.decls|
  {
    seq(|t.decls|, _ => Cell(false, SymVal(NO, ""), NO, NO, NO, NO))
  }
}
