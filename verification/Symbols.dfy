/**
 Declared symbols and the equation their values satisfy: each symbol's value is a
 function of the values of the symbols its declaration mentions.
 */
module Symbols {
  import opened Tristate
  import opened Expr

  datatype PropKind =
    | Prompt | Comment | MenuTitle | Default | Choice | Select | Imply | Range | SymbolDef | Reset

  /** The symbols a range goes from and to. */
  datatype Bounds = Bounds(low: Sym, high: Sym)

  /** A property with its condition and, where the kind has them, its expression or bounds. */
  datatype Prop = Prop(kind: PropKind, visible: Option<Expr>, expr: Option<Expr>, bounds: Option<Bounds>) {
    predicate HasText() {
      kind == Prompt || kind == Comment || kind == MenuTitle
    }
  }

  /**
   A symbol as it stands after parsing: `user` and `userText` are the value from the
   configuration file for logical and for textual symbols.
   */
  datatype Decl = Decl(
    name: string, kind: SymType, props: seq<Prop>,
    dirDep: Option<Expr>, revDep: Option<Expr>, implied: Option<Expr>,
    user: Option<Tri>, userText: Option<string>)

  /**
   `modules` is the value of the modules symbol; `num` is the C library's number parser,
   `parse` the same for ranges, which take any text, and `show` prints a number.
   */
  datatype Table = Table(
    decls: seq<Decl>, modules: Tri, num: (SymType, string) -> Number,
    parse: (SymType, string) -> int, show: (SymType, int) -> string)

  /** A computed value: the tristate part and the text stored beside it. */
  datatype SymVal = SymVal(tri: Tri, raw: string)

  type Valuation = seq<SymVal>

  // ----- reading symbols -----

  predicate Declared(t: Table, s: Sym) {
    s.Config? && s.id < |t.decls| && t.decls[s.id].kind == s.kind
  }

  /** The type in force: tristates are bools while modules are off. */
  function EffectiveType(t: Table, k: SymType): SymType {
    if k == Tristate && t.modules == NO then Boolean else k
  }

  /** A mod value of a symbol that cannot be mod counts as yes. */
  function Promote(t: Table, k: SymType, v: Tri): Tri {
    if v == MOD && EffectiveType(t, k) == Boolean then YES else v
  }

  function SymTri(t: Table, vals: Valuation, s: Sym): Tri
    requires |vals| == |t.decls|
  {
    match s
    case SymY => YES
    case SymM => MOD
    case SymN => NO
    case Quoted(_) => NO
    case Config(id, _) => if Declared(t, s) then vals[id].tri else NO
  }

  /** The text stored with a symbol, as opposed to the text shown for it. */
  function SymRaw(t: Table, vals: Valuation, s: Sym): string
    requires |vals| == |t.decls|
  {
    match s
    case SymY => "y"
    case SymM => "m"
    case SymN => "n"
    case Quoted(name) => name
    case Config(id, _) => if Declared(t, s) then vals[id].raw else ""
  }

  function SymText(t: Table, vals: Valuation, s: Sym): string
    requires |vals| == |t.decls|
  {
    if s.Type() == Boolean || s.Type() == Tristate then
      var v := SymTri(t, vals, s);
      if v == MOD && t.modules == NO then "n" else TriText(v)
    else
      SymRaw(t, vals, s)
  }

  function EnvOf(t: Table, vals: Valuation): Env
    requires |vals| == |t.decls|
  {
    Env(s => SymTri(t, vals, s), s => SymText(t, vals, s), t.num)
  }

  // ----- the value of one symbol -----

  /** The best of all prompts' conditions, over the first `n` properties. */
  function BestPrompt(props: seq<Prop>, n: nat, env: Env): Tri
    requires n <= |props|
  {
    if n == 0 then NO
    else
      var best := BestPrompt(props, n - 1, env);
      if props[n - 1].HasText() then TriOr(best, ValueOpt(props[n - 1].visible, env)) else best
  }

  function Visible(t: Table, d: Decl, env: Env): Tri {
    var v := BestPrompt(d.props, |d.props|, env);
    if v == MOD && (d.kind != Tristate || t.modules == NO) then YES else v
  }

  /** A dependency expression's value; `absent` is what a missing one counts as. */
  function DepValue(t: Table, d: Decl, e: Option<Expr>, absent: Tri, env: Env): Tri {
    Promote(t, d.kind, if e.Some? then Value(e.value, env) else absent)
  }

  /** The first property of the kind, from property `i` on, whose condition is not no. */
  function ActiveProp(kind: PropKind, props: seq<Prop>, i: nat, env: Env): (p: Option<Prop>)
    requires i <= |props|
    ensures p.Some? ==> p.value in props && p.value.kind == kind
    decreases |props| - i
  {
    if i == |props| then None
    else if props[i].kind == kind && ValueOpt(props[i].visible, env) != NO then Some(props[i])
    else ActiveProp(kind, props, i + 1, env)
  }

  function DefaultTri(d: Decl, env: Env): Tri {
    var p := ActiveProp(Default, d.props, 0, env);
    if p.None? then NO else TriAnd(ValueOpt(p.value.expr, env), ValueOpt(p.value.visible, env))
  }

  /** User value if visible, else default and implication; then the reverse dependency. */
  function LogicalValue(t: Table, d: Decl, vis: Tri, env: Env): Tri {
    var dir := DepValue(t, d, d.dirDep, YES, env);
    var rev := DepValue(t, d, d.revDep, NO, env);
    var imp := DepValue(t, d, d.implied, NO, env);
    var dflt := DefaultTri(d, env);
    var own :=
      if vis != NO && d.user.Some? then TriAnd(d.user.value, vis)
      else if imp != NO then TriAnd(TriOr(dflt, imp), dir)
      else dflt;
    Promote(t, d.kind, if dir == NO && rev != NO then NO else TriOr(own, rev))
  }

  predicate IsSymbol(e: Option<Expr>) {
    e.Some? && e.value.Symbol?
  }

  /** User text if visible, else that of the default. */
  function PlainValue(t: Table, d: Decl, vals: Valuation): string
    requires |vals| == |t.decls|
  {
    var env := EnvOf(t, vals);
    var p := ActiveProp(Default, d.props, 0, env);
    if Visible(t, d, env) != NO && d.userText.Some? then d.userText.value
    else if p.Some? && IsSymbol(p.value.expr) then SymRaw(t, vals, p.value.expr.value.sym)
    else ""
  }

  predicate IsNumber(k: SymType) {
    k == Int || k == Hex
  }

  /** A bound as a number, in the base of its own type if that has one. */
  function BoundValue(t: Table, k: SymType, s: Sym, vals: Valuation): int
    requires |vals| == |t.decls|
  {
    t.parse(if IsNumber(s.Type()) then s.Type() else k, SymRaw(t, vals, s))
  }

  /** The text, or the bound it violates. */
  function Clamped(t: Table, k: SymType, b: Bounds, text: string, vals: Valuation): string
    requires |vals| == |t.decls|
  {
    var v, low, high := t.parse(k, text), BoundValue(t, k, b.low, vals), BoundValue(t, k, b.high, vals);
    if v < low then t.show(k, low) else if v <= high then text else t.show(k, high)
  }

  /** A text within its range is kept; any other ends up within it, exactly if the range is not empty. */
  lemma ClampedInRange(t: Table, k: SymType, b: Bounds, text: string, vals: Valuation)
    requires |vals| == |t.decls| && forall n: int :: t.parse(k, t.show(k, n)) == n
    ensures var low, high := BoundValue(t, k, b.low, vals), BoundValue(t, k, b.high, vals);
            var r := Clamped(t, k, b, text, vals);
            && (low <= t.parse(k, text) <= high ==> r == text)
            && (low <= t.parse(k, r) <= high <==> low <= high)
  {
  }

  function TextualValue(t: Table, d: Decl, vals: Valuation): string
    requires |vals| == |t.decls|
  {
    var text, p := PlainValue(t, d, vals), ActiveProp(Range, d.props, 0, EnvOf(t, vals));
    if IsNumber(d.kind) && p.Some? && p.value.bounds.Some? then Clamped(t, d.kind, p.value.bounds.value, text, vals)
    else text
  }

  /** The value the declaration calls for when all symbols have the values `vals`. */
  function Step(t: Table, vals: Valuation, d: Decl): SymVal
    requires |vals| == |t.decls|
  {
    match d.kind
    case Boolean => SymVal(LogicalValue(t, d, Visible(t, d, EnvOf(t, vals)), EnvOf(t, vals)), "n")
    case Tristate => SymVal(LogicalValue(t, d, Visible(t, d, EnvOf(t, vals)), EnvOf(t, vals)), "n")
    case Unknown => SymVal(NO, d.name)
    case _ => SymVal(NO, TextualValue(t, d, vals))
  }

  /** Every symbol has exactly the value its declaration calls for. */
  ghost predicate Solution(t: Table, vals: Valuation) {
    |vals| == |t.decls| && forall i | 0 <= i < |vals| :: vals[i] == Step(t, vals, t.decls[i])
  }

  // ----- which symbols a declaration mentions -----

  function ExprSyms(e: Expr): set<Sym> {
    match e
    case Symbol(s) => {s}
    case Not(x) => ExprSyms(x)
    case Bin(_, l, r) => ExprSyms(l) + ExprSyms(r)
    case Rel(_, a, b) => {a, b}
  }

  function OptSyms(e: Option<Expr>): set<Sym> {
    if e.Some? then ExprSyms(e.value) else {}
  }

  /** Conditions of all properties count, expressions only of defaults. */
  function PropSyms(p: Prop): set<Sym> {
    if p.kind == Choice || p.kind == Select || p.kind == Imply then {}
    else OptSyms(p.visible) + if p.kind == Default then OptSyms(p.expr) else {}
  }

  function PropsSyms(props: seq<Prop>): set<Sym> {
    if props == [] then {} else PropSyms(props[0]) + PropsSyms(props[1..])
  }

  /** What the check for recursion looks at. */
  function DeclSyms(d: Decl): set<Sym> {
    OptSyms(d.dirDep) + OptSyms(d.revDep) + OptSyms(d.implied) + PropsSyms(d.props)
  }

  function BoundSyms(props: seq<Prop>): set<Sym> {
    if props == [] then {}
    else
      var b := props[0].bounds;
      BoundSyms(props[1..]) + if props[0].kind == Range && b.Some? then {b.value.low, b.value.high} else {}
  }

  /** What evaluation reads: the bounds of ranges as well. */
  function ReadSyms(d: Decl): set<Sym> {
    DeclSyms(d) + if IsNumber(d.kind) then BoundSyms(d.props) else {}
  }

  /** Symbol `s` is mentioned by an expression that the declaration may have. */
  predicate In(s: Sym, e: Option<Expr>) {
    e.Some? && s in ExprSyms(e.value)
  }

  /** Property `p` makes its symbol depend on `s`: by its condition, or as a default. */
  predicate MentionedBy(s: Sym, p: Prop) {
    p.kind !in {Choice, Select, Imply} && (In(s, p.visible) || (p.kind == Default && In(s, p.expr)))
  }

  lemma {:induction false} PropsSymsExact(props: seq<Prop>, s: Sym)
    ensures s in PropsSyms(props) <==> exists k: nat :: k < |props| && MentionedBy(s, props[k])
  {
    if props != [] {
      PropsSymsExact(props[1..], s);
      if k: nat :| k < |props| && MentionedBy(s, props[k]) {
        if k > 0 { assert MentionedBy(s, props[1..][k - 1]); }
      }
      if k: nat :| k < |props[1..]| && MentionedBy(s, props[1..][k]) { assert MentionedBy(s, props[k + 1]); }
      if s in PropSyms(props[0]) { assert MentionedBy(s, props[0]); }
    }
  }

  /** What counts as a dependency, and nothing else does. */
  lemma DependsExactly(d: Decl, s: Sym)
    ensures s in DeclSyms(d) <==>
            In(s, d.dirDep) || In(s, d.revDep) || In(s, d.implied) ||
            exists k: nat :: k < |d.props| && MentionedBy(s, d.props[k])
  {
    PropsSymsExact(d.props, s);
  }

  /** Symbol `i` depends on symbol `j`. */
  predicate Edge(t: Table, i: nat, j: nat) {
    i < |t.decls| && exists s <- DeclSyms(t.decls[i]) :: Declared(t, s) && s.id == j
  }

  /** `rank` decreases along every dependency. */
  ghost predicate Ranked(t: Table, rank: seq<nat>) {
    && |rank| == |t.decls|
    && forall i: nat, j: nat | i < |rank| && j < |rank| && Edge(t, i, j) :: rank[j] < rank[i]
  }

  /** Symbol `i` reads symbol `j` when it is evaluated. */
  predicate Reads(t: Table, i: nat, j: nat) {
    i < |t.decls| && exists s <- ReadSyms(t.decls[i]) :: Declared(t, s) && s.id == j
  }

  /** `rank` decreases along everything that is read. */
  ghost predicate RankedReads(t: Table, rank: seq<nat>) {
    && |rank| == |t.decls|
    && forall i: nat, j: nat | i < |rank| && j < |rank| && Reads(t, i, j) :: rank[j] < rank[i]
  }

  /** No number has a range. */
  predicate NoRanges(t: Table) {
    forall d <- t.decls | IsNumber(d.kind) :: BoundSyms(d.props) == {}
  }

  lemma RankedNoRanges(t: Table, rank: seq<nat>)
    requires Ranked(t, rank) && NoRanges(t)
    ensures RankedReads(t, rank)
  {
    forall i: nat, j: nat | i < |rank| && j < |rank| && Reads(t, i, j) ensures rank[j] < rank[i] {
      assert t.decls[i] in t.decls && ReadSyms(t.decls[i]) == DeclSyms(t.decls[i]);
      assert Edge(t, i, j);
    }
  }

  lemma {:induction false} BoundInProps(props: seq<Prop>, p: Prop)
    requires p in props && p.kind == Range && p.bounds.Some?
    ensures {p.bounds.value.low, p.bounds.value.high} <= BoundSyms(props)
  {
    if props[0] != p { BoundInProps(props[1..], p); }
  }

  lemma {:induction false} PropInProps(props: seq<Prop>, i: nat)
    requires i < |props|
    ensures PropSyms(props[i]) <= PropsSyms(props)
  {
    if i > 0 { PropInProps(props[1..], i - 1); }
  }

  // ----- values depend only on mentioned symbols -----

  ghost predicate AgreeOn(t: Table, u: Valuation, v: Valuation, syms: set<Sym>) {
    && |u| == |v| == |t.decls|
    && forall s <- syms | Declared(t, s) :: u[s.id] == v[s.id]
  }

  lemma {:induction false} ValueAgrees(t: Table, u: Valuation, v: Valuation, e: Expr)
    requires AgreeOn(t, u, v, ExprSyms(e))
    ensures Value(e, EnvOf(t, u)) == Value(e, EnvOf(t, v))
  {
    match e
    case Symbol(s) =>
    case Not(x) => ValueAgrees(t, u, v, x);
    case Bin(_, l, r) => ValueAgrees(t, u, v, l); ValueAgrees(t, u, v, r);
    case Rel(_, a, b) =>
      assert a in ExprSyms(e) && b in ExprSyms(e);
      assert SymText(t, u, a) == SymText(t, v, a) && SymText(t, u, b) == SymText(t, v, b);
  }

  lemma ValueOptAgrees(t: Table, u: Valuation, v: Valuation, e: Option<Expr>)
    requires AgreeOn(t, u, v, OptSyms(e))
    ensures ValueOpt(e, EnvOf(t, u)) == ValueOpt(e, EnvOf(t, v))
  {
    if e.Some? { ValueAgrees(t, u, v, e.value); }
  }

  lemma {:induction false} BestPromptAgrees(t: Table, u: Valuation, v: Valuation, props: seq<Prop>, n: nat)
    requires n <= |props| && AgreeOn(t, u, v, PropsSyms(props))
    ensures BestPrompt(props, n, EnvOf(t, u)) == BestPrompt(props, n, EnvOf(t, v))
  {
    if n > 0 {
      BestPromptAgrees(t, u, v, props, n - 1);
      PropInProps(props, n - 1);
      if props[n - 1].HasText() { ValueOptAgrees(t, u, v, props[n - 1].visible); }
    }
  }

  lemma {:induction false} ActivePropAgrees(t: Table, u: Valuation, v: Valuation, kind: PropKind, props: seq<Prop>,
                                            i: nat)
    requires i <= |props| && AgreeOn(t, u, v, PropsSyms(props)) && (kind == Default || kind == Range)
    ensures ActiveProp(kind, props, i, EnvOf(t, u)) == ActiveProp(kind, props, i, EnvOf(t, v))
    ensures var p := ActiveProp(kind, props, i, EnvOf(t, u));
            p.Some? && kind == Default ==> AgreeOn(t, u, v, OptSyms(p.value.visible) + OptSyms(p.value.expr))
    decreases |props| - i
  {
    if i < |props| {
      PropInProps(props, i);
      if props[i].kind == kind { ValueOptAgrees(t, u, v, props[i].visible); }
      ActivePropAgrees(t, u, v, kind, props, i + 1);
    }
  }

  lemma DefaultAgrees(t: Table, u: Valuation, v: Valuation, d: Decl)
    requires AgreeOn(t, u, v, PropsSyms(d.props))
    ensures DefaultTri(d, EnvOf(t, u)) == DefaultTri(d, EnvOf(t, v))
  {
    ActivePropAgrees(t, u, v, Default, d.props, 0);
    var p := ActiveProp(Default, d.props, 0, EnvOf(t, u));
    if p.Some? {
      ValueOptAgrees(t, u, v, p.value.visible);
      ValueOptAgrees(t, u, v, p.value.expr);
    }
  }

  lemma DepAgrees(t: Table, u: Valuation, v: Valuation, d: Decl, e: Option<Expr>, absent: Tri)
    requires AgreeOn(t, u, v, OptSyms(e))
    ensures DepValue(t, d, e, absent, EnvOf(t, u)) == DepValue(t, d, e, absent, EnvOf(t, v))
  {
    if e.Some? { ValueAgrees(t, u, v, e.value); }
  }

  lemma PlainAgrees(t: Table, u: Valuation, v: Valuation, d: Decl)
    requires AgreeOn(t, u, v, DeclSyms(d))
    ensures PlainValue(t, d, u) == PlainValue(t, d, v)
  {
    BestPromptAgrees(t, u, v, d.props, |d.props|);
    ActivePropAgrees(t, u, v, Default, d.props, 0);
  }

  lemma TextualAgrees(t: Table, u: Valuation, v: Valuation, d: Decl)
    requires AgreeOn(t, u, v, ReadSyms(d))
    ensures TextualValue(t, d, u) == TextualValue(t, d, v)
  {
    PlainAgrees(t, u, v, d);
    ActivePropAgrees(t, u, v, Range, d.props, 0);
    var p := ActiveProp(Range, d.props, 0, EnvOf(t, u));
    if IsNumber(d.kind) && p.Some? && p.value.bounds.Some? { BoundInProps(d.props, p.value); }
  }

  lemma LogicalAgrees(t: Table, u: Valuation, v: Valuation, d: Decl)
    requires AgreeOn(t, u, v, DeclSyms(d))
    ensures LogicalValue(t, d, Visible(t, d, EnvOf(t, u)), EnvOf(t, u)) ==
            LogicalValue(t, d, Visible(t, d, EnvOf(t, v)), EnvOf(t, v))
  {
    BestPromptAgrees(t, u, v, d.props, |d.props|);
    DefaultAgrees(t, u, v, d);
    DepAgrees(t, u, v, d, d.dirDep, YES);
    DepAgrees(t, u, v, d, d.revDep, NO);
    DepAgrees(t, u, v, d, d.implied, NO);
  }

  lemma StepAgrees(t: Table, u: Valuation, v: Valuation, d: Decl)
    requires AgreeOn(t, u, v, ReadSyms(d))
    ensures Step(t, u, d) == Step(t, v, d)
  {
    LogicalAgrees(t, u, v, d);
    TextualAgrees(t, u, v, d);
  }

  // ----- existence and uniqueness -----

  /** Without cyclic dependencies there is at most one solution. */
  lemma {:induction false} SolutionUnique(t: Table, rank: seq<nat>, u: Valuation, v: Valuation, i: nat)
    requires RankedReads(t, rank) && Solution(t, u) && Solution(t, v) && i < |t.decls|
    ensures u[i] == v[i]
    decreases rank[i]
  {
    forall s <- ReadSyms(t.decls[i]) | Declared(t, s)
      ensures u[s.id] == v[s.id]
    {
      assert Reads(t, i, s.id);
      SolutionUnique(t, rank, u, v, s.id);
    }
    StepAgrees(t, u, v, t.decls[i]);
  }

  /** Values of all symbols of rank below `n`; the others are placeholders. */
  function Solve(t: Table, rank: seq<nat>, n: nat): (vals: Valuation)
    requires |rank| == |t.decls|
    ensures |vals| == |t.decls|
  {
    if n == 0 then seq(|t.decls|, _ => SymVal(NO, ""))
    else
      var prev := Solve(t, rank, n - 1);
      seq(|t.decls|, i requires 0 <= i < |t.decls| =>
        if rank[i] == n - 1 then Step(t, prev, t.decls[i]) else prev[i])
  }

  /** A symbol reads only symbols whose values do not change in the round `n`. */
  lemma SolveStep(t: Table, rank: seq<nat>, n: nat, i: nat)
    requires RankedReads(t, rank) && n > 0 && i < |t.decls| && rank[i] < n
    ensures Step(t, Solve(t, rank, n - 1), t.decls[i]) == Step(t, Solve(t, rank, n), t.decls[i])
  {
    var prev, now := Solve(t, rank, n - 1), Solve(t, rank, n);
    forall s <- ReadSyms(t.decls[i]) | Declared(t, s)
      ensures prev[s.id] == now[s.id]
    {
      assert Reads(t, i, s.id);
    }
    StepAgrees(t, prev, now, t.decls[i]);
  }

  lemma {:induction false} SolveCorrect(t: Table, rank: seq<nat>, n: nat)
    requires RankedReads(t, rank)
    ensures forall i | 0 <= i < |t.decls| && rank[i] < n ::
              Solve(t, rank, n)[i] == Step(t, Solve(t, rank, n), t.decls[i])
  {
    if n > 0 {
      SolveCorrect(t, rank, n - 1);
      forall i | 0 <= i < |t.decls| && rank[i] < n
        ensures Solve(t, rank, n)[i] == Step(t, Solve(t, rank, n), t.decls[i])
      {
        SolveStep(t, rank, n, i);
      }
    }
  }

  function MaxRank(rank: seq<nat>): (m: nat)
    ensures forall r <- rank :: r <= m
  {
    if rank == [] then 0
    else
      var m := MaxRank(rank[1..]);
      assert forall r <- rank :: r == rank[0] || r in rank[1..];
      if rank[0] > m then rank[0] else m
  }

  lemma SolutionExists(t: Table, rank: seq<nat>) returns (vals: Valuation)
    requires RankedReads(t, rank)
    ensures Solution(t, vals)
  {
    var n := MaxRank(rank) + 1;
    SolveCorrect(t, rank, n);
    vals := Solve(t, rank, n);
    assert forall i | 0 <= i < |rank| :: rank[i] in rank;
  }

  /** Computed values form an environment the expression optimiser may assume. */
  lemma SolutionWellFormed(t: Table, vals: Valuation)
    requires Solution(t, vals) && forall v: Tri :: t.num(Unknown, TriText(v)) == NotANumber
    ensures WellFormed(EnvOf(t, vals))
  {
    var env := EnvOf(t, vals);
    forall s: Sym | s.Type() == Boolean ensures env.tri(s) != MOD {
      if Declared(t, s) { assert vals[s.id] == Step(t, vals, t.decls[s.id]); }
    }
    forall s: Sym | s.IsLogical() ensures env.text(s) == TriText(env.tri(s)) {
      if Declared(t, s) { assert vals[s.id] == Step(t, vals, t.decls[s.id]); }
    }
  }

  // ----- selection -----

  /** `d` is an operand of the disjunction `e`. */
  predicate Disjunct(e: Expr, d: Expr) {
    e == d || (Is(e, OrOp) && (Disjunct(e.left, d) || Disjunct(e.right, d)))
  }

  lemma {:induction false} DisjunctBelow(e: Expr, d: Expr, env: Env)
    requires Disjunct(e, d)
    ensures Value(d, env) <= Value(e, env)
  {
    if e != d {
      if Disjunct(e.left, d) { DisjunctBelow(e.left, d, env); } else { DisjunctBelow(e.right, d, env); }
    }
  }

  /** The operand a `select` or `imply` in `a` under condition `cond` adds to its target. */
  function SelectTerm(a: Sym, cond: Option<Expr>): Expr {
    if cond.Some? then And(Symbol(a), cond.value) else Symbol(a)
  }

  /**
   A selected symbol whose own dependencies are met is at least as high as the
   selecting symbol and condition; if they are not met it is no.
   */
  lemma SelectRespected(t: Table, vals: Valuation, b: nat, a: Sym, cond: Option<Expr>)
    requires Solution(t, vals) && b < |t.decls|
    requires var d := t.decls[b];
             && (d.kind == Boolean || d.kind == Tristate)
             && d.revDep.Some? && Disjunct(d.revDep.value, SelectTerm(a, cond))
    ensures var env, d := EnvOf(t, vals), t.decls[b];
            var forced := TriAnd(env.tri(a), ValueOpt(cond, env));
            if DepValue(t, d, d.dirDep, YES, env) == NO && forced != NO
            then vals[b].tri == NO
            else vals[b].tri >= forced
  {
    var env, d := EnvOf(t, vals), t.decls[b];
    DisjunctBelow(d.revDep.value, SelectTerm(a, cond), env);
    assert vals[b] == Step(t, vals, d);
  }
}
