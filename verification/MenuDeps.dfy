/**
 The expression work of menu finalisation: dependencies of enclosing menus are
 pushed down through the optimiser, and the test that puts an entry into an
 automatic submenu.
 */
module MenuDeps {
  import opened Tristate
  import opened Expr
  import opened ExprNodes
  import opened ExprEquality
  import opened ExprCanon
  import opened ExprTransform
  import opened ExprDups
  import Symbols

  predicate AdmissibleOpt(e: Option<Expr>, env: Env) {
    e.Some? ==> Admissible(e.value, env)
  }

  predicate NnfOpt(e: Option<Expr>) {
    e.Some? ==> Nnf(e.value)
  }

  /** Conjunction that treats an absent operand as not written. */
  function AndOpt(a: Option<Expr>, b: Option<Expr>): Option<Expr> {
    if a.None? then b else if b.None? then a else Some(And(a.value, b.value))
  }

  /** Every bare m becomes m && MODULES. */
  function RewriteM(e: Expr, modules: Sym): Expr {
    match e
    case Symbol(s) => if s == SymM then And(e, Symbol(modules)) else e
    case Not(x) => Not(RewriteM(x, modules))
    case Bin(c, l, r) => Bin(c, RewriteM(l, modules), RewriteM(r, modules))
    case Rel(_, _, _) => e
  }

  /** The value of an expression in which a bare m means no more than MODULES allows. */
  function ValueM(e: Expr, env: Env, modules: Sym): Tri {
    match e
    case Symbol(s) => if s == SymM then TriAnd(MOD, env.tri(modules)) else env.tri(s)
    case Not(x) => TriNot(ValueM(x, env, modules))
    case Bin(c, l, r) => Apply(c, ValueM(l, env, modules), ValueM(r, env, modules))
    case Rel(_, _, _) => Value(e, env)
  }

  function ValueMOpt(e: Option<Expr>, env: Env, modules: Sym): Tri {
    if e.Some? then ValueM(e.value, env, modules) else YES
  }

  lemma {:induction false} RewriteMValue(e: Expr, env: Env, modules: Sym)
    requires WellFormed(env)
    ensures Value(RewriteM(e, modules), env) == ValueM(e, env, modules)
    ensures Admissible(e, env) ==> Admissible(RewriteM(e, modules), env)
  {
    match e
    case Symbol(s) =>
      if s == SymM { assert Value(And(e, Symbol(modules)), env) == TriAnd(Value(e, env), Value(Symbol(modules), env)); }
    case Not(x) => RewriteMValue(x, env, modules);
    case Bin(_, l, r) => RewriteMValue(l, env, modules); RewriteMValue(r, env, modules);
    case Rel(_, _, _) =>
  }

  /** The same on the stored tree, which gets a new node for every m. */
  method RewriteMNode(e: Node, modules: Sym) returns (r: Node)
    requires e.Valid()
    modifies e.repr
    ensures r.Valid() && fresh(r.repr - old(e.repr)) && r.model == RewriteM(old(e.model), modules)
    decreases e.repr
  {
    r := e;
    if e.op == IsNot {
      assert e.Owns(e.left);
      var x := RewriteMNode(e.left, modules);
      e.BecomeNot(x);
    } else if e.op.IsBin? {
      var x, y := e.left, e.right;
      assert e.Owns(x) && e.Owns(y);
      x := RewriteMNode(x, modules);
      y := RewriteMNode(y, modules);
      e.BecomeBin(e.op.conn, x, y);
    } else if e.op == IsSymbol && e.a == SymM {
      var m := new Node.Leaf(modules);
      r := new Node.Junction(AndOp, e, m);
    }
  }

  // ----- conditions -----

  /** A node's own condition joined to the one it inherits, rewritten and simplified. */
  function Conjoin(base: Option<Expr>, own: Option<Expr>, modules: Sym): Option<Expr> {
    var o := if own.Some? then Some(Transform(RewriteM(own.value, modules))) else None;
    var both := AndOpt(base, o);
    if both.None? then None else Some(Optimized(both.value))
  }

  /** Its value is the minimum of the two, with m read as m && MODULES in the own condition. */
  lemma ConjoinValue(base: Option<Expr>, own: Option<Expr>, modules: Sym, env: Env)
    requires WellFormed(env) && AdmissibleOpt(base, env) && AdmissibleOpt(own, env)
    ensures var r := Conjoin(base, own, modules);
            AdmissibleOpt(r, env) && ValueOpt(r, env) == TriAnd(ValueOpt(base, env), ValueMOpt(own, env, modules))
  {
    if own.Some? {
      RewriteMValue(own.value, env, modules);
      TransformValue(RewriteM(own.value, modules), env);
    }
    var both := AndOpt(base, if own.Some? then Some(Transform(RewriteM(own.value, modules))) else None);
    if both.Some? { OptimizedProperties(both.value); }
  }

  lemma ConjoinNormal(base: Option<Expr>, own: Option<Expr>, modules: Sym)
    requires NnfOpt(base)
    ensures NnfOpt(Conjoin(base, own, modules))
  {
    if own.Some? { TransformNormal(RewriteM(own.value, modules)); }
    var both := AndOpt(base, if own.Some? then Some(Transform(RewriteM(own.value, modules))) else None);
    if both.Some? { OptimizedProperties(both.value); }
  }

  method Combine(base: Option<Expr>, own: Option<Expr>, modules: Sym) returns (r: Option<Expr>)
    ensures r == Conjoin(base, own, modules)
  {
    var o := if own.Some? then Some(Transform(RewriteM(own.value, modules))) else None;
    var both := AndOpt(base, o);
    if both.None? { return None; }
    var e := EliminateDups(both.value);
    r := Some(e);
  }

  /** FOO!=n shortened to FOO, if it is to be. */
  function Shortened(e: Option<Expr>, shorten: bool): Option<Expr> {
    if shorten && e.Some? then Some(TransBool(e.value)) else e
  }

  predicate StaysYesOpt(e: Option<Expr>, env: Env) {
    e.Some? ==> StaysYes(e.value, env)
  }

  /** Shortening lowers a condition exactly where it is a yes that rests on a tristate being mod, and then to mod. */
  lemma ShortenedValue(e: Option<Expr>, shorten: bool, env: Env)
    requires WellFormed(env) && NnfOpt(e)
    ensures ValueOpt(Shortened(e, shorten), env) ==
            if shorten && ValueOpt(e, env) == YES && !StaysYesOpt(e, env) then MOD else ValueOpt(e, env)
    ensures NnfOpt(Shortened(e, shorten)) && (AdmissibleOpt(e, env) ==> AdmissibleOpt(Shortened(e, shorten), env))
  {
    if e.Some? {
      TransBoolKeepsNo(e.value, env);
      TransBoolExact(e.value, env);
    }
  }

  /** The condition of a property; for symbols other than tristates it is shortened. */
  function PropCondition(base: Option<Expr>, own: Option<Expr>, modules: Sym, shorten: bool): Option<Expr> {
    Shortened(Conjoin(base, own, modules), shorten)
  }

  method CombineProp(base: Option<Expr>, own: Option<Expr>, modules: Sym, shorten: bool) returns (r: Option<Expr>)
    ensures r == PropCondition(base, own, modules, shorten)
  {
    r := Combine(base, own, modules);
    if shorten && r.Some? { r := Some(TransBool(r.value)); }
  }

  // ----- automatic submenus -----

  predicate ContainsSymbol(e: Expr, s: Sym) {
    match e
    case Bin(_, l, r) => ContainsSymbol(l, s) || ContainsSymbol(r, s)
    case Symbol(x) => x == s
    case Rel(_, a, b) => a == s || b == s
    case Not(x) => ContainsSymbol(x, s)
  }

  predicate DependsSymbol(e: Expr, s: Sym) {
    match e
    case Bin(c, l, r) => c == AndOp && (DependsSymbol(l, s) || DependsSymbol(r, s))
    case Symbol(x) => x == s
    case Rel(op, a, b) => a == s && ((op == Eq && (b == SymY || b == SymM)) || (op == Ne && b == SymN))
    case Not(_) => false
  }

  /** An operand that is not no only while `s` is not no: s, s=y, s=m or s!=n. */
  predicate AsksFor(x: Expr, s: Sym) {
    x == Symbol(s) || x == Rel(Eq, s, SymY) || x == Rel(Eq, s, SymM) || x == Rel(Ne, s, SymN)
  }

  /** An absolute dependency is such an operand of the conjunction. */
  lemma {:induction false} DependsSymbolExact(e: Expr, s: Sym)
    ensures DependsSymbol(e, s) <==> exists x <- Operands(AndOp, e) :: AsksFor(x, s)
  {
    if Is(e, AndOp) {
      DependsSymbolExact(e.left, s);
      DependsSymbolExact(e.right, s);
      assert forall x :: x in Operands(AndOp, e) <==> x in Operands(AndOp, e.left) || x in Operands(AndOp, e.right);
    } else {
      assert Operands(AndOp, e) == {e} && (DependsSymbol(e, s) <==> AsksFor(e, s));
    }
  }

  lemma {:induction false} ContainsSymbolExact(e: Expr, s: Sym)
    ensures ContainsSymbol(e, s) <==> s in Symbols.ExprSyms(e)
  {
    match e
    case Bin(_, l, r) => ContainsSymbolExact(l, s); ContainsSymbolExact(r, s);
    case Not(x) => ContainsSymbolExact(x, s);
    case _ =>
  }

  /** An absolute dependency: the expression is not no only while the symbol is not no. */
  lemma {:induction false} DependsSymbolSound(e: Expr, s: Sym, env: Env)
    requires WellFormed(env) && s.IsLogical() && DependsSymbol(e, s) && Value(e, env) != NO
    ensures env.tri(s) != NO
  {
    match e
    case Bin(_, l, r) =>
      if DependsSymbol(l, s) { DependsSymbolSound(l, s, env); } else { DependsSymbolSound(r, s, env); }
    case Rel(_, _, b) => TestYmn(env, s, b);
    case _ =>
  }

  lemma {:induction false} TransCompareAdmissible(e: Expr, equal: bool, c: Sym, env: Env)
    requires c == SymY || c == SymN
    ensures Admissible(e, env) ==> Admissible(TransCompare(e, equal, c), env)
  {
    match e
    case Bin(_, l, r) => TransCompareAdmissible(l, true, c, env); TransCompareAdmissible(r, true, c, env);
    case Not(x) => TransCompareAdmissible(x, !equal, c, env);
    case _ =>
  }

  /** Where testing an expression for n means what it says. */
  predicate Testable(e: Option<Expr>, env: Env) {
    e.Some? ==> Admissible(e.value, env) && NoModUnderNot(e.value, env) && LogicalSymbols(e.value)
  }

  /** The test `e != n`, simplified. */
  function TestNotNo(e: Option<Expr>): Expr {
    Optimized(Transform(TransCompareOpt(e, false, SymN)))
  }

  lemma TestNotNoValue(e: Option<Expr>, env: Env)
    requires WellFormed(env) && Testable(e, env)
    ensures Value(TestNotNo(e), env) == FromBool(ValueOpt(e, env) != NO)
    ensures Admissible(TestNotNo(e), env)
  {
    var t := TransCompareOpt(e, false, SymN);
    if e.Some? {
      TransCompareValue(e.value, false, SymN, env);
      TransCompareAdmissible(e.value, false, SymN, env);
    } else {
      assert Value(t, env) == TriNot(Value(Symbol(SymN), env));
    }
    TransformValue(t, env);
    OptimizedProperties(Transform(t));
  }

  method NotNoTest(e: Option<Expr>) returns (r: Expr)
    ensures r == TestNotNo(e)
  {
    r := EliminateDups(Transform(TransCompareOpt(e, false, SymN)));
  }

  /** Undoing an elimination keeps the order of values. */
  lemma RestoreMonotone(minLast: bool, v: Tri, w: Tri, x: Tri, y: Tri)
    requires x <= y
    ensures Restore(minLast, v, w, x) <= Restore(minLast, v, w, y)
  {
  }

  /** Does an entry with condition `dep` belong below symbol `s`, whose own prompt has condition `own`? */
  predicate Belongs(s: Sym, own: Option<Expr>, dep: Option<Expr>) {
    && dep.Some? && ContainsSymbol(dep.value, s)
    && (DependsSymbol(dep.value, s) || EliminateEq(TestNotNo(dep), TestNotNo(own)).1 == ExprY)
  }

  /** If so, whenever the entry's condition is not no, the symbol or its prompt's condition is not no. */
  lemma BelongsSound(s: Sym, own: Option<Expr>, dep: Option<Expr>, env: Env)
    requires Belongs(s, own, dep) && ValueOpt(dep, env) != NO
    requires WellFormed(env) && Testable(own, env) && Testable(dep, env) && s.IsLogical()
    ensures env.tri(s) != NO || ValueOpt(own, env) != NO
  {
    if DependsSymbol(dep.value, s) {
      DependsSymbolSound(dep.value, s, env);
    } else {
      var test, base := TestNotNo(dep), TestNotNo(own);
      var rest := EliminateEq(test, base);
      TestNotNoValue(dep, env);
      TestNotNoValue(own, env);
      var minLast, v, w := EliminateEqValue(test, base, env);
      RestoreMonotone(minLast, v, w, Value(rest.0, env), YES);
    }
  }

  /** An entry that depends on the symbol outright always belongs below it. */
  lemma BelongsOutright(s: Sym, own: Option<Expr>, dep: Expr)
    requires exists x <- Operands(AndOp, dep) :: AsksFor(x, s)
    ensures Belongs(s, own, Some(dep))
  {
    DependsSymbolExact(dep, s);
    DependsContains(dep, s);
  }

  /**
   Where the entry's condition is tested by an AND, without y and n operands, it belongs below the
   symbol exactly if it mentions the symbol and either depends on it outright or has all operands
   of the test of the symbol's prompt.
   */
  lemma BelongsExact(s: Sym, own: Option<Expr>, dep: Expr)
    requires var test, base := TestNotNo(Some(dep)), TestNotNo(own);
             Is(test, AndOp) && NoYn(test) && NoYn(base) && !IsYn(base)
    ensures Belongs(s, own, Some(dep)) <==>
            && s in Symbols.ExprSyms(dep)
            && ((exists x <- Operands(AndOp, dep) :: AsksFor(x, s)) ||
                Items(AndOp, TestNotNo(own)) <= Items(AndOp, TestNotNo(Some(dep))))
  {
    DependsSymbolExact(dep, s);
    ContainsSymbolExact(dep, s);
    AllShared(TestNotNo(Some(dep)), TestNotNo(own));
  }

  method BelongsBelow(s: Sym, own: Option<Expr>, base: Expr, dep: Option<Expr>) returns (yes: bool)
    requires base == TestNotNo(own)
    ensures yes == Belongs(s, own, dep)
  {
    if dep.None? || !ContainsSymbol(dep.value, s) { return false; }
    if DependsSymbol(dep.value, s) { return true; }
    var test := NotNoTest(dep);
    yes := EliminateEq(test, base).1 == ExprY;
  }

  lemma {:induction false} DependsContains(e: Expr, s: Sym)
    ensures DependsSymbol(e, s) ==> ContainsSymbol(e, s)
  {
    if e.Bin? { DependsContains(e.left, s); DependsContains(e.right, s); }
  }
}
