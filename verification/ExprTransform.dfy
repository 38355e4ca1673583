/**
 Rewriting into negation normal form, and the two translations between an
 expression and tests of its value.
 */
module ExprTransform {
  import opened Tristate
  import opened Expr

  // ----- expr_transform -----

  /** Termination weight: De Morgan adds a node but halves what stands under a NOT. */
  function Weight(e: Expr): (n: nat)
    ensures n >= 1
  {
    match e
    case Symbol(_) => 1
    case Rel(_, _, _) => 2
    case Not(x) => 2 * Weight(x)
    case Bin(_, l, r) => 1 + Weight(l) + Weight(r)
  }

  function Negated(op: RelOp): RelOp {
    match op
    case Eq => Ne
    case Ne => Eq
    case Le => Gt
    case Ge => Lt
    case Lt => Ge
    case Gt => Le
  }

  /** Tests of a bool symbol against y, m, n are replaced by the symbol itself. */
  function TransformRel(op: RelOp, a: Sym, b: Sym): (r: Expr)
    ensures Weight(r) <= 2
  {
    if a.Type() != Boolean then Rel(op, a, b)
    else match (op, b)
      case (Eq, SymN) => Not(Symbol(a))
      case (Eq, SymM) => ExprN
      case (Eq, SymY) => Symbol(a)
      case (Ne, SymN) => Symbol(a)
      case (Ne, SymM) => ExprY
      case (Ne, SymY) => Not(Symbol(a))
      case _ => Rel(op, a, b)
  }

  function DeMorgan(c: Conn, l: Expr, r: Expr): (d: Expr)
    ensures Weight(d) == 1 + 2 * Weight(l) + 2 * Weight(r)
    ensures Weight(Bin(c, l, r)) == 1 + Weight(l) + Weight(r)
  {
    Bin(Dual(c), Not(l), Not(r))
  }

  lemma DeMorganValue(c: Conn, l: Expr, r: Expr, env: Env)
    ensures Value(DeMorgan(c, l, r), env) == TriNot(Value(Bin(c, l, r), env))
    ensures Admissible(DeMorgan(c, l, r), env) == Admissible(Bin(c, l, r), env)
  {
    assert Value(DeMorgan(c, l, r), env) == Apply(Dual(c), Value(Not(l), env), Value(Not(r), env));
    assert Admissible(Not(l), env) == Admissible(l, env) && Admissible(Not(r), env) == Admissible(r, env);
  }

  function Transform(e: Expr): (r: Expr)
    ensures Weight(r) <= Weight(e)
    decreases Weight(e)
  {
    match e
    case Symbol(_) => e
    case Rel(op, a, b) => TransformRel(op, a, b)
    case Bin(c, l, r) => Bin(c, Transform(l), Transform(r))
    case Not(x) =>
      match Transform(x)
      case Not(y) => Transform(y)
      case Rel(op, a, b) => Rel(Negated(op), a, b)
      case Bin(c, l, r) => Transform(DeMorgan(c, l, r))
      case Symbol(SymY) => ExprN
      case Symbol(SymM) => ExprM
      case Symbol(SymN) => ExprY
      case Symbol(s) => Not(Symbol(s))
  }

  lemma TransformRelValue(op: RelOp, a: Sym, b: Sym, env: Env)
    requires WellFormed(env)
    ensures Value(TransformRel(op, a, b), env) == Value(Rel(op, a, b), env)
  {
    if a.Type() == Boolean && b.IsYmn() {
      CompareYmn(env, a, b);
    }
  }

  lemma {:induction false} TransformValue(e: Expr, env: Env)
    requires WellFormed(env)
    ensures Value(Transform(e), env) == Value(e, env)
    ensures Admissible(e, env) ==> Admissible(Transform(e), env)
    decreases Weight(e)
  {
    match e
    case Symbol(_) =>
    case Rel(op, a, b) => TransformRelValue(op, a, b, env);
    case Bin(c, l, r) =>
      TransformValue(l, env);
      TransformValue(r, env);
    case Not(x) =>
      TransformValue(x, env);
      match Transform(x)
      case Not(y) => TransformValue(y, env);
      case Bin(c, l, r) =>
        DeMorganValue(c, l, r, env);
        TransformValue(DeMorgan(c, l, r), env);
      case _ =>
  }

  /** NOT stands only on a symbol other than y, m, n. */
  predicate Nnf(e: Expr) {
    match e
    case Not(x) => x.Symbol? && !x.sym.IsYmn()
    case Bin(_, l, r) => Nnf(l) && Nnf(r)
    case _ => true
  }

  /** No bool symbol is tested for equality with y, m or n. */
  predicate BoolTestFree(e: Expr) {
    match e
    case Symbol(_) => true
    case Not(x) => BoolTestFree(x)
    case Bin(_, l, r) => BoolTestFree(l) && BoolTestFree(r)
    case Rel(op, a, b) => !(a.Type() == Boolean && b.IsYmn() && (op == Eq || op == Ne))
  }

  /** The normal forms are reached, and they are exactly the fixed points. */
  lemma {:induction false} TransformNormal(e: Expr)
    ensures Nnf(Transform(e)) && BoolTestFree(Transform(e))
    decreases Weight(e)
  {
    match e
    case Symbol(_) =>
    case Rel(op, a, b) =>
    case Bin(c, l, r) =>
      TransformNormal(l);
      TransformNormal(r);
    case Not(x) =>
      TransformNormal(x);
      match Transform(x)
      case Not(y) => TransformNormal(y);
      case Bin(c, l, r) => TransformNormal(DeMorgan(c, l, r));
      case _ =>
  }

  lemma {:induction false} TransformFixed(e: Expr)
    ensures Transform(e) == e <==> Nnf(e) && BoolTestFree(e)
  {
    if Transform(e) == e {
      TransformNormal(e);
    } else if e.Bin? {
      TransformFixed(e.left);
      TransformFixed(e.right);
    }
  }

  lemma TransformIdempotent(e: Expr)
    ensures Transform(Transform(e)) == Transform(e)
  {
    TransformNormal(e);
    TransformFixed(Transform(e));
  }

  // ----- expr_trans_bool -----

  /** FOO!=n becomes FOO. */
  function TransBool(e: Expr): Expr {
    match e
    case Symbol(_) => e
    case Not(x) => Not(TransBool(x))
    case Bin(c, l, r) => Bin(c, TransBool(l), TransBool(r))
    case Rel(op, a, b) => if op == Ne && a.Type() == Tristate && b == SymN then Symbol(a) else e
  }

  lemma {:induction false} TransBoolKeepsNo(e: Expr, env: Env)
    requires WellFormed(env) && Nnf(e)
    ensures Value(TransBool(e), env) == NO <==> Value(e, env) == NO
    ensures Value(TransBool(e), env) <= Value(e, env)
    ensures Nnf(TransBool(e))
    ensures Admissible(e, env) ==> Admissible(TransBool(e), env)
  {
    match e
    case Bin(_, l, r) =>
      TransBoolKeepsNo(l, env);
      TransBoolKeepsNo(r, env);
    case Rel(Ne, a, SymN) =>
      if a.Type() == Tristate { CompareYmn(env, a, SymN); }
    case _ =>
  }

  /** Below a NOT the rewriting can turn no into mod. */
  lemma TransBoolUnderNot(s: Sym, env: Env)
    requires WellFormed(env) && s.Type() == Tristate
    ensures var e := Not(Rel(Ne, s, SymN));
            (Value(TransBool(e), env) == NO <==> Value(e, env) == NO) <==> env.tri(s) != MOD
  {
    CompareYmn(env, s, SymN);
  }

  /** Yes even if a tristate is taken as it is where it is tested for not being n. */
  predicate StaysYes(e: Expr, env: Env) {
    match e
    case Bin(AndOp, l, r) => StaysYes(l, env) && StaysYes(r, env)
    case Bin(OrOp, l, r) => StaysYes(l, env) || StaysYes(r, env)
    case Rel(Ne, a, b) => if a.Type() == Tristate && b == SymN then env.tri(a) == YES else Value(e, env) == YES
    case _ => Value(e, env) == YES
  }

  /** The value is kept exactly if it is not a yes that rests on a tristate being mod. */
  lemma {:induction false} TransBoolExact(e: Expr, env: Env)
    requires WellFormed(env) && Nnf(e)
    ensures Value(TransBool(e), env) == YES <==> StaysYes(e, env)
    ensures Value(TransBool(e), env) == Value(e, env) <==> (Value(e, env) == YES ==> StaysYes(e, env))
  {
    TransBoolKeepsNo(e, env);
    if e.Bin? {
      TransBoolExact(e.left, env);
      TransBoolExact(e.right, env);
    }
  }

  // ----- expr_trans_compare -----

  /** An explicit test of `e` for being equal (or not) to the constant `c`. */
  function TransCompare(e: Expr, equal: bool, c: Sym): Expr
    requires c == SymY || c == SymN
  {
    match e
    case Bin(k, l, r) =>
      var l', r' := TransCompare(l, true, c), TransCompare(r, true, c);
      var t := Bin(if c == SymY then k else Dual(k), l', r');
      if equal then t else Not(t)
    case Not(x) => TransCompare(x, !equal, c)
    case Rel(_, _, _) => if equal == (c == SymY) then e else Not(e)
    case Symbol(s) => Rel(if equal then Eq else Ne, s, c)
  }

  function TransCompareOpt(e: Option<Expr>, equal: bool, c: Sym): Expr
    requires c == SymY || c == SymN
  {
    if e.Some? then TransCompare(e.value, equal, c)
    else if equal then Symbol(c) else Not(Symbol(c))
  }

  /** No operand of a NOT is mod. */
  predicate NoModUnderNot(e: Expr, env: Env) {
    match e
    case Not(x) => Value(x, env) != MOD && NoModUnderNot(x, env)
    case Bin(_, l, r) => NoModUnderNot(l, env) && NoModUnderNot(r, env)
    case _ => true
  }

  /** Every symbol standing alone is a bool, a tristate or y, m, n. */
  predicate LogicalSymbols(e: Expr) {
    match e
    case Symbol(s) => s.IsLogical()
    case Not(x) => LogicalSymbols(x)
    case Bin(_, l, r) => LogicalSymbols(l) && LogicalSymbols(r)
    case Rel(_, _, _) => true
  }

  lemma {:induction false} TransCompareValue(e: Expr, equal: bool, c: Sym, env: Env)
    requires WellFormed(env) && (c == SymY || c == SymN)
    requires NoModUnderNot(e, env) && LogicalSymbols(e)
    ensures Value(TransCompare(e, equal, c), env) == FromBool((Value(e, env) == env.tri(c)) == equal)
  {
    match e
    case Bin(_, l, r) =>
      TransCompareValue(l, true, c, env);
      TransCompareValue(r, true, c, env);
    case Not(x) => TransCompareValue(x, !equal, c, env);
    case Rel(_, _, _) =>
    case Symbol(s) => CompareYmn(env, s, c);
  }

  /** For a negated symbol the condition is exact. */
  lemma TransCompareNegated(s: Sym, equal: bool, c: Sym, env: Env)
    requires WellFormed(env) && (c == SymY || c == SymN) && s.IsLogical()
    ensures var e := Not(Symbol(s));
            (Value(TransCompare(e, equal, c), env) == FromBool((Value(e, env) == env.tri(c)) == equal))
            == NoModUnderNot(e, env)
  {
    CompareYmn(env, s, c);
  }
}
