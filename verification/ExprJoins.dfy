/**
 What is left after duplicate elimination, in terms of the rules it goes by: on no level are
 there two equal operands or two tests of one symbol that a single one stands for.
 */
module ExprJoins {
  import opened Tristate
  import opened Expr
  import opened ExprEquality
  import opened ExprTransform
  import opened ExprCanon
  import opened ExprPaths
  import opened ExprDups

  /** Two different tests of `s` with `op` against y, m or n. */
  predicate TwoTests(s: Sym, op: RelOp, e1: Expr, e2: Expr) {
    && e1.Rel? && e2.Rel? && e1 == Rel(op, s, e1.b) && e2 == Rel(op, s, e2.b)
    && e1.b != e2.b && e1.b.IsYmn() && e2.b.IsYmn()
  }

  /** a=b and a!=c with constants b and c. */
  predicate EqAndNe(s: Sym, e1: Expr, e2: Expr) {
    e1.Rel? && e2.Rel? && e1 == Rel(Eq, s, e1.b) && e2 == Rel(Ne, s, e2.b) && e1.b.IsConst() && e2.b.IsConst()
  }

  /** The pairs of operands for which one stands. */
  predicate Match(c: Conn, s: Sym, e1: Expr, e2: Expr) {
    if c == OrOp then
      || (s.Type() == Tristate && TwoTests(s, Eq, e1, e2))
      || (s.Type() == Boolean && e1 == Symbol(s) && e2 == Not(Symbol(s)))
    else
      || (s.Type() == Tristate && (TwoTests(s, Ne, e1, e2) || EqAndNe(s, e1, e2)))
      || ((s.Type() == Boolean || s.Type() == Tristate) && e1 == Symbol(s) &&
          (e2 == Rel(Eq, s, SymY) || e2 == Rel(Ne, s, SymN) || e2 == Rel(Ne, s, SymM)))
  }

  ghost predicate Matching(c: Conn, e1: Expr, e2: Expr) {
    exists s :: Match(c, s, e1, e2) || Match(c, s, e2, e1)
  }

  lemma OrMatches(s: Sym, e1: Expr, e2: Expr)
    requires Match(OrOp, s, e1, e2)
    ensures JoinOr(e1, e2).Some? && JoinOr(e2, e1).Some?
  {
    assert HeadSym(e1, true) == HeadSym(e2, true) == HeadSym(e1, false) == HeadSym(e2, false) == Some(s);
  }

  lemma AndMatches(s: Sym, e1: Expr, e2: Expr)
    requires Match(AndOp, s, e1, e2)
    ensures JoinAnd(e1, e2).Some? && JoinAnd(e2, e1).Some?
  {
    assert HeadSym(e1, true) == HeadSym(e2, true) == HeadSym(e1, false) == HeadSym(e2, false) == Some(s);
  }

  lemma OrOnlyMatches(e1: Expr, e2: Expr)
    requires JoinOr(e1, e2).Some? && !ExprEq(e1, e2)
    ensures Matching(OrOp, e1, e2)
  {
    var s := HeadSym(e1, true).value;
    assert Match(OrOp, s, e1, e2) || Match(OrOp, s, e2, e1);
  }

  lemma AndOnlyMatches(e1: Expr, e2: Expr)
    requires JoinAnd(e1, e2).Some? && !ExprEq(e1, e2)
    ensures Matching(AndOp, e1, e2)
  {
    var s := HeadSym(e1, true).value;
    assert Match(AndOp, s, e1, e2) || Match(AndOp, s, e2, e1);
  }

  /** Exactly equal and matching operands are joined. */
  lemma JoinExact(c: Conn, e1: Expr, e2: Expr)
    ensures Join(c, e1, e2).Some? <==> ExprEq(e1, e2) || Matching(c, e1, e2)
  {
    if ExprEq(e1, e2) {
    } else if Matching(c, e1, e2) {
      var s :| Match(c, s, e1, e2) || Match(c, s, e2, e1);
      if c == OrOp {
        if Match(c, s, e1, e2) { OrMatches(s, e1, e2); } else { OrMatches(s, e2, e1); }
      } else {
        if Match(c, s, e1, e2) { AndMatches(s, e1, e2); } else { AndMatches(s, e2, e1); }
      }
    } else if Join(c, e1, e2).Some? {
      if c == OrOp { OrOnlyMatches(e1, e2); } else { AndOnlyMatches(e1, e2); }
    }
  }

  /** One symbol, constant or test has the value of two matching operands in every environment. */
  lemma MatchingValue(c: Conn, e1: Expr, e2: Expr) returns (r: Expr)
    requires Matching(c, e1, e2)
    ensures r.Symbol? || r.Rel?
    ensures forall env: Env | WellFormed(env) && Admissible(e1, env) && Admissible(e2, env) ::
              Value(r, env) == Apply(c, Value(e1, env), Value(e2, env))
  {
    JoinExact(c, e1, e2);
    r := Join(c, e1, e2).value;
    JoinShape(c, e1, e2);
    forall env: Env | WellFormed(env) && Admissible(e1, env) && Admissible(e2, env)
      ensures Value(r, env) == Apply(c, Value(e1, env), Value(e2, env))
    {
      JoinValue(c, e1, e2, env);
    }
  }

  /** On no level two equal or two matching operands. */
  ghost predicate Tidy(e: Expr)
    decreases Size(e)
  {
    e.Bin? ==> forall a: Path, b: Path | Operand(e.conn, e, a) && Operand(e.conn, e, b) && a != b ::
                 !ExprEq(At(e, a), At(e, b)) && !Matching(e.conn, At(e, a), At(e, b)) && Tidy(At(e, a))
  }

  lemma {:induction false} TidyExact(e: Expr)
    ensures DupFree(e) <==> Tidy(e)
    decreases Size(e)
  {
    if e.Bin? {
      forall a: Path, b: Path | Operand(e.conn, e, a) && Operand(e.conn, e, b) && a != b
        ensures Join(e.conn, At(e, a), At(e, b)).None? && DupFree(At(e, a)) <==>
                !ExprEq(At(e, a), At(e, b)) && !Matching(e.conn, At(e, a), At(e, b)) && Tidy(At(e, a))
      {
        JoinExact(e.conn, At(e, a), At(e, b));
        TidyExact(At(e, a));
      }
    }
  }

  /** The result is tidy, and tidy expressions are left alone. */
  lemma OptimizedTidy(e: Expr)
    ensures Tidy(Optimized(e)) && (Optimized(e) == e <==> Tidy(e))
  {
    OptimizedProperties(e);
    OptimizedFixed(e);
    TidyExact(e);
    TidyExact(Optimized(e));
  }

  /**
   No two operands of a level of the result are the same expression or, where they have no y or n
   operands, the same up to the order and nesting of theirs.
   */
  lemma NoEqualOperands(e: Expr, a: Path, b: Path)
    requires var r := Optimized(e); r.Bin? && Operand(r.conn, r, a) && Operand(r.conn, r, b) && a != b
    ensures var x, y := At(Optimized(e), a), At(Optimized(e), b);
            x != y && (NoYn(x) && NoYn(y) ==> FormOf(x) != FormOf(y))
  {
    OptimizedTidy(e);
    var x, y := At(Optimized(e), a), At(Optimized(e), b);
    ExprEqReflexive(x);
    if NoYn(x) && NoYn(y) { ExprEqExact(x, y); }
  }
}
