/**
 Elimination of y and n operands, the structural equality test and the removal
 of operands two expressions share.  Equality and removal call each other.
 */
module ExprEquality {
  import opened Tristate
  import opened Expr

  // ----- y and n elimination -----

  /** The bottom-up step at one node whose operands are already reduced. */
  function ElimStep(c: Conn, l: Expr, r: Expr): Expr {
    var unit, zero := Unit(c), Unit(Dual(c));
    if l == zero then zero
    else if l == unit then r
    else if r == zero then zero
    else if r == unit then l
    else Bin(c, l, r)
  }

  function ElimYn(e: Expr): Expr {
    if e.Bin? then ElimStep(e.conn, ElimYn(e.left), ElimYn(e.right)) else e
  }

  /** Some operand of an AND or OR (not below a NOT) is y or n. */
  predicate Reducible(e: Expr) {
    e.Bin? && (e.left == Unit(e.conn) || e.right == Unit(e.conn) || Reducible(e.left) || Reducible(e.right))
  }

  /** What y does to a minimum and n to a maximum, and the other way round. */
  lemma ApplyYn(c: Conn, x: Tri)
    ensures if c == AndOp then Apply(c, YES, x) == x == Apply(c, x, YES) && Apply(c, NO, x) == NO == Apply(c, x, NO)
            else Apply(c, NO, x) == x == Apply(c, x, NO) && Apply(c, YES, x) == YES == Apply(c, x, YES)
  {
  }

  lemma ElimStepValue(c: Conn, l: Expr, r: Expr, x: Tri, y: Tri, env: Env)
    requires env.tri(SymY) == YES && env.tri(SymN) == NO && x == Value(l, env) && y == Value(r, env)
    ensures Value(ElimStep(c, l, r), env) == Apply(c, x, y)
  {
    ApplyYn(c, x);
    ApplyYn(c, y);
    var s := ElimStep(c, l, r);
    if s == Bin(c, l, r) {
    } else if l == Unit(Dual(c)) {
    } else if l == Unit(c) {
    } else if r == Unit(Dual(c)) {
    } else {
    }
  }

  lemma {:induction false} ElimYnValue(e: Expr, env: Env)
    requires WellFormed(env)
    ensures Value(ElimYn(e), env) == Value(e, env)
    ensures Admissible(e, env) ==> Admissible(ElimYn(e), env)
  {
    if e.Bin? {
      ElimYnValue(e.left, env);
      ElimYnValue(e.right, env);
      ElimStepValue(e.conn, ElimYn(e.left), ElimYn(e.right), Value(e.left, env), Value(e.right, env), env);
    }
  }

  /** No y or n is left as an operand. */
  predicate YnFree(e: Expr) {
    e.Bin? ==>
      && e.left != ExprY && e.left != ExprN && e.right != ExprY && e.right != ExprN
      && YnFree(e.left) && YnFree(e.right)
  }

  lemma {:induction false} ElimYnShrinks(e: Expr)
    ensures Size(ElimYn(e)) <= Size(e)
    ensures Reducible(e) ==> Size(ElimYn(e)) < Size(e)
    ensures YnFree(ElimYn(e))
    ensures YnFree(e) ==> ElimYn(e) == e
  {
    if e.Bin? {
      ElimYnShrinks(e.left);
      ElimYnShrinks(e.right);
    }
  }

  // ----- equality and removal of common operands -----

  /** Is this pair not split any further on a level of connective `c`? */
  predicate Leaves(c: Conn, e1: Expr, e2: Expr) {
    !Is(e1, c) && !Is(e2, c)
  }

  /**
   Walks the operands of both expressions on one level of connective `c` and
   replaces each pair of equal operands by the unit of `c`.
   */
  function DropCommon(c: Conn, e1: Expr, e2: Expr): (r: (Expr, Expr))
    ensures Size(r.0) <= Size(e1) && Size(r.1) <= Size(e2)
    ensures Is(e1, c) ==> Is(r.0, c)
    ensures Is(e2, c) ==> Is(r.1, c)
    decreases Size(e1) + Size(e2), if Leaves(c, e1, e2) then 3 else 0
  {
    if Is(e1, c) then
      var (l, e2') := DropCommon(c, e1.left, e2);
      var (r, e2'') := DropCommon(c, e1.right, e2');
      (Bin(c, l, r), e2'')
    else if Is(e2, c) then
      var (e1', l) := DropCommon(c, e1, e2.left);
      var (e1'', r) := DropCommon(c, e1', e2.right);
      (e1'', Bin(c, l, r))
    else if e1 == e2 && (e1 == ExprY || e1 == ExprN) then (e1, e2)
    else if ExprEq(e1, e2) then (Unit(c), Unit(c))
    else (e1, e2)
  }

  /** The level of the first expression, and then that of the second if it is another. */
  function DropBoth(e1: Expr, e2: Expr): (r: (Expr, Expr))
    ensures Size(r.0) <= Size(e1) && Size(r.1) <= Size(e2)
    decreases Size(e1) + Size(e2), 1, 0
  {
    var (f1, f2) := if e1.Bin? then DropCommon(e1.conn, e1, e2) else (e1, e2);
    if f2.Bin? && !Is(f1, f2.conn) then DropCommon(f2.conn, f1, f2) else (f1, f2)
  }

  /** Removes the operands common to both expressions. */
  function EliminateEq(e1: Expr, e2: Expr): (r: (Expr, Expr))
    decreases Size(e1) + Size(e2), 1, 1
  {
    var (g1, g2) := DropBoth(e1, e2);
    (ElimYn(g1), ElimYn(g2))
  }

  predicate ExprEq(e1: Expr, e2: Expr)
    decreases Size(e1) + Size(e2), 2
  {
    match e1
    case Symbol(_) => e1 == e2
    case Rel(_, _, _) => e1 == e2
    case Not(x) => e2.Not? && ExprEq(x, e2.arg)
    case Bin(c, _, _) =>
      Is(e2, c) &&
      var (f1, f2) := EliminateEq(e1, e2);
      f1.Symbol? && f1 == f2
  }

  lemma Regroup(c: Conn, a: Tri, va: Tri, b: Tri, vb: Tri)
    ensures Apply(c, Apply(c, a, va), Apply(c, b, vb)) == Apply(c, Apply(c, a, b), Apply(c, va, vb))
    ensures Apply(c, Apply(c, a, vb), va) == Apply(c, a, Apply(c, va, vb))
  {
  }

  /** `r` results from removing operands worth `v` from `e`. */
  ghost predicate Dropped(c: Conn, e: Expr, r: Expr, v: Tri, env: Env) {
    && Value(e, env) == Apply(c, Value(r, env), v)
    && (Admissible(e, env) ==> Admissible(r, env))
  }

  lemma DroppedSplit(c: Conn, l: Expr, r: Expr, l': Expr, r': Expr, vl: Tri, vr: Tri, env: Env)
    requires Dropped(c, l, l', vl, env) && Dropped(c, r, r', vr, env)
    ensures Dropped(c, Bin(c, l, r), Bin(c, l', r'), Apply(c, vl, vr), env)
  {
    Regroup(c, Value(l', env), vl, Value(r', env), vr);
  }

  lemma DroppedTwice(c: Conn, e: Expr, f: Expr, g: Expr, v1: Tri, v2: Tri, env: Env)
    requires Dropped(c, e, f, v1, env) && Dropped(c, f, g, v2, env)
    ensures Dropped(c, e, g, Apply(c, v1, v2), env)
  {
    Regroup(c, Value(g, env), v1, NO, v2);
  }

  /**
   One value `v`, the combination of all operands dropped, takes both results
   back to both arguments.
   */
  lemma {:induction false} DropCommonValue(c: Conn, e1: Expr, e2: Expr, env: Env) returns (v: Tri)
    requires WellFormed(env)
    ensures Dropped(c, e1, DropCommon(c, e1, e2).0, v, env)
    ensures Dropped(c, e2, DropCommon(c, e1, e2).1, v, env)
    decreases Size(e1) + Size(e2), if Leaves(c, e1, e2) then 3 else 0
  {
    if Is(e1, c) {
      var (l, e2') := DropCommon(c, e1.left, e2);
      var (r, e2'') := DropCommon(c, e1.right, e2');
      var v1 := DropCommonValue(c, e1.left, e2, env);
      var v2 := DropCommonValue(c, e1.right, e2', env);
      v := Apply(c, v1, v2);
      DroppedSplit(c, e1.left, e1.right, l, r, v1, v2, env);
      DroppedTwice(c, e2, e2', e2'', v1, v2, env);
    } else if Is(e2, c) {
      var (e1', l) := DropCommon(c, e1, e2.left);
      var (e1'', r) := DropCommon(c, e1', e2.right);
      var v1 := DropCommonValue(c, e1, e2.left, env);
      var v2 := DropCommonValue(c, e1', e2.right, env);
      v := Apply(c, v1, v2);
      DroppedSplit(c, e2.left, e2.right, l, r, v1, v2, env);
      DroppedTwice(c, e1, e1', e1'', v1, v2, env);
    } else {
      v := DropLeafValue(c, e1, e2, env);
    }
  }

  lemma DropLeafValue(c: Conn, e1: Expr, e2: Expr, env: Env) returns (v: Tri)
    requires WellFormed(env) && Leaves(c, e1, e2)
    ensures Dropped(c, e1, DropCommon(c, e1, e2).0, v, env)
    ensures Dropped(c, e2, DropCommon(c, e1, e2).1, v, env)
    decreases Size(e1) + Size(e2), 2, 1
  {
    if ExprEq(e1, e2) && !(e1 == e2 && (e1 == ExprY || e1 == ExprN)) {
      ExprEqSound(e1, e2, env);
      v := Value(e1, env);
    } else {
      v := Value(Unit(c), env);
    }
  }

  lemma {:induction false} ExprEqSound(e1: Expr, e2: Expr, env: Env)
    requires WellFormed(env) && ExprEq(e1, e2)
    ensures Value(e1, env) == Value(e2, env)
    decreases Size(e1) + Size(e2), 2, 0
  {
    if e1.Not? {
      ExprEqSound(e1.arg, e2.arg, env);
    } else if e1.Bin? {
      var _, _, _ := EliminateEqValue(e1, e2, env);
    }
  }

  /** The function that undoes an elimination: min with `v` and max with `w`, in either order. */
  function Restore(minLast: bool, v: Tri, w: Tri, x: Tri): Tri {
    if minLast then TriAnd(TriOr(x, w), v) else TriOr(TriAnd(x, v), w)
  }

  /** `f1` and `f2` are what is left of `e1` and `e2`, and one function restores both. */
  predicate Restored(e1: Expr, e2: Expr, f1: Expr, f2: Expr, minLast: bool, v: Tri, w: Tri, env: Env) {
    && Value(e1, env) == Restore(minLast, v, w, Value(f1, env)) && (Admissible(e1, env) ==> Admissible(f1, env))
    && Value(e2, env) == Restore(minLast, v, w, Value(f2, env)) && (Admissible(e2, env) ==> Admissible(f2, env))
  }

  lemma RestoreOne(minLast: bool, u: Tri, x: Tri)
    ensures Restore(minLast, u, NO, x) == TriAnd(x, u) && Restore(minLast, YES, u, x) == TriOr(x, u)
  {
  }

  /** Removal on the level of `c`, with `u` removed, is undone by the minimum or the maximum. */
  lemma RestoredOnce(c: Conn, e1: Expr, e2: Expr, f1: Expr, f2: Expr, u: Tri, minLast: bool, env: Env)
    requires Dropped(c, e1, f1, u, env) && Dropped(c, e2, f2, u, env)
    ensures if c == AndOp then Restored(e1, e2, f1, f2, minLast, u, NO, env)
            else Restored(e1, e2, f1, f2, minLast, YES, u, env)
  {
    RestoreOne(minLast, u, Value(f1, env));
    RestoreOne(minLast, u, Value(f2, env));
  }

  lemma RestoreTwo(c: Conn, x: Tri, x': Tri, y: Tri, u: Tri, u': Tri)
    requires y == Apply(c, x', u) && x' == Apply(Dual(c), x, u')
    ensures y == if c == AndOp then Restore(true, u, u', x) else Restore(false, u', u, x)
  {
  }

  /** A second removal, on the other level. */
  lemma RestoredTwice(c: Conn, e1: Expr, e2: Expr, f1: Expr, f2: Expr, g1: Expr, g2: Expr, u: Tri, u': Tri, env: Env)
    requires Dropped(c, e1, f1, u, env) && Dropped(c, e2, f2, u, env)
    requires Dropped(Dual(c), f1, g1, u', env) && Dropped(Dual(c), f2, g2, u', env)
    ensures if c == AndOp then Restored(e1, e2, g1, g2, true, u, u', env)
            else Restored(e1, e2, g1, g2, false, u', u, env)
  {
    RestoreTwo(c, Value(g1, env), Value(f1, env), Value(e1, env), u, u');
    RestoreTwo(c, Value(g2, env), Value(f2, env), Value(e2, env), u, u');
  }

  lemma {:induction false} DropBothValue(e1: Expr, e2: Expr, env: Env)
    returns (minLast: bool, v: Tri, w: Tri)
    requires WellFormed(env)
    ensures var (g1, g2) := DropBoth(e1, e2); Restored(e1, e2, g1, g2, minLast, v, w, env)
    decreases Size(e1) + Size(e2), 1, 0
  {
    minLast, v, w := true, YES, NO;
    var f1, f2 := e1, e2;
    var u := YES;
    if e1.Bin? {
      var c, r := e1.conn, DropCommon(e1.conn, e1, e2);
      u := DropCommonValue(c, e1, e2, env);
      f1, f2, minLast := r.0, r.1, c == AndOp;
      RestoredOnce(c, e1, e2, f1, f2, u, minLast, env);
      if c == AndOp { v := u; } else { w := u; }
    }
    if f2.Bin? && !Is(f1, f2.conn) {
      var c, r := f2.conn, DropCommon(f2.conn, f1, f2);
      var u' := DropCommonValue(c, f1, f2, env);
      if e1.Bin? {
        assert Is(f1, e1.conn) && c == Dual(e1.conn);
        RestoredTwice(e1.conn, e1, e2, f1, f2, r.0, r.1, u, u', env);
      } else {
        RestoredOnce(c, f1, f2, r.0, r.1, u', minLast, env);
      }
      if c == AndOp { v := u'; } else { w := u'; }
    }
  }

  lemma {:induction false} EliminateEqValue(e1: Expr, e2: Expr, env: Env)
    returns (minLast: bool, v: Tri, w: Tri)
    requires WellFormed(env)
    ensures var (r1, r2) := EliminateEq(e1, e2);
            && Value(e1, env) == Restore(minLast, v, w, Value(r1, env))
            && Value(e2, env) == Restore(minLast, v, w, Value(r2, env))
            && (Admissible(e1, env) ==> Admissible(r1, env))
            && (Admissible(e2, env) ==> Admissible(r2, env))
    decreases Size(e1) + Size(e2), 1, 1
  {
    var (g1, g2) := DropBoth(e1, e2);
    minLast, v, w := DropBothValue(e1, e2, env);
    ElimYnValue(g1, env);
    ElimYnValue(g2, env);
  }

  /** Removal never makes an expression larger. */
  lemma EliminateEqShrinks(e1: Expr, e2: Expr)
    ensures Size(EliminateEq(e1, e2).0) <= Size(e1)
    ensures Size(EliminateEq(e1, e2).1) <= Size(e2)
    ensures YnFree(EliminateEq(e1, e2).0) && YnFree(EliminateEq(e1, e2).1)
  {
    var (g1, g2) := DropBoth(e1, e2);
    ElimYnShrinks(g1);
    ElimYnShrinks(g2);
  }

  /** The operands on one level of connective `c`. */
  function Operands(c: Conn, e: Expr): set<Expr> {
    if Is(e, c) then Operands(c, e.left) + Operands(c, e.right) else {e}
  }

  /** No operand but y and n is shared, as far as `ExprEq` can tell. */
  ghost predicate Separated(c: Conn, e1: Expr, e2: Expr) {
    forall x, y :: x in Operands(c, e1) && y in Operands(c, e2) && ExprEq(x, y) ==>
                     x == y && (x == ExprY || x == ExprN)
  }

  lemma {:induction false} DropCommonOperands(c: Conn, e1: Expr, e2: Expr)
    ensures var (r1, r2) := DropCommon(c, e1, e2);
            Operands(c, r1) <= Operands(c, e1) + {Unit(c)} && Operands(c, r2) <= Operands(c, e2) + {Unit(c)}
    decreases Size(e1) + Size(e2)
  {
    if Is(e1, c) {
      DropCommonOperands(c, e1.left, e2);
      DropCommonOperands(c, e1.right, DropCommon(c, e1.left, e2).1);
    } else if Is(e2, c) {
      DropCommonOperands(c, e1, e2.left);
      DropCommonOperands(c, DropCommon(c, e1, e2.left).0, e2.right);
    }
  }

  /** The walk over one level finds every shared operand and invents no other. */
  lemma {:induction false} DropCommonSeparates(c: Conn, e1: Expr, e2: Expr)
    ensures var (r1, r2) := DropCommon(c, e1, e2);
            && Operands(c, r1) <= Operands(c, e1) + {Unit(c)}
            && Operands(c, r2) <= Operands(c, e2) + {Unit(c)}
            && Separated(c, r1, r2)
    decreases Size(e1) + Size(e2)
  {
    DropCommonOperands(c, e1, e2);
    if Is(e1, c) {
      var (l, e2') := DropCommon(c, e1.left, e2);
      DropCommonSeparates(c, e1.left, e2);
      DropCommonSeparates(c, e1.right, e2');
    } else if Is(e2, c) {
      var (e1', l) := DropCommon(c, e1, e2.left);
      DropCommonSeparates(c, e1, e2.left);
      DropCommonSeparates(c, e1', e2.right);
    }
  }
}
