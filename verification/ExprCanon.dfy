/**
 What the equality test of expressions decides: every expression equals itself, and without y
 and n operands two expressions are equal exactly if they are the same up to the order and
 nesting of the operands of their ANDs and ORs.
 */
module ExprCanon {
  import opened Expr
  import opened ExprEquality

  // ----- every expression equals itself -----

  /** All operands of the level are y or n. */
  predicate AllYn(c: Conn, e: Expr) {
    if Is(e, c) then AllYn(c, e.left) && AllYn(c, e.right) else e == ExprY || e == ExprN
  }

  /** y and n operands match nothing. */
  lemma {:induction false} DropNothing(c: Conn, e1: Expr, e2: Expr)
    requires AllYn(c, e1) || AllYn(c, e2)
    ensures DropCommon(c, e1, e2) == (e1, e2)
    decreases Size(e1) + Size(e2)
  {
    if Is(e1, c) {
      DropNothing(c, e1.left, e2);
      DropNothing(c, e1.right, e2);
    } else if Is(e2, c) {
      DropNothing(c, e1, e2.left);
      DropNothing(c, e1, e2.right);
    }
  }

  /** What is used up on the left part of the second tree does not go on to the right part. */
  lemma {:induction false} DropLeftPart(c: Conn, e: Expr, a: Expr, b: Expr)
    requires AllYn(c, DropCommon(c, e, a).0)
    ensures var (e', a') := DropCommon(c, e, a); DropCommon(c, e, Bin(c, a, b)) == (e', Bin(c, a', b))
    decreases Size(e)
  {
    if Is(e, c) {
      DropLeftPart(c, e.left, a, b);
      DropLeftPart(c, e.right, DropCommon(c, e.left, a).1, b);
    } else {
      DropNothing(c, DropCommon(c, e, a).0, b);
    }
  }

  /** A left part that is used up is passed over. */
  lemma {:induction false} DropRightPart(c: Conn, e: Expr, a: Expr, b: Expr)
    requires AllYn(c, a)
    ensures var (e', b') := DropCommon(c, e, b); DropCommon(c, e, Bin(c, a, b)) == (e', Bin(c, a, b'))
    decreases Size(e)
  {
    if Is(e, c) {
      DropRightPart(c, e.left, a, b);
      DropRightPart(c, e.right, a, DropCommon(c, e.left, b).1);
    } else {
      DropNothing(c, e, a);
    }
  }

  /** Of an expression and itself nothing is left but y and n. */
  lemma {:induction false} DropSelf(c: Conn, e: Expr)
    ensures var (e', e'') := DropCommon(c, e, e); e' == e'' && AllYn(c, e')
    decreases Size(e), if Is(e, c) then 0 else 2
  {
    if Is(e, c) {
      DropSelf(c, e.left);
      DropSelf(c, e.right);
      DropLeftPart(c, e.left, e.left, e.right);
      DropRightPart(c, e.right, DropCommon(c, e.left, e.left).1, e.right);
    } else {
      ExprEqReflexive(e);
    }
  }

  lemma {:induction false} ElimAllYn(c: Conn, e: Expr)
    requires AllYn(c, e)
    ensures ElimYn(e) == ExprY || ElimYn(e) == ExprN
  {
    if Is(e, c) {
      ElimAllYn(c, e.left);
      ElimAllYn(c, e.right);
    }
  }

  lemma {:induction false} ExprEqReflexive(e: Expr)
    ensures ExprEq(e, e)
    decreases Size(e), 1
  {
    if e.Not? {
      ExprEqReflexive(e.arg);
    } else if e.Bin? {
      DropSelf(e.conn, e);
      ElimAllYn(e.conn, DropCommon(e.conn, e, e).0);
    }
  }

  // ----- equality up to order and nesting -----

  /** An expression with the operands of each AND and OR collected, however they are ordered and nested. */
  datatype Form =
    | OfSymbol(s: Sym)
    | OfRel(op: RelOp, a: Sym, b: Sym)
    | OfNot(arg: Form)
    | OfLevel(conn: Conn, items: multiset<Form>)

  function FormOf(e: Expr): Form
    decreases Size(e), 1
  {
    match e
    case Symbol(s) => OfSymbol(s)
    case Rel(op, a, b) => OfRel(op, a, b)
    case Not(x) => OfNot(FormOf(x))
    case Bin(c, _, _) => OfLevel(c, Items(c, e))
  }

  function Items(c: Conn, e: Expr): multiset<Form>
    decreases Size(e), if Is(e, c) then 0 else 2
  {
    if Is(e, c) then Items(c, e.left) + Items(c, e.right) else multiset{FormOf(e)}
  }

  predicate IsYn(e: Expr) {
    e == ExprY || e == ExprN
  }

  /** Nowhere an operand y or n. */
  predicate NoYn(e: Expr) {
    match e
    case Bin(_, l, r) => !IsYn(l) && !IsYn(r) && NoYn(l) && NoYn(r)
    case Not(x) => NoYn(x)
    case _ => true
  }

  /** A level of which some operands have been replaced by the unit. */
  predicate Partly(c: Conn, e: Expr) {
    if Is(e, c) then Partly(c, e.left) && Partly(c, e.right) else e == Unit(c) || (!IsYn(e) && NoYn(e))
  }

  /** What has not been replaced. */
  function Rest(c: Conn, e: Expr): multiset<Form> {
    if Is(e, c) then Rest(c, e.left) + Rest(c, e.right) else if e == Unit(c) then multiset{} else multiset{FormOf(e)}
  }

  lemma {:induction false} NothingReplaced(c: Conn, e: Expr)
    requires NoYn(e) && !IsYn(e)
    ensures Partly(c, e) && Rest(c, e) == Items(c, e)
  {
    if Is(e, c) {
      NothingReplaced(c, e.left);
      NothingReplaced(c, e.right);
    }
  }

  lemma {:induction false} NoYnKept(e: Expr)
    requires NoYn(e)
    ensures ElimYn(e) == e
  {
    if e.Bin? {
      NoYnKept(e.left);
      NoYnKept(e.right);
    }
  }

  /** Cleaning up leaves the unit exactly if all has been replaced, and a symbol only if that is all there was. */
  lemma {:induction false} ElimPartly(c: Conn, e: Expr)
    requires Partly(c, e)
    ensures ElimYn(e) != Unit(Dual(c))
    ensures Rest(c, e) == multiset{} <==> ElimYn(e) == Unit(c)
    ensures ElimYn(e).Symbol? && ElimYn(e) != Unit(c) ==> Rest(c, e) == multiset{FormOf(ElimYn(e))}
  {
    if Is(e, c) {
      ElimPartly(c, e.left);
      ElimPartly(c, e.right);
    } else {
      NoYnKept(e);
    }
  }

  lemma SplitFirst(l: multiset<Form>, r: multiset<Form>, e: multiset<Form>)
    ensures (l - e) + (r - (e - l)) == (l + r) - e
    ensures (e - l) - r == e - (l + r)
  {
  }

  /** `r1` is `e1` without what it has in common with `e2`. */
  ghost predicate Without(c: Conn, e1: Expr, e2: Expr, r1: Expr) {
    Partly(c, r1) && Rest(c, r1) == Rest(c, e1) - Rest(c, e2)
  }

  lemma WithoutBoth(c: Conn, l: Expr, r: Expr, e: Expr, l': Expr, r': Expr, e': Expr, e'': Expr)
    requires Without(c, l, e, l') && Without(c, e, l, e') && Without(c, r, e', r') && Without(c, e', r, e'')
    ensures Without(c, Bin(c, l, r), e, Bin(c, l', r')) && Without(c, e, Bin(c, l, r), e'')
  {
    assert Rest(c, Bin(c, l, r)) == Rest(c, l) + Rest(c, r) && Rest(c, Bin(c, l', r')) == Rest(c, l') + Rest(c, r');
    SplitFirst(Rest(c, l), Rest(c, r), Rest(c, e));
  }

  lemma OneItem(a: Form, b: Form)
    ensures multiset{a} - multiset{b} == if a == b then multiset{} else multiset{a}
  {
  }

  lemma WithoutOne(c: Conn, e1: Expr, e2: Expr)
    requires Leaves(c, e1, e2) && Partly(c, e1) && Partly(c, e2)
    requires e1 != Unit(c) && e2 != Unit(c) ==> (ExprEq(e1, e2) <==> FormOf(e1) == FormOf(e2))
    ensures var (r1, r2) := DropCommon(c, e1, e2); Without(c, e1, e2, r1) && Without(c, e2, e1, r2)
  {
    var (r1, r2) := DropCommon(c, e1, e2);
    if e1 == Unit(c) || e2 == Unit(c) {
      DropNothing(c, e1, e2);
      OneRest(c, e1);
      OneRest(c, e2);
    } else {
      assert (r1, r2) == if ExprEq(e1, e2) then (Unit(c), Unit(c)) else (e1, e2);
      OneRest(c, e1);
      OneRest(c, e2);
      OneItem(FormOf(e1), FormOf(e2));
      OneItem(FormOf(e2), FormOf(e1));
    }
  }

  lemma OneRest(c: Conn, e: Expr)
    requires !Is(e, c)
    ensures Rest(c, e) == (if e == Unit(c) then multiset{} else multiset{FormOf(e)}) && Rest(c, Unit(c)) == multiset{}
  {
  }

  /** What two levels have in common is what both collections of operands have in common. */
  lemma {:induction false} DropCommonRest(c: Conn, e1: Expr, e2: Expr)
    requires Partly(c, e1) && Partly(c, e2)
    ensures var (r1, r2) := DropCommon(c, e1, e2); Without(c, e1, e2, r1) && Without(c, e2, e1, r2)
    decreases Size(e1) + Size(e2), if Leaves(c, e1, e2) then 3 else 0
  {
    if Is(e1, c) {
      var (l, e2') := DropCommon(c, e1.left, e2);
      var (r, e2'') := DropCommon(c, e1.right, e2');
      DropCommonRest(c, e1.left, e2);
      DropCommonRest(c, e1.right, e2');
      WithoutBoth(c, e1.left, e1.right, e2, l, r, e2', e2'');
    } else if Is(e2, c) {
      var (e1', l) := DropCommon(c, e1, e2.left);
      var (e1'', r) := DropCommon(c, e1', e2.right);
      DropCommonRest(c, e1, e2.left);
      DropCommonRest(c, e1', e2.right);
      WithoutBoth(c, e2.left, e2.right, e1, l, r, e1', e1'');
    } else {
      if e1 != Unit(c) && e2 != Unit(c) { ExprEqExact(e1, e2); }
      WithoutOne(c, e1, e2);
    }
  }

  /** The test holds exactly of expressions that are the same up to the order and nesting of operands. */
  lemma {:induction false} ExprEqExact(e1: Expr, e2: Expr)
    requires NoYn(e1) && NoYn(e2)
    ensures ExprEq(e1, e2) <==> FormOf(e1) == FormOf(e2)
    decreases Size(e1) + Size(e2), 2
  {
    if e1.Not? && e2.Not? {
      ExprEqExact(e1.arg, e2.arg);
    } else if e1.Bin? && Is(e2, e1.conn) {
      var c := e1.conn;
      NothingReplaced(c, e1);
      NothingReplaced(c, e2);
      DropCommonRest(c, e1, e2);
      var (r1, r2) := DropCommon(c, e1, e2);
      ExprEqLevel(e1, e2);
      if ExprEq(e1, e2) {
        SameRest(c, e1, e2, r1, r2);
      } else if FormOf(e1) == FormOf(e2) {
        NothingLeft(c, e1, e2, r1);
        NothingLeft(c, e2, e1, r2);
      }
    }
  }

  lemma ExprEqLevel(e1: Expr, e2: Expr)
    requires e1.Bin? && Is(e2, e1.conn)
    ensures var (r1, r2) := DropCommon(e1.conn, e1, e2);
            ExprEq(e1, e2) <==> ElimYn(r1).Symbol? && ElimYn(r1) == ElimYn(r2)
  {
    var r := DropCommon(e1.conn, e1, e2);
    assert DropBoth(e1, e2) == r;
    assert EliminateEq(e1, e2) == (ElimYn(r.0), ElimYn(r.1));
  }

  lemma SameRest(c: Conn, e1: Expr, e2: Expr, r1: Expr, r2: Expr)
    requires Without(c, e1, e2, r1) && Without(c, e2, e1, r2) && ElimYn(r1).Symbol? && ElimYn(r1) == ElimYn(r2)
    ensures Rest(c, e1) == Rest(c, e2)
  {
    ElimEqual(c, r1, r2);
    SameItems(Rest(c, e1), Rest(c, e2));
  }

  lemma NoItems(a: multiset<Form>)
    ensures a - a == multiset{}
  {
  }

  lemma NothingLeft(c: Conn, e1: Expr, e2: Expr, r1: Expr)
    requires Without(c, e1, e2, r1) && Rest(c, e1) == Rest(c, e2)
    ensures ElimYn(r1) == Unit(c)
  {
    NoItems(Rest(c, e1));
    ElimNone(c, r1);
  }

  lemma ElimEqual(c: Conn, r1: Expr, r2: Expr)
    requires Partly(c, r1) && Partly(c, r2) && ElimYn(r1).Symbol? && ElimYn(r1) == ElimYn(r2)
    ensures Rest(c, r1) == Rest(c, r2)
  {
    ElimPartly(c, r1);
    ElimPartly(c, r2);
  }

  lemma ElimNone(c: Conn, r: Expr)
    requires Partly(c, r) && Rest(c, r) == multiset{}
    ensures ElimYn(r) == Unit(c)
  {
    ElimPartly(c, r);
  }

  lemma SameItems(a: multiset<Form>, b: multiset<Form>)
    requires a - b == b - a
    ensures a == b
  {
    forall x ensures a[x] == b[x] { assert (a - b)[x] == (b - a)[x]; }
  }

  // ----- operands that are all found in another expression -----

  lemma Contained(a: multiset<Form>, b: multiset<Form>)
    ensures b - a == multiset{} <==> b <= a
  {
    if b - a == multiset{} {
      forall x ensures b[x] <= a[x] { assert (b - a)[x] == 0; }
    }
  }

  /** Only the unit replaces an operand, whatever the other expression is. */
  lemma {:induction false} DropKeepsPartly(c: Conn, e1: Expr, e2: Expr)
    requires Partly(c, e2)
    ensures Partly(c, DropCommon(c, e1, e2).1)
    decreases Size(e1) + Size(e2)
  {
    if Is(e1, c) {
      DropKeepsPartly(c, e1.left, e2);
      DropKeepsPartly(c, e1.right, DropCommon(c, e1.left, e2).1);
    } else if Is(e2, c) {
      DropKeepsPartly(c, e1, e2.left);
      DropKeepsPartly(c, DropCommon(c, e1, e2.left).0, e2.right);
    }
  }

  /** What is left of an OR is not y. */
  lemma OrNotY(f1: Expr, f2: Expr)
    requires NoYn(f2) && Is(f2, OrOp)
    ensures ElimYn(DropCommon(OrOp, f1, f2).1) != ExprY
  {
    NothingReplaced(OrOp, f2);
    DropKeepsPartly(OrOp, f1, f2);
    ElimPartly(OrOp, DropCommon(OrOp, f1, f2).1);
  }

  /** An operand of another level is either replaced as a whole or kept. */
  lemma {:induction false} DropWhole(c: Conn, e1: Expr, e2: Expr)
    requires !Is(e2, c)
    ensures var r := DropCommon(c, e1, e2).1; r == e2 || r == Unit(c)
    decreases Size(e1)
  {
    if Is(e1, c) {
      DropWhole(c, e1.left, e2);
      DropWhole(c, e1.right, DropCommon(c, e1.left, e2).1);
    }
  }

  /**
   After removing from an AND and a second expression what they share, the second is y exactly if
   all its operands are among those of the first.
   */
  lemma AllShared(e1: Expr, e2: Expr)
    requires NoYn(e1) && NoYn(e2) && !IsYn(e2) && Is(e1, AndOp)
    ensures EliminateEq(e1, e2).1 == ExprY <==> Items(AndOp, e2) <= Items(AndOp, e1)
  {
    SharedItems(e1, e2);
    SharedLevels(e1, e2);
    var r := DropCommon(AndOp, e1, e2);
    if Is(r.1, OrOp) {
      DropWhole(AndOp, e1, e2);
      OrNotY(r.0, r.1);
      NotUnit(AndOp, r.1);
    }
  }

  lemma SharedItems(e1: Expr, e2: Expr)
    requires NoYn(e1) && NoYn(e2) && !IsYn(e2) && Is(e1, AndOp)
    ensures ElimYn(DropCommon(AndOp, e1, e2).1) == ExprY <==> Items(AndOp, e2) <= Items(AndOp, e1)
  {
    NothingReplaced(AndOp, e1);
    NothingReplaced(AndOp, e2);
    DropCommonRest(AndOp, e1, e2);
    Contained(Items(AndOp, e1), Items(AndOp, e2));
    ElimPartly(AndOp, DropCommon(AndOp, e1, e2).1);
  }

  lemma SharedLevels(e1: Expr, e2: Expr)
    requires Is(e1, AndOp)
    ensures var (f1, f2) := DropCommon(AndOp, e1, e2);
            EliminateEq(e1, e2).1 == ElimYn(if Is(f2, OrOp) then DropCommon(OrOp, f1, f2).1 else f2)
  {
    var r := DropCommon(AndOp, e1, e2);
    if Is(r.1, OrOp) {
      assert DropBoth(e1, e2) == DropCommon(OrOp, r.0, r.1);
    } else {
      assert DropBoth(e1, e2) == r;
    }
  }

  lemma NotUnit(c: Conn, e: Expr)
    requires NoYn(e) && e.Bin?
    ensures ElimYn(e) != Unit(c)
  {
    NoYnKept(e);
  }
}
