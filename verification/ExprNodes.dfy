/**
 Expression trees as the code holds them: nodes that are overwritten in place, with a type
 tag and two slots each for subexpressions or symbols.
 */
module ExprNodes {
  import opened Expr
  import opened ExprEquality
  import opened ExprTransform

  datatype Op = IsSymbol | IsNot | IsBin(conn: Conn) | IsRel(rel: RelOp)

  class Node {
    var op: Op
    var left: Node?
    var right: Node?
    var a: Sym
    var b: Sym
    ghost var repr: set<Node>  // this node and all below
    ghost var model: Expr      // the expression the node stands for

    ghost predicate Valid()
      reads this, repr
      decreases repr
    {
      && this in repr
      && match op
         case IsSymbol => model == Symbol(a)
         case IsRel(r) => model == Rel(r, a, b)
         case IsNot => left != null && Owns(left) && model == Expr.Not(left.model)
         case IsBin(c) =>
           && left != null && right != null && Owns(left) && Owns(right) && left.repr !! right.repr
           && model == Bin(c, left.model, right.model)
    }

    /** `n` is a node below this one. */
    ghost predicate Owns(n: Node)
      reads this, repr
      decreases repr, 0
    {
      n in repr && n in n.repr && n.repr < repr && this !in n.repr && n.Valid()
    }

    constructor Leaf(s: Sym)
      ensures Valid() && repr == {this} && model == Symbol(s) && op == IsSymbol && a == s
    {
      op, left, right, a, b := IsSymbol, null, null, s, s;
      repr, model := {this}, Symbol(s);
    }

    constructor Negation(x: Node)
      requires x.Valid()
      ensures Valid() && repr == {this} + x.repr && model == Expr.Not(x.model) && op == IsNot && left == x
    {
      op, left, right, a, b := IsNot, x, null, SymN, SymN;
      repr, model := {this} + x.repr, Expr.Not(x.model);
    }

    constructor Comparison(rel: RelOp, a: Sym, b: Sym)
      ensures Valid() && repr == {this} && model == Rel(rel, a, b)
    {
      op, left, right, this.a, this.b := IsRel(rel), null, null, a, b;
      repr, model := {this}, Rel(rel, a, b);
    }

    constructor Junction(c: Conn, l: Node, r: Node)
      requires l.Valid() && r.Valid() && l.repr !! r.repr
      ensures Valid() && repr == {this} + l.repr + r.repr && model == Bin(c, l.model, r.model)
    {
      op, left, right, a, b := IsBin(c), l, r, SymN, SymN;
      repr, model := {this} + l.repr + r.repr, Bin(c, l.model, r.model);
    }

    /** Becomes a symbol. */
    method BecomeSymbol(s: Sym)
      modifies this
      ensures Valid() && repr == {this} && model == Symbol(s)
    {
      op, left, right, a := IsSymbol, null, null, s;
      repr, model := {this}, Symbol(s);
    }

    /** Becomes the negation of `x`. */
    method BecomeNot(x: Node)
      requires x.Valid() && this !in x.repr
      modifies this
      ensures Valid() && repr == {this} + x.repr && model == Expr.Not(x.model) && op == IsNot && left == x
    {
      op, left, right := IsNot, x, null;
      repr, model := {this} + x.repr, Expr.Not(x.model);
    }

    /** Becomes another comparison of the same symbols. */
    method BecomeRel(rel: RelOp)
      requires Valid() && op.IsRel?
      modifies this
      ensures Valid() && repr == old(repr) && model == Rel(rel, a, b) && a == old(a) && b == old(b)
    {
      op, model := IsRel(rel), Rel(rel, a, b);
    }

    /** Is overwritten with the contents of `n`. */
    method Become(n: Node)
      requires n.Valid() && this !in n.repr
      modifies this
      ensures Valid() && repr == n.repr - {n} + {this} && model == n.model
    {
      op, left, right, a, b := n.op, n.left, n.right, n.a, n.b;
      repr, model := n.repr - {n} + {this}, n.model;
    }

    /** Joins the operands `l` and `r`. */
    method BecomeBin(c: Conn, l: Node, r: Node)
      requires l.Valid() && r.Valid() && l.repr !! r.repr && this !in l.repr + r.repr
      modifies this
      ensures Valid() && repr == {this} + l.repr + r.repr && model == Bin(c, l.model, r.model)
      ensures op == IsBin(c) && left == l && right == r
    {
      op, left, right := IsBin(c), l, r;
      repr, model := {this} + l.repr + r.repr, Bin(c, l.model, r.model);
    }
  }

  /** A fresh copy. */
  method Copy(e: Node) returns (n: Node)
    requires e.Valid()
    ensures n.Valid() && fresh(n.repr) && n.model == e.model
    decreases e.repr
  {
    if e.op == IsSymbol {
      n := new Node.Leaf(e.a);
    } else if e.op.IsRel? {
      n := new Node.Comparison(e.op.rel, e.a, e.b);
    } else if e.op == IsNot {
      assert e.Owns(e.left);
      var x := Copy(e.left);
      n := new Node.Negation(x);
    } else {
      assert e.Owns(e.left) && e.Owns(e.right);
      var l := Copy(e.left);
      var r := Copy(e.right);
      n := new Node.Junction(e.op.conn, l, r);
    }
  }

  // ----- expr_eliminate_yn -----

  predicate Holds(n: Node, s: Sym)
    reads n
  {
    n.op == IsSymbol && n.a == s
  }

  /** Drops y and n operands, in place. */
  method EliminateYn(e: Node)
    requires e.Valid()
    modifies e.repr
    ensures e.Valid() && e.repr <= old(e.repr) && e.model == ElimYn(old(e.model))
    decreases e.repr
  {
    if !e.op.IsBin? { return; }
    var l, r := e.left, e.right;
    assert e.Owns(l) && e.Owns(r);
    EliminateYn(l);
    EliminateYn(r);
    e.BecomeBin(e.op.conn, l, r);
    DropOperand(e);
  }

  /** The step at a node whose operands are already reduced. */
  method DropOperand(e: Node)
    requires e.Valid() && e.op.IsBin?
    modifies e
    ensures e.Valid() && e.repr <= old(e.repr)
    ensures e.model == ElimStep(old(e.op).conn, old(e.left).model, old(e.right).model)
  {
    var l, r := e.left, e.right;
    assert e.Owns(l) && e.Owns(r) && l.Valid() && r.Valid();
    var unit, zero := if e.op.conn == AndOp then SymY else SymN, if e.op.conn == AndOp then SymN else SymY;
    if Holds(l, zero) || (!Holds(l, unit) && Holds(r, zero)) {
      e.BecomeSymbol(zero);
    } else if Holds(l, unit) {
      e.Become(r);
    } else if Holds(r, unit) {
      e.Become(l);
    }
  }

  // ----- expr_trans_bool -----

  /** FOO!=n becomes FOO, in place. */
  method TransBoolNode(e: Node)
    requires e.Valid()
    modifies e.repr
    ensures e.Valid() && e.repr <= old(e.repr) && e.model == TransBool(old(e.model))
    decreases e.repr
  {
    match e.op
    case IsSymbol =>
    case IsRel(r) => if r == Ne && e.a.Type() == Tristate && e.b == SymN { e.BecomeSymbol(e.a); }
    case IsNot =>
      var x := e.left;
      assert e.Owns(x);
      TransBoolNode(x);
      e.BecomeNot(x);
    case IsBin(c) =>
      var l, r := e.left, e.right;
      assert e.Owns(l) && e.Owns(r);
      TransBoolNode(l);
      TransBoolNode(r);
      e.BecomeBin(c, l, r);
  }

  // ----- expr_transform -----

  /** A comparison of a bool symbol with y, m or n becomes the symbol or a constant. */
  method TransformRelNode(e: Node)
    requires e.Valid() && e.op.IsRel?
    modifies e
    ensures e.Valid() && fresh(e.repr - old(e.repr)) && e.model == TransformRel(old(e.op).rel, old(e.a), old(e.b))
  {
    var rel, a, b := e.op.rel, e.a, e.b;
    if a.Type() != Boolean || (rel != Eq && rel != Ne) || !b.IsYmn() { return; }
    if b == SymM {
      e.BecomeSymbol(if rel == Eq then SymN else SymY);
    } else if (rel == Eq) == (b == SymN) {
      var s := new Node.Leaf(a);
      e.BecomeNot(s);
    } else {
      e.BecomeSymbol(a);
    }
  }

  /** !(a || b) becomes !a && !b and !(a && b) becomes !a || !b: `x` turns into the first negation. */
  method PushNot(e: Node, x: Node)
    requires x.Valid() && x.op.IsBin? && e !in x.repr
    modifies e, x
    ensures e.Valid() && fresh(e.repr - {e} - old(x.repr))
    ensures e.model == DeMorgan(old(x.op).conn, old(x.left).model, old(x.right).model)
  {
    var l, r, c := x.left, x.right, x.op.conn;
    assert x.Owns(l) && x.Owns(r);
    var n := new Node.Negation(r);
    x.BecomeNot(l);
    e.BecomeBin(Dual(c), x, n);
  }

  /** Negation normal form; the result may be another node than `e`. */
  method TransformNode(e: Node) returns (r: Node)
    requires e.Valid()
    modifies e.repr
    ensures r.Valid() && fresh(r.repr - old(e.repr)) && r.model == Transform(old(e.model))
    decreases Weight(e.model), 1
  {
    match e.op
    case IsSymbol => r := e;
    case IsRel(_) =>
      TransformRelNode(e);
      r := e;
    case IsBin(c) =>
      var x, y := e.left, e.right;
      assert e.Owns(x) && e.Owns(y);
      x := TransformNode(x);
      y := TransformNode(y);
      e.BecomeBin(c, x, y);
      r := e;
    case IsNot =>
      assert e.Owns(e.left);
      var x := TransformNode(e.left);
      r := TransformNot(e, x, e.model.arg);
  }

  /** The node `e` is a negation; its operand `inner` has been transformed into `x`. */
  method TransformNot(e: Node, x: Node, ghost inner: Expr) returns (r: Node)
    requires x.Valid() && e !in x.repr && x.model == Transform(inner)
    modifies e, x.repr
    ensures r.Valid() && fresh(r.repr - {e} - old(x.repr)) && r.model == Transform(Expr.Not(inner))
    decreases Weight(Expr.Not(inner)), 0
  {
    match x.op
    case IsNot =>
      assert x.Owns(x.left);
      r := TransformNode(x.left);
    case IsRel(rel) =>
      x.BecomeRel(Negated(rel));
      r := x;
    case IsBin(_) =>
      assert x.Owns(x.left) && x.Owns(x.right);
      PushNot(e, x);
      r := TransformNode(e);
    case IsSymbol =>
      r := x;
      if x.a == SymY {
        x.BecomeSymbol(SymN);
      } else if x.a == SymN {
        x.BecomeSymbol(SymY);
      } else if x.a != SymM {
        e.BecomeNot(x);
        r := e;
      }
  }

  // ----- expr_eq and expr_eliminate_eq -----

  /** Replaces equal operands of both expressions on one level by the unit of `c`. */
  method DropCommonNodes(c: Conn, e1: Node, e2: Node) returns (r1: Node, r2: Node)
    requires e1.Valid() && e2.Valid() && e1.repr !! e2.repr
    modifies e1.repr, e2.repr
    ensures r1.Valid() && r2.Valid() && r1.repr !! r2.repr
    ensures fresh(r1.repr - old(e1.repr)) && fresh(r2.repr - old(e2.repr))
    ensures (r1.model, r2.model) == DropCommon(c, old(e1.model), old(e2.model))
    decreases Size(e1.model) + Size(e2.model), if Leaves(c, e1.model, e2.model) then 3 else 0, 1
  {
    if e1.op == IsBin(c) {
      r1, r2 := DropFromFirst(c, e1, e2);
    } else if e2.op == IsBin(c) {
      r1, r2 := DropFromSecond(c, e1, e2);
    } else {
      r1, r2 := DropLeaves(c, e1, e2);
    }
  }

  /** First the left, then the right operand of `e1`. */
  method DropFromFirst(c: Conn, e1: Node, e2: Node) returns (r1: Node, r2: Node)
    requires e1.Valid() && e2.Valid() && e1.repr !! e2.repr && e1.op == IsBin(c)
    modifies e1.repr, e2.repr
    ensures r1.Valid() && r2.Valid() && r1.repr !! r2.repr
    ensures fresh(r1.repr - old(e1.repr)) && fresh(r2.repr - old(e2.repr))
    ensures (r1.model, r2.model) == DropCommon(c, old(e1.model), old(e2.model))
    decreases Size(e1.model) + Size(e2.model), 0, 0
  {
    var l, r := e1.left, e1.right;
    assert e1.Owns(l) && e1.Owns(r);
    l, r2 := DropCommonNodes(c, l, e2);
    r, r2 := DropCommonNodes(c, r, r2);
    e1.BecomeBin(c, l, r);
    r1 := e1;
  }

  /** The operands `l` and `r` of the second expression, one after the other. */
  method DropFromPair(c: Conn, e1: Node, l: Node, r: Node) returns (r1: Node, l': Node, r': Node)
    requires e1.Valid() && l.Valid() && r.Valid() && e1.repr !! l.repr !! r.repr
    modifies e1.repr, l.repr, r.repr
    ensures r1.Valid() && l'.Valid() && r'.Valid() && r1.repr !! l'.repr !! r'.repr
    ensures fresh(r1.repr - old(e1.repr)) && fresh(l'.repr - old(l.repr)) && fresh(r'.repr - old(r.repr))
    ensures l'.model == DropCommon(c, old(e1.model), old(l.model)).1
    ensures (r1.model, r'.model) == DropCommon(c, DropCommon(c, old(e1.model), old(l.model)).0, old(r.model))
    decreases Size(e1.model) + Size(l.model) + Size(r.model), 4, 0
  {
    r1, l' := DropCommonNodes(c, e1, l);
    r1, r' := DropCommonNodes(c, r1, r);
  }

  method DropFromSecond(c: Conn, e1: Node, e2: Node) returns (r1: Node, r2: Node)
    requires e1.Valid() && e2.Valid() && e1.repr !! e2.repr && e2.op == IsBin(c) && e1.op != IsBin(c)
    modifies e1.repr, e2.repr
    ensures r1.Valid() && r2.Valid() && r1.repr !! r2.repr
    ensures fresh(r1.repr - old(e1.repr)) && fresh(r2.repr - old(e2.repr))
    ensures (r1.model, r2.model) == DropCommon(c, old(e1.model), old(e2.model))
    decreases Size(e1.model) + Size(e2.model), 0, 0
  {
    var l, r := e2.left, e2.right;
    assert e2.Owns(l) && e2.Owns(r);
    r1, l, r := DropFromPair(c, e1, l, r);
    e2.BecomeBin(c, l, r);
    r2 := e2;
  }

  method DropLeaves(c: Conn, e1: Node, e2: Node) returns (r1: Node, r2: Node)
    requires e1.Valid() && e2.Valid() && e1.repr !! e2.repr && e1.op != IsBin(c) && e2.op != IsBin(c)
    ensures r1.Valid() && r2.Valid() && r1.repr !! r2.repr
    ensures fresh(r1.repr - old(e1.repr)) && fresh(r2.repr - old(e2.repr))
    ensures (r1.model, r2.model) == DropCommon(c, old(e1.model), old(e2.model))
    decreases Size(e1.model) + Size(e2.model), 3, 0
  {
    r1, r2 := e1, e2;
    if e1.op == e2.op == IsSymbol && e1.a == e2.a && (e1.a == SymY || e1.a == SymN) { return; }
    var same := ExprEqNodes(e1, e2);
    if same {
      var unit := if c == AndOp then SymY else SymN;
      r1 := new Node.Leaf(unit);
      r2 := new Node.Leaf(unit);
    }
  }

  /** The level of the second expression if it is another than that of the first. */
  method DropOther(e1: Node, e2: Node) returns (r1: Node, r2: Node)
    requires e1.Valid() && e2.Valid() && e1.repr !! e2.repr
    modifies e1.repr, e2.repr
    ensures r1.Valid() && r2.Valid() && r1.repr !! r2.repr
    ensures fresh(r1.repr - old(e1.repr)) && fresh(r2.repr - old(e2.repr))
    ensures (r1.model, r2.model) == old(
              if e2.model.Bin? && !Is(e1.model, e2.model.conn) then DropCommon(e2.model.conn, e1.model, e2.model)
              else (e1.model, e2.model))
    decreases Size(e1.model) + Size(e2.model), 1, 0
  {
    r1, r2 := e1, e2;
    if r1.op != r2.op && r2.op.IsBin? { r1, r2 := DropCommonNodes(r2.op.conn, r1, r2); }
  }

  /** The level of the first expression, and then that of the second if it is another. */
  method DropLevels(e1: Node, e2: Node) returns (r1: Node, r2: Node)
    requires e1.Valid() && e2.Valid() && e1.repr !! e2.repr
    modifies e1.repr, e2.repr
    ensures r1.Valid() && r2.Valid() && r1.repr !! r2.repr
    ensures fresh(r1.repr - old(e1.repr)) && fresh(r2.repr - old(e2.repr))
    ensures (r1.model, r2.model) == DropBoth(old(e1.model), old(e2.model))
    decreases Size(e1.model) + Size(e2.model), 1, 1
  {
    r1, r2 := e1, e2;
    if r1.op.IsBin? { r1, r2 := DropCommonNodes(r1.op.conn, r1, r2); }
    r1, r2 := DropOther(r1, r2);
  }

  /** Removes the operands common to both expressions. */
  method EliminateEqNodes(e1: Node, e2: Node) returns (r1: Node, r2: Node)
    requires e1.Valid() && e2.Valid() && e1.repr !! e2.repr
    modifies e1.repr, e2.repr
    ensures r1.Valid() && r2.Valid() && r1.repr !! r2.repr
    ensures fresh(r1.repr - old(e1.repr)) && fresh(r2.repr - old(e2.repr))
    ensures (r1.model, r2.model) == EliminateEq(old(e1.model), old(e2.model))
    decreases Size(e1.model) + Size(e2.model), 1, 2
  {
    r1, r2 := DropLevels(e1, e2);
    EliminateYn(r1);
    EliminateYn(r2);
  }

  /** Equality up to order of operands; the expressions themselves are not touched. */
  method ExprEqNodes(e1: Node, e2: Node) returns (same: bool)
    requires e1.Valid() && e2.Valid()
    ensures same == ExprEq(e1.model, e2.model)
    decreases Size(e1.model) + Size(e2.model), 2, 0
  {
    if e1.op != e2.op { return false; }
    match e1.op
    case IsSymbol => same := e1.a == e2.a;
    case IsRel(_) => same := e1.a == e2.a && e1.b == e2.b;
    case IsNot =>
      assert e1.Owns(e1.left) && e2.Owns(e2.left);
      same := ExprEqNodes(e1.left, e2.left);
    case IsBin(_) =>
      var f1 := Copy(e1);
      var f2 := Copy(e2);
      f1, f2 := EliminateEqNodes(f1, f2);
      same := f1.op == f2.op == IsSymbol && f1.a == f2.a;
  }
}
