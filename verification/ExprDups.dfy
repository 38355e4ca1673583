/**
 Removal of duplicate and otherwise joinable operands.  The walk runs two slots
 over one and the same tree and overwrites operands while it goes; a slot is a
 path from the root.
 */
module ExprDups {
  import opened Tristate
  import opened Expr
  import opened ExprEquality
  import opened ExprTransform
  import opened ExprPaths

  // ----- joining two operands -----

  predicate IsEqTest(e: Expr) {
    e.Rel? && (e.op == Eq || e.op == Ne)
  }

  /** The symbol an operand speaks about; a NOT may hide a test only in the first operand. */
  function HeadSym(e: Expr, testUnderNot: bool): Option<Sym> {
    match e
    case Symbol(s) => Some(s)
    case Rel(_, a, _) => if IsEqTest(e) then Some(a) else None
    case Not(Symbol(s)) => Some(s)
    case Not(Rel(op, a, _)) => if testUnderNot && (op == Eq || op == Ne) then Some(a) else None
    case _ => None
  }

  predicate IsRel(e: Expr, op: RelOp, b: Sym) {
    e.Rel? && e.op == op && e.b == b
  }

  /** `b1` and `b2` are `x` and `y`, in either order. */
  predicate Both(b1: Sym, b2: Sym, x: Sym, y: Sym) {
    (b1 == x && b2 == y) || (b1 == y && b2 == x)
  }

  /** One operand is a plain symbol and the other a test of kind `op` against `b`. */
  predicate SymbolWith(e1: Expr, e2: Expr, op: RelOp, b: Sym) {
    (e1.Symbol? && IsRel(e2, op, b)) || (e2.Symbol? && IsRel(e1, op, b))
  }

  function JoinOr(e1: Expr, e2: Expr): Option<Expr> {
    var h1, h2 := HeadSym(e1, true), HeadSym(e2, false);
    if ExprEq(e1, e2) then Some(e1)
    else if h1.None? || h1 != h2 then None
    else
      var s := h1.value;
      if s.Type() == Tristate && e1.Rel? && e2.Rel? && e1.op == Eq && e2.op == Eq then
        if Both(e1.b, e2.b, SymY, SymM) then Some(Rel(Ne, s, SymN))
        else if Both(e1.b, e2.b, SymY, SymN) then Some(Rel(Ne, s, SymM))
        else if Both(e1.b, e2.b, SymM, SymN) then Some(Rel(Ne, s, SymY))
        else None
      else if s.Type() == Boolean &&
              ((e1.Not? && e1.arg.Symbol? && e2.Symbol?) || (e2.Not? && e2.arg.Symbol? && e1.Symbol?)) then
        Some(ExprY)
      else None
  }

  /** (a='b') && (a!='c') is a='b' unless the constants are the same. */
  function JoinConsts(s: Sym, b: Sym, c: Sym): Expr {
    if b != c then Rel(Eq, s, b) else ExprN
  }

  /** Two equality tests of one tristate symbol under AND. */
  function JoinTests(s: Sym, op1: RelOp, b1: Sym, op2: RelOp, b2: Sym): Option<Expr> {
    var consts := b1.IsConst() && b2.IsConst();
    if op1 == Eq && op2 == Ne && consts then Some(JoinConsts(s, b1, b2))
    else if op1 == Ne && op2 == Eq && consts then Some(JoinConsts(s, b2, b1))
    else if op1 == Ne && op2 == Ne then
      if Both(b1, b2, SymY, SymN) then Some(Rel(Eq, s, SymM))
      else if Both(b1, b2, SymY, SymM) then Some(Rel(Eq, s, SymN))
      else if Both(b1, b2, SymM, SymN) then Some(Rel(Eq, s, SymY))
      else None
    else None
  }

  function JoinAnd(e1: Expr, e2: Expr): Option<Expr> {
    var h1, h2 := HeadSym(e1, true), HeadSym(e2, false);
    if ExprEq(e1, e2) then Some(e1)
    else if h1.None? || h1 != h2 then None
    else
      var s := h1.value;
      if s.Type() != Boolean && s.Type() != Tristate then None
      else if SymbolWith(e1, e2, Eq, SymY) then Some(Rel(Eq, s, SymY))
      else if SymbolWith(e1, e2, Ne, SymN) then Some(Symbol(s))
      else if SymbolWith(e1, e2, Ne, SymM) then Some(Rel(Eq, s, SymY))
      else if s.Type() == Tristate && e1.Rel? && e2.Rel? then JoinTests(s, e1.op, e1.b, e2.op, e2.b)
      else None
  }

  function Join(c: Conn, e1: Expr, e2: Expr): Option<Expr> {
    if c == OrOp then JoinOr(e1, e2) else JoinAnd(e1, e2)
  }

  lemma TestsYmn(env: Env, s: Sym)
    requires WellFormed(env) && s.IsLogical()
    ensures Value(Rel(Eq, s, SymY), env) == FromBool(env.tri(s) == YES)
    ensures Value(Rel(Eq, s, SymM), env) == FromBool(env.tri(s) == MOD)
    ensures Value(Rel(Eq, s, SymN), env) == FromBool(env.tri(s) == NO)
    ensures Value(Rel(Ne, s, SymY), env) == FromBool(env.tri(s) != YES)
    ensures Value(Rel(Ne, s, SymM), env) == FromBool(env.tri(s) != MOD)
    ensures Value(Rel(Ne, s, SymN), env) == FromBool(env.tri(s) != NO)
  {
    TestYmn(env, s, SymY);
    TestYmn(env, s, SymM);
    TestYmn(env, s, SymN);
  }

  lemma ExcludedMiddle(s: Sym, env: Env)
    requires WellFormed(env) && s.Type() == Boolean
    ensures TriOr(Value(Not(Symbol(s)), env), Value(Symbol(s), env)) == YES
  {
    assert Value(Not(Symbol(s)), env) == TriNot(Value(Symbol(s), env));
  }

  lemma JoinOrValue(e1: Expr, e2: Expr, env: Env)
    requires WellFormed(env) && Admissible(e1, env) && Admissible(e2, env) && JoinOr(e1, e2).Some?
    ensures Admissible(JoinOr(e1, e2).value, env)
    ensures Value(JoinOr(e1, e2).value, env) == TriOr(Value(e1, env), Value(e2, env))
  {
    if ExprEq(e1, e2) {
      ExprEqSound(e1, e2, env);
    } else {
      var s := HeadSym(e1, true).value;
      if s.Type() == Tristate {
        TestYmn(env, s, e1.b);
        TestYmn(env, s, e2.b);
        TestYmn(env, s, JoinOr(e1, e2).value.b);
      } else {
        ExcludedMiddle(s, env);
      }
    }
  }

  lemma JoinConstsValue(s: Sym, b: Sym, c: Sym, env: Env)
    requires WellFormed(env) && s.Type() == Tristate && b.IsConst() && c.IsConst()
    requires AdmissibleRel(Eq, s, b, env) && AdmissibleRel(Eq, s, c, env)
    ensures Value(JoinConsts(s, b, c), env) == TriAnd(Value(Rel(Eq, s, b), env), Value(Rel(Ne, s, c), env))
  {
    CompareConst(env, s, b);
    CompareConst(env, s, c);
  }

  /**
   Without the restriction on numeric-looking constants the rule for two distinct
   constants is right exactly when they do not both denote the symbol's value.
   */
  lemma JoinConstsExact(s: Sym, b: Sym, c: Sym, env: Env)
    requires WellFormed(env) && s.Type() == Tristate && b.IsConst() && c.IsConst() && b != c
    requires b.Quoted? ==> b.name != "y" && b.name != "m" && b.name != "n"
    requires c.Quoted? ==> c.name != "y" && c.name != "m" && c.name != "n"
    ensures (Value(JoinConsts(s, b, c), env) == Value(And(Rel(Eq, s, b), Rel(Ne, s, c)), env))
            == !(Denotes(env, b) == Denotes(env, c) == Some(env.tri(s)))
  {
    CompareConst(env, s, b);
    CompareConst(env, s, c);
    assert Value(And(Rel(Eq, s, b), Rel(Ne, s, c)), env)
        == TriAnd(Value(Rel(Eq, s, b), env), Value(Rel(Ne, s, c), env));
  }

  /** A tristate symbol at m: (A = "1") && (A != m) is no, but joins to A = "1", which is yes. */
  lemma JoinConstsFails(env: Env)
    requires WellFormed(env) && env.num(Unknown, "1") == Signed(1)
    requires env.tri(Config(0, SymType.Tristate)) == MOD
    ensures var a := Config(0, SymType.Tristate);
            var e1, e2 := Rel(Eq, a, Quoted("1")), Rel(Ne, a, SymM);
            && Value(And(e1, e2), env) == NO
            && JoinAnd(e1, e2).Some? && Value(JoinAnd(e1, e2).value, env) == YES
  {
    var a := Config(0, SymType.Tristate);
    CompareConst(env, a, Quoted("1"));
    CompareConst(env, a, SymM);
    assert Value(And(Rel(Eq, a, Quoted("1")), Rel(Ne, a, SymM)), env)
        == TriAnd(Value(Rel(Eq, a, Quoted("1")), env), Value(Rel(Ne, a, SymM), env));
  }

  lemma JoinAndValue(e1: Expr, e2: Expr, env: Env)
    requires WellFormed(env) && Admissible(e1, env) && Admissible(e2, env) && JoinAnd(e1, e2).Some?
    ensures Admissible(JoinAnd(e1, e2).value, env)
    ensures Value(JoinAnd(e1, e2).value, env) == TriAnd(Value(e1, env), Value(e2, env))
  {
    if ExprEq(e1, e2) {
      ExprEqSound(e1, e2, env);
    } else {
      var s := HeadSym(e1, true).value;
      if e1.Symbol? || e2.Symbol? {
        assert (e1 == Symbol(s) && e2 == Rel(e2.op, s, e2.b)) || (e2 == Symbol(s) && e1 == Rel(e1.op, s, e1.b));
        TestsYmn(env, s);
      } else {
        JoinTestsValue(s, e1.op, e1.b, e2.op, e2.b, env);
      }
    }
  }

  lemma JoinTestsValue(s: Sym, op1: RelOp, b1: Sym, op2: RelOp, b2: Sym, env: Env)
    requires WellFormed(env) && s.Type() == Tristate && JoinTests(s, op1, b1, op2, b2).Some?
    requires AdmissibleRel(op1, s, b1, env) && AdmissibleRel(op2, s, b2, env)
    ensures Admissible(JoinTests(s, op1, b1, op2, b2).value, env)
    ensures Value(JoinTests(s, op1, b1, op2, b2).value, env)
            == TriAnd(Value(Rel(op1, s, b1), env), Value(Rel(op2, s, b2), env))
  {
    if op1 == Eq {
      JoinConstsValue(s, b1, b2, env);
    } else if op2 == Eq {
      JoinConstsValue(s, b2, b1, env);
    } else {
      JoinNeValue(s, b1, b2, env);
    }
  }

  lemma JoinNeValue(s: Sym, b1: Sym, b2: Sym, env: Env)
    requires WellFormed(env) && s.Type() == Tristate && b1.IsYmn() && b2.IsYmn() && b1 != b2
    ensures JoinTests(s, Ne, b1, Ne, b2).Some?
    ensures var r := JoinTests(s, Ne, b1, Ne, b2).value;
            && r.Rel? && r.b.IsYmn()
            && Value(r, env) == TriAnd(Value(Rel(Ne, s, b1), env), Value(Rel(Ne, s, b2), env))
  {
    TestYmn(env, s, b1);
    TestYmn(env, s, b2);
    TestYmn(env, s, JoinTests(s, Ne, b1, Ne, b2).value.b);
  }

  /** A join is one of the operands or a single symbol or test. */
  lemma JoinShape(c: Conn, e1: Expr, e2: Expr)
    requires Join(c, e1, e2).Some?
    ensures Join(c, e1, e2).value == e1 || Join(c, e1, e2).value.Symbol? || Join(c, e1, e2).value.Rel?
    ensures Size(Join(c, e1, e2).value) <= Size(e1) + Size(e2) - 1
  {
  }

  lemma JoinValue(c: Conn, e1: Expr, e2: Expr, env: Env)
    requires WellFormed(env) && Admissible(e1, env) && Admissible(e2, env) && Join(c, e1, e2).Some?
    ensures Admissible(Join(c, e1, e2).value, env)
    ensures Value(Join(c, e1, e2).value, env) == Apply(c, Value(e1, env), Value(e2, env))
  {
    if c == OrOp { JoinOrValue(e1, e2, env); } else { JoinAndValue(e1, e2, env); }
  }

  /** The level after the operand at `a` has been joined into the one at `b`. */
  function Joined(c: Conn, t: Expr, a: Path, b: Path, x: Expr): (r: Expr)
    requires Operand(c, t, a) && Operand(c, t, b) && a != b
    ensures Valid(r, b)
  {
    PutElsewhere(c, t, a, Unit(c), b);
    Put(Put(t, a, Unit(c)), b, x)
  }

  lemma JoinedValue(c: Conn, t: Expr, a: Path, b: Path, x: Expr, env: Env)
    requires WellFormed(env) && Operand(c, t, a) && Operand(c, t, b) && a != b
    requires Value(x, env) == Apply(c, Value(At(t, a), env), Value(At(t, b), env))
    ensures Value(Joined(c, t, a, b, x), env) == Value(t, env)
  {
    var t1 := Put(t, a, Unit(c));
    PutElsewhere(c, t, a, Unit(c), b);
    PutBack(t, a);
    PutBack(t1, b);
    PutValue(c, t, a, At(t, a), env);
    PutValue(c, t1, b, At(t1, b), env);
    PutValue(c, t1, b, x, env);
    Regroup(c, Value(Put(t1, b, Unit(c)), env), Value(At(t, a), env), NO, Value(At(t, b), env));
  }

  lemma JoinedLevel(c: Conn, t: Expr, a: Path, b: Path)
    requires Is(t, c) && Operand(c, t, a) && Operand(c, t, b) && a != b && Join(c, At(t, a), At(t, b)).Some?
    ensures var t' := Joined(c, t, a, b, Join(c, At(t, a), At(t, b)).value); SameLevel(c, t, t') && Size(t') <= Size(t)
  {
    var x, t1 := Join(c, At(t, a), At(t, b)).value, Put(t, a, Unit(c));
    JoinShape(c, At(t, a), At(t, b));
    PutElsewhere(c, t, a, Unit(c), b);
    PutLevel(c, t, a, Unit(c));
    PutLevel(c, t1, b, x);
    SameLevelTrans(c, t, t1, Put(t1, b, x));
  }

  lemma JoinLevel(c: Conn, t: Expr, a: Path, b: Path)
    requires Is(t, c) && Operand(c, t, a) && Operand(c, t, b) && a != b
    requires Join(c, At(t, a), At(t, b)).Some?
    ensures var t' := Joined(c, t, a, b, Join(c, At(t, a), At(t, b)).value);
            && SameLevel(c, t, t') && Size(t') <= Size(t)
            && Preserves(t, t') && Reducible(t')
  {
    var e1, e2 := At(t, a), At(t, b);
    var x := Join(c, e1, e2).value;
    var t1 := Put(t, a, Unit(c));
    var t' := Joined(c, t, a, b, x);
    JoinShape(c, e1, e2);
    PutElsewhere(c, t, a, Unit(c), b);
    PutLevel(c, t, a, Unit(c));
    SameLevelAt(c, t, t1, a);
    PutLevel(c, t1, b, x);
    SameLevelTrans(c, t, t1, t');
    PutElsewhere(c, t1, b, x, a);
    UnitReducible(c, t', a);
    forall env: Env | WellFormed(env) && Admissible(t, env)
      ensures Admissible(t', env) && Value(t', env) == Value(t, env)
    {
      PutAdmissible(t, a, Unit(c), env);
      PutAdmissible(t, b, x, env);
      JoinValue(c, e1, e2, env);
      PutAdmissible(t1, b, x, env);
      JoinedValue(c, t, a, b, x, env);
    }
    if Nnf(t) {
      PutNnf(t, a, Unit(c));
      PutNnf(t1, b, x);
    }
  }

  // ----- the walk -----

  /** On no level do two operands join. */
  ghost predicate DupFree(e: Expr)
    decreases Size(e)
  {
    e.Bin? ==> forall a: Path, b: Path | Operand(e.conn, e, a) && Operand(e.conn, e, b) && a != b ::
                 Join(e.conn, At(e, a), At(e, b)).None? && DupFree(At(e, a))
  }

  /** No operand at or below `p1` joins with one at or below `p2`. */
  ghost predicate NoJoin(c: Conn, t: Expr, p1: Path, p2: Path) {
    forall a: Path, b: Path | p1 <= a && p2 <= b && Operand(c, t, a) && Operand(c, t, b) && a != b ::
      Join(c, At(t, a), At(t, b)).None? && DupFree(At(t, a))
  }

  /** What one walk does to the level it works on. */
  ghost predicate Walked(c: Conn, before: Expr, after: Expr) {
    && SameLevel(c, before, after)
    && Size(after) <= Size(before)
    && Preserves(before, after)
  }

  lemma WalkedTrans(c: Conn, e: Expr, f: Expr, g: Expr)
    requires Walked(c, e, f) && Walked(c, f, g)
    ensures Walked(c, e, g)
  {
    SameLevelTrans(c, e, f, g);
    PreservesTrans(e, f, g);
  }

  lemma Continues(c: Conn, t: Expr, p: Path, a: Path)
    requires Valid(t, p) && Is(At(t, p), c) && p <= a && Operand(c, t, a)
    ensures p + [L] <= a || p + [R] <= a
  {
    assert a != p;
    assert a[|p|] == L || a[|p|] == R;
  }

  lemma NoJoinFirst(c: Conn, t: Expr, p1: Path, p2: Path)
    requires Valid(t, p1) && Is(At(t, p1), c) && NoJoin(c, t, p1 + [L], p2) && NoJoin(c, t, p1 + [R], p2)
    ensures NoJoin(c, t, p1, p2)
  {
    forall a: Path, b: Path | p1 <= a && p2 <= b && Operand(c, t, a) && Operand(c, t, b) && a != b
      ensures Join(c, At(t, a), At(t, b)).None? && DupFree(At(t, a))
    {
      Continues(c, t, p1, a);
    }
  }

  lemma NoJoinSecond(c: Conn, t: Expr, p1: Path, p2: Path)
    requires Valid(t, p2) && Is(At(t, p2), c) && NoJoin(c, t, p1, p2 + [L]) && NoJoin(c, t, p1, p2 + [R])
    ensures NoJoin(c, t, p1, p2)
  {
    forall a: Path, b: Path | p1 <= a && p2 <= b && Operand(c, t, a) && Operand(c, t, b) && a != b
      ensures Join(c, At(t, a), At(t, b)).None? && DupFree(At(t, a))
    {
      Continues(c, t, p2, b);
    }
  }

  /** At a pair of operands there is only that pair to look at. */
  lemma NoJoinOperands(c: Conn, t: Expr, p1: Path, p2: Path)
    requires Operand(c, t, p1) && Operand(c, t, p2)
    requires p1 != p2 ==> Join(c, At(t, p1), At(t, p2)).None? && DupFree(At(t, p1))
    ensures NoJoin(c, t, p1, p2)
  {
    forall a: Path, b: Path | p1 <= a && p2 <= b && Operand(c, t, a) && Operand(c, t, b) && a != b
      ensures Join(c, At(t, a), At(t, b)).None? && DupFree(At(t, a))
    {
      OperandEnds(c, t, p1, a);
      OperandEnds(c, t, p2, b);
    }
  }

  lemma NoJoinWhole(e: Expr)
    requires e.Bin? && NoJoin(e.conn, e, [], [])
    ensures DupFree(e)
  {
  }

  /** What a slot of the level holds. */
  function Slot(c: Conn, t: Expr, r: Path): (x: Expr)
    requires OnLevel(c, t, r)
    ensures Valid(t, r) && x == At(t, r)
  {
    OnLevelValid(c, t, r);
    At(t, r)
  }

  lemma StepDown(c: Conn, t: Expr, r: Path, d: Turn)
    requires OnLevel(c, t, r) && Is(Slot(c, t, r), c)
    ensures OnLevel(c, t, r + [d]) && LevelSize(c, Slot(c, t, r + [d])) < LevelSize(c, Slot(c, t, r))
  {
    OnLevelValid(c, t, r);
    OnLevelAppend(c, t, r, [d]);
    AtAppend(t, r, [d]);
  }

  lemma SlotKept(c: Conn, t: Expr, t': Expr, r: Path)
    requires SameLevel(c, t, t') && OnLevel(c, t, r)
    ensures OnLevel(c, t', r) && LevelSize(c, Slot(c, t', r)) == LevelSize(c, Slot(c, t, r))
    ensures Is(Slot(c, t', r), c) == Is(Slot(c, t, r), c)
  {
    SameLevelAt(c, t, t', r);
  }

  lemma WalkedRefl(c: Conn, t: Expr)
    ensures Walked(c, t, t)
  {
    SameLevelRefl(c, t);
  }

  /** A rewriting inside the operand at `r` is a rewriting of its level. */
  lemma WalkedInside(c: Conn, t: Expr, r: Path, c': Conn, x: Expr)
    requires Operand(c, t, r) && Walked(c', At(t, r), x) && !Is(x, c)
    ensures Walked(c, t, Put(t, r, x))
    ensures Reducible(x) ==> Reducible(Put(t, r, x))
  {
    PutLevel(c, t, r, x);
    PreservesPut(t, r, x);
    if Reducible(x) { PutReducible(t, r, x); }
  }

  // ----- the walk as a function of the level -----

  /** The level after comparing operands at or below `r1` with those at or below `r2`, and the number of joins. */
  function Walk(c: Conn, t: Expr, r1: Path, r2: Path): (r: (Expr, nat))
    requires Is(t, c) && OnLevel(c, t, r1) && OnLevel(c, t, r2)
    ensures SameLevel(c, t, r.0) && Size(r.0) <= Size(t)
    decreases Size(t), LevelSize(c, Slot(c, t, r1)) + LevelSize(c, Slot(c, t, r2)), 2
  {
    if Is(Slot(c, t, r1), c) then
      StepDown(c, t, r1, L);
      StepDown(c, t, r1, R);
      var x := Walk(c, t, r1 + [L], r2);
      SlotKept(c, t, x.0, r1 + [R]);
      SlotKept(c, t, x.0, r2);
      var y := Walk(c, x.0, r1 + [R], r2);
      SameLevelTrans(c, t, x.0, y.0);
      (y.0, x.1 + y.1)
    else if Is(Slot(c, t, r2), c) then
      StepDown(c, t, r2, L);
      StepDown(c, t, r2, R);
      var x := Walk(c, t, r1, r2 + [L]);
      SlotKept(c, t, x.0, r2 + [R]);
      SlotKept(c, t, x.0, r1);
      var y := Walk(c, x.0, r1, r2 + [R]);
      SameLevelTrans(c, t, x.0, y.0);
      (y.0, x.1 + y.1)
    else if r1 == r2 then SameLevelRefl(c, t); (t, 0)
    else Compared(c, t, r1, r2)
  }

  /** Two distinct operands: the first one is tidied inside, then they are joined if they can be. */
  function Compared(c: Conn, t: Expr, r1: Path, r2: Path): (r: (Expr, nat))
    requires Is(t, c) && Operand(c, t, r1) && Operand(c, t, r2) && r1 != r2
    ensures SameLevel(c, t, r.0) && Size(r.0) <= Size(t)
    decreases Size(t), 0, 1
  {
    var x := Tidied(c, t, r1);
    SameLevelAt(c, t, x.0, r1);
    SameLevelAt(c, t, x.0, r2);
    var j := Join(c, At(x.0, r1), At(x.0, r2));
    if j.None? then x
    else
      JoinedLevel(c, x.0, r1, r2);
      SameLevelTrans(c, t, x.0, Joined(c, x.0, r1, r2, j.value));
      (Joined(c, x.0, r1, r2, j.value), x.1 + 1)
  }

  /** An operand that is itself an AND or OR is walked as a level of its own. */
  function Tidied(c: Conn, t: Expr, r: Path): (x: (Expr, nat))
    requires Is(t, c) && Operand(c, t, r)
    ensures SameLevel(c, t, x.0) && Size(x.0) <= Size(t)
    decreases Size(t), 0, 0
  {
    var e := At(t, r);
    if e.Bin? then
      var y := Walk(e.conn, e, [], []);
      PutLevel(c, t, r, y.0);
      (Put(t, r, y.0), y.1)
    else SameLevelRefl(c, t); (t, 0)
  }

  /** What a walk has done, with the number of joins it made. */
  ghost predicate WalkDone(c: Conn, t: Expr, r1: Path, r2: Path, r: (Expr, nat)) {
    && Walked(c, t, r.0) && (r.1 > 0 ==> Reducible(r.0))
    && (r.1 == 0 ==> r.0 == t && NoJoin(c, t, r1, r2))
  }

  lemma {:induction false} WalkProperties(c: Conn, t: Expr, r1: Path, r2: Path)
    requires Is(t, c) && OnLevel(c, t, r1) && OnLevel(c, t, r2)
    ensures WalkDone(c, t, r1, r2, Walk(c, t, r1, r2))
    decreases Size(t), LevelSize(c, Slot(c, t, r1)) + LevelSize(c, Slot(c, t, r2)), 2
  {
    if Is(Slot(c, t, r1), c) {
      StepDown(c, t, r1, L);
      StepDown(c, t, r1, R);
      var x := Walk(c, t, r1 + [L], r2);
      WalkProperties(c, t, r1 + [L], r2);
      SlotKept(c, t, x.0, r1 + [R]);
      SlotKept(c, t, x.0, r2);
      WalkProperties(c, x.0, r1 + [R], r2);
      WalkedTrans(c, t, x.0, Walk(c, x.0, r1 + [R], r2).0);
      if Walk(c, t, r1, r2).1 == 0 { NoJoinFirst(c, t, r1, r2); }
    } else if Is(Slot(c, t, r2), c) {
      StepDown(c, t, r2, L);
      StepDown(c, t, r2, R);
      var x := Walk(c, t, r1, r2 + [L]);
      WalkProperties(c, t, r1, r2 + [L]);
      SlotKept(c, t, x.0, r2 + [R]);
      SlotKept(c, t, x.0, r1);
      WalkProperties(c, x.0, r1, r2 + [R]);
      WalkedTrans(c, t, x.0, Walk(c, x.0, r1, r2 + [R]).0);
      if Walk(c, t, r1, r2).1 == 0 { NoJoinSecond(c, t, r1, r2); }
    } else if r1 == r2 {
      WalkedRefl(c, t);
      NoJoinOperands(c, t, r1, r2);
    } else {
      ComparedProperties(c, t, r1, r2);
    }
  }

  lemma {:induction false} ComparedProperties(c: Conn, t: Expr, r1: Path, r2: Path)
    requires Is(t, c) && Operand(c, t, r1) && Operand(c, t, r2) && r1 != r2
    ensures WalkDone(c, t, r1, r2, Compared(c, t, r1, r2))
    decreases Size(t), 0, 1
  {
    var x := Tidied(c, t, r1);
    TidiedProperties(c, t, r1);
    SameLevelAt(c, t, x.0, r1);
    SameLevelAt(c, t, x.0, r2);
    var j := Join(c, At(x.0, r1), At(x.0, r2));
    if j.Some? {
      JoinLevel(c, x.0, r1, r2);
      WalkedTrans(c, t, x.0, Joined(c, x.0, r1, r2, j.value));
    } else if x.1 == 0 {
      NoJoinOperands(c, t, r1, r2);
    }
  }

  lemma {:induction false} TidiedProperties(c: Conn, t: Expr, r: Path)
    requires Is(t, c) && Operand(c, t, r)
    ensures var x := Tidied(c, t, r);
            && Walked(c, t, x.0) && (x.1 > 0 ==> Reducible(x.0)) && (x.1 == 0 ==> x.0 == t && DupFree(At(t, r)))
    decreases Size(t), 0, 0
  {
    var e := At(t, r);
    if e.Bin? {
      var y := Walk(e.conn, e, [], []);
      WalkProperties(e.conn, e, [], []);
      WalkedInside(c, t, r, e.conn, y.0);
      PutBack(t, r);
      if y.1 == 0 { NoJoinWhole(e); }
    } else {
      WalkedRefl(c, t);
    }
  }

  lemma NoJoinDown(c: Conn, t: Expr, r1: Path, r2: Path, s1: Path, s2: Path)
    requires NoJoin(c, t, r1, r2) && r1 <= s1 && r2 <= s2
    ensures NoJoin(c, t, s1, s2)
  {
  }

  /** Nothing is joined where nothing joins. */
  lemma {:induction false} WalkIdle(c: Conn, t: Expr, r1: Path, r2: Path)
    requires Is(t, c) && OnLevel(c, t, r1) && OnLevel(c, t, r2) && NoJoin(c, t, r1, r2)
    ensures Walk(c, t, r1, r2) == (t, 0)
    decreases Size(t), LevelSize(c, Slot(c, t, r1)) + LevelSize(c, Slot(c, t, r2)), 1
  {
    if Is(Slot(c, t, r1), c) {
      StepDown(c, t, r1, L);
      StepDown(c, t, r1, R);
      NoJoinDown(c, t, r1, r2, r1 + [L], r2);
      NoJoinDown(c, t, r1, r2, r1 + [R], r2);
      WalkIdle(c, t, r1 + [L], r2);
      WalkIdle(c, t, r1 + [R], r2);
    } else if Is(Slot(c, t, r2), c) {
      StepDown(c, t, r2, L);
      StepDown(c, t, r2, R);
      NoJoinDown(c, t, r1, r2, r1, r2 + [L]);
      NoJoinDown(c, t, r1, r2, r1, r2 + [R]);
      WalkIdle(c, t, r1, r2 + [L]);
      WalkIdle(c, t, r1, r2 + [R]);
    } else if r1 != r2 {
      ComparedIdle(c, t, r1, r2);
    }
  }

  lemma {:induction false} ComparedIdle(c: Conn, t: Expr, r1: Path, r2: Path)
    requires Is(t, c) && Operand(c, t, r1) && Operand(c, t, r2) && r1 != r2
    requires Join(c, At(t, r1), At(t, r2)).None? && DupFree(At(t, r1))
    ensures Compared(c, t, r1, r2) == (t, 0)
    decreases Size(t), 0, 0
  {
    var e := At(t, r1);
    if e.Bin? {
      assert NoJoin(e.conn, e, [], []);
      WalkIdle(e.conn, e, [], []);
      PutBack(t, r1);
    }
  }

  /** The whole expression, to the fixed point. */
  function Optimized(e: Expr): (r: Expr)
    decreases Size(e)
  {
    if !e.Bin? then e
    else
      var x := Walk(e.conn, e, [], []);
      if x.1 == 0 then e
      else
        WalkProperties(e.conn, e, [], []);
        ElimYnShrinks(x.0);
        Optimized(ElimYn(x.0))
  }

  lemma {:induction false} OptimizedProperties(e: Expr)
    ensures var r := Optimized(e); Preserves(e, r) && Size(r) <= Size(e) && DupFree(r)
    decreases Size(e)
  {
    if e.Bin? {
      var x := Walk(e.conn, e, [], []);
      WalkProperties(e.conn, e, [], []);
      if x.1 == 0 {
        NoJoinWhole(e);
      } else {
        ElimYnShrinks(x.0);
        PreservesElimYn(x.0);
        PreservesTrans(e, x.0, ElimYn(x.0));
        OptimizedProperties(ElimYn(x.0));
        PreservesTrans(e, ElimYn(x.0), Optimized(e));
      }
    }
  }

  /** The fixed points are exactly the expressions without joinable operands. */
  lemma OptimizedFixed(e: Expr)
    ensures Optimized(e) == e <==> DupFree(e)
  {
    OptimizedProperties(e);
    if e.Bin? && DupFree(e) {
      assert NoJoin(e.conn, e, [], []);
      WalkIdle(e.conn, e, [], []);
    }
  }

  /** The two stores of a join, made through slots of the whole tree. */
  lemma JoinedInPlace(c: Conn, root: Expr, q: Path, r1: Path, r2: Path, x: Expr)
    requires Valid(root, q) && Operand(c, At(root, q), r1) && Operand(c, At(root, q), r2) && r1 != r2
    ensures Valid(root, q + r1) && Valid(Put(root, q + r1, Unit(c)), q + r2)
    ensures Put(Put(root, q + r1, Unit(c)), q + r2, x) == Put(root, q, Joined(c, At(root, q), r1, r2, x))
  {
    var t := At(root, q);
    var t1 := Put(t, r1, Unit(c));
    PutAppend(root, q, r1, Unit(c));
    PutElsewhere(c, t, r1, Unit(c), r2);
    PutAppend(Put(root, q, t1), q, r2, x);
    PutPut(root, q, t1, Put(t1, r2, x));
  }

  /** The tree under optimisation, updated in place, and the global count of joins. */
  class Optimizer {
    var root: Expr
    var transCount: nat

    constructor (e: Expr)
      ensures root == e && transCount == 0
    {
      root := e;
      transCount := 0;
    }

    /**
     Compares every operand at or below slot `q + r1` with every operand at or
     below slot `q + r2`; the level of connective `c` they are on starts at `q`.
     */
    method EliminateDups1(c: Conn, q: Path, r1: Path, r2: Path)
      requires Valid(root, q) && Is(At(root, q), c)
      requires OnLevel(c, At(root, q), r1) && OnLevel(c, At(root, q), r2)
      modifies this
      ensures root == Put(old(root), q, Walk(c, old(At(root, q)), r1, r2).0)
      ensures transCount == old(transCount) + Walk(c, old(At(root, q)), r1, r2).1
      decreases Size(At(root, q)),
                LevelSize(c, Slot(c, At(root, q), r1)) + LevelSize(c, Slot(c, At(root, q), r2)), 2
    {
      var t := At(root, q);
      if Is(Slot(c, t, r1), c) {
        StepDown(c, t, r1, L);
        StepDown(c, t, r1, R);
        EliminateDups1(c, q, r1 + [L], r2);
        ghost var t1 := At(root, q);
        SlotKept(c, t, t1, r1 + [R]);
        SlotKept(c, t, t1, r2);
        EliminateDups1(c, q, r1 + [R], r2);
        PutPut(old(root), q, t1, At(root, q));
      } else if Is(Slot(c, t, r2), c) {
        StepDown(c, t, r2, L);
        StepDown(c, t, r2, R);
        EliminateDups1(c, q, r1, r2 + [L]);
        ghost var t1 := At(root, q);
        SlotKept(c, t, t1, r2 + [R]);
        SlotKept(c, t, t1, r1);
        EliminateDups1(c, q, r1, r2 + [R]);
        PutPut(old(root), q, t1, At(root, q));
      } else if r1 == r2 {
        PutBack(root, q);
      } else {
        CompareOperands(c, q, r1, r2);
      }
    }

    /** Two distinct operands of the level: tidy the first one inside, then try to join them. */
    method CompareOperands(c: Conn, q: Path, r1: Path, r2: Path)
      requires Valid(root, q) && Is(At(root, q), c)
      requires Operand(c, At(root, q), r1) && Operand(c, At(root, q), r2) && r1 != r2
      modifies this
      ensures root == Put(old(root), q, Compared(c, old(At(root, q)), r1, r2).0)
      ensures transCount == old(transCount) + Compared(c, old(At(root, q)), r1, r2).1
      decreases Size(At(root, q)), 0, 1
    {
      var t := At(root, q);
      TidyOperand(c, q, r1);
      ghost var t1 := At(root, q);
      SameLevelAt(c, t, t1, r1);
      SameLevelAt(c, t, t1, r2);
      var tmp := Join(c, At(At(root, q), r1), At(At(root, q), r2));
      if tmp.Some? {
        JoinedInPlace(c, root, q, r1, r2, tmp.value);
        root := Put(root, q + r1, Unit(c));
        root := Put(root, q + r2, tmp.value);
        transCount := transCount + 1;
        PutPut(old(root), q, t1, Joined(c, t1, r1, r2, tmp.value));
      }
    }

    /** An operand that is itself an AND or OR is walked as a level of its own. */
    method TidyOperand(c: Conn, q: Path, r: Path)
      requires Valid(root, q) && Is(At(root, q), c) && Operand(c, At(root, q), r)
      modifies this
      ensures root == Put(old(root), q, Tidied(c, old(At(root, q)), r).0)
      ensures transCount == old(transCount) + Tidied(c, old(At(root, q)), r).1
      decreases Size(At(root, q)), 0, 0
    {
      var t := At(root, q);
      AtAppend(root, q, r);
      var e := At(root, q + r);
      if e.Bin? {
        EliminateDups1(e.conn, q + r, [], []);
        PutAppend(old(root), q, r, At(root, q + r));
      } else {
        PutBack(root, q);
      }
    }
  }

  /** The whole expression, to the fixed point. */
  method EliminateDups(e: Expr) returns (r: Expr)
    ensures r == Optimized(e)
    ensures Preserves(e, r) && Size(r) <= Size(e) && DupFree(r)
  {
    OptimizedProperties(e);
    var o := new Optimizer(e);
    while true
      invariant Optimized(o.root) == Optimized(e)
      decreases Size(o.root)
    {
      o.transCount := 0;
      if o.root.Bin? {
        WalkProperties(o.root.conn, o.root, [], []);
        o.EliminateDups1(o.root.conn, [], [], []);
      }
      if o.transCount == 0 { break; }
      ElimYnShrinks(o.root);
      o.root := ElimYn(o.root);
    }
    r := o.root;
  }
}
