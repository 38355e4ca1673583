/**
 Slots inside one expression tree: a path of left and right turns names the place
 an operand is stored, so that two slots of the same tree can be updated in turn.
 */
module ExprPaths {
  import opened Tristate
  import opened Expr
  import opened ExprEquality
  import opened ExprTransform

  datatype Turn = L | R

  type Path = seq<Turn>

  function Child(e: Expr, t: Turn): Expr
    requires e.Bin?
  {
    if t == L then e.left else e.right
  }

  function WithChild(e: Expr, t: Turn, x: Expr): Expr
    requires e.Bin?
  {
    if t == L then e.(left := x) else e.(right := x)
  }

  predicate Valid(e: Expr, p: Path) {
    p == [] || (e.Bin? && Valid(Child(e, p[0]), p[1..]))
  }

  /** What the slot `p` holds. */
  function At(e: Expr, p: Path): (x: Expr)
    requires Valid(e, p)
    ensures p == [] ==> x == e
    ensures p != [] ==> Size(x) < Size(e)
    decreases p
  {
    if p == [] then e else At(Child(e, p[0]), p[1..])
  }

  /** The tree after storing `x` in the slot `p`. */
  function Put(e: Expr, p: Path, x: Expr): (r: Expr)
    requires Valid(e, p)
    ensures Valid(r, p) && At(r, p) == x
    ensures Size(r) == Size(e) - Size(At(e, p)) + Size(x)
    decreases p
  {
    if p == [] then x else WithChild(e, p[0], Put(Child(e, p[0]), p[1..], x))
  }

  // ----- one path continuing another -----

  lemma {:induction false} AtAppend(e: Expr, q: Path, r: Path)
    requires Valid(e, q)
    ensures Valid(e, q + r) <==> Valid(At(e, q), r)
    ensures Valid(e, q + r) ==> At(e, q + r) == At(At(e, q), r)
    decreases q
  {
    if q == [] {
      assert q + r == r;
    } else {
      assert (q + r)[1..] == q[1..] + r;
      AtAppend(Child(e, q[0]), q[1..], r);
    }
  }

  lemma {:induction false} PutAppend(e: Expr, q: Path, r: Path, x: Expr)
    requires Valid(e, q) && Valid(At(e, q), r)
    ensures Valid(e, q + r)
    ensures Put(e, q + r, x) == Put(e, q, Put(At(e, q), r, x))
    decreases q
  {
    AtAppend(e, q, r);
    if q == [] {
      assert q + r == r;
    } else {
      assert (q + r)[1..] == q[1..] + r;
      PutAppend(Child(e, q[0]), q[1..], r, x);
    }
  }

  lemma {:induction false} PutPut(e: Expr, q: Path, x: Expr, y: Expr)
    requires Valid(e, q)
    ensures Put(Put(e, q, x), q, y) == Put(e, q, y)
    decreases q
  {
    if q != [] { PutPut(Child(e, q[0]), q[1..], x, y); }
  }

  lemma {:induction false} PutBack(e: Expr, q: Path)
    requires Valid(e, q)
    ensures Put(e, q, At(e, q)) == e
    decreases q
  {
    if q != [] { PutBack(Child(e, q[0]), q[1..]); }
  }

  // ----- levels of one connective -----

  /** All turns of `p` are taken at nodes of connective `c`. */
  predicate OnLevel(c: Conn, e: Expr, p: Path) {
    p == [] || (Is(e, c) && OnLevel(c, Child(e, p[0]), p[1..]))
  }

  /** `p` names an operand of the level: a place where connective `c` ends. */
  predicate Operand(c: Conn, e: Expr, p: Path) {
    OnLevel(c, e, p) && Valid(e, p) && !Is(At(e, p), c)
  }

  lemma {:induction false} OnLevelValid(c: Conn, e: Expr, p: Path)
    requires OnLevel(c, e, p)
    ensures Valid(e, p)
    decreases p
  {
    if p != [] { OnLevelValid(c, Child(e, p[0]), p[1..]); }
  }

  lemma {:induction false} OnLevelAppend(c: Conn, e: Expr, p: Path, r: Path)
    requires OnLevel(c, e, p) && Valid(e, p)
    ensures OnLevel(c, e, p + r) <==> OnLevel(c, At(e, p), r)
    decreases p
  {
    if p == [] {
      assert p + r == r;
    } else {
      assert (p + r)[1..] == p[1..] + r;
      OnLevelAppend(c, Child(e, p[0]), p[1..], r);
    }
  }

  /** Number of nodes of connective `c` on the level. */
  function LevelSize(c: Conn, e: Expr): nat {
    if Is(e, c) then 1 + LevelSize(c, e.left) + LevelSize(c, e.right) else 0
  }

  /** The two trees have the same nodes of connective `c` on their level. */
  predicate SameLevel(c: Conn, e: Expr, f: Expr) {
    if Is(e, c) then Is(f, c) && SameLevel(c, e.left, f.left) && SameLevel(c, e.right, f.right)
    else !Is(f, c)
  }

  lemma {:induction false} SameLevelRefl(c: Conn, e: Expr)
    ensures SameLevel(c, e, e)
  {
    if Is(e, c) { SameLevelRefl(c, e.left); SameLevelRefl(c, e.right); }
  }

  lemma {:induction false} SameLevelTrans(c: Conn, e: Expr, f: Expr, g: Expr)
    requires SameLevel(c, e, f) && SameLevel(c, f, g)
    ensures SameLevel(c, e, g)
  {
    if Is(e, c) { SameLevelTrans(c, e.left, f.left, g.left); SameLevelTrans(c, e.right, f.right, g.right); }
  }

  /** The same slots exist on both levels and continue in the same way. */
  lemma {:induction false} SameLevelAt(c: Conn, e: Expr, f: Expr, p: Path)
    requires SameLevel(c, e, f) && OnLevel(c, e, p)
    ensures OnLevel(c, f, p) && Valid(e, p) && Valid(f, p)
    ensures Is(At(e, p), c) == Is(At(f, p), c)
    ensures LevelSize(c, At(e, p)) == LevelSize(c, At(f, p))
    decreases p
  {
    if p == [] { SameLevelSize(c, e, f); } else { SameLevelAt(c, Child(e, p[0]), Child(f, p[0]), p[1..]); }
  }

  lemma {:induction false} SameLevelSize(c: Conn, e: Expr, f: Expr)
    requires SameLevel(c, e, f)
    ensures LevelSize(c, e) == LevelSize(c, f)
  {
    if Is(e, c) { SameLevelSize(c, e.left, f.left); SameLevelSize(c, e.right, f.right); }
  }

  /** An operand's slot has no continuation on the level. */
  lemma {:induction false} OperandEnds(c: Conn, e: Expr, p: Path, a: Path)
    requires Operand(c, e, p) && OnLevel(c, e, a) && p <= a
    ensures a == p
    decreases p
  {
    if p != [] {
      OperandEnds(c, Child(e, p[0]), p[1..], a[1..]);
    }
  }

  /** Storing another operand keeps the level. */
  lemma {:induction false} PutLevel(c: Conn, e: Expr, p: Path, x: Expr)
    requires Operand(c, e, p) && !Is(x, c)
    ensures SameLevel(c, e, Put(e, p, x))
    decreases p
  {
    if p != [] {
      PutLevel(c, Child(e, p[0]), p[1..], x);
      SameLevelRefl(c, e.left);
      SameLevelRefl(c, e.right);
    }
  }

  /** Writing one operand leaves every other operand as it was. */
  lemma {:induction false} PutElsewhere(c: Conn, e: Expr, p: Path, x: Expr, a: Path)
    requires Operand(c, e, p) && Operand(c, e, a) && a != p && !Is(x, c)
    ensures Operand(c, Put(e, p, x), a) && At(Put(e, p, x), a) == At(e, a)
    decreases p
  {
    PutLevel(c, e, p, x);
    SameLevelAt(c, e, Put(e, p, x), a);
    if p != [] && a != [] && p[0] == a[0] {
      assert p == [p[0]] + p[1..] && a == [a[0]] + a[1..];
      PutElsewhere(c, Child(e, p[0]), p[1..], x, a[1..]);
    }
  }

  lemma ApplySwap(c: Conn, u: Tri, x: Tri, o: Tri)
    ensures Apply(c, Apply(c, u, x), o) == Apply(c, Apply(c, u, o), x)
    ensures Apply(c, o, Apply(c, u, x)) == Apply(c, Apply(c, o, u), x)
  {
  }

  /** Apart from the operand at `p`, the level is worth what it is worth with the unit there. */
  lemma {:induction false} PutValue(c: Conn, e: Expr, p: Path, x: Expr, env: Env)
    requires WellFormed(env) && OnLevel(c, e, p) && Valid(e, p)
    ensures Value(Put(e, p, x), env) == Apply(c, Value(Put(e, p, Unit(c)), env), Value(x, env))
    decreases p
  {
    if p != [] {
      PutValue(c, Child(e, p[0]), p[1..], x, env);
      var u := Value(Put(Child(e, p[0]), p[1..], Unit(c)), env);
      ApplySwap(c, u, Value(x, env), Value(if p[0] == L then e.right else e.left, env));
    }
  }

  lemma {:induction false} PutAdmissible(e: Expr, p: Path, x: Expr, env: Env)
    requires Valid(e, p) && Admissible(e, env)
    ensures Admissible(At(e, p), env)
    ensures Admissible(x, env) ==> Admissible(Put(e, p, x), env)
    decreases p
  {
    if p != [] { PutAdmissible(Child(e, p[0]), p[1..], x, env); }
  }

  lemma {:induction false} PutNnf(e: Expr, p: Path, x: Expr)
    requires Valid(e, p) && Nnf(e)
    ensures Nnf(At(e, p))
    ensures Nnf(x) ==> Nnf(Put(e, p, x))
    decreases p
  {
    if p != [] { PutNnf(Child(e, p[0]), p[1..], x); }
  }

  /** A unit stored as an operand of the level can be removed. */
  lemma {:induction false} UnitReducible(c: Conn, e: Expr, p: Path)
    requires OnLevel(c, e, p) && Valid(e, p) && p != [] && At(e, p) == Unit(c)
    ensures Reducible(e)
    decreases p
  {
    if |p| > 1 { UnitReducible(c, Child(e, p[0]), p[1..]); }
  }

  lemma {:induction false} PutReducible(e: Expr, p: Path, x: Expr)
    requires Valid(e, p) && Reducible(x)
    ensures Reducible(Put(e, p, x))
    decreases p
  {
    if p != [] { PutReducible(Child(e, p[0]), p[1..], x); }
  }

  lemma {:induction false} PutSameValue(e: Expr, p: Path, x: Expr, env: Env)
    requires Valid(e, p) && Value(x, env) == Value(At(e, p), env)
    ensures Value(Put(e, p, x), env) == Value(e, env)
    decreases p
  {
    if p != [] { PutSameValue(Child(e, p[0]), p[1..], x, env); }
  }

  // ----- rewriting that keeps the meaning -----

  /** `f` has the value of `e` in every environment, and is no worse in form. */
  ghost predicate Preserves(e: Expr, f: Expr) {
    && (forall env: Env | WellFormed(env) && Admissible(e, env) ::
          Admissible(f, env) && Value(f, env) == Value(e, env))
    && (Nnf(e) ==> Nnf(f))
  }

  lemma PreservesTrans(e: Expr, f: Expr, g: Expr)
    requires Preserves(e, f) && Preserves(f, g)
    ensures Preserves(e, g)
  {
  }

  lemma PreservesPut(e: Expr, p: Path, x: Expr)
    requires Valid(e, p) && Preserves(At(e, p), x)
    ensures Preserves(e, Put(e, p, x))
  {
    forall env: Env | WellFormed(env) && Admissible(e, env)
      ensures Admissible(Put(e, p, x), env) && Value(Put(e, p, x), env) == Value(e, env)
    {
      PutAdmissible(e, p, x, env);
      PutSameValue(e, p, x, env);
    }
    if Nnf(e) { PutNnf(e, p, x); }
  }

  lemma PreservesElimYn(e: Expr)
    ensures Preserves(e, ElimYn(e))
  {
    forall env: Env | WellFormed(env) && Admissible(e, env)
      ensures Admissible(ElimYn(e), env) && Value(ElimYn(e), env) == Value(e, env)
    {
      ElimYnValue(e, env);
    }
    if Nnf(e) { ElimYnNnf(e); }
  }

  lemma {:induction false} ElimYnNnf(e: Expr)
    requires Nnf(e)
    ensures Nnf(ElimYn(e))
  {
    if e.Bin? { ElimYnNnf(e.left); ElimYnNnf(e.right); }
  }
}
