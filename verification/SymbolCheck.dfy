/**
 The search for recursive dependencies: a depth-first walk that marks symbols as
 being on the current path (CHECK) and as seen (CHECKED).
 */
module SymbolCheck {
  import opened Tristate
  import opened Expr
  import opened Symbols

  /** Each symbol of `p` depends on the next one. */
  ghost predicate Chain(t: Table, p: seq<nat>) {
    forall k | 0 < k < |p| :: Edge(t, p[k - 1], p[k])
  }

  ghost predicate IsCycle(t: Table, p: seq<nat>) {
    p != [] && Chain(t, p) && Edge(t, p[|p| - 1], p[0])
  }

  ghost predicate HasCycle(t: Table) {
    exists p: seq<nat> :: IsCycle(t, p)
  }

  lemma {:induction false} ChainDescends(t: Table, rank: seq<nat>, p: seq<nat>, k: nat)
    requires Ranked(t, rank) && Chain(t, p) && k < |p| && p[0] < |rank|
    ensures p[k] < |rank| && rank[p[k]] <= rank[p[0]]
  {
    if k > 0 {
      ChainDescends(t, rank, p, k - 1);
      assert Edge(t, p[k - 1], p[k]);
    }
  }

  lemma RankedAcyclic(t: Table, rank: seq<nat>)
    requires Ranked(t, rank)
    ensures !HasCycle(t)
  {
    forall p: seq<nat> | IsCycle(t, p) ensures false {
      var last := p[|p| - 1];
      assert Edge(t, last, p[0]);
      ChainDescends(t, rank, p, |p| - 1);
    }
  }

  lemma PathMore(t: Table, stack: seq<nat>, id: nat)
    requires Chain(t, stack) && (stack != [] ==> Edge(t, stack[|stack| - 1], id))
    ensures Chain(t, stack + [id])
  {
  }

  lemma PathLess(t: Table, stack: seq<nat>, rest: seq<nat>, id: nat)
    requires Chain(t, stack) && stack != [] && stack[|stack| - 1] == id && rest == stack[..|stack| - 1]
    ensures stack == rest + [id] && Chain(t, rest) && forall i :: i in stack <==> i in rest || i == id
  {
    assert stack == rest + [id];
  }

  /** A symbol met again on the current path closes a cycle. */
  lemma ClosesCycle(t: Table, stack: seq<nat>, k: nat)
    requires Chain(t, stack) && k < |stack| && Edge(t, stack[|stack| - 1], stack[k])
    ensures HasCycle(t)
  {
    var p := stack[k..];
    assert p[|p| - 1] == stack[|stack| - 1];
    forall j | 0 < j < |p| ensures Edge(t, p[j - 1], p[j]) { assert Edge(t, stack[k + j - 1], stack[k + j]); }
    assert IsCycle(t, p);
  }

  lemma {:induction false} FromSomeProp(props: seq<Prop>, s: Sym) returns (j: nat)
    requires s in PropsSyms(props)
    ensures j < |props| && s in PropSyms(props[j])
  {
    if s in PropSyms(props[0]) { j := 0; } else { j := FromSomeProp(props[1..], s); j := j + 1; }
  }

  /** Looked at and no longer on the path. */
  predicate Finished(check: seq<bool>, checked: seq<bool>, i: nat) {
    i < |check| == |checked| && checked[i] && !check[i]
  }

  /** Everything `i` depends on was finished before `i`. */
  ghost predicate Settled(t: Table, check: seq<bool>, checked: seq<bool>, rank: seq<nat>, i: nat) {
    i < |rank| && forall j: nat | j < |rank| && Edge(t, i, j) :: Finished(check, checked, j) && rank[j] < rank[i]
  }

  ghost predicate AllSettled(t: Table, check: seq<bool>, checked: seq<bool>, rank: seq<nat>, clock: nat) {
    forall i: nat | Finished(check, checked, i) :: Settled(t, check, checked, rank, i) && rank[i] < clock
  }

  /** A symbol put on the path is not finished, and nothing depends on it that is. */
  lemma EnterSettled(t: Table, check: seq<bool>, checked: seq<bool>, rank: seq<nat>, clock: nat, id: nat)
    requires AllSettled(t, check, checked, rank, clock) && |check| == |checked| == |rank|
    requires id < |check| && !checked[id]
    ensures AllSettled(t, check[id := true], checked[id := true], rank, clock)
  {
    var ck, cd := check[id := true], checked[id := true];
    forall i: nat | Finished(ck, cd, i) ensures Settled(t, ck, cd, rank, i) && rank[i] < clock {
      assert Finished(check, checked, i);
      forall j: nat | j < |rank| && Edge(t, i, j) ensures Finished(ck, cd, j) && rank[j] < rank[i] {
        assert Finished(check, checked, j);
      }
    }
  }

  /** A symbol taken off the path ranks above all it depends on. */
  lemma LeaveSettled(t: Table, check: seq<bool>, checked: seq<bool>, rank: seq<nat>, clock: nat, id: nat)
    requires AllSettled(t, check, checked, rank, clock) && |check| == |checked| == |rank|
    requires id < |check| && check[id] && checked[id]
    requires forall j: nat | j < |rank| && Edge(t, id, j) :: Finished(check, checked, j)
    ensures AllSettled(t, check[id := false], checked, rank[id := clock], clock + 1)
  {
    var ck, rk := check[id := false], rank[id := clock];
    forall i: nat | Finished(ck, checked, i) ensures Settled(t, ck, checked, rk, i) && rk[i] < clock + 1 {
      assert i != id ==> Finished(check, checked, i);
      forall j: nat | j < |rk| && Edge(t, i, j) ensures Finished(ck, checked, j) && rk[j] < rk[i] {
        assert Finished(check, checked, j);
      }
    }
  }

  class Checker {
    const t: Table
    const recursiveIsError: bool
    var check: seq<bool>
    var checked: seq<bool>
    var reports: nat          // recursive dependencies printed
    ghost var stack: seq<nat> // the symbols being checked, outermost first
    ghost var rank: seq<nat>  // order in which symbols were finished
    ghost var clock: nat

    ghost predicate Done(i: nat)
      reads this
    {
      Finished(check, checked, i)
    }

    ghost predicate Inv()
      reads this
    {
      && |check| == |checked| == |rank| == |t.decls|
      && (forall i | 0 <= i < |check| :: check[i] <==> i in stack)
      && (forall i <- stack :: i < |check| && checked[i])
      && Chain(t, stack)
      && (reports > 0 ==> HasCycle(t))
      && (reports == 0 ==> AllSettled(t, check, checked, rank, clock))
    }

    ghost function Unseen(): set<nat>
      reads this
    {
      set i: nat | i < |checked| && !checked[i]
    }

    /** Everything in `syms` has been finished. */
    ghost predicate AllDone(syms: set<Sym>)
      reads this
    {
      forall s <- syms | Declared(t, s) :: Done(s.id)
    }

    /** Marks of the current path are restored; what was finished stays finished. */
    twostate predicate Frame()
      reads this
    {
      && stack == old(stack) && check == old(check)
      && Unseen() <= old(Unseen()) && old(reports) <= reports
      && (forall i: nat | old(Done(i)) :: Done(i))
    }

    /** `id` is the symbol whose dependencies are being looked at. */
    ghost predicate OnTop(id: nat)
      reads this
    {
      stack != [] && id < |t.decls| && stack[|stack| - 1] == id
    }

    /**
     The result of looking at `syms` with `before` reports so far: a non-null result
     follows a report and, if recursion is not an error, names a symbol on the path;
     without any report all of `syms` are finished.
     */
    ghost predicate Outcome(before: nat, r: Option<nat>, syms: set<Sym>)
      reads this
    {
      && (r.Some? ==> reports > 0 && (recursiveIsError || r.value in stack))
      && (reports == 0 ==> r.None? && AllDone(syms))
      && (recursiveIsError && reports > before ==> r.Some?)
    }

    constructor (t: Table, recursiveIsError: bool)
      ensures Inv() && this.t == t && this.recursiveIsError == recursiveIsError
      ensures stack == [] && reports == 0
    {
      this.t := t;
      this.recursiveIsError := recursiveIsError;
      check := seq(|t.decls|, _ => false);
      checked := seq(|t.decls|, _ => false);
      rank := seq(|t.decls|, _ => 0);
      reports, clock, stack := 0, 0, [];
    }

    method CheckSym(s: Sym, ghost id: nat) returns (r: Option<nat>)
      requires Inv() && OnTop(id) && s in DeclSyms(t.decls[id])
      modifies this
      ensures Inv() && Frame() && Outcome(old(reports), r, {s})
      decreases Unseen(), 1
    {
      if Declared(t, s) {
        assert Edge(t, id, s.id);
        r := CheckDeps(s.id);
      } else {
        r := None;
      }
    }

    method CheckExprDeps(e: Expr, ghost id: nat) returns (r: Option<nat>)
      requires Inv() && OnTop(id) && ExprSyms(e) <= DeclSyms(t.decls[id])
      modifies this
      ensures Inv() && Frame() && Outcome(old(reports), r, ExprSyms(e))
      decreases Unseen(), 2, Size(e)
    {
      match e
      case Bin(_, left, right) =>
        r := CheckExprDeps(left, id);
        if r.Some? { return; }
        r := CheckExprDeps(right, id);
      case Not(x) =>
        r := CheckExprDeps(x, id);
      case Rel(_, a, b) =>
        r := CheckSym(a, id);
        if r.Some? { return; }
        r := CheckSym(b, id);
      case Symbol(s) =>
        r := CheckSym(s, id);
    }

    method CheckOptDeps(e: Option<Expr>, ghost id: nat) returns (r: Option<nat>)
      requires Inv() && OnTop(id) && OptSyms(e) <= DeclSyms(t.decls[id])
      modifies this
      ensures Inv() && Frame() && Outcome(old(reports), r, OptSyms(e))
      decreases Unseen(), 3
    {
      if e.Some? { r := CheckExprDeps(e.value, id); } else { r := None; }
    }

    method CheckPropDeps(p: Prop, ghost id: nat) returns (r: Option<nat>)
      requires Inv() && OnTop(id) && PropSyms(p) <= DeclSyms(t.decls[id])
      modifies this
      ensures Inv() && Frame() && Outcome(old(reports), r, PropSyms(p))
      decreases Unseen(), 4
    {
      r := None;
      if p.kind == Choice || p.kind == Select || p.kind == Imply { return; }
      r := CheckOptDeps(p.visible, id);
      if r.Some? || p.kind != Default { return; }
      r := CheckOptDeps(p.expr, id);
    }

    method CheckProps(id: nat) returns (r: Option<nat>)
      requires Inv() && OnTop(id)
      modifies this
      ensures Inv() && Frame() && Outcome(old(reports), r, PropsSyms(t.decls[id].props))
      decreases Unseen(), 5
    {
      var props := t.decls[id].props;
      r := None;
      for i := 0 to |props|
        invariant Inv() && Frame() && r.None? && (recursiveIsError ==> reports == old(reports))
        invariant reports == 0 ==> forall j | 0 <= j < i :: AllDone(PropSyms(props[j]))
      {
        PropInProps(props, i);
        r := CheckPropDeps(props[i], id);
        if r.Some? { return; }
      }
      if reports == 0 {
        forall s <- PropsSyms(props) | Declared(t, s) ensures Done(s.id) {
          var j := FromSomeProp(props, s);
          assert AllDone(PropSyms(props[j]));
        }
      }
    }

    /** All dependencies of the symbol on top of the path, stopping at the first recursion. */
    method CheckSymDeps(id: nat) returns (r: Option<nat>)
      requires Inv() && OnTop(id)
      modifies this
      ensures Inv() && Frame() && Outcome(old(reports), r, DeclSyms(t.decls[id]))
      decreases Unseen(), 6
    {
      var d := t.decls[id];
      r := CheckOptDeps(d.dirDep, id);
      if r.Some? { return; }
      r := CheckOptDeps(d.revDep, id);
      if r.Some? { return; }
      r := CheckOptDeps(d.implied, id);
      if r.Some? { return; }
      r := CheckProps(id);
    }

    /** Puts `id` on the path and marks it as seen. */
    method Enter(id: nat)
      requires Inv() && id < |t.decls| && !check[id] && !checked[id]
      requires stack != [] ==> Edge(t, stack[|stack| - 1], id)
      modifies this
      ensures Inv() && OnTop(id) && stack == old(stack) + [id] && check == old(check)[id := true]
      ensures reports == old(reports) && Unseen() == old(Unseen()) - {id} && id in old(Unseen())
      ensures forall i: nat | old(Done(i)) :: Done(i) && i != id
    {
      ghost var was := stack;
      if reports == 0 { EnterSettled(t, check, checked, rank, clock, id); }
      check, checked := check[id := true], checked[id := true];
      stack := stack + [id];
      PathMore(t, was, id);
      assert Unseen() == old(Unseen()) - {id};
    }

    /** Takes `id` off the path again. */
    method Leave(id: nat)
      requires Inv() && OnTop(id) && id !in stack[..|stack| - 1]
      requires reports == 0 ==> AllDone(DeclSyms(t.decls[id]))
      modifies this
      ensures Inv() && stack == old(stack)[..|old(stack)| - 1] && check == old(check)[id := false]
      ensures reports == old(reports) && Unseen() == old(Unseen()) && Done(id)
      ensures forall i: nat | old(Done(i)) :: Done(i)
    {
      if reports == 0 { LeaveSettled(t, check, checked, rank, clock, id); }
      ghost var was := stack;
      check := check[id := false];
      stack := stack[..|stack| - 1];
      PathLess(t, was, stack, id);
      rank, clock := rank[id := clock], clock + 1;
    }

    /** The symbol `id` is met again while it is being checked. */
    method Report(id: nat) returns (r: Option<nat>)
      requires Inv() && id < |t.decls| && check[id] && stack != [] && Edge(t, stack[|stack| - 1], id)
      modifies this`reports
      ensures Inv() && r == Some(id) && id in stack && reports == old(reports) + 1
    {
      ghost var k :| 0 <= k < |stack| && stack[k] == id;
      ClosesCycle(t, stack, k);
      reports := reports + 1;
      r := Some(id);
    }

    /** Checks one symbol; if recursion is not an error, a non-null result is still on the path. */
    method CheckDeps(id: nat) returns (r: Option<nat>)
      requires Inv() && id < |t.decls|
      requires stack != [] ==> Edge(t, stack[|stack| - 1], id)
      modifies this
      ensures Inv() && Frame()
      ensures r.Some? ==> reports > 0 && (recursiveIsError || r.value in stack)
      ensures reports == 0 ==> r.None? && Done(id)
      ensures recursiveIsError && reports > old(reports) ==> r.Some?
      decreases Unseen(), 0
    {
      if check[id] {
        r := Report(id);
        return;
      }
      if checked[id] { return None; }
      Enter(id);
      r := CheckSymDeps(id);
      Leave(id);
      assert stack == old(stack) && check == old(check);
      if !recursiveIsError && r == Some(id) { r := None; }
    }

    /** The loop over all symbols at the end of parsing, counting the symbols that fail. */
    method CheckAll() returns (errors: nat)
      requires Inv() && stack == [] && reports == 0
      modifies this
      ensures errors > 0 <==> recursiveIsError && HasCycle(t)
      ensures reports > 0 <==> HasCycle(t)
      ensures !HasCycle(t) ==> Ranked(t, rank)
    {
      errors := 0;
      for id := 0 to |t.decls|
        invariant Inv() && stack == []
        invariant errors > 0 ==> reports > 0 && recursiveIsError
        invariant recursiveIsError && reports > 0 ==> errors > 0
        invariant reports == 0 ==> forall i: nat | i < id :: Done(i)
      {
        var r := CheckDeps(id);
        if r.Some? { errors := errors + 1; }
      }
      if reports == 0 {
        forall i: nat, j: nat | i < |rank| && j < |rank| && Edge(t, i, j) ensures rank[j] < rank[i] {
          assert Done(i) && Settled(t, check, checked, rank, i);
        }
        RankedAcyclic(t, rank);
      }
    }
  }

  /** The verdict on a table, with the order in which its symbols can be evaluated. */
  method FindRecursion(t: Table, recursiveIsError: bool) returns (errors: nat, reports: nat, ghost rank: seq<nat>)
    ensures errors > 0 <==> recursiveIsError && HasCycle(t)
    ensures reports > 0 <==> HasCycle(t)
    ensures reports == 0 <==> Ranked(t, rank)
  {
    var c := new Checker(t, recursiveIsError);
    errors := c.CheckAll();
    reports, rank := c.reports, c.rank;
    if Ranked(t, rank) { RankedAcyclic(t, rank); }
  }
}
