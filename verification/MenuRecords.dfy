/**
 What finalisation records for symbols: where a symbol is possible at all, and what
 selects, implies and choices demand of it.
 */
module MenuRecords {
  import opened Tristate
  import opened Expr
  import opened Symbols
  import opened MenuShape
  import opened MenuDeps
  import opened MenuInherit

  // ----- disjunctions -----

  /** `e` is put together by OR from expressions in `from`. */
  ghost predicate OrOf(e: Expr, from: iset<Expr>) {
    e in from || (Is(e, OrOp) && OrOf(e.left, from) && OrOf(e.right, from))
  }

  /** The value of a disjunction is that of one of its operands. */
  lemma {:induction false} OrOfReached(e: Expr, from: iset<Expr>, env: Env) returns (d: Expr)
    requires OrOf(e, from)
    ensures d in from && Value(d, env) == Value(e, env)
  {
    if e in from {
      d := e;
    } else {
      var l := OrOfReached(e.left, from, env);
      var r := OrOfReached(e.right, from, env);
      d := if Value(e.left, env) == Value(e, env) then l else r;
    }
  }

  function AddOr(m: Deps, s: Sym, e: Option<Expr>): Deps {
    if e.None? then m
    else if s in m then m[s := Or(m[s], e.value)]
    else m[s := e.value]
  }

  /** `d` is an operand of what is recorded for `s`. */
  predicate Includes(m: Deps, s: Sym, d: Expr) {
    s in m && Disjunct(m[s], d)
  }

  /** Everything recorded in `m` is still an operand in `m'`. */
  ghost predicate Kept(m: Deps, m': Deps) {
    forall s: Sym, d: Expr {:trigger Includes(m, s, d)} {:trigger Includes(m', s, d)} | Includes(m, s, d) ::
      Includes(m', s, d)
  }

  lemma AddOrKeeps(m: Deps, s: Sym, e: Option<Expr>)
    ensures Kept(m, AddOr(m, s, e))
    ensures e.Some? ==> Includes(AddOr(m, s, e), s, e.value)
  {
  }

  // ----- selects and implies -----

  /** A property of an entry that selects or implies its target, as `kind` says. */
  predicate Demand(e: Entry, p: Prop, kind: PropKind) {
    e.sym.Some? && IsSymbol(p.expr) && p.kind == kind
  }

  function RecordOne(m: Deps, e: Entry, p: Prop, kind: PropKind): Deps {
    if Demand(e, p, kind) then AddOr(m, p.expr.value.sym, Some(SelectTerm(e.sym.value, p.visible))) else m
  }

  function RecordAll(m: Deps, e: Entry, ps: seq<Prop>, kind: PropKind): Deps {
    if ps == [] then m else RecordOne(RecordAll(m, e, ps[..|ps| - 1], kind), e, ps[|ps| - 1], kind)
  }

  lemma {:induction false} RecordAllKeeps(m: Deps, e: Entry, ps: seq<Prop>, kind: PropKind)
    ensures Kept(m, RecordAll(m, e, ps, kind))
    ensures forall p <- ps | Demand(e, p, kind) ::
              Includes(RecordAll(m, e, ps, kind), p.expr.value.sym, SelectTerm(e.sym.value, p.visible))
  {
    if ps != [] {
      var rest, p := ps[..|ps| - 1], ps[|ps| - 1];
      RecordAllKeeps(m, e, rest, kind);
      assert ps == rest + [p];
      if Demand(e, p, kind) {
        AddOrKeeps(RecordAll(m, e, rest, kind), p.expr.value.sym, Some(SelectTerm(e.sym.value, p.visible)));
      }
    }
  }

  /** Property `k` of node `i` demands something of `s`. */
  ghost predicate Demands(src: Source, kind: PropKind, i: nat, k: nat, s: Sym)
    requires src.Valid()
  {
    && 0 < i < |src.entries| && k < |src.props[i]|
    && Demand(src.entries[i], src.props[i][k], kind) && src.props[i][k].expr.value.sym == s
  }

  /** What it demands, as recorded. */
  ghost function TermOf(src: Source, i: nat, k: nat): Expr
    requires src.Valid() && 0 < i < |src.entries| && k < |src.props[i]| && src.entries[i].sym.Some?
  {
    SelectTerm(src.entries[i].sym.value, FinalProp(src, i, src.props[i][k]).visible)
  }

  /** Everything node `i` demands is recorded. */
  ghost predicate DemandsOk(src: Source, ds: DepState, i: nat)
    requires src.Valid()
  {
    && (forall k: nat, s: Sym | Demands(src, Select, i, k, s) :: Includes(ds.revDep, s, TermOf(src, i, k)))
    && (forall k: nat, s: Sym | Demands(src, Imply, i, k, s) :: Includes(ds.implied, s, TermOf(src, i, k)))
  }

  // ----- choices that cannot be n -----

  /** Node `i` is a prompt for `s` that makes it at least m where it is visible. */
  ghost predicate Mandatory(src: Source, i: nat, s: Sym)
    requires src.Valid()
  {
    && i < |src.entries| && src.entries[i].sym == Some(s)
    && !src.entries[i].optional && src.entries[i].prompt.Some?
  }

  function ModeTerm(visible: Option<Expr>): Expr {
    if visible.Some? then And(visible.value, Symbol(SymM)) else Symbol(SymM)
  }

  ghost function ModeOf(src: Source, i: nat): Expr
    requires src.Valid() && i < |src.entries|
  {
    ModeTerm(PromptVisible(src.entries[i], FinalProps(src, i)))
  }

  ghost predicate ModeOk(src: Source, ds: DepState, i: nat)
    requires src.Valid()
  {
    forall s: Sym | Mandatory(src, i, s) :: Includes(ds.revDep, s, ModeOf(src, i))
  }

  // ----- direct dependencies -----

  /** Node `i` is a place where symbol `s` is defined, without children of its own. */
  ghost predicate Defines(src: Source, i: nat, s: Sym) {
    i < |src.entries| && src.entries[i].sym == Some(s) && KidsWithin(src.parent, i, 0)
  }

  /** The dependency of such a node, if it has one, is an operand of the symbol's direct dependency. */
  ghost predicate DirOk(src: Source, ds: DepState, i: nat)
    requires src.Valid()
  {
    forall s: Sym | Defines(src, i, s) && FinalDep(src, i).Some? :: Includes(ds.dirDep, s, FinalDep(src, i).value)
  }

  // ----- nothing else is recorded -----

  ghost function DemandTerms(src: Source, kind: PropKind, s: Sym): iset<Expr>
    requires src.Valid()
  {
    iset i: nat, k: nat | Demands(src, kind, i, k, s) :: TermOf(src, i, k)
  }

  ghost function ModeTerms(src: Source, s: Sym): iset<Expr>
    requires src.Valid()
  {
    iset i: nat | Mandatory(src, i, s) :: ModeOf(src, i)
  }

  /** All demands made of `s`. */
  ghost function Terms(src: Source, kind: PropKind, s: Sym): iset<Expr>
    requires src.Valid()
  {
    if kind == Select then DemandTerms(src, kind, s) + ModeTerms(src, s) else DemandTerms(src, kind, s)
  }

  /** The dependencies of all nodes that define `s`. */
  ghost function DefinitionDeps(src: Source, s: Sym): iset<Expr>
    requires src.Valid()
  {
    iset i: nat | Defines(src, i, s) && FinalDep(src, i).Some? :: FinalDep(src, i).value
  }

  ghost predicate Only(src: Source, kind: PropKind, m: Deps)
    requires src.Valid()
  {
    forall s: Sym | s in m :: OrOf(m[s], Terms(src, kind, s))
  }

  ghost predicate OnlyDirect(src: Source, m: Deps)
    requires src.Valid()
  {
    forall s: Sym | s in m :: OrOf(m[s], DefinitionDeps(src, s))
  }

  ghost predicate Sound(src: Source, ds: DepState)
    requires src.Valid()
  {
    Only(src, Select, ds.revDep) && Only(src, Imply, ds.implied) && OnlyDirect(src, ds.dirDep)
  }

  lemma AddOrOnly(src: Source, kind: PropKind, m: Deps, s: Sym, term: Expr)
    requires src.Valid() && Only(src, kind, m) && term in Terms(src, kind, s)
    ensures Only(src, kind, AddOr(m, s, Some(term)))
  {
    var m', from := AddOr(m, s, Some(term)), Terms(src, kind, s);
    assert OrOf(term, from);
    if s in m { assert OrOf(m[s], from) && OrOf(Or(m[s], term), from); }
    forall x: Sym | x in m' ensures OrOf(m'[x], Terms(src, kind, x)) {
      if x != s { assert x in m && m'[x] == m[x]; }
    }
  }

  /** Recording the first `n` properties of node `i`. */
  lemma {:induction false} RecordOnly(src: Source, i: nat, n: nat, kind: PropKind, m: Deps)
    requires src.Valid() && 0 < i < |src.entries| && n <= |src.props[i]| && Only(src, kind, m)
    ensures Only(src, kind, RecordAll(m, src.entries[i], FinalProps(src, i)[..n], kind))
  {
    if n > 0 {
      var e, ps := src.entries[i], FinalProps(src, i);
      RecordOnly(src, i, n - 1, kind, m);
      assert ps[..n][..n - 1] == ps[..n - 1];
      if Demand(e, ps[n - 1], kind) {
        var s := ps[n - 1].expr.value.sym;
        assert Demands(src, kind, i, n - 1, s);
        assert TermOf(src, i, n - 1) in Terms(src, kind, s);
        AddOrOnly(src, kind, RecordAll(m, e, ps[..n - 1], kind), s, TermOf(src, i, n - 1));
      }
    }
  }

  // ----- while finalisation runs -----

  /**
   Nodes that have inherited have their demands recorded; nodes before `done` that are not
   open any more have everything recorded.
   */
  ghost predicate RecordsInv(src: Source, ds: DepState, open: set<nat>, done: nat, upto: nat)
    requires src.Valid()
  {
    && Sound(src, ds)
    && (forall i: nat {:trigger DemandsOk(src, ds, i)} | Inherited(src, done, upto, i) :: DemandsOk(src, ds, i))
    && (forall i: nat {:trigger ModeOk(src, ds, i)} | i < done && i !in open :: ModeOk(src, ds, i))
    && (forall i: nat {:trigger DirOk(src, ds, i)} | i < done && i !in open :: DirOk(src, ds, i))
  }

  lemma RecordsStart(src: Source)
    requires src.Valid()
    ensures RecordsInv(src, Initial(src), {}, 0, 1)
  {
    forall i: nat ensures !Inherited(src, 0, 1, i) {
      if 0 < i < |src.parent| { assert ParentBefore(src.parent, i); }
    }
  }

  /** More is recorded, all of it sound. */
  lemma RecordsGrow(src: Source, ds: DepState, ds': DepState, open: set<nat>, done: nat, upto: nat)
    requires src.Valid() && RecordsInv(src, ds, open, done, upto) && Sound(src, ds')
    requires Kept(ds.revDep, ds'.revDep) && Kept(ds.implied, ds'.implied) && Kept(ds.dirDep, ds'.dirDep)
    ensures RecordsInv(src, ds', open, done, upto)
  {
    forall i: nat | Inherited(src, done, upto, i) ensures DemandsOk(src, ds', i) { assert DemandsOk(src, ds, i); }
    forall i: nat | i < done && i !in open ensures ModeOk(src, ds', i) { assert ModeOk(src, ds, i); }
    forall i: nat | i < done && i !in open ensures DirOk(src, ds', i) { assert DirOk(src, ds, i); }
  }

  /** The child `m` of `p` has inherited, and its properties are recorded. */
  lemma RecordsChild(src: Source, ds: DepState, ds': DepState, open: set<nat>, p: nat, m: nat)
    requires src.Valid() && RecordsInv(src, ds, open, p, m) && 0 < m < |src.entries| && src.parent[m] == Some(p)
    requires ds'.revDep == RecordAll(ds.revDep, src.entries[m], FinalProps(src, m), Select)
    requires ds'.implied == RecordAll(ds.implied, src.entries[m], FinalProps(src, m), Imply)
    requires ds'.dirDep == ds.dirDep
    ensures RecordsInv(src, ds', open, p, m + 1)
  {
    var e, ps := src.entries[m], FinalProps(src, m);
    assert ps[..|ps|] == ps;
    RecordOnly(src, m, |ps|, Select, ds.revDep);
    RecordOnly(src, m, |ps|, Imply, ds.implied);
    RecordAllKeeps(ds.revDep, e, ps, Select);
    RecordAllKeeps(ds.implied, e, ps, Imply);
    RecordsGrow(src, ds, ds', open, p, m);
    assert DemandsOk(src, ds', m) by {
      forall k: nat, s: Sym | Demands(src, Select, m, k, s) ensures Includes(ds'.revDep, s, TermOf(src, m, k)) {
        assert ps[k] in ps && Demand(e, ps[k], Select);
      }
      forall k: nat, s: Sym | Demands(src, Imply, m, k, s) ensures Includes(ds'.implied, s, TermOf(src, m, k)) {
        assert ps[k] in ps && Demand(e, ps[k], Imply);
      }
    }
    forall i: nat | Inherited(src, p, m + 1, i) ensures DemandsOk(src, ds', i) {
      if i != m { assert Inherited(src, p, m, i); }
    }
  }

  /** Further nodes, which are open, and further children that have inherited nothing. */
  lemma RecordsLater(src: Source, ds: DepState, open: set<nat>, open': set<nat>, done: nat, upto: nat, done': nat,
                     upto': nat)
    requires src.Valid() && RecordsInv(src, ds, open, done, upto) && open <= open'
    requires forall i: nat | Inherited(src, done', upto', i) :: Inherited(src, done, upto, i)
    requires done <= done' && forall i: nat | done <= i < done' :: i in open'
    ensures RecordsInv(src, ds, open', done', upto')
  {
  }

  /** All children of `p` have inherited, and `p` itself is open. */
  lemma RecordsNext(src: Source, ds: DepState, open: set<nat>, p: nat, at: nat, lo: nat)
    requires src.Valid() && RecordsInv(src, ds, open, p, at) && lo == p + 1
    requires forall i: nat | at <= i < |src.parent| :: src.parent[i] != Some(p)
    ensures RecordsInv(src, ds, open + {p}, lo, lo + 1)
  {
    forall i: nat | Inherited(src, lo, lo + 1, i) ensures Inherited(src, p, at, i) {
      assert i > 0 && ParentBefore(src.parent, i);
    }
    RecordsLater(src, ds, open, open + {p}, p, at, lo, lo + 1);
  }

  /** The direct dependency of `p` is recorded. */
  lemma RecordsDirect(src: Source, ds: DepState, open: set<nat>, p: nat, s: Sym, done: nat, upto: nat)
    requires src.Valid() && RecordsInv(src, ds, open, done, upto) && Defines(src, p, s)
    ensures var ds' := ds.(dirDep := AddOr(ds.dirDep, s, FinalDep(src, p)));
            RecordsInv(src, ds', open, done, upto) && DirOk(src, ds', p)
  {
    var ds' := ds.(dirDep := AddOr(ds.dirDep, s, FinalDep(src, p)));
    AddOrKeeps(ds.dirDep, s, FinalDep(src, p));
    RecordsGrow(src, ds, ds', open, done, upto);
  }

  /** A choice that cannot be n has its mode recorded. */
  lemma RecordsMode(src: Source, ds: DepState, open: set<nat>, p: nat, s: Sym, done: nat, upto: nat)
    requires src.Valid() && RecordsInv(src, ds, open, done, upto) && Mandatory(src, p, s)
    ensures var ds' := ds.(revDep := AddOr(ds.revDep, s, Some(ModeOf(src, p))));
            RecordsInv(src, ds', open, done, upto) && ModeOk(src, ds', p)
  {
    var ds' := ds.(revDep := AddOr(ds.revDep, s, Some(ModeOf(src, p))));
    AddOrKeeps(ds.revDep, s, Some(ModeOf(src, p)));
    assert ModeOf(src, p) in Terms(src, Select, s);
    AddOrOnly(src, Select, ds.revDep, s, ModeOf(src, p));
    RecordsGrow(src, ds, ds', open, done, upto);
  }

  /** Node `p` is finished. */
  lemma RecordsClose(src: Source, ds: DepState, open: set<nat>, open': set<nat>, p: nat, done: nat, upto: nat)
    requires src.Valid() && RecordsInv(src, ds, open, done, upto) && open <= open' + {p}
    requires DirOk(src, ds, p) && ModeOk(src, ds, p)
    ensures RecordsInv(src, ds, open', done, upto)
  {
  }

  /** A node with a list defines its symbol as a parent does, not as a childless node. */
  lemma HasKids(k: Links, parent: seq<Link>, p: nat, lo: nat, b: Shape, m: nat, c: Shape, q: Link)
    requires Parsed(k, parent, p, b, m, c, q) && k.list[p].Some? && lo == p + 1
    ensures !KidsWithin(parent, p, 0)
  {
    assert Orig(parent, lo, b, Some(p)) && b.Node?;
    assert parent[lo] == Some(p);
  }

  /** Everything is recorded, and nothing else. */
  ghost predicate AllRecorded(src: Source, ds: DepState)
    requires src.Valid()
  {
    && Sound(src, ds)
    && (forall i: nat {:trigger DemandsOk(src, ds, i)} | 0 < i < |src.entries| :: DemandsOk(src, ds, i))
    && (forall i: nat {:trigger ModeOk(src, ds, i)} | i < |src.entries| :: ModeOk(src, ds, i))
    && (forall i: nat {:trigger DirOk(src, ds, i)} | i < |src.entries| :: DirOk(src, ds, i))
  }

  lemma RecordsAll(src: Source, ds: DepState)
    requires src.Valid() && RecordsInv(src, ds, {}, |src.entries|, |src.entries| + 1)
    ensures AllRecorded(src, ds)
  {
    forall i: nat | 0 < i < |src.entries| ensures DemandsOk(src, ds, i) {
      assert ParentBefore(src.parent, i);
      assert Inherited(src, |src.entries|, |src.entries| + 1, i);
    }
  }

  // ----- where a symbol is possible -----

  /** Neither node `i` nor anything enclosing it, up to a choice, has a dependency. */
  ghost predicate Unconditional(src: Source, i: nat)
    requires src.Valid() && i < |src.entries|
  {
    src.dep[i].None? &&
    (i > 0 ==>
       assert ParentBefore(src.parent, i);
       var q := src.parent[i].value;
       !src.entries[q].Choice() && Unconditional(src, q))
  }

  lemma {:induction false} FinalAbsent(src: Source, i: nat)
    requires src.Valid() && i < |src.entries|
    ensures FinalDep(src, i).None? <==> Unconditional(src, i)
  {
    if i > 0 {
      assert ParentBefore(src.parent, i);
      FinalAbsent(src, src.parent[i].value);
    }
  }

  /** A node that defines `s`, and does so under a condition unless `all` are meant. */
  ghost predicate Counted(src: Source, i: nat, s: Sym, all: bool)
    requires src.Valid()
  {
    Defines(src, i, s) && (all || !Unconditional(src, i))
  }

  /** `v` is the highest dependency among the nodes counted. */
  ghost predicate Highest(src: Source, s: Sym, all: bool, env: Env, v: Tri)
    requires src.Valid()
  {
    && (forall i: nat | Counted(src, i, s, all) :: EnclosingMin(src, i, env) <= v)
    && (exists i: nat :: Counted(src, i, s, all) && EnclosingMin(src, i, env) == v)
  }

  /** A symbol's direct dependency is the highest among its conditional definitions; it is absent if there are none. */
  lemma DirectValue(src: Source, ds: DepState, s: Sym, env: Env)
    requires src.Valid() && AllRecorded(src, ds) && WellFormed(env)
    requires forall i: nat | Defines(src, i, s) :: AdmissibleAbove(src, i, env)
    ensures s in ds.dirDep <==> exists i: nat :: Counted(src, i, s, false)
    ensures s in ds.dirDep ==> Highest(src, s, false, env, Value(ds.dirDep[s], env))
  {
    forall i: nat | Counted(src, i, s, false)
      ensures s in ds.dirDep && EnclosingMin(src, i, env) <= Value(ds.dirDep[s], env)
    {
      FinalAbsent(src, i);
      FinalDepValue(src, i, env);
      assert DirOk(src, ds, i);
      DisjunctBelow(ds.dirDep[s], FinalDep(src, i).value, env);
    }
    if s in ds.dirDep {
      var d := OrOfReached(ds.dirDep[s], DefinitionDeps(src, s), env);
      var i: nat :| Defines(src, i, s) && FinalDep(src, i) == Some(d);
      FinalAbsent(src, i);
      FinalDepValue(src, i, env);
      assert Counted(src, i, s, false) && EnclosingMin(src, i, env) == Value(ds.dirDep[s], env);
    }
  }

  ghost function DirectOf(ds: DepState, s: Sym, env: Env): Tri {
    if s in ds.dirDep then Value(ds.dirDep[s], env) else YES
  }

  /**
   A symbol defined in several places ought to be possible wherever one of them is. An
   unconditional definition is dropped beside conditional ones, so that holds exactly if
   there are not both kinds, or one of the conditional ones is yes.
   */
  lemma DirectDependency(src: Source, ds: DepState, s: Sym, env: Env, at: nat)
    requires src.Valid() && AllRecorded(src, ds) && WellFormed(env) && Defines(src, at, s)
    requires forall i: nat | Defines(src, i, s) :: AdmissibleAbove(src, i, env)
    ensures Highest(src, s, true, env, DirectOf(ds, s, env)) <==>
            || (forall i: nat | Defines(src, i, s) :: !Unconditional(src, i))
            || (forall i: nat | Defines(src, i, s) :: Unconditional(src, i))
            || (exists i: nat :: Counted(src, i, s, false) && EnclosingMin(src, i, env) == YES)
  {
    DirectValue(src, ds, s, env);
    forall i: nat | Defines(src, i, s) && Unconditional(src, i) ensures EnclosingMin(src, i, env) == YES {
      FinalAbsent(src, i);
      FinalDepValue(src, i, env);
    }
    var v := DirectOf(ds, s, env);
    if s !in ds.dirDep {
      forall i: nat | Defines(src, i, s) ensures Unconditional(src, i) { assert !Counted(src, i, s, false); }
      assert Counted(src, at, s, true);
    } else {
      var c: nat :| Counted(src, c, s, false) && EnclosingMin(src, c, env) == v;
      assert Counted(src, c, s, true) && !Unconditional(src, c);
      if u: nat :| Defines(src, u, s) && Unconditional(src, u) {
        assert Counted(src, u, s, true);
        assert Highest(src, s, true, env, v) <==> v == YES;
      } else {
        assert forall i: nat | Counted(src, i, s, true) :: Counted(src, i, s, false);
      }
    }
  }

  /** A main menu with `s` defined freely and once more under `x`. */
  function DefinedTwice(s: Sym, x: Sym, modules: Sym): Source {
    var e := Entry(Some(s), false, true, None);
    Source([Entry(None, false, true, None), e, e], [true, false, false], modules,
           [None, None, Some(Symbol(x))], [[], [], []], [None, Some(0), Some(0)])
  }

  /** There `s` is possible, yet its direct dependency is no while `x` is. */
  lemma FreeDefinitionDropped(s: Sym, x: Sym, modules: Sym, ds: DepState, env: Env)
    requires var src := DefinedTwice(s, x, modules); src.Valid() && AllRecorded(src, ds)
    requires WellFormed(env) && env.tri(x) == NO
    ensures var src := DefinedTwice(s, x, modules);
            Defines(src, 1, s) && src.Valid() && EnclosingMin(src, 1, env) == YES && DirectOf(ds, s, env) == NO
  {
    var src := DefinedTwice(s, x, modules);
    assert Defines(src, 1, s) && Unconditional(src, 1);
    assert Defines(src, 2, s) && Counted(src, 2, s, false) && EnclosingMin(src, 2, env) == NO;
    DirectValue(src, ds, s, env);
    forall i: nat | Counted(src, i, s, false) ensures i == 2 { }
  }

  // ----- what is demanded of a symbol -----

  /** The least value property `k` of node `i` asks for: its symbol within the condition in force. */
  ghost function DemandLevel(src: Source, i: nat, k: nat, env: Env): Tri
    requires src.Valid() && 0 < i < |src.entries| && k < |src.props[i]| && src.entries[i].sym.Some?
  {
    TriAnd(env.tri(src.entries[i].sym.value), Effective(src, i, src.props[i][k], env))
  }

  /** The least value a choice at node `i` has where its prompt shows: m. */
  ghost function ModeLevel(src: Source, i: nat, env: Env): Tri
    requires src.Valid() && 0 < i < |src.entries| && src.entries[i].prompt.Some?
  {
    var k := src.entries[i].prompt.value;
    TriAnd(if k < |src.props[i]| then Effective(src, i, src.props[i][k], env) else YES, MOD)
  }

  ghost predicate AdmissibleProp(src: Source, i: nat, k: nat, env: Env)
    requires src.Valid() && i < |src.entries| && k < |src.props[i]|
  {
    AdmissibleAbove(src, i, env) && AdmissibleOpt(src.props[i][k].visible, env)
  }

  /** `env` is admissible for all conditions under which something is demanded of `s`. */
  ghost predicate AdmissibleDemands(src: Source, kind: PropKind, s: Sym, env: Env)
    requires src.Valid()
  {
    && (forall i: nat, k: nat | Demands(src, kind, i, k, s) :: AdmissibleProp(src, i, k, env))
    && (forall i: nat | Mandatory(src, i, s) && src.entries[i].prompt.value < |src.props[i]| ::
          AdmissibleProp(src, i, src.entries[i].prompt.value, env))
  }

  lemma TermValue(src: Source, i: nat, k: nat, env: Env)
    requires src.Valid() && 0 < i < |src.entries| && k < |src.props[i]| && src.entries[i].sym.Some?
    requires WellFormed(env) && AdmissibleProp(src, i, k, env)
    ensures Value(TermOf(src, i, k), env) == DemandLevel(src, i, k, env)
  {
    FinalPropValue(src, i, src.props[i][k], env);
  }

  lemma ModeValue(src: Source, i: nat, s: Sym, env: Env)
    requires src.Valid() && Mandatory(src, i, s) && 0 < i && WellFormed(env)
    requires src.entries[i].prompt.value < |src.props[i]| ==> AdmissibleProp(src, i, src.entries[i].prompt.value, env)
    ensures Value(ModeOf(src, i), env) == ModeLevel(src, i, env)
  {
    var k := src.entries[i].prompt.value;
    if k < |src.props[i]| { FinalPropValue(src, i, src.props[i][k], env); }
  }

  /** Some select or imply of `s` asks for `v`, or a choice that cannot be n does. */
  ghost predicate Asked(src: Source, kind: PropKind, s: Sym, env: Env, v: Tri)
    requires src.Valid()
  {
    || (exists i: nat, k: nat :: Demands(src, kind, i, k, s) && DemandLevel(src, i, k, env) == v)
    || (exists i: nat :: kind == Select && Mandatory(src, i, s) && ModeLevel(src, i, env) == v)
  }

  lemma AskedBelow(src: Source, ds: DepState, kind: PropKind, m: Deps, s: Sym, env: Env, v: Tri)
    requires src.Valid() && AllRecorded(src, ds) && WellFormed(env) && AdmissibleDemands(src, kind, s, env)
    requires (kind == Select && m == ds.revDep) || (kind == Imply && m == ds.implied)
    requires Asked(src, kind, s, env, v)
    ensures s in m && v <= Value(m[s], env)
  {
    if i: nat, k: nat :| Demands(src, kind, i, k, s) && DemandLevel(src, i, k, env) == v {
      assert DemandsOk(src, ds, i);
      assert Includes(m, s, TermOf(src, i, k));
      TermValue(src, i, k, env);
      DisjunctBelow(m[s], TermOf(src, i, k), env);
    } else {
      var i: nat :| kind == Select && Mandatory(src, i, s) && ModeLevel(src, i, env) == v;
      assert ModeOk(src, ds, i);
      ModeValue(src, i, s, env);
      DisjunctBelow(m[s], ModeOf(src, i), env);
    }
  }

  lemma AskedReached(src: Source, kind: PropKind, m: Deps, s: Sym, env: Env)
    requires src.Valid() && Only(src, kind, m) && s in m && WellFormed(env) && AdmissibleDemands(src, kind, s, env)
    ensures Asked(src, kind, s, env, Value(m[s], env))
  {
    var d := OrOfReached(m[s], Terms(src, kind, s), env);
    if d in DemandTerms(src, kind, s) {
      var i: nat, k: nat :| Demands(src, kind, i, k, s) && d == TermOf(src, i, k);
      TermValue(src, i, k, env);
    } else {
      var i: nat :| Mandatory(src, i, s) && d == ModeOf(src, i);
      ModeValue(src, i, s, env);
    }
  }

  /**
   What is recorded for `s` is the highest demand made of it, in terms of the conditions as
   written: nothing is recorded exactly if nothing is demanded, and nothing else is added.
   */
  lemma HighestDemand(src: Source, ds: DepState, kind: PropKind, s: Sym, env: Env)
    requires src.Valid() && AllRecorded(src, ds) && (kind == Select || kind == Imply)
    requires WellFormed(env) && AdmissibleDemands(src, kind, s, env)
    ensures var m := if kind == Select then ds.revDep else ds.implied;
            && (s in m <==> exists v: Tri :: Asked(src, kind, s, env, v))
            && (s in m ==> Asked(src, kind, s, env, Value(m[s], env)))
            && (s in m ==> forall v: Tri | Asked(src, kind, s, env, v) :: v <= Value(m[s], env))
  {
    var m := if kind == Select then ds.revDep else ds.implied;
    forall v: Tri | Asked(src, kind, s, env, v) ensures s in m && v <= Value(m[s], env) {
      AskedBelow(src, ds, kind, m, s, env, v);
    }
    if s in m { AskedReached(src, kind, m, s, env); }
  }

  /**
   From the menu to the values: in a computed configuration whose symbols have the reverse
   dependencies finalisation recorded, the target of a select is at least as high as the
   selecting symbol within the condition in force, or no if its own dependency is no.
   */
  lemma SelectsHold(src: Source, ds: DepState, i: nat, k: nat, target: Sym, t: Table, vals: Valuation, b: nat)
    requires src.Valid() && AllRecorded(src, ds) && Demands(src, Select, i, k, target)
    requires Solution(t, vals) && forall v: Tri :: t.num(Unknown, TriText(v)) == NotANumber
    requires b < |t.decls| && (t.decls[b].kind == Boolean || t.decls[b].kind == Tristate)
    requires target in ds.revDep ==> t.decls[b].revDep == Some(ds.revDep[target])
    requires AdmissibleProp(src, i, k, EnvOf(t, vals))
    ensures var env, d := EnvOf(t, vals), t.decls[b];
            var forced := DemandLevel(src, i, k, env);
            if DepValue(t, d, d.dirDep, YES, env) == NO && forced != NO then vals[b].tri == NO
            else vals[b].tri >= forced
  {
    var env := EnvOf(t, vals);
    assert DemandsOk(src, ds, i);
    SolutionWellFormed(t, vals);
    FinalPropValue(src, i, src.props[i][k], env);
    SelectRespected(t, vals, b, src.entries[i].sym.value, FinalProp(src, i, src.props[i][k]).visible);
  }

  /** The bool `a` selects `b` if the tristate `x` is not n. */
  function SelectsUnless(a: Sym, b: Sym, x: Sym, modules: Sym): Source {
    Source([Entry(None, false, true, None), Entry(Some(a), false, true, None)], [true, false], modules,
           [None, None], [[], [Prop(Select, Some(Rel(Ne, x, SymN)), Some(Symbol(b)), None)]], [None, Some(0)])
  }

  lemma SelectsUnlessFacts(a: Sym, b: Sym, x: Sym, modules: Sym, env: Env)
    requires a.Type() == Boolean && x.Type() == Tristate && WellFormed(env) && env.tri(x) == MOD
    ensures var src := SelectsUnless(a, b, x, modules);
            && src.Valid() && Demands(src, Select, 1, 0, b) && AdmissibleDemands(src, Select, b, env)
            && Written(src, 1, src.props[1][0], env) == YES && Lowered(src, 1, src.props[1][0], env)
  {
    var src := SelectsUnless(a, b, x, modules);
    var p := src.props[1][0];
    assert ParentBefore(src.parent, 1);
    assert FinalBase(src, 0) == None && FinalDep(src, 1) == None;
    assert EnclosingMin(src, 0, env) == YES && EnclosingMin(src, 1, env) == YES;
    TestYmn(env, x, SymN);
    assert Conjoin(None, p.visible, modules) == Some(Rel(Ne, x, SymN));
    assert AdmissibleAbove(src, 0, env) && AdmissibleProp(src, 1, 0, env);
  }

  /** With `a` at yes and `x` at mod the written condition is yes, but `b` is forced only to mod. */
  lemma SelectLowered(a: Sym, b: Sym, x: Sym, modules: Sym, ds: DepState, env: Env)
    requires a.Type() == Boolean && x.Type() == Tristate
    requires var src := SelectsUnless(a, b, x, modules); src.Valid() && AllRecorded(src, ds)
    requires WellFormed(env) && env.tri(a) == YES && env.tri(x) == MOD
    ensures var src := SelectsUnless(a, b, x, modules);
            && src.Valid() && Demands(src, Select, 1, 0, b) && Written(src, 1, src.props[1][0], env) == YES
            && b in ds.revDep && Value(ds.revDep[b], env) == MOD
  {
    var src := SelectsUnless(a, b, x, modules);
    SelectsUnlessFacts(a, b, x, modules, env);
    HighestDemand(src, ds, Select, b, env);
    assert DemandLevel(src, 1, 0, env) == MOD && Asked(src, Select, b, env, MOD);
    forall i: nat, k: nat | Demands(src, Select, i, k, b) ensures i == 1 && k == 0 { }
  }
}
