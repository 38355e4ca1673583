/**
 What finalisation makes of the expressions in the menu tree: every node's dependency and
 the conditions of its properties include those of all nodes that enclose it.
 */
module MenuInherit {
  import opened Tristate
  import opened Expr
  import opened Symbols
  import opened MenuShape
  import opened MenuDeps

  /**
   What parsing fixes about a node: its symbol, whether that is a choice and whether it is
   optional, and which property is the node's prompt.
   */
  datatype Entry = Entry(sym: Option<Sym>, isChoice: bool, optional: bool, prompt: Option<nat>) {
    /** FOO!=n may be shortened in conditions of this entry's properties. */
    predicate Shorten() {
      sym.Some? && sym.value.Type() != Tristate
    }

    predicate Choice() {
      isChoice && sym.Some?
    }
  }

  /**
   The tree as parsed.  Nodes are numbered in menu order, node 0 being the main menu;
   `prompted` tells which nodes have a prompt with a text.
   */
  datatype Source = Source(
    entries: seq<Entry>, prompted: seq<bool>, modules: Sym,
    dep: seq<Option<Expr>>, props: seq<seq<Prop>>, parent: seq<Link>)
  {
    ghost predicate Valid() {
      && |dep| == |props| == |parent| == |prompted| == |entries| && 0 < |entries|
      && NnfOpt(dep[0]) && parent[0] == None && entries[0].sym == None
      && (forall i: nat {:trigger ParentBefore(parent, i)} | 0 < i < |parent| :: ParentBefore(parent, i))
    }
  }

  predicate ParentBefore(parent: seq<Link>, i: nat) {
    i < |parent| && parent[i].Some? && parent[i].value < i
  }

  // ----- what nodes inherit -----

  /** The dependency of node `i`, joined to what it inherits from the node the parser put it below. */
  ghost function FinalDep(src: Source, i: nat): Option<Expr>
    requires src.Valid() && i < |src.entries|
    decreases i, 0
  {
    if i == 0 then src.dep[0]
    else
      assert ParentBefore(src.parent, i);
      Conjoin(FinalBase(src, src.parent[i].value), src.dep[i], src.modules)
  }

  /** What children of `q` inherit: its dependency, or the choice itself. */
  ghost function FinalBase(src: Source, q: nat): Option<Expr>
    requires src.Valid() && q < |src.entries|
    decreases q, 1
  {
    if src.entries[q].Choice() then Some(Symbol(src.entries[q].sym.value)) else FinalDep(src, q)
  }

  /** A property of node `i`, its condition joined to the node's dependency. */
  ghost function FinalProp(src: Source, i: nat, p: Prop): Prop
    requires src.Valid() && i < |src.entries|
  {
    if i == 0 then p
    else p.(visible := PropCondition(FinalDep(src, i), p.visible, src.modules, src.entries[i].Shorten()))
  }

  ghost function FinalProps(src: Source, i: nat): seq<Prop>
    requires src.Valid() && i < |src.entries|
  {
    seq(|src.props[i]|, k requires 0 <= k < |src.props[i]| => FinalProp(src, i, src.props[i][k]))
  }

  /** The condition of an entry's prompt, if it has one. */
  function PromptVisible(e: Entry, ps: seq<Prop>): Option<Expr> {
    if e.prompt.Some? && e.prompt.value < |ps| then ps[e.prompt.value].visible else None
  }

  /** The condition that decides about submenus: that of the prompt, or else the dependency. */
  function Condition(e: Entry, dep: Option<Expr>, ps: seq<Prop>): Option<Expr> {
    if e.prompt.Some? then PromptVisible(e, ps) else dep
  }

  lemma {:induction false} FinalNormal(src: Source, i: nat)
    requires src.Valid() && i < |src.entries|
    ensures NnfOpt(FinalDep(src, i))
  {
    if i > 0 {
      assert ParentBefore(src.parent, i);
      FinalNormal(src, src.parent[i].value);
      ConjoinNormal(FinalBase(src, src.parent[i].value), src.dep[i], src.modules);
    }
  }

  /**
   The minimum of the original dependencies of node `i` and of all nodes enclosing it, each
   bare m read as m && MODULES, up to the main menu or the nearest choice.
   */
  ghost function EnclosingMin(src: Source, i: nat, env: Env): Tri
    requires src.Valid() && i < |src.entries|
  {
    if i == 0 then ValueOpt(src.dep[0], env) else
      assert ParentBefore(src.parent, i);
      var q := src.parent[i].value;
      var e := src.entries[q];
      TriAnd(if e.Choice() then env.tri(e.sym.value) else EnclosingMin(src, q, env),
             ValueMOpt(src.dep[i], env, src.modules))
  }

  /** `env` is admissible for every dependency that minimum is taken over. */
  ghost predicate AdmissibleAbove(src: Source, i: nat, env: Env)
    requires src.Valid() && i < |src.entries|
  {
    AdmissibleOpt(src.dep[i], env) &&
    (i > 0 ==>
       assert ParentBefore(src.parent, i);
       var q := src.parent[i].value;
       src.entries[q].Choice() || AdmissibleAbove(src, q, env))
  }

  lemma {:induction false} FinalDepValue(src: Source, i: nat, env: Env)
    requires src.Valid() && i < |src.entries| && WellFormed(env) && AdmissibleAbove(src, i, env)
    ensures AdmissibleOpt(FinalDep(src, i), env) && ValueOpt(FinalDep(src, i), env) == EnclosingMin(src, i, env)
  {
    if i > 0 {
      assert ParentBefore(src.parent, i);
      var q := src.parent[i].value;
      if !src.entries[q].Choice() { FinalDepValue(src, q, env); }
      ConjoinValue(FinalBase(src, q), src.dep[i], src.modules, env);
    }
  }

  /** A property's condition as written, within what encloses its node. */
  ghost function Written(src: Source, i: nat, p: Prop, env: Env): Tri
    requires src.Valid() && 0 < i < |src.entries|
  {
    TriAnd(EnclosingMin(src, i, env), ValueMOpt(p.visible, env, src.modules))
  }

  /** For symbols other than tristates a yes that rests on a tristate being mod is lost. */
  ghost predicate Lowered(src: Source, i: nat, p: Prop, env: Env)
    requires src.Valid() && 0 < i < |src.entries|
  {
    && src.entries[i].Shorten() && Written(src, i, p, env) == YES
    && !StaysYesOpt(Conjoin(FinalDep(src, i), p.visible, src.modules), env)
  }

  ghost function Effective(src: Source, i: nat, p: Prop, env: Env): Tri
    requires src.Valid() && 0 < i < |src.entries|
  {
    if Lowered(src, i, p, env) then MOD else Written(src, i, p, env)
  }

  lemma FinalPropValue(src: Source, i: nat, p: Prop, env: Env)
    requires src.Valid() && 0 < i < |src.entries| && WellFormed(env)
    requires AdmissibleAbove(src, i, env) && AdmissibleOpt(p.visible, env)
    ensures AdmissibleOpt(FinalProp(src, i, p).visible, env)
    ensures ValueOpt(FinalProp(src, i, p).visible, env) == Effective(src, i, p, env)
  {
    var d := FinalDep(src, i);
    FinalDepValue(src, i, env);
    FinalNormal(src, i);
    ConjoinValue(d, p.visible, src.modules, env);
    ConjoinNormal(d, p.visible, src.modules);
    ShortenedValue(Conjoin(d, p.visible, src.modules), src.entries[i].Shorten(), env);
  }

  /** All conditions of a symbol that is not a tristate, shortened. */
  function ShortenAll(ps: seq<Prop>): (r: seq<Prop>)
    ensures |r| == |ps| && forall k | 0 <= k < |ps| :: r[k] == ps[k].(visible := Shortened(ps[k].visible, true))
  {
    seq(|ps|, k requires 0 <= k < |ps| => ps[k].(visible := Shortened(ps[k].visible, true)))
  }

  lemma {:induction false} ShortenedBest(ps: seq<Prop>, n: nat, env: Env)
    requires WellFormed(env) && n <= |ps| && forall p <- ps :: NnfOpt(p.visible)
    ensures BestPrompt(ShortenAll(ps), n, env) == NO <==> BestPrompt(ps, n, env) == NO
  {
    if n > 0 {
      ShortenedBest(ps, n - 1, env);
      assert ps[n - 1] in ps;
      ShortenedValue(ps[n - 1].visible, true, env);
    }
  }

  /** The visibility of such a symbol is not affected. */
  lemma ShortenedVisibility(t: Table, d: Decl, env: Env)
    requires WellFormed(env) && d.kind != Tristate && forall p <- d.props :: NnfOpt(p.visible)
    ensures Visible(t, d.(props := ShortenAll(d.props)), env) == Visible(t, d, env)
  {
    ShortenedBest(d.props, |d.props|, env);
  }

  // ----- what the code has stored so far -----

  /** Expressions recorded for symbols; a missing entry is a null pointer. */
  type Deps = map<Sym, Expr>

  /** The entry `node` was made a member of the choice at `choice`. */
  datatype Member = Member(choice: nat, node: nat)

  /**
   All that finalisation rewrites or records.  Where `tie` names a choice, the stored
   dependency and conditions of the node have the test choice=y in front.
   */
  datatype DepState = DepState(
    dep: seq<Option<Expr>>, props: seq<seq<Prop>>, revDep: Deps, implied: Deps, dirDep: Deps,
    tie: seq<Option<Sym>>, members: seq<Member>)

  function Initial(src: Source): DepState {
    DepState(src.dep, src.props, map[], map[], map[], seq(|src.entries|, _ => None), [])
  }

  function ChoiceTest(c: Sym): Expr {
    Rel(Eq, c, SymY)
  }

  function Tied(tie: Option<Sym>, e: Option<Expr>): Option<Expr> {
    if tie.None? then e else AndOpt(Some(ChoiceTest(tie.value)), e)
  }

  /** The dependency stored in node `i`. */
  function StoredDep(ds: DepState, i: nat): Option<Expr>
    requires i < |ds.dep| == |ds.tie|
  {
    Tied(ds.tie[i], ds.dep[i])
  }

  /** The property `k` stored for node `i`. */
  function StoredProp(ds: DepState, i: nat, k: nat): Prop
    requires i < |ds.props| == |ds.tie| && k < |ds.props[i]|
  {
    ds.props[i][k].(visible := Tied(ds.tie[i], ds.props[i][k].visible))
  }

  function StoredProps(ds: DepState, i: nat): (ps: seq<Prop>)
    requires i < |ds.props| == |ds.tie|
    ensures ds.tie[i].None? ==> ps == ds.props[i]
  {
    seq(|ds.props[i]|, k requires 0 <= k < |ds.props[i]| => StoredProp(ds, i, k))
  }

  predicate Sized(src: Source, ds: DepState) {
    |ds.dep| == |ds.props| == |ds.tie| == |src.entries|
  }

  /** Node `i` and its properties have inherited. */
  ghost predicate NodeOk(src: Source, ds: DepState, i: nat)
    requires src.Valid()
  {
    Sized(src, ds) && i < |src.entries| && ds.dep[i] == FinalDep(src, i) && ds.props[i] == FinalProps(src, i)
  }

  predicate AsParsed(src: Source, ds: DepState, i: nat) {
    && i < |src.dep| == |src.props| == |ds.dep| == |ds.props| == |ds.tie|
    && ds.dep[i] == src.dep[i] && ds.props[i] == src.props[i] && ds.tie[i].None?
  }

  /**
   Has node `i` inherited when nodes before `done` have passed on what they have, and
   `done` has done so to its children before `upto`?
   */
  predicate Inherited(src: Source, done: nat, upto: nat, i: nat) {
    i < |src.parent| && src.parent[i].Some? &&
    (src.parent[i].value < done || (src.parent[i].value == done && i < upto))
  }

  ghost predicate DepInv(src: Source, ds: DepState, done: nat, upto: nat) {
    && src.Valid() && Sized(src, ds)
    && (forall i: nat {:trigger NodeOk(src, ds, i)} | Inherited(src, done, upto, i) :: NodeOk(src, ds, i))
    && (forall i: nat {:trigger AsParsed(src, ds, i)} | i < |src.entries| && !Inherited(src, done, upto, i) ::
          AsParsed(src, ds, i))
  }

  lemma DepInvStart(src: Source)
    requires src.Valid()
    ensures DepInv(src, Initial(src), 0, 1)
  {
    forall i: nat | i < |src.entries| ensures AsParsed(src, Initial(src), i) && !Inherited(src, 0, 1, i) {
      if i > 0 { assert ParentBefore(src.parent, i); }
    }
  }

  /** Up to the node that is to pass on what it has, all have inherited. */
  lemma DepReady(src: Source, ds: DepState, done: nat, upto: nat, p: nat)
    requires DepInv(src, ds, done, upto) && p <= done && p < |src.entries|
    ensures NodeOk(src, ds, p)
  {
    if p == 0 {
      assert AsParsed(src, ds, p) && ds.props[0] == FinalProps(src, 0);
    } else {
      assert ParentBefore(src.parent, p) && Inherited(src, done, upto, p);
    }
  }

  /** Nothing but dependencies and properties matters. */
  lemma DepInvSame(src: Source, ds: DepState, ds': DepState, done: nat, upto: nat)
    requires DepInv(src, ds, done, upto) && ds'.dep == ds.dep && ds'.props == ds.props && |ds'.tie| == |ds.tie|
    requires forall i: nat | i < |ds.tie| && ds.tie[i].None? && !Inherited(src, done, upto, i) :: ds'.tie[i].None?
    ensures DepInv(src, ds', done, upto)
  {
    forall i: nat | i < |src.entries| && !Inherited(src, done, upto, i) ensures AsParsed(src, ds', i) {
      assert AsParsed(src, ds, i);
    }
    forall i: nat | Inherited(src, done, upto, i) ensures NodeOk(src, ds', i) {
      assert NodeOk(src, ds, i);
    }
  }

  /** The child `m` of `p` inherits. */
  lemma DepInvAdd(src: Source, ds: DepState, p: nat, m: nat, d: Option<Expr>, ps: seq<Prop>)
    requires DepInv(src, ds, p, m) && p < m < |src.entries| && src.parent[m] == Some(p)
    requires d == FinalDep(src, m) && ps == FinalProps(src, m)
    ensures DepInv(src, ds.(dep := ds.dep[m := d], props := ds.props[m := ps]), p, m + 1)
  {
    var ds' := ds.(dep := ds.dep[m := d], props := ds.props[m := ps]);
    forall i: nat | i < |src.entries| && !Inherited(src, p, m + 1, i) ensures AsParsed(src, ds', i) {
      assert AsParsed(src, ds, i);
    }
    forall i: nat | Inherited(src, p, m + 1, i) ensures NodeOk(src, ds', i) {
      if i != m { assert NodeOk(src, ds, i); }
    }
  }

  /** Once all children of `p` have inherited, the next node is to pass on. */
  lemma DepInvNext(src: Source, ds: DepState, p: nat, upto: nat)
    requires DepInv(src, ds, p, upto) && forall i: nat | upto <= i < |src.parent| :: src.parent[i] != Some(p)
    ensures DepInv(src, ds, p + 1, p + 2)
  {
    forall i: nat | i < |src.entries| && !Inherited(src, p + 1, p + 2, i) ensures AsParsed(src, ds, i) {
      assert AsParsed(src, ds, i);
    }
    forall i: nat | Inherited(src, p + 1, p + 2, i) ensures NodeOk(src, ds, i) {
      assert i > 0 && ParentBefore(src.parent, i);
      assert Inherited(src, p, upto, i);
    }
  }

  /** Nodes between `upto` and `at` are not children of `p`. */
  lemma DepInvSkip(src: Source, ds: DepState, p: nat, upto: nat, at: nat)
    requires DepInv(src, ds, p, upto) && upto <= at
    requires NoKids(src.parent, p, upto, at)
    ensures DepInv(src, ds, p, at)
  {
    forall i: nat | i < |src.entries| && !Inherited(src, p, at, i) ensures AsParsed(src, ds, i) {
      assert AsParsed(src, ds, i);
    }
    forall i: nat | Inherited(src, p, at, i) ensures NodeOk(src, ds, i) {
      assert Inherited(src, p, upto, i);
    }
  }

  /** While `p` passes on what it has: the children `c` from `at` on have yet to inherit. */
  ghost predicate PropagateWalk(src: Source, ds: DepState, k: Links, p: nat, menu: Link, at: nat, c: Shape) {
    && DepInv(src, ds, p, at) && p < at && p < |src.entries|
    && Stored(k, menu, at, c, None, Some(p)) && Orig(src.parent, at, c, Some(p))
  }

  lemma PropagateHead(src: Source, ds: DepState, k: Links, p: nat, menu: Link, at: nat, c: Shape)
    requires PropagateWalk(src, ds, k, p, menu, at, c) && menu.Some?
    ensures c.Node? && menu == Some(at) && at < |src.entries| && src.parent[at] == Some(p) && InRange(k, at)
  {
    StoredHead(k, menu, at, c, Some(p));
  }

  /** None of the nodes from `lo` up to `hi` is a child of `p`. */
  predicate NoKids(parent: seq<Link>, p: nat, lo: nat, hi: nat) {
    hi <= |parent| && forall i: nat | lo <= i < hi :: parent[i] != Some(p)
  }

  lemma NotKids(parent: seq<Link>, p: nat, m: nat, kids: Shape, at: nat)
    requires Orig(parent, m + 1, kids, Some(m)) && p < m < |parent| && at == m + 1 + Count(kids)
    ensures NoKids(parent, p, m + 1, at)
  {
    if kids.Node? { OrigInside(parent, m + 1, kids, Some(m), at - 1); }
    forall i: nat | m + 1 <= i < at ensures parent[i] != Some(p) {
      OrigInside(parent, m + 1, kids, Some(m), i);
    }
  }

  lemma PropagateNext(src: Source, ds: DepState, k: Links, p: nat, m: nat, c: Shape, at: nat)
    requires DepInv(src, ds, p, m + 1) && p < m && p < |src.entries| && c.Node?
    requires Stored(k, Some(m), m, c, None, Some(p)) && Orig(src.parent, m, c, Some(p)) && at == m + 1 + Count(c.kids)
    ensures InRange(k, m) && PropagateWalk(src, ds, k, p, k.next[m], at, c.next)
  {
    assert DepInv(src, ds, p, at) by {
      NotKids(src.parent, p, m, c.kids, at);
      DepInvSkip(src, ds, p, m + 1, at);
    }
    StoredFirst(k, m, c, at, Some(p));
    OrigNext(src.parent, m, c, at, Some(p));
  }

  // ----- what is stored in the end -----

  /** Every node has inherited. */
  ghost predicate AllInherited(src: Source, ds: DepState) {
    && src.Valid() && Sized(src, ds)
    && forall i: nat {:trigger NodeOk(src, ds, i)} | i < |src.entries| :: NodeOk(src, ds, i)
  }

  lemma DepInvAll(src: Source, ds: DepState)
    requires DepInv(src, ds, |src.entries|, |src.entries| + 1)
    ensures AllInherited(src, ds)
  {
    forall i: nat | i < |src.entries| ensures NodeOk(src, ds, i) {
      DepReady(src, ds, |src.entries|, |src.entries| + 1, i);
    }
  }
}
