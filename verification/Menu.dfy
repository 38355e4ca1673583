/**
 Finalisation of the menu tree: dependencies are pushed down, entries that depend on
 the entry before them move into a submenu of it, entries below a choice become its members,
 and entries without a prompt give their children to their parent.
 */
module Menu {
  import opened Tristate
  import opened Expr
  import opened Symbols
  import opened MenuLift
  import opened MenuShape
  import opened MenuDeps
  import opened ExprEquality
  import opened MenuInherit
  import opened MenuRecords
  import opened MenuChoices

  // ----- automatic submenus -----

  /** By its condition, node `m` belongs below the symbol of node `p`. */
  ghost predicate BelongsTo(src: Source, p: nat, m: nat) {
    && src.Valid() && p < m < |src.entries| && src.entries[p].sym.Some?
    && Belongs(src.entries[p].sym.value, PromptVisible(src.entries[p], FinalProps(src, p)),
               Condition(src.entries[m], FinalDep(src, m), FinalProps(src, m)))
  }

  /** Node `i` was moved below an earlier sibling that had no children, where it belongs. */
  ghost predicate Moved(src: Source, eff: seq<Link>, i: nat) {
    && src.Valid() && i < |eff| == |src.entries| && eff[i].Some? && eff[i].value < i
    && src.parent[i] == src.parent[eff[i].value] && KidsWithin(src.parent, eff[i].value, 0)
    && BelongsTo(src, eff[i].value, i)
  }

  ghost predicate MovesOk(src: Source, eff: seq<Link>) {
    && |eff| == |src.entries| == |src.parent|
    && forall i: nat {:trigger Moved(src, eff, i)} | i < |eff| && eff[i] != src.parent[i] :: Moved(src, eff, i)
  }

  lemma MoveOne(src: Source, eff: seq<Link>, p: nat, m: nat)
    requires src.Valid() && MovesOk(src, eff) && BelongsTo(src, p, m)
    requires src.parent[m] == src.parent[p] && KidsWithin(src.parent, p, 0)
    ensures MovesOk(src, eff[m := Some(p)])
  {
    var eff' := eff[m := Some(p)];
    forall i: nat | i < |eff'| && eff'[i] != src.parent[i] ensures Moved(src, eff', i) {
      if i != m { assert Moved(src, eff, i); }
    }
  }

  /** Nodes from `n` on are where the parser put them. */
  ghost predicate Pending(src: Source, eff: seq<Link>, n: nat) {
    |eff| == |src.parent| && forall i: nat | n <= i < |eff| :: eff[i] == src.parent[i]
  }

  /** The first sibling behind a childless entry `x` that is not below it does not belong there. */
  ghost predicate StopsAt(src: Source, x: nat, e: nat) {
    x < e < |src.parent| && KidsWithin(src.parent, x, 0) && src.parent[e] == src.parent[x] ==> !BelongsTo(src, x, e)
  }

  /** Each node from `lo` up to `hi` has below it exactly the nodes up to its end, and none is missing. */
  ghost predicate Settled(src: Source, eff: seq<Link>, end: seq<nat>, lo: nat, hi: nat) {
    Nested(eff, end, lo, hi) && hi <= |end| && forall x: nat | lo <= x < hi :: StopsAt(src, x, end[x])
  }

  /**
   The entry directly behind the childless entry `x` is its sibling, and the condition of its
   prompt, or its dependency if it has no prompt, has an operand that asks for the symbol of `x`.
   */
  ghost predicate Follows(src: Source, x: nat) {
    && src.Valid() && x + 1 < |src.entries| && src.entries[x].sym.Some?
    && KidsWithin(src.parent, x, 0) && src.parent[x + 1] == src.parent[x]
    && var e, props := src.entries[x + 1], FinalProps(src, x + 1);
       var dep := if e.prompt.None? then FinalDep(src, x + 1)
                  else if e.prompt.value < |props| then props[e.prompt.value].visible
                  else None;
       dep.Some? && exists y <- Operands(AndOp, dep.value) :: AsksFor(y, src.entries[x].sym.value)
  }

  lemma FollowerMoves(src: Source, eff: seq<Link>, end: seq<nat>, x: nat)
    requires Settled(src, eff, end, 0, |src.entries|) && Follows(src, x)
    ensures x + 1 < |eff| && eff[x + 1] == Some(x)
  {
    assert NestedAt(eff, end, x, |src.entries|) && StopsAt(src, x, end[x]);
    var dep := Condition(src.entries[x + 1], FinalDep(src, x + 1), FinalProps(src, x + 1)).value;
    BelongsOutright(src.entries[x].sym.value, PromptVisible(src.entries[x], FinalProps(src, x)), dep);
    assert BelongsTo(src, x, x + 1);
  }

  lemma SettledJoin(src: Source, eff: seq<Link>, end: seq<nat>, eff': seq<Link>, end': seq<nat>,
                    p: nat, lo: nat, m: nat, m': nat)
    requires Settled(src, eff, end, lo, m) && SameBefore(eff, eff', m + 1) && SameEnds(end, end', m)
    requires Settled(src, eff', end', m, m') && m < m' && end'[m] == m'
    requires p < lo <= m < |eff| && eff[m] == Some(p)
    ensures Settled(src, eff', end', lo, m')
  {
    NestedJoin(eff, end, eff', end', p, lo, m, m');
    forall x: nat | lo <= x < m' ensures StopsAt(src, x, end'[x]) {
      if x < m { assert end'[x] == end[x]; }
    }
  }

  lemma SettledClose(src: Source, eff: seq<Link>, end: seq<nat>, p: nat, lo: nat, m: nat)
    requires Settled(src, eff, end, lo, m) && Within(eff, p, lo, m) && lo == p + 1 && lo <= m && p < |end|
    requires StopsAt(src, p, m)
    ensures Settled(src, eff, end[p := m], p, m)
  {
    NestedClose(eff, end, p, lo, m);
  }

  /** Where a node from `m` on is put does not matter to those before it. */
  lemma SettledMove(src: Source, eff: seq<Link>, end: seq<nat>, p: nat, lo: nat, m: nat)
    requires Settled(src, eff, end, lo, m) && m < |eff|
    ensures Settled(src, eff[m := Some(p)], end, lo, m)
  {
    var eff' := eff[m := Some(p)];
    forall x: nat | lo <= x < m ensures NestedAt(eff', end, x, m) { assert NestedAt(eff, end, x, m); }
  }

  /** Two steps that leave the first `n` nodes alone do so together. */
  lemma SteadyTrans(eff: seq<Link>, eff': seq<Link>, eff'': seq<Link>, end: seq<nat>, end': seq<nat>, end'': seq<nat>,
                    n: nat, m: nat)
    requires SameBefore(eff, eff', n) && SameBefore(eff', eff'', m) && n <= m
    requires SameEnds(end, end', n) && SameEnds(end', end'', m)
    ensures SameBefore(eff, eff'', n) && SameEnds(end, end'', n)
  {
  }

  lemma SteadyClose(eff: seq<Link>, eff': seq<Link>, end: seq<nat>, end': seq<nat>, p: nat, lo: nat, m: nat)
    requires SameBefore(eff, eff', lo) && SameEnds(end, end', lo) && lo == p + 1 && p < |end|
    ensures SameBefore(eff, eff', p) && SameEnds(end, end'[p := m], p)
  {
  }

  /** While `p` collects followers: its prompt's condition is `own`, and `base` tests it. */
  ghost predicate Collecting(src: Source, p: nat, s: Sym, own: Option<Expr>, base: Expr, q: Link) {
    && src.Valid() && p < |src.entries|
    && src.parent[p] == q && KidsWithin(src.parent, p, 0) && src.entries[p].sym == Some(s)
    && own == PromptVisible(src.entries[p], FinalProps(src, p)) && base == TestNotNo(own)
  }

  /** No node from `hi` on is a child of `q`. */
  ghost predicate NoneLeft(parent: seq<Link>, q: Link, hi: nat) {
    forall i: nat | hi <= i < |parent| :: parent[i] != q
  }

  // ----- while finalisation runs -----

  /** The nodes finalised so far are exactly the first `n`, each once and in menu order. */
  ghost predicate InOrder(log: seq<nat>, n: nat) {
    |log| == n && forall i: nat | i < n :: log[i] == i
  }

  lemma InOrderNext(log: seq<nat>, n: nat)
    requires InOrder(log, n)
    ensures InOrder(log + [n], n + 1)
  {
  }

  /** The first `done` nodes have passed on what they have; those in `open` are still being finalised. */
  ghost predicate Ready(src: Source, k: Links, ds: DepState, eff: seq<Link>, end: seq<nat>, open: set<nat>, done: nat) {
    && k.Sized(|src.entries|) && DepInv(src, ds, done, done + 1) && MovesOk(src, eff)
    && RecordsInv(src, ds, open, done, done + 1) && MembersInv(src, ds, eff, end, open, done)
  }

  /** The next node is opened; its children, if any, have inherited. */
  lemma ReadyNext(src: Source, k: Links, ds: DepState, ds': DepState, eff: seq<Link>, end: seq<nat>,
                  open: set<nat>, open': set<nat>, p: nat, lo: nat)
    requires Ready(src, k, ds, eff, end, open, p) && lo == p + 1 && open' == open + {p}
    requires DepInv(src, ds', lo, lo + 1) && RecordsInv(src, ds', open', lo, lo + 1)
    requires ds'.members == ds.members && ds'.tie == ds.tie
    ensures Ready(src, k, ds', eff, end, open', lo)
  {
    MembersLater(src, ds, ds', eff, eff, end, open, open', p, lo);
  }

  /** Node `m`, which is next, is moved below `p`. */
  lemma ReadyMove(src: Source, k: Links, ds: DepState, eff: seq<Link>, end: seq<nat>, open: set<nat>, p: nat, m: nat)
    requires Ready(src, k, ds, eff, end, open, m) && BelongsTo(src, p, m)
    requires src.parent[m] == src.parent[p] && KidsWithin(src.parent, p, 0)
    ensures Ready(src, k, ds, eff[m := Some(p)], end, open, m)
  {
    MoveOne(src, eff, p, m);
    MembersLater(src, ds, ds, eff, eff[m := Some(p)], end, open, open, m, m);
  }

  /** What node `p` has stored, while it is open. */
  lemma ReadyOpen(src: Source, k: Links, ds: DepState, eff: seq<Link>, end: seq<nat>, open: set<nat>, done: nat, p: nat)
    requires Ready(src, k, ds, eff, end, open, done) && p <= done && p < |src.entries| && (p == done || p in open)
    ensures StoredDep(ds, p) == FinalDep(src, p) && StoredProps(ds, p) == FinalProps(src, p) && ds.tie[p].None?
  {
    DepReady(src, ds, done, done + 1, p);
    Untied(src, ds, eff, end, open, done, p);
  }

  lemma ReadyDirect(src: Source, k: Links, ds: DepState, eff: seq<Link>, end: seq<nat>, open: set<nat>, done: nat,
                    p: nat, s: Sym)
    requires Ready(src, k, ds, eff, end, open, done) && Defines(src, p, s)
    ensures var ds' := ds.(dirDep := AddOr(ds.dirDep, s, FinalDep(src, p)));
            Ready(src, k, ds', eff, end, open, done) && DirOk(src, ds', p)
  {
    var ds' := ds.(dirDep := AddOr(ds.dirDep, s, FinalDep(src, p)));
    RecordsDirect(src, ds, open, p, s, done, done + 1);
    DepInvSame(src, ds, ds', done, done + 1);
    MembersLater(src, ds, ds', eff, eff, end, open, open, done, done);
  }

  lemma ReadyMode(src: Source, k: Links, ds: DepState, eff: seq<Link>, end: seq<nat>, open: set<nat>, done: nat,
                  p: nat, s: Sym)
    requires Ready(src, k, ds, eff, end, open, done) && Mandatory(src, p, s)
    ensures var ds' := ds.(revDep := AddOr(ds.revDep, s, Some(ModeOf(src, p))));
            Ready(src, k, ds', eff, end, open, done) && ModeOk(src, ds', p)
  {
    var ds' := ds.(revDep := AddOr(ds.revDep, s, Some(ModeOf(src, p))));
    RecordsMode(src, ds, open, p, s, done, done + 1);
    DepInvSame(src, ds, ds', done, done + 1);
    MembersLater(src, ds, ds', eff, eff, end, open, open, done, done);
  }

  /** Members of a choice have been registered. */
  lemma ReadyMembers(src: Source, k: Links, k': Links, ds: DepState, ds': DepState, eff: seq<Link>, end: seq<nat>,
                     open: set<nat>, done: nat)
    requires Ready(src, k, ds, eff, end, open, done) && k'.Sized(|src.entries|)
    requires ds' == ds.(tie := ds'.tie, members := ds'.members) && MembersInv(src, ds', eff, end, open, done)
    ensures Ready(src, k', ds', eff, end, open, done)
  {
    forall i: nat | i < |ds.tie| && !Inherited(src, done, done + 1, i) ensures ds'.tie[i].None? {
      if i == 0 {
        assert TieOk(src, ds', 0);
        forall j: nat | j < |ds'.members| ensures ds'.members[j].node != 0 {
          assert MemberOk(src, eff, done, ds'.members[j]);
        }
      } else {
        assert ParentBefore(src.parent, i);
        if i < done { assert false; }
        Untied(src, ds', eff, end, open, done, i);
      }
    }
    DepInvSame(src, ds, ds', done, done + 1);
    RecordsGrow(src, ds, ds', open, done, done + 1);
  }

  lemma ReadyClose(src: Source, k: Links, ds: DepState, eff: seq<Link>, end: seq<nat>, open: set<nat>,
                   open': set<nat>, p: nat, m: nat)
    requires Ready(src, k, ds, eff, end, open, m) && p < m && p < |src.entries| && open == open' + {p}
    requires DirOk(src, ds, p) && ModeOk(src, ds, p)
    requires src.entries[p].Choice() ==> ChoiceOk(src, ds, eff, p, m)
    ensures Ready(src, k, ds, eff, end[p := m], open', m)
  {
    RecordsClose(src, ds, open, open', p, m, m + 1);
    MembersClose(src, ds, eff, end, open, open', p, m);
  }

  // ----- members, child by child -----

  /** The children `a` of the choice at `p`, from `lo` on, have been looked at. */
  ghost predicate Enlisting(src: Source, ds: DepState, eff: seq<Link>, end: seq<nat>, open: set<nat>, hi: nat,
                            p: nat, lo: nat, a: Shape) {
    && MembersInv(src, ds, eff, end, open, hi) && p < |src.entries| && lo == p + 1
    && forall i: nat | lo <= i < lo + Count(a) && i < |src.entries| && Par(lo, a, p, i) == p &&
                       src.entries[p].Choice() && src.entries[i].sym.Some? ::
         Registered(src, ds.members, src.entries[i].sym.value)
  }

  /** Of the nodes of one more child `f` at `m`, only `m` itself is a child of `p`. */
  lemma ParNext(p: nat, lo: nat, a: Shape, m: nat, f: Shape, i: nat)
    requires p < lo && m == lo + Count(a) && f.Node? && f.next.Nil? && lo <= i < lo + Count(Cat(a, f))
    requires Par(lo, Cat(a, f), p, i) == p
    ensures i == m || (i < m && Par(lo, a, p, i) == p)
  {
    CountCat(a, f);
    ParCat(lo, a, m, f, p, i);
    if i > m { ParInside(m + 1, f.kids, m, i); }
  }

  lemma EnlistNext(src: Source, ds: DepState, eff: seq<Link>, end: seq<nat>, open: set<nat>, hi: nat,
                   p: nat, lo: nat, a: Shape, m: nat, f: Shape)
    requires Enlisting(src, ds, eff, end, open, hi, p, lo, a) && m == lo + Count(a) && f.Node? && f.next.Nil?
    requires m < hi && m < |src.entries| && m !in open && Directly(eff, src.prompted, p, m)
    ensures Enlisting(src, Register(src, ds, p, m), eff, end, open, hi, p, lo, Cat(a, f))
  {
    var ds' := Register(src, ds, p, m);
    MembersRegister(src, ds, eff, end, open, hi, p, m);
    forall i: nat | lo <= i < lo + Count(Cat(a, f)) && i < |src.entries| && Par(lo, Cat(a, f), p, i) == p &&
                    src.entries[p].Choice() && src.entries[i].sym.Some?
      ensures Registered(src, ds'.members, src.entries[i].sym.value)
    {
      ParNext(p, lo, a, m, f, i);
    }
  }

  lemma ParFirst(p: nat, lo: nat, a: Shape, m: nat, c: Shape)
    requires m == lo + Count(a) && c.Node?
    ensures m < lo + Count(Cat(a, c)) && Par(lo, Cat(a, c), p, m) == p
  {
    CountCat(a, c);
    ParCat(lo, a, m, c, p, m);
  }

  /** The next child in the flattened chain is directly below `p`. */
  lemma NextDirectly(eff: seq<Link>, prompted: seq<bool>, p: nat, lo: nat, out: Shape, a: Shape, m: nat, c: Shape)
    requires Lifted(eff, prompted, p, out) && lo == p + 1 && m == lo + Count(a) && c.Node? && out == Cat(a, c)
    ensures m < lo + Count(out) && Directly(eff, prompted, p, m)
  {
    ParFirst(p, lo, a, m, c);
    assert Up(eff, prompted, p, m) == p && Within(eff, p, p + 1, m + 1);
    UpDirectly(eff, prompted, p, m);
  }

  lemma EnlistedAll(src: Source, ds: DepState, eff: seq<Link>, end: seq<nat>, open: set<nat>, hi: nat, p: nat,
                    lo: nat, out: Shape)
    requires Enlisting(src, ds, eff, end, open, hi, p, lo, out) && Lifted(eff, src.prompted, p, out)
    requires hi == lo + Count(out)
    ensures src.entries[p].Choice() ==> ChoiceOk(src, ds, eff, p, hi)
  {
    forall i: nat | p < i < hi && Directly(eff, src.prompted, p, i) ensures Par(lo, out, p, i) == p {
      UpDirectly(eff, src.prompted, p, i);
    }
  }

  class MenuTree {
    const src: Source
    var links: Links
    var ds: DepState
    ghost var log: seq<nat>   // nodes in the order their finalisation began
    ghost var eff: seq<Link>  // the node each was put below, by the parser or by an automatic submenu
    ghost var end: seq<nat>   // the first node behind each that is not below it
    ghost var open: set<nat>  // nodes being finalised

    constructor (src: Source, links: Links)
      requires src.Valid()
      ensures this.src == src && this.links == links && ds == Initial(src)
      ensures log == [] && eff == src.parent && |end| == |src.entries| && open == {}
    {
      this.src, this.links, ds := src, links, Initial(src);
      log, eff, end, open := [], src.parent, seq(|src.entries|, _ => 0), {};
    }

    /** The first `n` nodes have been finalised or are open. */
    ghost predicate Standing(n: nat)
      reads this
    {
      Ready(src, links, ds, eff, end, open, n) && Pending(src, eff, n) && InOrder(log, n)
    }

    /** What was below the first `n` nodes, and where it ends, is as it was; the same nodes are open. */
    twostate predicate Steady(n: nat)
      reads this
    {
      open == old(open) && SameBefore(old(eff), eff, n) && SameEnds(old(end), end, n)
    }

    // ----- dependencies -----

    /** One property: push the dependency down and record selects and implies. */
    method ProcessProp(e: Entry, d: Option<Expr>, p: Prop) returns (p': Prop)
      modifies this`ds
      ensures p' == p.(visible := PropCondition(d, p.visible, src.modules, e.Shorten()))
      ensures ds == old(ds).(revDep := RecordOne(old(ds).revDep, e, p', Select),
                             implied := RecordOne(old(ds).implied, e, p', Imply))
    {
      var visible := CombineProp(d, p.visible, src.modules, e.Shorten());
      p' := p.(visible := visible);
      if e.sym.Some? && IsSymbol(p.expr) {
        var target, term := p.expr.value.sym, SelectTerm(e.sym.value, visible);
        if p.kind == Select {
          ds := ds.(revDep := AddOr(ds.revDep, target, Some(term)));
        } else if p.kind == Imply {
          ds := ds.(implied := AddOr(ds.implied, target, Some(term)));
        }
      }
    }

    method ProcessProps(e: Entry, d: Option<Expr>, ps: seq<Prop>) returns (ps': seq<Prop>)
      modifies this`ds
      ensures |ps'| == |ps|
      ensures forall k | 0 <= k < |ps| ::
                ps'[k] == ps[k].(visible := PropCondition(d, ps[k].visible, src.modules, e.Shorten()))
      ensures ds == old(ds).(revDep := RecordAll(old(ds).revDep, e, ps', Select),
                             implied := RecordAll(old(ds).implied, e, ps', Imply))
    {
      ps' := [];
      for i := 0 to |ps|
        invariant |ps'| == i && forall k | 0 <= k < i ::
                    ps'[k] == ps[k].(visible := PropCondition(d, ps[k].visible, src.modules, e.Shorten()))
        invariant ds == old(ds).(revDep := RecordAll(old(ds).revDep, e, ps', Select),
                                 implied := RecordAll(old(ds).implied, e, ps', Imply))
      {
        var p := ProcessProp(e, d, ps[i]);
        assert (ps' + [p])[..i] == ps';
        ps' := ps' + [p];
      }
    }

    /** The child `m` inherits `base` from its parent `p`. */
    method ProcessChild(p: nat, m: nat, base: Option<Expr>)
      requires DepInv(src, ds, p, m) && RecordsInv(src, ds, open, p, m)
      requires p < m < |src.entries| && src.parent[m] == Some(p) && base == FinalBase(src, p)
      modifies this`ds
      ensures DepInv(src, ds, p, m + 1) && RecordsInv(src, ds, open, p, m + 1)
      ensures ds.tie == old(ds).tie && ds.members == old(ds).members
    {
      assert AsParsed(src, ds, m);
      var d := Combine(base, StoredDep(ds, m), src.modules);
      var ps := ProcessProps(src.entries[m], d, StoredProps(ds, m));
      assert ps == FinalProps(src, m);
      RecordsChild(src, old(ds), ds, open, p, m);
      DepInvSame(src, old(ds), ds, p, m);
      DepInvAdd(src, ds, p, m, d, ps);
      ghost var was := ds;
      ds := ds.(dep := ds.dep[m := d], props := ds.props[m := ps]);
      RecordsGrow(src, was, ds, open, p, m + 1);
    }

    // ----- links -----

    /** Makes `p` the parent of all children of `m`, and finds the last of them. */
    method AdoptKids(p: nat, m: nat, ghost kids: Shape) returns (last: nat)
      requires InRange(links, m) && kids.Node? && Stored(links, links.list[m], m + 1, kids, None, Some(m))
      modifies this`links
      ensures SameOutside(old(links), links, m + 1, m + 1 + Count(kids))
      ensures links.list == old(links).list && links.next == old(links).next
      ensures Stored(links, links.list[m], m + 1, kids, None, Some(p)) && last == Last(m + 1, kids)
    {
      last := links.list[m].value;
      ghost var from, a, c := links.list[m], Nil, kids;
      AdoptWalkFirst(links, p, m, kids, from);
      links := links.WithParent(last, Some(p));
      while links.next[last].Some?
        invariant AdoptWalk(old(links), links, p, m, kids, from, a, last, c)
        decreases c
      {
        AdoptWalkStep(old(links), links, p, m, kids, from, a, last, c, links.next[last].value);
        last := links.next[last].value;
        links := links.WithParent(last, Some(p));
        a, c := Cat(a, First(c)), c.next;
      }
      AdoptWalkLast(old(links), links, p, m, kids, from, a, last, c);
    }

    /** Puts the children of `m` into the chain behind it. */
    method Splice(p: nat, m: nat, ghost c: Shape)
      requires c.Node? && c.kids.Node? && Stored(links, Some(m), m, c, None, Some(p))
      modifies this`links
      ensures Stored(links, Some(m), m, Spliced(c), None, Some(p))
      ensures SameOutside(old(links), links, m, m + 1 + Count(c.kids))
    {
      var last := AdoptKids(p, m, c.kids);
      ghost var was := links;
      ghost var hi := m + 1 + Count(c.kids);
      StoredElsewhere(old(links), links, m + 1, hi, links.next[m], hi, c.next, None, Some(p));
      StoredLast(links, links.list[m], m + 1, c.kids, None, Some(p));
      links := links.WithNext(last, links.next[m]);
      LastBounds(m + 1, c.kids);
      links := links.WithNext(m, links.list[m]);
      links := links.WithList(m, None);
      SpliceLinks(was, links, m, last, c, Some(p));
      SameOutsideWiden(old(links), was, m + 1, hi, m, hi);
      SameOutsideTrans(old(links), was, links, m, hi);
    }

    /** One step of flattening: the entry `m` keeps its children only if it has a prompt. */
    method FlattenOne(p: nat, m: nat, ghost c: Shape, ghost hi: nat) returns (ghost d: Shape, ghost at: nat)
      requires c.Node? && Stored(links, Some(m), m, c, None, Some(p)) && FlatBelow(src.prompted, m, c)
      requires hi == m + Count(c)
      modifies this`links
      ensures SameOutside(old(links), links, m, hi)
      ensures Stored(links, Some(m), m, d, None, Some(p)) && Count(d) == Count(c)
      ensures d.Node? && FlatBelow(src.prompted, m, d) && (d.kids.Node? ==> src.prompted[m])
      ensures at == m + 1 + Count(d.kids)
      ensures Flattened(src.prompted, m, c) == Node(d.kids, Flattened(src.prompted, at, d.next))
    {
      d := c;
      StoredHead(links, links.list[m], m + 1, c.kids, Some(m));
      if links.list[m].Some? && !src.prompted[m] {
        Splice(p, m, c);
        SameOutsideWiden(old(links), links, m, m + 1 + Count(c.kids), m, hi);
        SplicedFacts(src.prompted, m, c);
        d := Spliced(c);
      }
      at := m + 1 + Count(d.kids);
      FlattenedHead(src.prompted, m, c, d, at);
    }

    /** A child directly below the choice at `p` becomes a member, unless its symbol is one already. */
    method RegisterMember(p: nat, m: nat)
      requires p < |src.entries| && m < |src.entries| && TieOk(src, ds, m)
      modifies this`ds
      ensures ds == Register(src, old(ds), p, m)
    {
      var e, f := src.entries[p], src.entries[m];
      if e.Choice() && f.sym.Some? && !Registered(src, ds.members, f.sym.value) {
        assert ds.tie[m].None?;
        if Mixed(e, f) { ds := ds.(tie := ds.tie[m := e.sym]); }
        ds := ds.(members := ds.members + [Member(p, m)]);
      }
    }

    /** The child `m` of `p` is looked at: it may become a member, and may have to give up its children. */
    method VisitChild(p: nat, m: nat, ghost k0: Links, ghost lo: nat, ghost hi: nat, ghost kids: Shape,
                      ghost from: Link, ghost a: Shape, ghost c: Shape)
      returns (ghost d: Shape, ghost at: nat)
      requires FlatWalk(k0, links, src.prompted, p, lo, hi, kids, from, a, Some(m), m, c) && c.Node?
      requires Enlisting(src, ds, eff, end, open, hi, p, lo, a) && m < hi <= |src.entries| && m !in open
      requires Directly(eff, src.prompted, p, m)
      modifies this`links, this`ds
      ensures d.Node? && Count(d.next) < Count(c) && m < |links.next|
      ensures FlatWalk(k0, links, src.prompted, p, lo, hi, kids, from, Cat(a, First(d)), links.next[m], at, d.next)
      ensures Enlisting(src, ds, eff, end, open, hi, p, lo, Cat(a, First(d)))
      ensures ds == old(ds).(tie := ds.tie, members := ds.members)
    {
      assert TieOk(src, ds, m);
      RegisterMember(p, m);
      d, at := FlattenOne(p, m, c, hi);
      EnlistNext(src, old(ds), eff, end, open, hi, p, lo, a, m, First(d));
      FlatWalkNext(k0, old(links), links, src.prompted, p, lo, hi, kids, from, a, m, c, d, at);
    }

    /** The children of `p` are looked at one after the other; `all` is what the chain becomes. */
    method FlattenChain(p: nat, ghost lo: nat, ghost kids: Shape, ghost hi: nat, ghost all: Shape)
      requires lo == p + 1 && InRange(links, p) && Stored(links, links.list[p], lo, kids, None, Some(p))
      requires FlatBelow(src.prompted, lo, kids) && hi == lo + Count(kids) && hi <= |src.entries|
      requires all == Flattened(src.prompted, lo, kids) && Lifted(eff, src.prompted, p, all)
      requires Count(all) == Count(kids)
      requires MembersInv(src, ds, eff, end, open, hi) && p < |src.entries| && forall i <- open :: i <= p
      modifies this`links, this`ds
      ensures SameOutside(old(links), links, lo, hi) && Stored(links, links.list[p], lo, all, None, Some(p))
      ensures Flat(src.prompted, lo, all) && Enlisting(src, ds, eff, end, open, hi, p, lo, all)
      ensures ds == old(ds).(tie := ds.tie, members := ds.members)
    {
      var menu := links.list[p];
      ghost var from, a, c, at: nat := menu, Nil, kids, lo;
      while menu.Some?
        invariant FlatWalk(old(links), links, src.prompted, p, lo, hi, kids, from, a, menu, at, c)
        invariant Enlisting(src, ds, eff, end, open, hi, p, lo, a)
        invariant ds == old(ds).(tie := ds.tie, members := ds.members)
        decreases Count(c)
      {
        var m := menu.value;
        ghost var d;
        StoredHead(links, menu, at, c, Some(p));
        NextDirectly(eff, src.prompted, p, lo, all, a, m, Flattened(src.prompted, m, c));
        d, at := VisitChild(p, m, old(links), lo, hi, kids, from, a, c);
        a, c := Cat(a, First(d)), d.next;
        menu := links.next[m];
      }
      FlatWalkEnd(old(links), links, src.prompted, p, lo, hi, kids, from, a, menu, at, c);
    }

    /** Children become members if `p` is a choice, and entries without a prompt give their children to `p`. */
    method Flatten(p: nat, ghost kids: Shape, ghost hi: nat) returns (ghost out: Shape)
      requires InRange(links, p) && Stored(links, links.list[p], p + 1, kids, None, Some(p))
      requires FlatBelow(src.prompted, p + 1, kids) && hi == p + 1 + Count(kids) && hi <= |src.entries|
      requires Gathered(eff, src.prompted, p, p + 1, kids) && MembersInv(src, ds, eff, end, open, hi)
      requires p < |src.entries| && forall i <- open :: i <= p
      modifies this`links, this`ds
      ensures SameOutside(old(links), links, p + 1, hi)
      ensures Stored(links, links.list[p], p + 1, out, None, Some(p)) && Count(out) == Count(kids)
      ensures Flat(src.prompted, p + 1, out) && out == Flattened(src.prompted, p + 1, kids)
      ensures ds == old(ds).(tie := ds.tie, members := ds.members) && MembersInv(src, ds, eff, end, open, hi)
      ensures src.entries[p].Choice() ==> ChoiceOk(src, ds, eff, p, hi)
    {
      ghost var lo: nat := p + 1;
      out := Flattened(src.prompted, lo, kids);
      GatheredFlat(eff, src.prompted, p, kids);
      FlattenedCount(src.prompted, lo, kids);
      FlattenChain(p, lo, kids, hi, out);
      EnlistedAll(src, ds, eff, end, open, hi, p, lo, out);
    }

    // ----- finalisation -----

    /** The first of the children `c` of `p` that have yet to inherit does so. */
    method InheritNext(p: nat, m: nat, base: Option<Expr>, ghost c: Shape) returns (ghost at: nat)
      requires PropagateWalk(src, ds, links, p, Some(m), m, c) && RecordsInv(src, ds, open, p, m)
      requires base == FinalBase(src, p)
      modifies this`ds
      ensures c.Node? && m < |links.next| && PropagateWalk(src, ds, links, p, links.next[m], at, c.next)
      ensures RecordsInv(src, ds, open, p, at) && at + Count(c.next) == m + Count(c)
      ensures ds.tie == old(ds).tie && ds.members == old(ds).members
    {
      PropagateHead(src, ds, links, p, Some(m), m, c);
      ProcessChild(p, m, base);
      at := m + 1 + Count(c.kids);
      NotKids(src.parent, p, m, c.kids, at);
      PropagateNext(src, ds, links, p, m, c, at);
      RecordsLater(src, ds, open, open, p, m + 1, p, at);
    }

    /** All children of `p` inherit from it. */
    method PropagateToKids(p: nat, ghost lo: nat, ghost kids: Shape)
      requires DepInv(src, ds, p, lo) && RecordsInv(src, ds, open, p, lo) && InRange(links, p)
      requires p < |src.entries| && lo == p + 1 && ds.tie[p].None? && p in open
      requires Stored(links, links.list[p], lo, kids, None, Some(p))
      requires Orig(src.parent, lo, kids, Some(p)) && KidsWithin(src.parent, p, Count(kids))
      modifies this`ds
      ensures DepInv(src, ds, lo, lo + 1) && RecordsInv(src, ds, open, lo, lo + 1)
      ensures ds.tie == old(ds).tie && ds.members == old(ds).members
    {
      DepReady(src, ds, p, lo, p);
      var e := src.entries[p];
      var base := if e.Choice() then Some(Symbol(e.sym.value)) else StoredDep(ds, p);
      var menu := links.list[p];
      ghost var at: nat, c := lo, kids;
      while menu.Some?
        invariant PropagateWalk(src, ds, links, p, menu, at, c) && at + Count(c) == lo + Count(kids)
        invariant RecordsInv(src, ds, open, p, at) && ds.tie == old(ds).tie && ds.members == old(ds).members
        decreases c
      {
        var m := menu.value;
        StoredHead(links, menu, at, c, Some(p));
        at := InheritNext(p, m, base, c);
        c := c.next;
        menu := links.next[m];
      }
      StoredHead(links, menu, at, c, Some(p));
      DepInvNext(src, ds, p, at);
      RecordsNext(src, ds, open, p, at, lo);
      assert open + {p} == open;
    }

    /** Finalises the first of the waiting siblings, which belongs to `p`, and makes it a child of `p`. */
    method FinalizeOne(p: nat, m: nat, ghost k0: Links, ghost lo: nat, ghost hi: nat, ghost from: Link,
                       ghost a: Shape, ghost c: Shape, ghost pc: Link)
      returns (ghost f: Shape, ghost m': nat, ghost c': Shape)
      requires Ready(src, links, ds, eff, end, open, m) && InOrder(log, m) && m < |src.entries| && c.Node?
      requires Sweep(src.prompted, src.parent, k0, links, eff, p, lo, hi, from, a, Some(m), m, c, pc)
      requires eff[m] == Some(p) && Pending(src, eff, m + 1) && NoneLeft(src.parent, pc, hi)
      requires Settled(src, eff, end, lo, m)
      modifies this
      ensures Standing(m') && Steady(m) && SameBefore(old(eff), eff, m + 1) && Count(c') < Count(c)
      ensures Cat(a, f).Node? && Last(lo, Cat(a, f)) == m && m < |links.next|
      ensures Sweep(src.prompted, src.parent, k0, links, eff, p, lo, hi, from, Cat(a, f), links.next[m], m', c', pc)
      ensures Settled(src, eff, end, lo, m')
      decreases Count(c), 2
    {
      ghost var k, e, ends := links, eff, end;
      f, m', c' := Finalize(m, c, pc);
      SweepNext(src.prompted, src.parent, k0, k, links, e, eff, p, lo, hi, from, a, m, c, pc, f, m', c');
      SettledJoin(src, e, ends, eff, end, p, lo, m, m');
      links := links.WithParent(m, Some(p));
    }

    /** The children, which have all inherited, are finalised in order. */
    method FinalizeEach(p: nat, ghost lo: nat, ghost kids: Shape, ghost hi: nat) returns (ghost out: Shape)
      requires Standing(lo) && p < |src.entries| && lo == p + 1 && hi == lo + Count(kids)
      requires Stored(links, links.list[p], lo, kids, None, Some(p)) && Orig(src.parent, lo, kids, Some(p))
      requires NoneLeft(src.parent, Some(p), hi)
      modifies this
      ensures Sweep(src.prompted, src.parent, old(links), links, eff, p, lo, hi, old(links).list[p], out,
                    None, hi, Nil, Some(p))
      ensures Standing(hi) && Steady(lo) && Settled(src, eff, end, lo, hi)
      decreases Count(kids), 3
    {
      var menu := links.list[p];
      ghost var k0, from, at: nat, a, c := links, menu, lo, Nil, kids;
      SweepStart(src.prompted, src.parent, links, eff, p, lo, hi, from, kids, Some(p));
      while menu.Some?
        invariant Sweep(src.prompted, src.parent, k0, links, eff, p, lo, hi, from, a, menu, at, c, Some(p)) && lo <= at
        invariant Standing(at) && Steady(lo) && Settled(src, eff, end, lo, at) && Count(c) <= Count(kids)
        decreases Count(c)
      {
        var m := menu.value;
        ghost var f;
        ghost var e, ends := eff, end;
        SweepHead(src.prompted, src.parent, k0, links, eff, p, lo, hi, from, a, menu, at, c, Some(p));
        f, at, c := FinalizeOne(p, m, k0, lo, hi, from, a, c, Some(p));
        SteadyTrans(old(eff), e, eff, old(end), ends, end, lo, m);
        a := Cat(a, f);
        menu := links.next[m];
      }
      SweepHead(src.prompted, src.parent, k0, links, eff, p, lo, hi, from, a, menu, at, c, Some(p));
      out := a;
    }

    /** Makes the siblings `a` behind `p`, the last of which is `last`, its children. */
    method TakeOver(p: nat, last: nat, ghost a: Shape, ghost mid: Link, ghost m: nat, ghost c: Shape, ghost q: Link)
      requires InRange(links, p) && a.Node? && last == Last(p + 1, a)
      requires Walking(links, links.next[p], p + 1, a, mid, m, c, Some(p), q)
      modifies this`links
      ensures SameOutside(old(links), links, p, m) && links.parent == old(links).parent
      ensures Stored(links, links.list[p], p + 1, a, None, Some(p)) && Stored(links, links.next[p], m, c, None, q)
    {
      StoredLast(links, links.next[p], p + 1, a, mid, Some(p));
      links := links.WithList(p, links.next[p]);
      links := links.WithNext(p, links.next[last]);
      links := links.WithNext(last, None);
      LastBounds(p + 1, a);
      TakeOverLinks(old(links), links, p, a, last, mid, m, c, q);
    }

    /** The next sibling, if it follows the symbol `s` of `p`, is moved below `p`. */
    method CollectOne(p: nat, s: Sym, own: Option<Expr>, base: Expr, m: nat, ghost k0: Links,
                      ghost lo: nat, ghost hi: nat, ghost from: Link, ghost a: Shape, ghost c: Shape, ghost q: Link)
      returns (below: bool, ghost f: Shape, ghost m': nat, ghost c': Shape)
      requires Standing(m) && Settled(src, eff, end, lo, m) && NoneLeft(src.parent, q, hi)
      requires Collecting(src, p, s, own, base, q) && c.Node? && p < m < |src.entries| && src.parent[m] == q
      requires Sweep(src.prompted, src.parent, k0, links, eff, p, lo, hi, from, a, Some(m), m, c, q)
      modifies this
      ensures below == BelongsTo(src, p, m)
      ensures !below ==> links == old(links) && ds == old(ds) && eff == old(eff) && end == old(end) && log == old(log)
      ensures below ==> Standing(m') && Settled(src, eff, end, lo, m') && Count(c') < Count(c)
      ensures below ==> Cat(a, f).Node? && Last(lo, Cat(a, f)) == m && m < |links.next|
      ensures below ==>
                Sweep(src.prompted, src.parent, k0, links, eff, p, lo, hi, from, Cat(a, f), links.next[m], m', c', q)
      ensures Steady(m)
      decreases Count(c), 3
    {
      f, m', c' := Nil, m, c;
      ReadyOpen(src, links, ds, eff, end, open, m, m);
      below := BelongsBelow(s, own, base, Condition(src.entries[m], StoredDep(ds, m), StoredProps(ds, m)));
      if !below { return; }
      ReadyMove(src, links, ds, eff, end, open, p, m);
      SweepMove(src.prompted, src.parent, k0, links, eff, p, lo, hi, from, a, Some(m), m, c, q);
      SettledMove(src, eff, end, p, lo, m);
      eff := eff[m := Some(p)];
      f, m', c' := FinalizeOne(p, m, k0, lo, hi, from, a, c, q);
    }

    /** Goes on from the sibling `first` behind `p` until one does not follow its symbol `s`. */
    method CollectAll(p: nat, s: Sym, own: Option<Expr>, base: Expr, first: Link,
                      ghost lo: nat, ghost b: Shape, ghost hi: nat, ghost q: Link)
      returns (last: Link, ghost a: Shape, ghost mid: Link, ghost m': nat, ghost c: Shape)
      requires Standing(lo) && Collecting(src, p, s, own, base, q) && lo == p + 1 && hi == lo + Count(b)
      requires Stored(links, first, lo, b, None, q) && Orig(src.parent, lo, b, q) && NoneLeft(src.parent, q, hi)
      modifies this
      ensures last == if a.Node? then Some(Last(lo, a)) else None
      ensures Sweep(src.prompted, src.parent, old(links), links, eff, p, lo, hi, first, a, mid, m', c, q)
      ensures Standing(m') && Steady(lo) && Settled(src, eff, end, lo, m') && StopsAt(src, p, m')
      decreases Count(b), 4
    {
      var menu := first;
      ghost var k0 := links;
      last, a, m', c := None, Nil, lo, b;
      SweepStart(src.prompted, src.parent, links, eff, p, lo, hi, first, b, q);
      while menu.Some?
        invariant Sweep(src.prompted, src.parent, k0, links, eff, p, lo, hi, first, a, menu, m', c, q) && lo <= m'
        invariant Standing(m') && Steady(lo) && Settled(src, eff, end, lo, m') && Count(c) <= Count(b)
        invariant last == if a.Node? then Some(Last(lo, a)) else None
        decreases Count(c)
      {
        var m := menu.value;
        SweepHead(src.prompted, src.parent, k0, links, eff, p, lo, hi, first, a, menu, m', c, q);
        var below; ghost var f, m'', c';
        ghost var e, ends := eff, end;
        below, f, m'', c' := CollectOne(p, s, own, base, m, k0, lo, hi, first, a, c, q);
        SteadyTrans(old(eff), e, eff, old(end), ends, end, lo, m);
        if !below {
          mid := menu;
          return;
        }
        m', c, a, last := m'', c', Cat(a, f), Some(m);
        menu := links.next[m];
      }
      SweepHead(src.prompted, src.parent, k0, links, eff, p, lo, hi, first, a, menu, m', c, q);
      mid := None;
    }

    /**
     Entries that follow `p` and depend on its symbol `s` are moved below `p`.  They are
     finalised on the way, so each may take over entries behind it in turn.
     */
    method CollectFollowers(p: nat, s: Sym, ghost lo: nat, ghost b: Shape, ghost hi: nat, ghost q: Link)
      returns (last: Link, ghost a: Shape, ghost mid: Link, ghost m': nat, ghost c: Shape)
      requires Standing(lo) && p < |src.entries| && p in open && lo == p + 1 && hi == lo + Count(b)
      requires src.parent[p] == q && KidsWithin(src.parent, p, 0) && src.entries[p].sym == Some(s)
      requires Stored(links, links.next[p], lo, b, None, q) && Orig(src.parent, lo, b, q) && NoneLeft(src.parent, q, hi)
      modifies this
      ensures last == if a.Node? then Some(Last(lo, a)) else None
      ensures Sweep(src.prompted, src.parent, old(links), links, eff, p, lo, hi, old(links).next[p], a, mid, m', c, q)
      ensures Standing(m') && Steady(lo) && Settled(src, eff, end, lo, m') && StopsAt(src, p, m')
      decreases Count(b), 5
    {
      ReadyOpen(src, links, ds, eff, end, open, lo, p);
      var own := PromptVisible(src.entries[p], StoredProps(ds, p));
      var base := NotNoTest(own);
      last, a, mid, m', c := CollectAll(p, s, own, base, links.next[p], lo, b, hi, q);
    }

    /** The siblings `kids` collected behind `p` become its children. */
    method LinkFollowers(p: nat, last: Link, ghost k0: Links, ghost lo: nat, ghost b: Shape,
                         ghost from: Link, ghost kids: Shape, ghost mid: Link, ghost m: nat, ghost rest: Shape,
                         ghost q: Link)
      requires Parsed(k0, src.parent, p, Nil, lo, b, q) && k0.list[p] == None && from == k0.next[p]
      requires Sweep(src.prompted, src.parent, k0, links, eff, p, lo, lo + Count(b), from, kids, mid, m, rest, q)
      requires last == (if kids.Node? then Some(Last(lo, kids)) else None) && links.Sized(|src.entries|)
      modifies this`links
      ensures OpenNode(src.prompted, src.parent, k0, links, eff, p, lo, kids, m, rest, q)
      ensures Count(kids) + Count(rest) == Count(b) && links.Sized(|src.entries|)
    {
      ghost var k1 := links;
      if last.Some? { TakeOver(p, last.value, kids, mid, m, rest, q); }
      OpenAbsorbed(src.prompted, src.parent, k0, k1, links, eff, p, lo, b, from, kids, mid, m, rest, q);
    }

    /** The automatic submenu of the childless entry `p`. */
    method Absorb(p: nat, s: Sym, ghost lo: nat, ghost b: Shape, ghost q: Link)
      returns (ghost kids: Shape, ghost m': nat, ghost rest: Shape)
      requires Standing(lo) && p < |src.entries| && p in open && lo == p + 1
      requires src.parent[p] == q && KidsWithin(src.parent, p, 0) && src.entries[p].sym == Some(s)
      requires Parsed(links, src.parent, p, Nil, lo, b, q) && links.list[p] == None
      requires NoneLeft(src.parent, q, lo + Count(b))
      modifies this
      ensures OpenNode(src.prompted, src.parent, old(links), links, eff, p, lo, kids, m', rest, q)
      ensures Standing(m') && Steady(lo) && Settled(src, eff, end, lo, m') && StopsAt(src, p, m')
      ensures Count(kids) + Count(rest) == Count(b)
      decreases Count(b), 6
    {
      ghost var k0, from := links, links.next[p];
      var last; ghost var mid;
      last, kids, mid, m', rest := CollectFollowers(p, s, lo, b, lo + Count(b), q);
      LinkFollowers(p, last, k0, lo, b, from, kids, mid, m', rest, q);
    }

    /** The children of `p` inherit from it and are finalised; `c` follows `p`. */
    method OpenKids(p: nat, ghost lo: nat, ghost b: Shape, ghost m: nat, ghost c: Shape, ghost q: Link)
      returns (ghost kids: Shape)
      requires Ready(src, links, ds, eff, end, open, p) && Pending(src, eff, lo) && InOrder(log, lo)
      requires p < |src.entries| && lo == p + 1 && Parsed(links, src.parent, p, b, m, c, q) && links.list[p].Some?
      modifies this
      ensures OpenNode(src.prompted, src.parent, old(links), links, eff, p, lo, kids, m, c, q)
      ensures Count(kids) == Count(b)
      ensures Standing(m) && open == old(open) + {p} && SameBefore(old(eff), eff, lo) && SameEnds(old(end), end, lo)
      ensures Settled(src, eff, end, lo, m) && StopsAt(src, p, m) && DirOk(src, ds, p)
      decreases Count(b), 5
    {
      ghost var k0, from, was, ds0 := links, links.list[p], open, ds;
      HasKids(links, src.parent, p, lo, b, m, c, q);
      ReadyOpen(src, links, ds, eff, end, open, p, p);
      RecordsLater(src, ds, open, open + {p}, p, lo, p, lo);
      open := open + {p};
      PropagateToKids(p, lo, b);
      ReadyNext(src, links, ds0, ds, eff, end, was, open, p, lo);
      kids := FinalizeEach(p, lo, b, m);
      OpenFinalized(src.prompted, src.parent, k0, links, eff, p, lo, b, from, kids, m, c, q);
    }

    /** A childless entry takes over followers if it has a symbol. */
    method OpenChildless(p: nat, ghost lo: nat, ghost c: Shape, ghost q: Link)
      returns (ghost kids: Shape, ghost m': nat, ghost rest: Shape)
      requires Ready(src, links, ds, eff, end, open, p) && Pending(src, eff, lo) && InOrder(log, lo)
      requires p < |src.entries| && lo == p + 1 && src.parent[p] == q && NoneLeft(src.parent, q, lo + Count(c))
      requires Parsed(links, src.parent, p, Nil, lo, c, q) && links.list[p] == None
      modifies this
      ensures OpenNode(src.prompted, src.parent, old(links), links, eff, p, lo, kids, m', rest, q)
      ensures Count(kids) + Count(rest) == Count(c)
      ensures Standing(m') && open == old(open) + {p} && SameBefore(old(eff), eff, lo) && SameEnds(old(end), end, lo)
      ensures Settled(src, eff, end, lo, m') && StopsAt(src, p, m') && DirOk(src, ds, p)
      decreases Count(c), 7
    {
      kids, m', rest := Nil, lo, c;
      ParsedChildless(links, src.prompted, src.parent, p, Nil, lo, c, q);
      DepInvNext(src, ds, p, lo);
      RecordsNext(src, ds, open, p, lo, lo);
      ReadyNext(src, links, ds, ds, eff, end, open, open + {p}, p, lo);
      open := open + {p};
      if src.entries[p].sym.Some? {
        var s := src.entries[p].sym.value;
        kids, m', rest := Absorb(p, s, lo, c, q);
        ReadyOpen(src, links, ds, eff, end, open, m', p);
        ReadyDirect(src, links, ds, eff, end, open, m', p, s);
        ds := ds.(dirDep := AddOr(ds.dirDep, s, StoredDep(ds, p)));
      }
    }

    /** Children inherit and are finalised, or followers are taken over. */
    method Open(p: nat, ghost lo: nat, ghost b: Shape, ghost m: nat, ghost c: Shape, ghost q: Link)
      returns (ghost kids: Shape, ghost m': nat, ghost rest: Shape)
      requires Ready(src, links, ds, eff, end, open, p) && Pending(src, eff, lo) && InOrder(log, lo)
      requires p < |src.entries| && lo == p + 1 && src.parent[p] == q && NoneLeft(src.parent, q, m + Count(c))
      requires Parsed(links, src.parent, p, b, m, c, q)
      modifies this
      ensures OpenNode(src.prompted, src.parent, old(links), links, eff, p, lo, kids, m', rest, q)
      ensures Count(kids) + Count(rest) == Count(b) + Count(c)
      ensures Standing(m') && open == old(open) + {p} && SameBefore(old(eff), eff, lo) && SameEnds(old(end), end, lo)
      ensures Settled(src, eff, end, lo, m') && StopsAt(src, p, m') && DirOk(src, ds, p)
      decreases Count(b) + Count(c), 8
    {
      if links.list[p].Some? {
        kids := OpenKids(p, lo, b, m, c, q);
        m', rest := m, c;
      } else {
        kids, m', rest := OpenChildless(p, lo, c, q);
      }
    }

    /** The mode of a choice that cannot be n is recorded as a demand of its own. */
    method RecordMode(p: nat, ghost done: nat)
      requires Ready(src, links, ds, eff, end, open, done) && p < done && p < |src.entries| && p in open
      modifies this`ds
      ensures Ready(src, links, ds, eff, end, open, done) && ModeOk(src, ds, p)
      ensures ds == old(ds).(revDep := ds.revDep)
    {
      var e := src.entries[p];
      if e.sym.Some? && !e.optional && e.prompt.Some? {
        ReadyOpen(src, links, ds, eff, end, open, done, p);
        ReadyMode(src, links, ds, eff, end, open, done, p, e.sym.value);
        ds := ds.(revDep := AddOr(ds.revDep, e.sym.value, Some(ModeTerm(PromptVisible(e, StoredProps(ds, p))))));
      }
    }

    /** The children `kids` of `p` become members and are flattened, and `p` is finished. */
    method Close(p: nat, ghost k0: Links, ghost lo: nat, ghost b: Shape, ghost kids: Shape,
                 ghost m: nat, ghost rest: Shape, ghost q: Link, ghost was: set<nat>) returns (ghost f: Shape)
      requires OpenNode(src.prompted, src.parent, k0, links, eff, p, lo, kids, m, rest, q)
      requires Ready(src, links, ds, eff, end, open, m) && open == was + {p} && (forall i <- was :: i < p)
      requires p < |src.entries| && m <= |src.entries| && 1 + Count(kids) + Count(rest) == Count(b)
      requires Settled(src, eff, end, lo, m) && StopsAt(src, p, m) && DirOk(src, ds, p)
      modifies this`links, this`ds, this`end, this`open
      ensures NodeFinal(src.prompted, src.parent, k0, links, eff, p, b, f, m, rest, q)
      ensures Ready(src, links, ds, eff, end, open, m) && open == was && end == old(end)[p := m]
      ensures Settled(src, eff, end, p, m)
    {
      ghost var k1, ds1 := links, ds;
      ghost var out := Flatten(p, kids, m);
      ReadyMembers(src, k1, links, ds1, ds, eff, end, open, m);
      ghost var ds2 := ds;
      RecordMode(p, m);
      assert ds.members == ds2.members;
      f := Node(out, Nil);
      NodeFinalFrom(src.prompted, src.parent, k0, k1, links, eff, p, lo, b, kids, out, m, rest, q);
      ReadyClose(src, links, ds, eff, end, open, was, p, m);
      SettledClose(src, eff, end, p, lo, m);
      end, open := end[p := m], was;
    }

    /** Opens and closes the node `p`, whose children as parsed are `b`, followed by `c`. */
    method OpenAndClose(p: nat, ghost lo: nat, ghost b: Shape, ghost m: nat, ghost c: Shape, ghost q: Link)
      returns (ghost f: Shape, ghost m': nat, ghost rest: Shape)
      requires Ready(src, links, ds, eff, end, open, p) && Pending(src, eff, lo) && InOrder(log, lo)
      requires p < |src.entries| && lo == p + 1 && src.parent[p] == q && NoneLeft(src.parent, q, m + Count(c))
      requires Parsed(links, src.parent, p, b, m, c, q)
      modifies this
      ensures NodeFinal(src.prompted, src.parent, old(links), links, eff, p, Node(b, c), f, m', rest, q)
      ensures Standing(m') && Steady(p) && SameBefore(old(eff), eff, lo)
      ensures p < m' && Settled(src, eff, end, p, m') && end[p] == m'
      decreases Count(b) + Count(c), 9
    {
      ghost var k0, was := links, open;
      assert forall i <- was :: i < p;
      ghost var kids;
      kids, m', rest := Open(p, lo, b, m, c, q);
      SteadyClose(old(eff), eff, old(end), end, p, lo, m');
      assert m' <= |src.entries|;
      f := Close(p, k0, lo, Node(b, c), kids, m', rest, q, was);
    }

    /** Finalises the entry `p` with everything below it and the entries it takes over. */
    method Finalize(p: nat, ghost b: Shape, ghost q: Link) returns (ghost f: Shape, ghost m': nat, ghost rest: Shape)
      requires Ready(src, links, ds, eff, end, open, p) && Pending(src, eff, p + 1) && InOrder(log, p) && b.Node?
      requires Stored(links, Some(p), p, b, None, q) && Orig(src.parent, p, b, q)
      requires NoneLeft(src.parent, q, p + Count(b))
      modifies this
      ensures NodeFinal(src.prompted, src.parent, old(links), links, eff, p, b, f, m', rest, q)
      ensures Standing(m') && Steady(p) && SameBefore(old(eff), eff, p + 1)
      ensures p < m' && Settled(src, eff, end, p, m') && end[p] == m'
      decreases Count(b), 1
    {
      InOrderNext(log, p);
      log := log + [p];
      ParsedNode(links, src.parent, p, b, q);
      f, m', rest := OpenAndClose(p, p + 1, b.kids, p + 1 + Count(b.kids), b.next, q);
    }

    /** Finalises the whole tree `b`, whose main menu has no siblings. */
    method FinalizeAll(ghost b: Shape) returns (ghost f: Shape)
      requires src.Valid() && links.Sized(|src.entries|) && links.parent == src.parent && ds == Initial(src)
      requires log == [] && eff == src.parent && |end| == |src.entries| && open == {}
      requires b.Node? && b.next == Nil && Count(b) == |src.entries| && Stored(links, Some(0), 0, b, None, None)
      modifies this
      ensures InOrder(log, |src.entries|)
      ensures f.Node? && f.next == Nil && Stored(links, Some(0), 0, f, None, None) && Count(f) == |src.entries|
      ensures Flat(src.prompted, 1, f.kids)
      ensures Preorder(0, f) == Preorder(0, b)
      ensures AllInherited(src, ds) && AllRecorded(src, ds) && AllMembers(src, ds, eff, end)
      ensures MovesOk(src, eff) && Settled(src, eff, end, 0, |src.entries|)
      ensures links.Sized(|src.entries|)
      ensures forall i: nat | 0 < i < |src.entries| :: links.parent[i] == Some(Up(eff, src.prompted, 0, i))
      ensures forall x: nat | Follows(src, x) && src.prompted[x] :: links.parent[x + 1] == Some(x)
    {
      DepInvStart(src);
      RecordsStart(src);
      MembersStart(src, eff, end);
      StoredIsOrig(links, Some(0), 0, b, None, None);
      ghost var m, rest;
      f, m, rest := Finalize(0, b, None);
      RootFinalized(old(links), links, src.prompted, src.parent, b, f, m, rest);
      DepInvAll(src, ds);
      RecordsAll(src, ds);
      SamePreorder(0, b, f);
      forall i: nat | 0 < i < |src.entries| ensures links.parent[i] == Some(Up(eff, src.prompted, 0, i)) {
        StoredPar(links, links.list[0], 1, f.kids, None, 0, i);
      }
      forall x: nat | Follows(src, x) && src.prompted[x] ensures links.parent[x + 1] == Some(x) {
        FollowerMoves(src, eff, end, x);
      }
    }
  }
}
