/**
 Choices in the menu tree: the entries directly below a choice become its members, and the
 expressions of some of them are tied to the choice being yes.
 */
module MenuChoices {
  import opened Tristate
  import opened Expr
  import opened MenuShape
  import opened MenuLift
  import opened MenuDeps
  import opened MenuInherit

  predicate Registered(src: Source, members: seq<Member>, s: Sym) {
    exists j | 0 <= j < |members| :: members[j].node < |src.entries| && src.entries[members[j].node].sym == Some(s)
  }

  /** A member that is not a tristate in a choice that is. */
  predicate Mixed(choice: Entry, member: Entry)
    requires choice.sym.Some? && member.sym.Some?
  {
    choice.sym.value.Type() == Tristate && member.sym.value.Type() != Tristate
  }

  /** What making node `m` a member of the choice at `p` does, if the node's symbol is not a member yet. */
  function Register(src: Source, ds: DepState, p: nat, m: nat): DepState
    requires p < |src.entries| && m < |src.entries| == |ds.tie|
  {
    var e, f := src.entries[p], src.entries[m];
    if !e.Choice() || f.sym.None? || Registered(src, ds.members, f.sym.value) then ds
    else ds.(members := ds.members + [Member(p, m)],
             tie := if Mixed(e, f) then ds.tie[m := Some(e.sym.value)] else ds.tie)
  }

  // ----- what registration keeps -----

  ghost predicate MemberOk(src: Source, eff: seq<Link>, done: nat, b: Member) {
    && b.choice < b.node < done && b.node < |src.entries|
    && src.entries[b.choice].Choice() && src.entries[b.node].sym.Some?
    && Directly(eff, src.prompted, b.choice, b.node)
  }

  /** Node `i` is tied exactly if it is a member that is not a tristate in a choice that is, and then to that choice. */
  ghost predicate TieOk(src: Source, ds: DepState, i: nat) {
    && i < |ds.tie| == |src.entries|
    && (forall j: nat | j < |ds.members| && ds.members[j].node == i :: TiedBy(src, ds, ds.members[j]))
    && ((forall j: nat | j < |ds.members| :: ds.members[j].node != i) ==> ds.tie[i].None?)
  }

  ghost predicate TiedBy(src: Source, ds: DepState, b: Member) {
    && b.node < |ds.tie| == |src.entries| && b.choice < |src.entries|
    && src.entries[b.choice].sym.Some? && src.entries[b.node].sym.Some?
    && ds.tie[b.node] ==
         if Mixed(src.entries[b.choice], src.entries[b.node]) then src.entries[b.choice].sym else None
  }

  /** Everything directly below the choice at `q` and before `hi` is a member of some choice. */
  ghost predicate ChoiceOk(src: Source, ds: DepState, eff: seq<Link>, q: nat, hi: nat) {
    forall i: nat | q < i < hi && i < |src.entries| && Directly(eff, src.prompted, q, i) && src.entries[i].sym.Some? ::
      Registered(src, ds.members, src.entries[i].sym.value)
  }

  ghost predicate MembersInv(src: Source, ds: DepState, eff: seq<Link>, end: seq<nat>, open: set<nat>, done: nat) {
    && |end| == |eff| == |ds.tie| == |src.entries|
    && (forall i <- open :: i < done)
    && (forall j: nat | j < |ds.members| :: MemberOk(src, eff, done, ds.members[j]) && ds.members[j].node !in open)
    && (forall j: nat, k: nat | j < k < |ds.members| ::
          src.entries[ds.members[j].node].sym != src.entries[ds.members[k].node].sym)
    && (forall i: nat {:trigger TieOk(src, ds, i)} | i < |src.entries| :: TieOk(src, ds, i))
    && (forall q: nat {:trigger end[q]} | q < done && q < |src.entries| && q !in open ::
          end[q] <= done && (src.entries[q].Choice() ==> ChoiceOk(src, ds, eff, q, end[q])))
  }

  lemma MembersStart(src: Source, eff: seq<Link>, end: seq<nat>)
    requires |end| == |eff| == |src.entries|
    ensures MembersInv(src, Initial(src), eff, end, {}, 0)
  {
  }

  /** Nodes that are open or not looked at yet are not tied. */
  lemma Untied(src: Source, ds: DepState, eff: seq<Link>, end: seq<nat>, open: set<nat>, done: nat, i: nat)
    requires MembersInv(src, ds, eff, end, open, done) && i < |src.entries| && (done <= i || i in open)
    ensures ds.tie[i].None?
  {
    assert TieOk(src, ds, i);
    forall j: nat | j < |ds.members| ensures ds.members[j].node != i {
      assert MemberOk(src, eff, done, ds.members[j]);
    }
  }

  /** Nodes from `done` on may be moved, and further nodes are open. */
  lemma MembersLater(src: Source, ds: DepState, ds': DepState, eff: seq<Link>, eff': seq<Link>, end: seq<nat>,
                     open: set<nat>, open': set<nat>, done: nat, done': nat)
    requires MembersInv(src, ds, eff, end, open, done) && SameBefore(eff, eff', done)
    requires ds'.members == ds.members && ds'.tie == ds.tie && open <= open'
    requires done <= done' && forall i: nat | done <= i < done' :: i in open'
    requires forall i <- open' :: i in open || done <= i < done'
    ensures MembersInv(src, ds', eff', end, open', done')
  {
    forall j: nat | j < |ds.members| ensures MemberOk(src, eff', done', ds.members[j]) {
      var b := ds.members[j];
      assert MemberOk(src, eff, done, b);
      DirectlySame(eff, eff', src.prompted, b.choice, done, b.node);
    }
    forall i: nat | i < |src.entries| ensures TieOk(src, ds', i) { assert TieOk(src, ds, i); }
    forall q: nat | q < done' && q < |src.entries| && q !in open' && src.entries[q].Choice()
      ensures ChoiceOk(src, ds', eff', q, end[q])
    {
      assert end[q] <= done && ChoiceOk(src, ds, eff, q, end[q]);
      forall i: nat | q < i < end[q] ensures Directly(eff', src.prompted, q, i) == Directly(eff, src.prompted, q, i) {
        DirectlySame(eff, eff', src.prompted, q, done, i);
      }
    }
  }

  lemma RegisteredMore(src: Source, members: seq<Member>, b: Member, s: Sym)
    requires Registered(src, members, s)
    ensures Registered(src, members + [b], s)
  {
    var j: nat :| j < |members| && members[j].node < |src.entries| && src.entries[members[j].node].sym == Some(s);
    assert (members + [b])[j] == members[j];
  }

  lemma RegisteredNew(src: Source, members: seq<Member>, b: Member, s: Sym)
    requires b.node < |src.entries| && src.entries[b.node].sym == Some(s)
    ensures Registered(src, members + [b], s)
  {
    assert (members + [b])[|members|] == b;
  }

  /** Symbols that were members of a choice still are. */
  ghost predicate MoreMembers(src: Source, ds: DepState, ds': DepState) {
    forall s: Sym | Registered(src, ds.members, s) :: Registered(src, ds'.members, s)
  }

  /** Node `m`, which is directly below `p`, is looked at. */
  lemma MembersRegister(src: Source, ds: DepState, eff: seq<Link>, end: seq<nat>, open: set<nat>, done: nat, p: nat,
                        m: nat)
    requires MembersInv(src, ds, eff, end, open, done) && p < m < done && m < |src.entries|
    requires Directly(eff, src.prompted, p, m) && m !in open
    ensures var ds' := Register(src, ds, p, m);
            && MembersInv(src, ds', eff, end, open, done) && MoreMembers(src, ds, ds')
            && (src.entries[p].Choice() && src.entries[m].sym.Some? ==>
                Registered(src, ds'.members, src.entries[m].sym.value))
  {
    var e, f := src.entries[p], src.entries[m];
    if e.Choice() && f.sym.Some? && !Registered(src, ds.members, f.sym.value) {
      var b, ds' := Member(p, m), Register(src, ds, p, m);
      RegisteredNew(src, ds.members, b, f.sym.value);
      forall s: Sym | Registered(src, ds.members, s) ensures Registered(src, ds'.members, s) {
        RegisteredMore(src, ds.members, b, s);
      }
      NewMember(src, ds, eff, end, open, done, p, m);
      forall q: nat | q < done && q < |src.entries| && q !in open && src.entries[q].Choice()
        ensures ChoiceOk(src, ds', eff, q, end[q])
      {
        assert ChoiceOk(src, ds, eff, q, end[q]);
      }
    }
  }

  lemma NewMember(src: Source, ds: DepState, eff: seq<Link>, end: seq<nat>, open: set<nat>, done: nat, p: nat, m: nat)
    requires MembersInv(src, ds, eff, end, open, done) && p < m < done && m < |src.entries|
    requires Directly(eff, src.prompted, p, m) && src.entries[p].Choice() && src.entries[m].sym.Some?
    requires !Registered(src, ds.members, src.entries[m].sym.value)
    ensures var ds' := Register(src, ds, p, m);
            && (forall j: nat | j < |ds'.members| :: MemberOk(src, eff, done, ds'.members[j]))
            && (forall j: nat, k: nat | j < k < |ds'.members| ::
                  src.entries[ds'.members[j].node].sym != src.entries[ds'.members[k].node].sym)
            && (forall i: nat {:trigger TieOk(src, ds', i)} | i < |src.entries| :: TieOk(src, ds', i))
  {
    var ds' := Register(src, ds, p, m);
    forall j: nat | j < |ds'.members| ensures MemberOk(src, eff, done, ds'.members[j]) {
      if j < |ds.members| { assert MemberOk(src, eff, done, ds.members[j]); }
    }
    forall j: nat | j < |ds.members| ensures src.entries[ds.members[j].node].sym != src.entries[m].sym {
      assert MemberOk(src, eff, done, ds.members[j]);
    }
    forall i: nat | i < |src.entries| ensures TieOk(src, ds', i) {
      assert TieOk(src, ds, i);
      assert ds'.members[|ds.members|] == Member(p, m);
      forall j: nat | j < |ds'.members| && ds'.members[j].node == i ensures TiedBy(src, ds', ds'.members[j]) {
        if j < |ds.members| { assert TiedBy(src, ds, ds.members[j]); }
      }
      if forall j: nat | j < |ds'.members| :: ds'.members[j].node != i {
        forall j: nat | j < |ds.members| ensures ds.members[j].node != i { assert ds'.members[j] == ds.members[j]; }
      }
    }
  }

  /** Node `p`, below which everything up to `m` has been looked at, is finished. */
  lemma MembersClose(src: Source, ds: DepState, eff: seq<Link>, end: seq<nat>, open: set<nat>, open': set<nat>,
                     p: nat, m: nat)
    requires MembersInv(src, ds, eff, end, open, m) && p < m && p < |src.entries| && open' <= open <= open' + {p}
    requires p in open
    requires src.entries[p].Choice() ==> ChoiceOk(src, ds, eff, p, m)
    ensures MembersInv(src, ds, eff, end[p := m], open', m)
  {
    var end' := end[p := m];
    forall q: nat | q < m && q < |src.entries| && q !in open'
      ensures end'[q] <= m && (src.entries[q].Choice() ==> ChoiceOk(src, ds, eff, q, end'[q]))
    {
      if q != p { assert end[q] <= m; }
    }
  }

  // ----- in the end -----

  /** All entries directly below choices are members of choices, each symbol once, and tied as their types ask. */
  ghost predicate AllMembers(src: Source, ds: DepState, eff: seq<Link>, end: seq<nat>) {
    MembersInv(src, ds, eff, end, {}, |src.entries|)
  }

  lemma TieSource(src: Source, ds: DepState, eff: seq<Link>, end: seq<nat>, i: nat)
    requires AllMembers(src, ds, eff, end) && i < |src.entries| && ds.tie[i].Some?
    ensures exists q: nat :: && q < i && Directly(eff, src.prompted, q, i) && src.entries[q].Choice()
                             && src.entries[q].sym == ds.tie[i] && src.entries[i].sym.Some?
                             && ds.tie[i].value.Type() == Tristate && src.entries[i].sym.value.Type() != Tristate
  {
    assert TieOk(src, ds, i);
    var j: nat :| j < |ds.members| && ds.members[j].node == i;
    assert MemberOk(src, eff, |src.entries|, ds.members[j]) && TiedBy(src, ds, ds.members[j]);
  }

  /**
   A symbol defined only at `i`, which is directly below the choice at `q` and no other choice,
   is tied to that choice exactly if the choice is a tristate and the symbol is not.
   */
  lemma TiedExactly(src: Source, ds: DepState, eff: seq<Link>, end: seq<nat>, q: nat, i: nat)
    requires AllMembers(src, ds, eff, end) && Nested(eff, end, 0, |src.entries|)
    requires q < i < |src.entries| && src.entries[q].Choice() && src.entries[i].sym.Some?
    requires Directly(eff, src.prompted, q, i)
    requires forall r: nat | r < |src.entries| && src.entries[r].Choice() && Directly(eff, src.prompted, r, i) :: r == q
    requires forall k: nat | k < |src.entries| && src.entries[k].sym == src.entries[i].sym :: k == i
    ensures var choice, s := src.entries[q].sym, src.entries[i].sym.value;
            ds.tie[i] == if choice.value.Type() == Tristate && s.Type() != Tristate then choice else None
  {
    DirectlyInside(eff, src.prompted, end, q, i);
    assert end[q] <= |src.entries| && ChoiceOk(src, ds, eff, q, end[q]);
    var s := src.entries[i].sym.value;
    var j: nat :| && j < |ds.members| && ds.members[j].node < |src.entries|
                  && src.entries[ds.members[j].node].sym == Some(s);
    assert MemberOk(src, eff, |src.entries|, ds.members[j]);
    assert TieOk(src, ds, i) && TiedBy(src, ds, ds.members[j]);
  }

  lemma {:induction false} DirectlyInside(eff: seq<Link>, prompted: seq<bool>, end: seq<nat>, q: nat, i: nat)
    requires Nested(eff, end, 0, |eff|) && q < i < |eff| && Directly(eff, prompted, q, i)
    ensures q < |end| && i < end[q]
    decreases i
  {
    assert NestedAt(eff, end, q, |eff|);
    if eff[i].value > q { DirectlyInside(eff, prompted, end, q, eff[i].value); }
  }

  // ----- what is stored in the end -----

  /** What the test in front of the expressions of a tied node allows. */
  function TieValue(tie: Option<Sym>, env: Env): Tri {
    if tie.None? then YES else FromBool(env.tri(tie.value) == YES)
  }

  lemma TiedValue(tie: Option<Sym>, e: Option<Expr>, env: Env)
    requires WellFormed(env) && (tie.Some? ==> tie.value.Type() == Tristate)
    ensures ValueOpt(Tied(tie, e), env) == TriAnd(TieValue(tie, env), ValueOpt(e, env))
  {
    if tie.Some? { TestYmn(env, tie.value, SymY); }
  }

  /** The dependency stored for a node is that minimum, below the test for the choice it is tied to. */
  lemma StoredDependency(src: Source, ds: DepState, eff: seq<Link>, end: seq<nat>, i: nat, env: Env)
    requires AllInherited(src, ds) && AllMembers(src, ds, eff, end) && i < |src.entries|
    requires WellFormed(env) && AdmissibleAbove(src, i, env)
    ensures ValueOpt(StoredDep(ds, i), env) == TriAnd(TieValue(ds.tie[i], env), EnclosingMin(src, i, env))
  {
    assert NodeOk(src, ds, i);
    FinalDepValue(src, i, env);
    if ds.tie[i].Some? { TieSource(src, ds, eff, end, i); }
    TiedValue(ds.tie[i], ds.dep[i], env);
  }

  /**
   The condition stored for a property is the one written, within what encloses the node and
   below that test; for symbols other than tristates it is mod exactly where `Lowered` says.
   */
  lemma StoredCondition(src: Source, ds: DepState, eff: seq<Link>, end: seq<nat>, i: nat, k: nat, env: Env)
    requires AllInherited(src, ds) && AllMembers(src, ds, eff, end)
    requires 0 < i < |src.entries| && k < |src.props[i]| == |ds.props[i]| && WellFormed(env)
    requires AdmissibleAbove(src, i, env) && AdmissibleOpt(src.props[i][k].visible, env)
    ensures ValueOpt(StoredProp(ds, i, k).visible, env) ==
            TriAnd(TieValue(ds.tie[i], env), Effective(src, i, src.props[i][k], env))
  {
    assert NodeOk(src, ds, i);
    FinalPropValue(src, i, src.props[i][k], env);
    if ds.tie[i].Some? { TieSource(src, ds, eff, end, i); }
    TiedValue(ds.tie[i], ds.props[i][k].visible, env);
  }

  /** So a prompt is hidden exactly where what encloses it or its own condition is no, or the choice is not yes. */
  lemma PromptWithinDependency(src: Source, ds: DepState, eff: seq<Link>, end: seq<nat>, i: nat, k: nat, env: Env)
    requires AllInherited(src, ds) && AllMembers(src, ds, eff, end)
    requires 0 < i < |src.entries| && k < |src.props[i]| == |ds.props[i]| && WellFormed(env)
    requires AdmissibleAbove(src, i, env) && AdmissibleOpt(src.props[i][k].visible, env)
    ensures ValueOpt(StoredProp(ds, i, k).visible, env) == NO <==>
            || EnclosingMin(src, i, env) == NO || ValueMOpt(src.props[i][k].visible, env, src.modules) == NO
            || (ds.tie[i].Some? && env.tri(ds.tie[i].value) != YES)
  {
    StoredCondition(src, ds, eff, end, i, k, env);
  }
}
