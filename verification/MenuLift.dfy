/**
 Where finalisation moves the nodes of a menu tree: the parent of a node in the final tree,
 in terms of the node it was put below, and the lifting of children out of nodes without a
 prompt.
 */
module MenuLift {
  import opened Tristate
  import opened MenuShape

  // ----- parents by shape -----

  /** The parent of node `i` of the chain `b`, whose siblings have the parent `q`. */
  function Par(lo: nat, b: Shape, q: nat, i: nat): nat
    requires lo <= i < lo + Count(b)
    decreases b
  {
    var mid := lo + 1 + Count(b.kids);
    if i == lo then q else if i < mid then Par(lo + 1, b.kids, lo, i) else Par(mid, b.next, q, i)
  }

  lemma {:induction false} StoredPar(k: Links, from: Link, lo: nat, b: Shape, to: Link, q: nat, i: nat)
    requires Stored(k, from, lo, b, to, Some(q)) && lo <= i < lo + Count(b)
    ensures i < |k.parent| && k.parent[i] == Some(Par(lo, b, q, i))
    decreases b
  {
    var mid := lo + 1 + Count(b.kids);
    if lo < i < mid {
      StoredPar(k, k.list[lo], lo + 1, b.kids, None, lo, i);
    } else if mid <= i {
      StoredPar(k, k.next[lo], mid, b.next, to, q, i);
    }
  }

  lemma {:induction false} ParCat(lo: nat, a: Shape, m: nat, b: Shape, q: nat, i: nat)
    requires m == lo + Count(a) && lo <= i < m + Count(b)
    ensures Count(Cat(a, b)) == Count(a) + Count(b)
    ensures Par(lo, Cat(a, b), q, i) == if i < m then Par(lo, a, q, i) else Par(m, b, q, i)
    decreases a
  {
    CountCat(a, b);
    if a.Node? {
      var mid := lo + 1 + Count(a.kids);
      CountCat(a.next, b);
      if mid <= i { ParCat(mid, a.next, m, b, q, i); }
    }
  }

  /** Only the siblings themselves have the parent `q`. */
  lemma {:induction false} ParOwner(lo: nat, b: Shape, q: nat, q': nat, i: nat)
    requires lo <= i < lo + Count(b) && q < lo
    ensures Par(lo, b, q', i) == if Par(lo, b, q, i) == q then q' else Par(lo, b, q, i)
    decreases b
  {
    var mid := lo + 1 + Count(b.kids);
    if lo < i < mid {
      ParInside(lo + 1, b.kids, lo, i);
    } else if mid <= i {
      ParOwner(mid, b.next, q, q', i);
    }
  }

  lemma {:induction false} ParInside(lo: nat, b: Shape, q: nat, i: nat)
    requires lo <= i < lo + Count(b) && q < lo
    ensures q <= Par(lo, b, q, i) < i
    decreases b
  {
    var mid := lo + 1 + Count(b.kids);
    if lo < i < mid {
      ParInside(lo + 1, b.kids, lo, i);
    } else if mid <= i {
      ParInside(mid, b.next, q, i);
    }
  }

  predicate Has(prompted: seq<bool>, i: nat) {
    i < |prompted| && prompted[i]
  }

  /** In a flat chain only nodes with a prompt are parents. */
  lemma {:induction false} FlatPar(prompted: seq<bool>, lo: nat, b: Shape, q: nat, i: nat)
    requires Flat(prompted, lo, b) && lo <= i < lo + Count(b)
    ensures Par(lo, b, q, i) == q || Has(prompted, Par(lo, b, q, i))
    decreases b
  {
    var mid := lo + 1 + Count(b.kids);
    if lo < i < mid {
      FlatPar(prompted, lo + 1, b.kids, lo, i);
    } else if mid <= i {
      FlatPar(prompted, mid, b.next, q, i);
    }
  }

  // ----- flattening -----

  /** The chain after the children of siblings without a prompt have moved up behind them. */
  function Flattened(prompted: seq<bool>, lo: nat, b: Shape): Shape
    decreases Count(b)
  {
    if b.Nil? then Nil
    else if b.kids.Node? && !Has(prompted, lo) then
      CountCat(b.kids, b.next);
      Node(Nil, Flattened(prompted, lo + 1, Cat(b.kids, b.next)))
    else Node(b.kids, Flattened(prompted, lo + 1 + Count(b.kids), b.next))
  }

  lemma FlattenedHead(prompted: seq<bool>, lo: nat, c: Shape, d: Shape, at: nat)
    requires c.Node? && d == (if c.kids.Node? && !Has(prompted, lo) then Spliced(c) else c)
    requires at == lo + 1 + Count(d.kids)
    ensures Flattened(prompted, lo, c) == Node(d.kids, Flattened(prompted, at, d.next))
  {
  }

  /** A child of a sibling without a prompt becomes a child of `p`; other parents stay. */
  function Raise(prompted: seq<bool>, p: nat, u: nat): nat {
    if u != p && !Has(prompted, u) then p else u
  }

  lemma {:induction false} FlattenedCount(prompted: seq<bool>, lo: nat, b: Shape)
    ensures Count(Flattened(prompted, lo, b)) == Count(b)
    decreases Count(b)
  {
    if b.Node? {
      CountCat(b.kids, b.next);
      if b.kids.Node? && !Has(prompted, lo) {
        FlattenedCount(prompted, lo + 1, Cat(b.kids, b.next));
      } else {
        FlattenedCount(prompted, lo + 1 + Count(b.kids), b.next);
      }
    }
  }

  lemma {:induction false} FlattenedPar(prompted: seq<bool>, lo: nat, b: Shape, p: nat, i: nat)
    requires FlatBelow(prompted, lo, b) && p < lo <= i < lo + Count(b)
    ensures Count(Flattened(prompted, lo, b)) == Count(b)
    ensures Par(lo, Flattened(prompted, lo, b), p, i) == Raise(prompted, p, Par(lo, b, p, i))
    decreases Count(b)
  {
    FlattenedCount(prompted, lo, b);
    var mid := lo + 1 + Count(b.kids);
    if lo < i {
      if b.kids.Node? && !Has(prompted, lo) {
        SplicedPar(prompted, lo, b, p, i);
        FlattenedPar(prompted, lo + 1, Cat(b.kids, b.next), p, i);
      } else if i < mid {
        FlatPar(prompted, lo + 1, b.kids, lo, i);
      } else {
        FlattenedPar(prompted, mid, b.next, p, i);
      }
    }
  }

  lemma SplicedPar(prompted: seq<bool>, lo: nat, b: Shape, p: nat, i: nat)
    requires b.Node? && FlatBelow(prompted, lo, b) && !Has(prompted, lo) && p < lo < i < lo + Count(b)
    ensures Count(Cat(b.kids, b.next)) == Count(b.kids) + Count(b.next)
    ensures FlatBelow(prompted, lo + 1, Cat(b.kids, b.next))
    ensures Raise(prompted, p, Par(lo + 1, Cat(b.kids, b.next), p, i)) == Raise(prompted, p, Par(lo, b, p, i))
  {
    SplicedFacts(prompted, lo, b);
    var mid := lo + 1 + Count(b.kids);
    ParCat(lo + 1, b.kids, mid, b.next, p, i);
    if i < mid { ParOwner(lo + 1, b.kids, lo, p, i); }
  }

  // ----- effective parents -----

  /** Nodes from `lo` up to `hi` were put below nodes from `p` on that come before them. */
  ghost predicate Within(eff: seq<Link>, p: nat, lo: nat, hi: nat) {
    hi <= |eff| && forall i: nat | lo <= i < hi :: eff[i].Some? && p <= eff[i].value < i
  }

  predicate Below(eff: seq<Link>, p: nat, i: nat) {
    i < |eff| && eff[i].Some? && p < eff[i].value < i
  }

  /** The nearest node with a prompt above `i`, or else `p`. */
  function Up(eff: seq<Link>, prompted: seq<bool>, p: nat, i: nat): nat
    decreases i
  {
    if !Below(eff, p, i) then p
    else if Has(prompted, eff[i].value) then eff[i].value
    else Up(eff, prompted, p, eff[i].value)
  }

  /** The same, but stopping at the children of `p`. */
  function Mid(eff: seq<Link>, prompted: seq<bool>, p: nat, i: nat): nat
    decreases i
  {
    if !Below(eff, p, i) then p
    else
      var q := eff[i].value;
      if Has(prompted, q) || eff[q] == Some(p) then q else Mid(eff, prompted, p, q)
  }

  lemma {:induction false} MidUp(eff: seq<Link>, prompted: seq<bool>, p: nat, i: nat)
    ensures Up(eff, prompted, p, i) == Raise(prompted, p, Mid(eff, prompted, p, i))
    decreases i
  {
    if Below(eff, p, i) { MidUp(eff, prompted, p, eff[i].value); }
  }

  lemma {:induction false} UpMid(eff: seq<Link>, prompted: seq<bool>, p: nat, m: nat, i: nat)
    requires p < m < i < |eff| && eff[m] == Some(p) && Within(eff, m, m + 1, i + 1)
    ensures Mid(eff, prompted, p, i) == Up(eff, prompted, m, i)
    decreases i
  {
    var q := eff[i].value;
    if q > m && !Has(prompted, q) { UpMid(eff, prompted, p, m, q); }
  }

  /** Nodes before `n` are where they were. */
  ghost predicate SameBefore(eff: seq<Link>, eff': seq<Link>, n: nat) {
    |eff| == |eff'| && forall i: nat | i < n && i < |eff| :: eff'[i] == eff[i]
  }

  lemma {:induction false} MidSame(eff: seq<Link>, eff': seq<Link>, prompted: seq<bool>, p: nat, n: nat, i: nat)
    requires SameBefore(eff, eff', n) && i < n
    ensures Mid(eff', prompted, p, i) == Mid(eff, prompted, p, i)
    decreases i
  {
    if Below(eff, p, i) { MidSame(eff, eff', prompted, p, n, eff[i].value); }
  }

  /** `i` hangs from `q` with nothing but nodes without a prompt in between. */
  predicate Directly(eff: seq<Link>, prompted: seq<bool>, q: nat, i: nat)
    decreases i
  {
    && i < |eff| && eff[i].Some? && eff[i].value < i
    && (eff[i].value == q ||
        (q < eff[i].value && !Has(prompted, eff[i].value) && Directly(eff, prompted, q, eff[i].value)))
  }

  lemma {:induction false} UpDirectly(eff: seq<Link>, prompted: seq<bool>, p: nat, i: nat)
    requires p < i && Within(eff, p, p + 1, i + 1)
    ensures Up(eff, prompted, p, i) == p <==> Directly(eff, prompted, p, i)
    decreases i
  {
    if eff[i].value > p { UpDirectly(eff, prompted, p, eff[i].value); }
  }

  lemma {:induction false} DirectlySame(eff: seq<Link>, eff': seq<Link>, prompted: seq<bool>, q: nat, n: nat, i: nat)
    requires SameBefore(eff, eff', n) && i < n
    ensures Directly(eff', prompted, q, i) == Directly(eff, prompted, q, i)
    decreases i
  {
    if i < |eff| && eff[i].Some? && eff[i].value < i { DirectlySame(eff, eff', prompted, q, n, eff[i].value); }
  }

  // ----- intervals -----

  /** Below `x` are exactly the nodes behind it and before `end[x]`, as far as nodes before `hi` are concerned. */
  ghost predicate NestedAt(eff: seq<Link>, end: seq<nat>, x: nat, hi: nat) {
    && x < |end| && x < end[x] <= hi <= |eff| && Within(eff, x, x + 1, end[x])
    && forall i: nat | end[x] <= i < hi :: eff[i].Some? && (eff[i].value < x || end[x] <= eff[i].value)
  }

  ghost predicate Nested(eff: seq<Link>, end: seq<nat>, lo: nat, hi: nat) {
    forall x: nat {:trigger NestedAt(eff, end, x, hi)} | lo <= x < hi :: NestedAt(eff, end, x, hi)
  }

  ghost predicate SameEnds(end: seq<nat>, end': seq<nat>, n: nat) {
    |end| == |end'| && forall i: nat | i < n && i < |end| :: end'[i] == end[i]
  }

  /** Behind the nodes from `lo` up to `m` come those up to `m'`, all below `m`, which is below `p`. */
  lemma NestedJoin(eff: seq<Link>, end: seq<nat>, eff': seq<Link>, end': seq<nat>, p: nat, lo: nat, m: nat, m': nat)
    requires Nested(eff, end, lo, m) && SameBefore(eff, eff', m + 1) && SameEnds(end, end', m)
    requires Nested(eff', end', m, m') && m < m' && m < |end'| && end'[m] == m'
    requires p < lo <= m < |eff| && eff[m] == Some(p)
    ensures Nested(eff', end', lo, m')
  {
    assert NestedAt(eff', end', m, m');
    forall x: nat | lo <= x < m' ensures NestedAt(eff', end', x, m') {
      if x < m {
        assert NestedAt(eff, end, x, m);
        NestedAtJoin(eff, end, eff', end', p, x, m, m');
      }
    }
  }

  lemma NestedAtJoin(eff: seq<Link>, end: seq<nat>, eff': seq<Link>, end': seq<nat>, p: nat, x: nat, m: nat, m': nat)
    requires NestedAt(eff, end, x, m) && SameBefore(eff, eff', m + 1) && SameEnds(end, end', m)
    requires NestedAt(eff', end', m, m') && end'[m] == m' && p < x < m < |eff| && eff[m] == Some(p)
    ensures NestedAt(eff', end', x, m')
  {
    assert eff'[m] == Some(p) && end'[x] == end[x];
    forall i: nat | end[x] <= i < m' ensures eff'[i].Some? && (eff'[i].value < x || end[x] <= eff'[i].value) {
      if i < m { assert eff'[i] == eff[i]; }
    }
  }

  /** The node `p`, with everything behind it up to `m` below it, is finished. */
  lemma NestedClose(eff: seq<Link>, end: seq<nat>, p: nat, lo: nat, m: nat)
    requires Nested(eff, end, lo, m) && Within(eff, p, lo, m) && lo == p + 1 && lo <= m && p < |end|
    ensures Nested(eff, end[p := m], p, m)
  {
    var end' := end[p := m];
    forall x: nat | p <= x < m ensures NestedAt(eff, end', x, m) {
      if x > p { assert NestedAt(eff, end, x, m); }
    }
  }

  // ----- what finalisation keeps -----

  /** Below `p`, the chain `b` holds every node where it belongs, lifted out of nodes without a prompt. */
  ghost predicate Lifted(eff: seq<Link>, prompted: seq<bool>, p: nat, b: Shape) {
    && Within(eff, p, p + 1, p + 1 + Count(b))
    && forall i: nat | p + 1 <= i < p + 1 + Count(b) :: Par(p + 1, b, p, i) == Up(eff, prompted, p, i)
  }

  /** The finalised siblings `a` from `lo` on, before they are flattened into `p`. */
  ghost predicate Gathered(eff: seq<Link>, prompted: seq<bool>, p: nat, lo: nat, a: Shape) {
    && Within(eff, p, lo, lo + Count(a))
    && forall i: nat | lo <= i < lo + Count(a) :: Par(lo, a, p, i) == Mid(eff, prompted, p, i)
  }

  /** One more sibling, `f` at `m`, which belongs to `p`. */
  lemma GatheredNext(eff: seq<Link>, eff': seq<Link>, prompted: seq<bool>, p: nat, lo: nat, a: Shape, m: nat, f: Shape)
    requires Gathered(eff, prompted, p, lo, a) && SameBefore(eff, eff', m + 1) && m == lo + Count(a) && p < lo
    requires f.Node? && f.next.Nil? && m < |eff| && eff[m] == Some(p) && Lifted(eff', prompted, m, f.kids)
    ensures Gathered(eff', prompted, p, lo, Cat(a, f))
  {
    assert eff'[m] == Some(p);
    CountCat(a, f);
    assert Count(f) == 1 + Count(f.kids);
    forall i: nat | lo <= i < m + Count(f)
      ensures Par(lo, Cat(a, f), p, i) == Mid(eff', prompted, p, i) && eff'[i].Some? && p <= eff'[i].value < i
    {
      ParCat(lo, a, m, f, p, i);
      if i < m {
        MidSame(eff, eff', prompted, p, m + 1, i);
      } else if i > m {
        UpMid(eff', prompted, p, m, i);
      }
    }
  }

  lemma GatheredFlat(eff: seq<Link>, prompted: seq<bool>, p: nat, kids: Shape)
    requires Gathered(eff, prompted, p, p + 1, kids) && FlatBelow(prompted, p + 1, kids)
    ensures Lifted(eff, prompted, p, Flattened(prompted, p + 1, kids))
  {
    FlattenedCount(prompted, p + 1, kids);
    forall i: nat | p + 1 <= i < p + 1 + Count(kids)
      ensures Par(p + 1, Flattened(prompted, p + 1, kids), p, i) == Up(eff, prompted, p, i)
    {
      FlattenedPar(prompted, p + 1, kids, p, i);
      MidUp(eff, prompted, p, i);
    }
  }

  // ----- flattening, sibling by sibling -----

  /** Of the children `kids` of `p`, `a` have been looked at and `c`, from `at` on, have not. */
  ghost predicate FlatWalk(k0: Links, k: Links, prompted: seq<bool>, p: nat, lo: nat, hi: nat, kids: Shape,
                           from: Link, a: Shape, menu: Link, at: nat, c: Shape) {
    && Walking(k, from, lo, a, menu, at, c, Some(p), Some(p)) && at + Count(c) == hi
    && Flat(prompted, lo, a) && FlatBelow(prompted, at, c) && SameOutside(k0, k, lo, hi)
    && Cat(a, Flattened(prompted, at, c)) == Flattened(prompted, lo, kids)
  }

  lemma FlatWalkNext(k0: Links, k: Links, k': Links, prompted: seq<bool>, p: nat, lo: nat, hi: nat, kids: Shape,
                     from: Link, a: Shape, m: nat, c: Shape, d: Shape, at: nat)
    requires FlatWalk(k0, k, prompted, p, lo, hi, kids, from, a, Some(m), m, c) && c.Node? && d.Node?
    requires SameOutside(k, k', m, hi) && Stored(k', Some(m), m, d, None, Some(p)) && Count(d) == Count(c)
    requires FlatBelow(prompted, m, d) && (d.kids.Node? ==> prompted[m]) && at == m + 1 + Count(d.kids)
    requires Flattened(prompted, m, c) == Node(d.kids, Flattened(prompted, at, d.next))
    ensures InRange(k', m)
    ensures FlatWalk(k0, k', prompted, p, lo, hi, kids, from, Cat(a, First(d)), k'.next[m], at, d.next)
    ensures Count(d.next) < Count(c)
  {
    AdvanceOver(k, k', from, lo, a, m, c, hi, d, at, Some(p));
    FlatAdvance(prompted, lo, a, m, d, at);
    CatAssoc(a, First(d), Flattened(prompted, at, d.next));
    SameOutsideWiden(k, k', m, hi, lo, hi);
    SameOutsideTrans(k0, k, k', lo, hi);
  }

  lemma FlatWalkEnd(k0: Links, k: Links, prompted: seq<bool>, p: nat, lo: nat, hi: nat, kids: Shape,
                    from: Link, a: Shape, menu: Link, at: nat, c: Shape)
    requires FlatWalk(k0, k, prompted, p, lo, hi, kids, from, a, menu, at, c) && menu == None
    ensures Stored(k, from, lo, a, None, Some(p)) && a == Flattened(prompted, lo, kids) && lo + Count(a) == hi
  {
    StoredHead(k, menu, at, c, Some(p));
    CatNil(a);
  }

  // ----- finalising siblings one after the other -----

  /**
   Of the siblings behind `p`, from `lo` on, `a` are finalised and belong to `p`; `c`, from `m`
   on, are waiting, with the parent `pc`.
   */
  ghost predicate Sweep(prompted: seq<bool>, parent0: seq<Link>, k0: Links, k: Links, eff: seq<Link>,
                        p: nat, lo: nat, hi: nat, from: Link, a: Shape, menu: Link, m: nat, c: Shape, pc: Link) {
    && lo == p + 1 && FinalWalk(k0, k, prompted, parent0, hi, from, lo, a, menu, m, c, Some(p), pc)
    && Gathered(eff, prompted, p, lo, a)
  }

  /** What finalising the node at `p` achieves: it is now `f`, and `rest` follows from `m` on. */
  ghost predicate NodeFinal(prompted: seq<bool>, parent0: seq<Link>, k0: Links, k: Links, eff: seq<Link>,
                            p: nat, b: Shape, f: Shape, m: nat, rest: Shape, q: Link) {
    Finalized(k0, k, prompted, parent0, p, b, f, m, rest, q) && Lifted(eff, prompted, p, f.kids)
  }

  lemma SweepNext(prompted: seq<bool>, parent0: seq<Link>, k0: Links, k: Links, k': Links,
                  eff: seq<Link>, eff': seq<Link>, p: nat, lo: nat, hi: nat, from: Link, a: Shape, m: nat, c: Shape,
                  pc: Link, f: Shape, m': nat, c': Shape)
    requires Sweep(prompted, parent0, k0, k, eff, p, lo, hi, from, a, Some(m), m, c, pc) && m < |prompted|
    requires NodeFinal(prompted, parent0, k, k', eff', m, c, f, m', c', pc)
    requires SameBefore(eff, eff', m + 1) && m < |eff| && eff[m] == Some(p)
    ensures InRange(k', m) && Cat(a, f).Node? && Last(lo, Cat(a, f)) == m && Count(c') < Count(c)
    ensures Sweep(prompted, parent0, k0, k'.WithParent(m, Some(p)), eff', p, lo, hi, from, Cat(a, f),
                  k'.next[m], m', c', pc)
  {
    FinalWalkStep(k0, k, k', prompted, parent0, hi, from, lo, a, m, c, Some(p), pc, f, m', c');
    GatheredNext(eff, eff', prompted, p, lo, a, m, f);
  }

  lemma SweepStart(prompted: seq<bool>, parent0: seq<Link>, k: Links, eff: seq<Link>,
                   p: nat, lo: nat, hi: nat, from: Link, b: Shape, pc: Link)
    requires lo == p + 1 && hi == lo + Count(b) && Stored(k, from, lo, b, None, pc) && Orig(parent0, lo, b, pc)
    requires lo <= |eff|
    ensures Sweep(prompted, parent0, k, k, eff, p, lo, hi, from, Nil, from, lo, b, pc)
  {
  }

  lemma SweepHead(prompted: seq<bool>, parent0: seq<Link>, k0: Links, k: Links, eff: seq<Link>,
                  p: nat, lo: nat, hi: nat, from: Link, a: Shape, menu: Link, m: nat, c: Shape, pc: Link)
    requires Sweep(prompted, parent0, k0, k, eff, p, lo, hi, from, a, menu, m, c, pc)
    ensures if menu.Some? then menu == Some(m) && c.Node? && m < |parent0| && parent0[m] == pc else c == Nil && m == hi
  {
    StoredHead(k, menu, m, c, pc);
  }

  /** The next sibling is put below `p`. */
  lemma SweepMove(prompted: seq<bool>, parent0: seq<Link>, k0: Links, k: Links, eff: seq<Link>,
                  p: nat, lo: nat, hi: nat, from: Link, a: Shape, menu: Link, m: nat, c: Shape, pc: Link)
    requires Sweep(prompted, parent0, k0, k, eff, p, lo, hi, from, a, menu, m, c, pc) && m < |eff|
    ensures Sweep(prompted, parent0, k0, k, eff[m := Some(p)], p, lo, hi, from, a, menu, m, c, pc)
  {
    var eff' := eff[m := Some(p)];
    forall i: nat | lo <= i < lo + Count(a) ensures Mid(eff', prompted, p, i) == Mid(eff, prompted, p, i) {
      MidSame(eff, eff', prompted, p, m, i);
    }
  }

  /** After `p` has finalised its children or taken over followers: they are `kids`, and `rest` follows `p`. */
  ghost predicate OpenNode(prompted: seq<bool>, parent0: seq<Link>, k0: Links, k: Links, eff: seq<Link>,
                           p: nat, lo: nat, kids: Shape, m: nat, rest: Shape, q: Link) {
    lo == p + 1 && Opened(k0, k, prompted, parent0, p, kids, m, rest, q) && Gathered(eff, prompted, p, lo, kids)
  }

  lemma OpenFinalized(prompted: seq<bool>, parent0: seq<Link>, k0: Links, k: Links, eff: seq<Link>,
                      p: nat, lo: nat, b: Shape, from: Link, kids: Shape, m: nat, c: Shape, q: Link)
    requires Parsed(k0, parent0, p, b, m, c, q) && from == k0.list[p]
    requires Sweep(prompted, parent0, k0, k, eff, p, lo, m, from, kids, None, m, Nil, Some(p))
    ensures OpenNode(prompted, parent0, k0, k, eff, p, lo, kids, m, c, q) && Count(kids) == Count(b)
  {
    OpenedKids(k0, k, prompted, parent0, p, b, kids, m, c, q);
  }

  lemma OpenAbsorbed(prompted: seq<bool>, parent0: seq<Link>, k0: Links, k1: Links, k: Links, eff: seq<Link>,
                     p: nat, lo: nat, b: Shape, from: Link, kids: Shape, mid: Link, m: nat, rest: Shape, q: Link)
    requires Parsed(k0, parent0, p, Nil, lo, b, q) && k0.list[p] == None && from == k0.next[p]
    requires Sweep(prompted, parent0, k0, k1, eff, p, lo, lo + Count(b), from, kids, mid, m, rest, q)
    requires if kids.Node?
             then && SameOutside(k1, k, p, m) && k.parent == k1.parent && InRange(k, p)
                  && Stored(k, k.list[p], lo, kids, None, Some(p)) && Stored(k, k.next[p], m, rest, None, q)
             else k == k1
    ensures OpenNode(prompted, parent0, k0, k, eff, p, lo, kids, m, rest, q) && Count(kids) + Count(rest) == Count(b)
  {
    SameOutsideWiden(k0, k1, lo, m, p, m);
    if kids.Node? { SameOutsideTrans(k0, k1, k, p, m); }
    OpenedFrom(k0, k, prompted, parent0, p, lo, kids, m, rest, q);
  }

  lemma NodeFinalFrom(prompted: seq<bool>, parent0: seq<Link>, k0: Links, k1: Links, k: Links, eff: seq<Link>,
                      p: nat, lo: nat, b: Shape, kids: Shape, out: Shape, m: nat, rest: Shape, q: Link)
    requires OpenNode(prompted, parent0, k0, k1, eff, p, lo, kids, m, rest, q)
    requires 1 + Count(kids) + Count(rest) == Count(b)
    requires SameOutside(k1, k, lo, m) && Count(out) == Count(kids)
    requires Stored(k, k.list[p], lo, out, None, Some(p)) && Flat(prompted, lo, out)
    requires out == Flattened(prompted, lo, kids)
    ensures NodeFinal(prompted, parent0, k0, k, eff, p, b, Node(out, Nil), m, rest, q)
  {
    FinalizedFrom(k0, k1, k, prompted, parent0, p, b, kids, out, m, rest, q);
    GatheredFlat(eff, prompted, p, kids);
  }
}
