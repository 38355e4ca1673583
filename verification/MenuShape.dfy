/**
 Menu trees as they are stored: every node points to its first child and to its
 next sibling.  Read this way the whole tree is a binary tree, and a chain of
 siblings is a path along the `next` links.

 Nodes are numbered in the order the parser creates them, which is the order in
 which they appear in the menu.  A stored chain therefore always occupies an
 interval of numbers, and a chain is known by its shape and its first number.
 */
module MenuShape {
  import opened Tristate

  type Link = Option<nat>

  datatype Shape = Nil | Node(kids: Shape, next: Shape)

  function Count(b: Shape): nat {
    if b.Nil? then 0 else 1 + Count(b.kids) + Count(b.next)
  }

  function Cat(a: Shape, b: Shape): Shape {
    if a.Nil? then b else a.(next := Cat(a.next, b))
  }

  /** The first sibling of `c`, alone. */
  function First(c: Shape): Shape
    requires c.Node?
  {
    Node(c.kids, Nil)
  }

  /** The last sibling of the chain that starts at `lo`. */
  function Last(lo: nat, a: Shape): nat
    requires a.Node?
    decreases a
  {
    if a.next.Nil? then lo else Last(lo + 1 + Count(a.kids), a.next)
  }

  /** The nodes of the chain in menu order: each before its children, these before its next sibling. */
  function Preorder(lo: nat, b: Shape): (r: seq<nat>)
    ensures |r| == Count(b)
    decreases b
  {
    if b.Nil? then [] else [lo] + Preorder(lo + 1, b.kids) + Preorder(lo + 1 + Count(b.kids), b.next)
  }

  lemma Concat3At(x: nat, a: seq<nat>, b: seq<nat>, i: nat)
    requires i < 1 + |a| + |b|
    ensures ([x] + a + b)[i] == if i == 0 then x else if i <= |a| then a[i - 1] else b[i - 1 - |a|]
  {
  }

  lemma {:induction false} PreorderAt(lo: nat, b: Shape, i: nat)
    requires i < Count(b)
    ensures Preorder(lo, b)[i] == lo + i
    decreases b
  {
    var mid, n := lo + 1 + Count(b.kids), Count(b.kids);
    Concat3At(lo, Preorder(lo + 1, b.kids), Preorder(mid, b.next), i);
    if 0 < i <= n {
      PreorderAt(lo + 1, b.kids, i - 1);
    } else if n < i {
      PreorderAt(mid, b.next, i - 1 - n);
    }
  }

  /** Trees over the same nodes have the same menu order. */
  lemma SamePreorder(lo: nat, b: Shape, f: Shape)
    requires Count(b) == Count(f)
    ensures Preorder(lo, b) == Preorder(lo, f)
  {
    forall i | 0 <= i < Count(b) ensures Preorder(lo, b)[i] == Preorder(lo, f)[i] {
      PreorderAt(lo, b, i);
      PreorderAt(lo, f, i);
    }
  }

  // ----- links -----

  /** The three links of every node. */
  datatype Links = Links(next: seq<Link>, list: seq<Link>, parent: seq<Link>) {
    predicate Sized(n: nat) {
      |next| == |list| == |parent| == n
    }

    function WithParent(m: nat, q: Link): Links
      requires m < |parent|
    {
      this.(parent := parent[m := q])
    }

    function WithNext(m: nat, l: Link): Links
      requires m < |next|
    {
      this.(next := next[m := l])
    }

    function WithList(m: nat, l: Link): Links
      requires m < |list|
    {
      this.(list := list[m := l])
    }
  }

  predicate InRange(k: Links, i: nat) {
    i < |k.next| && i < |k.list| && i < |k.parent|
  }

  /**
   Following the links from `from` up to `to` visits the chain `b` with first node `lo`;
   its siblings have the parent `q`, and every child the node whose child it is.
   */
  predicate Stored(k: Links, from: Link, lo: nat, b: Shape, to: Link, q: Link)
    decreases b
  {
    if b.Nil? then from == to
    else
      && InRange(k, lo) && from == Some(lo) && k.parent[lo] == q
      && Stored(k, k.list[lo], lo + 1, b.kids, None, Some(lo))
      && Stored(k, k.next[lo], lo + 1 + Count(b.kids), b.next, to, q)
  }

  /** Links of nodes from `lo` up to `hi` may differ, no others. */
  ghost predicate SameOutside(k: Links, k': Links, lo: nat, hi: nat) {
    && |k'.next| == |k.next| && |k'.list| == |k.list| && |k'.parent| == |k.parent|
    && forall i: nat | InRange(k, i) && !(lo <= i < hi) ::
         k'.next[i] == k.next[i] && k'.list[i] == k.list[i] && k'.parent[i] == k.parent[i]
  }

  lemma {:induction false} CountCat(a: Shape, b: Shape)
    ensures Count(Cat(a, b)) == Count(a) + Count(b)
  {
    if a.Node? { CountCat(a.next, b); }
  }

  lemma {:induction false} CatAssoc(a: Shape, b: Shape, c: Shape)
    ensures Cat(Cat(a, b), c) == Cat(a, Cat(b, c))
  {
    if a.Node? { CatAssoc(a.next, b, c); }
  }

  lemma {:induction false} CatNil(a: Shape)
    ensures Cat(a, Nil) == a
  {
    if a.Node? { CatNil(a.next); }
  }

  lemma {:induction false} LastCat(lo: nat, a: Shape, b: Shape)
    requires b.Node?
    ensures Cat(a, b).Node? && Last(lo, Cat(a, b)) == Last(lo + Count(a), b)
    decreases a
  {
    if a.Node? { LastCat(lo + 1 + Count(a.kids), a.next, b); }
  }

  lemma LastOne(lo: nat, a: Shape, m: nat, f: Shape)
    requires m == lo + Count(a) && f.Node? && f.next.Nil?
    ensures Cat(a, f).Node? && Last(lo, Cat(a, f)) == m
  {
    LastCat(lo, a, f);
  }

  lemma {:induction false} LastBounds(lo: nat, a: Shape)
    requires a.Node?
    ensures lo <= Last(lo, a) < lo + Count(a)
    decreases a
  {
    if a.next.Node? { LastBounds(lo + 1 + Count(a.kids), a.next); }
  }

  lemma {:induction false} StoredCat(k: Links, from: Link, lo: nat, a: Shape, mid: Link, m: nat, b: Shape, to: Link,
                                     q: Link)
    requires Stored(k, from, lo, a, mid, q) && Stored(k, mid, m, b, to, q) && m == lo + Count(a)
    ensures Stored(k, from, lo, Cat(a, b), to, q)
    decreases a
  {
    if a.Node? {
      StoredCat(k, k.next[lo], lo + 1 + Count(a.kids), a.next, mid, m, b, to, q);
    }
  }

  /** Chains away from the changed links are still stored. */
  lemma {:induction false} StoredElsewhere(k: Links, k': Links, l: nat, h: nat, from: Link, lo: nat, b: Shape,
                                           to: Link, q: Link)
    requires Stored(k, from, lo, b, to, q) && SameOutside(k, k', l, h)
    requires h <= lo || lo + Count(b) <= l
    ensures Stored(k', from, lo, b, to, q)
    decreases b
  {
    if b.Node? {
      StoredElsewhere(k, k', l, h, k.list[lo], lo + 1, b.kids, None, Some(lo));
      StoredElsewhere(k, k', l, h, k.next[lo], lo + 1 + Count(b.kids), b.next, to, q);
    }
  }

  lemma SameOutsideTrans(k: Links, k1: Links, k2: Links, lo: nat, hi: nat)
    requires SameOutside(k, k1, lo, hi) && SameOutside(k1, k2, lo, hi)
    ensures SameOutside(k, k2, lo, hi)
  {
  }

  /** A change in a smaller range is a change in a larger one. */
  lemma SameOutsideWiden(k: Links, k': Links, lo: nat, hi: nat, lo': nat, hi': nat)
    requires SameOutside(k, k', lo, hi) && lo' <= lo && hi <= hi'
    ensures SameOutside(k, k', lo', hi')
  {
  }

  lemma StoredHead(k: Links, from: Link, lo: nat, b: Shape, q: Link)
    requires Stored(k, from, lo, b, None, q)
    ensures from == if b.Nil? then None else Some(lo)
  {
  }

  /** The last sibling's link is where the chain ends. */
  lemma {:induction false} StoredLast(k: Links, from: Link, lo: nat, a: Shape, to: Link, q: Link)
    requires Stored(k, from, lo, a, to, q) && a.Node?
    ensures InRange(k, Last(lo, a)) && k.next[Last(lo, a)] == to
    decreases a
  {
    if a.next.Node? { StoredLast(k, k.next[lo], lo + 1 + Count(a.kids), a.next, to, q); }
  }

  lemma NodeStored(k: Links, lo: nat, a: Shape, mid: nat, to: Link, q: Link)
    requires a.Node? && InRange(k, lo) && k.parent[lo] == q && mid == lo + 1 + Count(a.kids)
    requires Stored(k, k.list[lo], lo + 1, a.kids, None, Some(lo)) && Stored(k, k.next[lo], mid, a.next, to, q)
    ensures Stored(k, Some(lo), lo, a, to, q)
  {
  }

  /** The end of a chain can be redirected. */
  lemma {:induction false} StoredRetarget(k: Links, from: Link, lo: nat, a: Shape, last: nat, to: Link, to': Link,
                                          q: Link)
    requires Stored(k, from, lo, a, to, q) && a.Node? && last == Last(lo, a) && last < |k.next|
    ensures Stored(k.WithNext(last, to'), from, lo, a, to', q)
    decreases a
  {
    var k' := k.WithNext(last, to');
    var mid := lo + 1 + Count(a.kids);
    if a.next.Nil? {
      StoredElsewhere(k, k', lo, lo + 1, k.list[lo], lo + 1, a.kids, None, Some(lo));
    } else {
      LastBounds(mid, a.next);
      StoredRetarget(k, k.next[lo], mid, a.next, last, to, to', q);
      StoredElsewhere(k, k', last, last + 1, k.list[lo], lo + 1, a.kids, None, Some(lo));
    }
    NodeStored(k', lo, a, mid, to', q);
  }

  // ----- only nodes with a prompt keep children -----

  predicate Flat(prompted: seq<bool>, lo: nat, b: Shape)
    decreases b
  {
    b.Node? ==>
      && lo < |prompted| && (b.kids.Node? ==> prompted[lo])
      && Flat(prompted, lo + 1, b.kids) && Flat(prompted, lo + 1 + Count(b.kids), b.next)
  }

  /** The children of all siblings are flat; the siblings themselves need not be. */
  predicate FlatBelow(prompted: seq<bool>, lo: nat, b: Shape)
    decreases b
  {
    b.Node? ==> lo < |prompted| && Flat(prompted, lo + 1, b.kids) && FlatBelow(prompted, lo + 1 + Count(b.kids), b.next)
  }

  lemma {:induction false} FlatCat(prompted: seq<bool>, lo: nat, a: Shape, m: nat, b: Shape)
    requires m == lo + Count(a)
    ensures Flat(prompted, lo, Cat(a, b)) <==> Flat(prompted, lo, a) && Flat(prompted, m, b)
    ensures FlatBelow(prompted, lo, Cat(a, b)) <==> FlatBelow(prompted, lo, a) && FlatBelow(prompted, m, b)
    decreases a
  {
    if a.Node? { FlatCat(prompted, lo + 1 + Count(a.kids), a.next, m, b); }
  }

  lemma {:induction false} FlatIsFlatBelow(prompted: seq<bool>, lo: nat, b: Shape)
    requires Flat(prompted, lo, b)
    ensures FlatBelow(prompted, lo, b)
    decreases b
  {
    if b.Node? { FlatIsFlatBelow(prompted, lo + 1 + Count(b.kids), b.next); }
  }

  lemma SingleStored(k: Links, m: nat, f: Shape, to: Link, q: Link)
    requires f.Node? && f.next.Nil?
    ensures Stored(k, Some(m), m, f, to, q) <==>
            InRange(k, m) && k.parent[m] == q && k.next[m] == to && Stored(k, k.list[m], m + 1, f.kids, None, Some(m))
  {
  }

  // ----- giving the children of a node to its parent -----

  /** The siblings `c` from `lo` on still have parent `m`, except that the first already has `p`. */
  predicate Adopting(k: Links, p: nat, m: nat, lo: nat, c: Shape, from: Link) {
    && c.Node? && InRange(k, lo) && from == Some(lo) && k.parent[lo] == Some(p)
    && Stored(k, k.list[lo], lo + 1, c.kids, None, Some(lo))
    && Stored(k, k.next[lo], lo + 1 + Count(c.kids), c.next, None, Some(m))
  }

  lemma AdoptFirst(k: Links, p: nat, m: nat, lo: nat, c: Shape, from: Link)
    requires c.Node? && Stored(k, from, lo, c, None, Some(m))
    ensures InRange(k, lo) && Adopting(k.WithParent(lo, Some(p)), p, m, lo, c, from)
  {
    var k' := k.WithParent(lo, Some(p));
    StoredElsewhere(k, k', lo, lo + 1, k.list[lo], lo + 1, c.kids, None, Some(lo));
    StoredElsewhere(k, k', lo, lo + 1, k.next[lo], lo + 1 + Count(c.kids), c.next, None, Some(m));
  }

  lemma FirstStored(k: Links, lo: nat, c: Shape, p: nat, m: nat)
    requires Adopting(k, p, m, lo, c, Some(lo))
    ensures Stored(k, Some(lo), lo, First(c), k.next[lo], Some(p))
  {
  }

  /** The sibling after the one at `lo`. */
  lemma AdoptNext(k: Links, p: nat, m: nat, s: nat, a: Shape, lo: nat, c: Shape, lo': nat)
    requires Adopting(k, p, m, lo, c, Some(lo)) && c.next.Node? && lo' == lo + 1 + Count(c.kids) && lo == s + Count(a)
    ensures InRange(k, lo') && k.next[lo] == Some(lo') && Stored(k, Some(lo'), lo', c.next, None, Some(m))
    ensures lo' == s + Count(Cat(a, First(c))) && lo' + Count(c.next) == lo + Count(c)
    ensures Cat(Cat(a, First(c)), c.next) == Cat(a, c)
  {
    CountCat(a, First(c));
    CatAssoc(a, First(c), c.next);
  }

  /** The siblings adopted so far stay stored while the next one is. */
  lemma AdoptPrefix(k: Links, p: nat, start: Link, s: nat, a: Shape, lo: nat, f: Shape, lo': nat)
    requires Stored(k, start, s, a, Some(lo), Some(p)) && Stored(k, Some(lo), lo, f, Some(lo'), Some(p))
    requires lo == s + Count(a) && lo' == lo + Count(f) && InRange(k, lo')
    ensures Stored(k.WithParent(lo', Some(p)), start, s, Cat(a, f), Some(lo'), Some(p))
  {
    StoredCat(k, start, s, a, Some(lo), lo, f, Some(lo'), Some(p));
    CountCat(a, f);
    StoredElsewhere(k, k.WithParent(lo', Some(p)), lo', lo' + 1, start, s, Cat(a, f), Some(lo'), Some(p));
  }

  /** One more sibling adopted; the ones before, `a`, stay stored up to it. */
  lemma AdoptStep(k: Links, p: nat, m: nat, start: Link, s: nat, a: Shape, lo: nat, c: Shape, lo': nat)
    requires Stored(k, start, s, a, Some(lo), Some(p)) && lo == s + Count(a)
    requires Adopting(k, p, m, lo, c, Some(lo)) && c.next.Node? && lo' == lo + 1 + Count(c.kids)
    ensures InRange(k, lo')
    ensures Stored(k.WithParent(lo', Some(p)), start, s, Cat(a, First(c)), Some(lo'), Some(p))
    ensures Adopting(k.WithParent(lo', Some(p)), p, m, lo', c.next, Some(lo'))
  {
    AdoptNext(k, p, m, s, a, lo, c, lo');
    FirstStored(k, lo, c, p, m);
    AdoptFirst(k, p, m, lo', c.next, Some(lo'));
    AdoptPrefix(k, p, start, s, a, lo, First(c), lo');
  }

  /** The children `kids` of `m`, of which `a` and the first of `c` already belong to `p`. */
  ghost predicate AdoptWalk(k0: Links, k: Links, p: nat, m: nat, kids: Shape, from: Link, a: Shape, lo: nat, c: Shape) {
    && Stored(k, from, m + 1, a, Some(lo), Some(p)) && lo == m + 1 + Count(a) && Cat(a, c) == kids
    && Adopting(k, p, m, lo, c, Some(lo))
    && k == k0.(parent := k.parent) && SameOutside(k0, k, m + 1, lo + 1)
  }

  lemma AdoptWalkFirst(k: Links, p: nat, m: nat, kids: Shape, from: Link)
    requires kids.Node? && Stored(k, from, m + 1, kids, None, Some(m))
    ensures InRange(k, m + 1) && from == Some(m + 1)
    ensures AdoptWalk(k, k.WithParent(m + 1, Some(p)), p, m, kids, from, Nil, m + 1, kids)
  {
    AdoptFirst(k, p, m, m + 1, kids, from);
  }

  lemma AdoptWalkStep(k0: Links, k: Links, p: nat, m: nat, kids: Shape, from: Link, a: Shape, lo: nat, c: Shape,
                      lo': nat)
    requires AdoptWalk(k0, k, p, m, kids, from, a, lo, c) && k.next[lo] == Some(lo')
    ensures c.next.Node? && InRange(k, lo')
    ensures AdoptWalk(k0, k.WithParent(lo', Some(p)), p, m, kids, from, Cat(a, First(c)), lo', c.next)
  {
    StoredHead(k, k.next[lo], lo + 1 + Count(c.kids), c.next, Some(m));
    AdoptNext(k, p, m, m + 1, a, lo, c, lo');
    AdoptStep(k, p, m, from, m + 1, a, lo, c, lo');
  }

  lemma AdoptWalkLast(k0: Links, k: Links, p: nat, m: nat, kids: Shape, from: Link, a: Shape, lo: nat, c: Shape)
    requires AdoptWalk(k0, k, p, m, kids, from, a, lo, c) && k.next[lo] == None
    ensures Stored(k, from, m + 1, kids, None, Some(p)) && lo == Last(m + 1, kids)
    ensures SameOutside(k0, k, m + 1, m + 1 + Count(kids))
  {
    StoredHead(k, k.next[lo], lo + 1 + Count(c.kids), c.next, Some(m));
    FirstStored(k, lo, c, p, m);
    StoredCat(k, from, m + 1, a, Some(lo), lo, c, None, Some(p));
    LastCat(m + 1, a, c);
    CountCat(a, c);
  }

  /** The chain in which the first sibling's children have moved up behind it. */
  function Spliced(c: Shape): Shape
    requires c.Node?
  {
    Node(Nil, Cat(c.kids, c.next))
  }

  lemma SplicedFacts(prompted: seq<bool>, lo: nat, c: Shape)
    requires c.Node? && FlatBelow(prompted, lo, c)
    ensures Count(Spliced(c)) == Count(c) && FlatBelow(prompted, lo, Spliced(c))
  {
    CountCat(c.kids, c.next);
    FlatIsFlatBelow(prompted, lo + 1, c.kids);
    FlatCat(prompted, lo + 1, c.kids, lo + 1 + Count(c.kids), c.next);
  }

  /** Linking the adopted children of `m`, the last of which is `last`, in behind it. */
  lemma SpliceLinks(k: Links, k': Links, m: nat, last: nat, c: Shape, q: Link)
    requires c.Node? && c.kids.Node? && InRange(k, m) && k.parent[m] == q
    requires Stored(k, k.list[m], m + 1, c.kids, None, q)
    requires Stored(k, k.next[m], m + 1 + Count(c.kids), c.next, None, q)
    requires last == Last(m + 1, c.kids) && last < |k.next|
    requires k' == k.WithNext(last, k.next[m]).WithNext(m, k.list[m]).WithList(m, None)
    ensures Stored(k', Some(m), m, Spliced(c), None, q)
    ensures SameOutside(k, k', m, m + 1 + Count(c.kids))
  {
    var hi := m + 1 + Count(c.kids);
    LastBounds(m + 1, c.kids);
    SpliceKids(k, k', m, m + 1, last, c.kids, hi, q);
    StoredElsewhere(k, k', m, hi, k.next[m], hi, c.next, None, q);
    StoredCat(k', k.list[m], m + 1, c.kids, k.next[m], hi, c.next, None, q);
    LeafStored(k', m, Cat(c.kids, c.next), q);
  }

  lemma SpliceKids(k: Links, k': Links, m: nat, lo: nat, last: nat, kids: Shape, hi: nat, q: Link)
    requires kids.Node? && InRange(k, m) && Stored(k, k.list[m], lo, kids, None, q) && lo == m + 1
    requires hi == lo + Count(kids)
    requires last == Last(lo, kids) && lo <= last < hi && last < |k.next|
    requires k' == k.WithNext(last, k.next[m]).WithNext(m, k.list[m]).WithList(m, None)
    ensures Stored(k', k.list[m], lo, kids, k.next[m], q) && SameOutside(k, k', m, hi)
  {
    StoredRetarget(k, k.list[m], lo, kids, last, None, k.next[m], q);
    StoredElsewhere(k.WithNext(last, k.next[m]), k', m, lo, k.list[m], lo, kids, k.next[m], q);
  }

  lemma LeafStored(k: Links, m: nat, b: Shape, q: Link)
    requires InRange(k, m) && k.parent[m] == q && k.list[m] == None && Stored(k, k.next[m], m + 1, b, None, q)
    ensures Stored(k, Some(m), m, Node(Nil, b), None, q)
  {
  }

  // ----- walking along siblings -----

  /**
   Siblings `a` from `lo` on with parent `pa` are done; the siblings `c` that follow from `m` on,
   with parent `pc`, are not.
   */
  predicate Walking(k: Links, from: Link, lo: nat, a: Shape, menu: Link, m: nat, c: Shape, pa: Link, pc: Link) {
    m == lo + Count(a) && Stored(k, from, lo, a, menu, pa) && Stored(k, menu, m, c, None, pc)
  }

  /** Moving on by one sibling, whose chain has become `d`. */
  lemma Advance(k: Links, k': Links, from: Link, lo: nat, a: Shape, m: nat, c: Shape, hi: nat, d: Shape, m': nat,
                q: Link)
    requires Walking(k, from, lo, a, Some(m), m, c, q, q) && SameOutside(k, k', m, hi)
    requires d.Node? && m' == m + 1 + Count(d.kids) && InRange(k', m)
    requires Stored(k', Some(m), m, First(d), k'.next[m], q) && Stored(k', k'.next[m], m', d.next, None, q)
    ensures Walking(k', from, lo, Cat(a, First(d)), k'.next[m], m', d.next, q, q)
  {
    StoredElsewhere(k, k', m, hi, from, lo, a, Some(m), q);
    StoredCat(k', from, lo, a, Some(m), m, First(d), k'.next[m], q);
    CountCat(a, First(d));
  }

  lemma StoredFirst(k: Links, m: nat, d: Shape, m': nat, q: Link)
    requires d.Node? && Stored(k, Some(m), m, d, None, q) && m' == m + 1 + Count(d.kids)
    ensures InRange(k, m) && Stored(k, Some(m), m, First(d), k.next[m], q) && Stored(k, k.next[m], m', d.next, None, q)
  {
    SingleStored(k, m, First(d), k.next[m], q);
  }

  lemma AdvanceOver(k: Links, k': Links, from: Link, lo: nat, a: Shape, m: nat, c: Shape, hi: nat, d: Shape, m': nat,
                    q: Link)
    requires Walking(k, from, lo, a, Some(m), m, c, q, q) && SameOutside(k, k', m, hi)
    requires d.Node? && m' == m + 1 + Count(d.kids) && Stored(k', Some(m), m, d, None, q)
    ensures InRange(k', m) && Walking(k', from, lo, Cat(a, First(d)), k'.next[m], m', d.next, q, q)
  {
    StoredFirst(k', m, d, m', q);
    Advance(k, k', from, lo, a, m, c, hi, d, m', q);
  }

  lemma FlatAdvance(prompted: seq<bool>, lo: nat, a: Shape, m: nat, d: Shape, m': nat)
    requires m == lo + Count(a) && Flat(prompted, lo, a)
    requires d.Node? && FlatBelow(prompted, m, d) && (d.kids.Node? ==> prompted[m])
    requires m' == m + 1 + Count(d.kids)
    ensures Flat(prompted, lo, Cat(a, First(d))) && FlatBelow(prompted, m', d.next)
  {
    FlatCat(prompted, lo, a, m, First(d));
  }

  /** The single sibling `f` at `m` gets the parent `pa`. */
  lemma Reparent(k: Links, k': Links, m: nat, f: Shape, pa: Link, pc: Link)
    requires f.Node? && f.next.Nil? && InRange(k, m) && k' == k.WithParent(m, pa)
    requires Stored(k, Some(m), m, f, k.next[m], pc)
    ensures Stored(k', Some(m), m, f, k'.next[m], pa)
  {
    SingleStored(k, m, f, k.next[m], pc);
    StoredElsewhere(k, k', m, m + 1, k.list[m], m + 1, f.kids, None, Some(m));
    SingleStored(k', m, f, k'.next[m], pa);
  }

  /**
   The sibling at `m` has been worked on, with its children and perhaps some of the
   siblings behind it; it becomes `f`, moves over to parent `pa`, and `c'` is left.
   */
  lemma WalkStep(k: Links, k': Links, k'': Links, from: Link, lo: nat, a: Shape,
                 m: nat, c: Shape, f: Shape, m': nat, c': Shape, pa: Link, pc: Link)
    requires Walking(k, from, lo, a, Some(m), m, c, pa, pc) && m' == m + Count(f)
    requires f.Node? && f.next.Nil? && InRange(k', m) && SameOutside(k, k', m, m')
    requires Stored(k', Some(m), m, f, k'.next[m], pc) && Stored(k', k'.next[m], m', c', None, pc)
    requires k'' == k'.WithParent(m, pa)
    ensures Walking(k'', from, lo, Cat(a, f), k''.next[m], m', c', pa, pc)
    ensures SameOutside(k, k'', m, m')
  {
    Reparent(k', k'', m, f, pa, pc);
    StoredElsewhere(k', k'', m, m + 1, k'.next[m], m', c', None, pc);
    StoredElsewhere(k, k'', m, m', from, lo, a, Some(m), pa);
    StoredCat(k'', from, lo, a, Some(m), m, f, k''.next[m], pa);
    CountCat(a, f);
  }

  // ----- the tree as parsed -----

  /** All nodes whose parent is `t` lie among the `n` nodes behind it. */
  ghost predicate KidsWithin(parent: seq<Link>, t: nat, n: nat) {
    forall i: nat | i < |parent| && parent[i] == Some(t) :: t < i <= t + n
  }

  /** The parents of the chain `b` from `lo` on, and there are no other children of its nodes. */
  ghost predicate Orig(parent: seq<Link>, lo: nat, b: Shape, q: Link)
    decreases b
  {
    b.Node? ==>
      && lo < |parent| && parent[lo] == q && KidsWithin(parent, lo, Count(b.kids))
      && Orig(parent, lo + 1, b.kids, Some(lo)) && Orig(parent, lo + 1 + Count(b.kids), b.next, q)
  }

  lemma OrigNext(parent: seq<Link>, m: nat, c: Shape, at: nat, q: Link)
    requires c.Node? && Orig(parent, m, c, q) && at == m + 1 + Count(c.kids)
    ensures Orig(parent, at, c.next, q) && Orig(parent, m + 1, c.kids, Some(m)) && m < |parent|
  {
  }

  /** Parents of the nodes of a stored chain are `q` or in the chain. */
  lemma {:induction false} ParentInside(k: Links, from: Link, lo: nat, b: Shape, to: Link, q: Link, i: nat)
    requires Stored(k, from, lo, b, to, q) && lo <= i < lo + Count(b)
    ensures i < |k.parent|
    ensures k.parent[i] == q || (k.parent[i].Some? && lo <= k.parent[i].value < i)
    decreases b
  {
    var mid := lo + 1 + Count(b.kids);
    if lo < i < mid {
      ParentInside(k, k.list[lo], lo + 1, b.kids, None, Some(lo), i);
    } else if mid <= i {
      ParentInside(k, k.next[lo], mid, b.next, to, q, i);
    }
  }

  /** No node outside the chain has a parent in it. */
  ghost predicate Closed(parent: seq<Link>, lo: nat, hi: nat) {
    forall i: nat | i < |parent| && parent[i].Some? && lo <= parent[i].value < hi :: lo <= i < hi
  }

  lemma ClosedKids(k: Links, from: Link, lo: nat, b: Shape, to: Link, q: Link, i: nat)
    requires Stored(k, from, lo, b, to, q) && b.Node? && (q.Some? ==> q.value < lo)
    requires Closed(k.parent, lo, lo + Count(b))
    requires i < |k.parent| && k.parent[i].Some? && lo <= k.parent[i].value < lo + 1 + Count(b.kids)
    ensures lo < i < lo + 1 + Count(b.kids)
  {
    var mid := lo + 1 + Count(b.kids);
    assert lo <= i < lo + Count(b);
    if i >= mid { ParentInside(k, k.next[lo], mid, b.next, to, q, i); }
  }

  lemma ClosedNext(k: Links, from: Link, lo: nat, b: Shape, to: Link, q: Link, i: nat)
    requires Stored(k, from, lo, b, to, q) && b.Node? && (q.Some? ==> q.value < lo)
    requires Closed(k.parent, lo, lo + Count(b))
    requires i < |k.parent| && k.parent[i].Some? && lo + 1 + Count(b.kids) <= k.parent[i].value < lo + Count(b)
    ensures lo + 1 + Count(b.kids) <= i < lo + Count(b)
  {
    var mid := lo + 1 + Count(b.kids);
    assert lo <= i < lo + Count(b);
    if lo < i < mid { ParentInside(k, k.list[lo], lo + 1, b.kids, None, Some(lo), i); }
  }

  lemma ClosedBelow(k: Links, from: Link, lo: nat, b: Shape, to: Link, q: Link, mid: nat)
    requires Stored(k, from, lo, b, to, q) && b.Node? && (q.Some? ==> q.value < lo) && mid == lo + 1 + Count(b.kids)
    requires Closed(k.parent, lo, lo + Count(b))
    ensures Closed(k.parent, lo + 1, mid) && KidsWithin(k.parent, lo, Count(b.kids))
  {
    forall i: nat | i < |k.parent| && k.parent[i].Some? && lo <= k.parent[i].value < mid ensures lo < i < mid {
      ClosedKids(k, from, lo, b, to, q, i);
    }
  }

  lemma ClosedBehind(k: Links, from: Link, lo: nat, b: Shape, to: Link, q: Link, mid: nat)
    requires Stored(k, from, lo, b, to, q) && b.Node? && (q.Some? ==> q.value < lo) && mid == lo + 1 + Count(b.kids)
    requires Closed(k.parent, lo, lo + Count(b))
    ensures Closed(k.parent, mid, mid + Count(b.next))
  {
    forall i: nat | i < |k.parent| && k.parent[i].Some? && mid <= k.parent[i].value < mid + Count(b.next)
      ensures mid <= i < mid + Count(b.next)
    {
      ClosedNext(k, from, lo, b, to, q, i);
    }
  }

  /** A stored tree is a tree as parsed. */
  lemma {:induction false} StoredIsOrig(k: Links, from: Link, lo: nat, b: Shape, to: Link, q: Link)
    requires Stored(k, from, lo, b, to, q) && (q.Some? ==> q.value < lo)
    requires Closed(k.parent, lo, lo + Count(b))
    ensures Orig(k.parent, lo, b, q)
    decreases b
  {
    if b.Node? {
      var mid := lo + 1 + Count(b.kids);
      ClosedBelow(k, from, lo, b, to, q, mid);
      ClosedBehind(k, from, lo, b, to, q, mid);
      StoredIsOrig(k, k.list[lo], lo + 1, b.kids, None, Some(lo));
      StoredIsOrig(k, k.next[lo], mid, b.next, to, q);
    }
  }

  /** Nodes of the chain have the parent `q` or one in the chain. */
  lemma {:induction false} OrigInside(parent: seq<Link>, lo: nat, b: Shape, q: Link, i: nat)
    requires Orig(parent, lo, b, q) && lo <= i < lo + Count(b)
    ensures i < |parent| && (parent[i] == q || (parent[i].Some? && lo <= parent[i].value < i))
    decreases b
  {
    var mid := lo + 1 + Count(b.kids);
    if lo < i < mid {
      OrigInside(parent, lo + 1, b.kids, Some(lo), i);
    } else if mid <= i {
      OrigInside(parent, mid, b.next, q, i);
    }
  }

  // ----- finalising siblings one after the other -----

  /**
   Of the siblings that occupy `lo` up to `hi`, `a` are finalised and have the parent `pa`;
   from `m` on, `c` are waiting as parsed and have the parent `pc`.
   */
  ghost predicate FinalWalk(k0: Links, k: Links, prompted: seq<bool>, parent0: seq<Link>, hi: nat,
                            from: Link, lo: nat, a: Shape, menu: Link, m: nat, c: Shape, pa: Link, pc: Link) {
    && Walking(k, from, lo, a, menu, m, c, pa, pc) && m + Count(c) == hi
    && FlatBelow(prompted, lo, a) && Orig(parent0, m, c, pc) && SameOutside(k0, k, lo, m)
  }

  /** The outcome of finalising the sibling at `m`: it is now `f`, and `c'` is left from `m'` on. */
  ghost predicate Finalized(k: Links, k': Links, prompted: seq<bool>, parent0: seq<Link>,
                            m: nat, b: Shape, f: Shape, m': nat, c': Shape, q: Link) {
    && f.Node? && f.next.Nil? && m' == m + Count(f) && Count(f) + Count(c') == Count(b)
    && SameOutside(k, k', m, m') && InRange(k', m)
    && Stored(k', Some(m), m, f, k'.next[m], q) && Stored(k', k'.next[m], m', c', None, q)
    && Flat(prompted, m + 1, f.kids) && Orig(parent0, m', c', q)
  }

  lemma FinalWalkStep(k0: Links, k: Links, k': Links, prompted: seq<bool>, parent0: seq<Link>, hi: nat,
                      from: Link, lo: nat, a: Shape, m: nat, c: Shape, pa: Link, pc: Link, f: Shape, m': nat, c': Shape)
    requires FinalWalk(k0, k, prompted, parent0, hi, from, lo, a, Some(m), m, c, pa, pc)
    requires Finalized(k, k', prompted, parent0, m, c, f, m', c', pc) && m < |prompted|
    ensures FinalWalk(k0, k'.WithParent(m, pa), prompted, parent0, hi, from, lo, Cat(a, f), k'.next[m], m', c', pa, pc)
    ensures Cat(a, f).Node? && Last(lo, Cat(a, f)) == m && Count(c') < Count(c) && m == lo + Count(a)
  {
    var k'' := k'.WithParent(m, pa);
    LastOne(lo, a, m, f);
    WalkStep(k, k', k'', from, lo, a, m, c, f, m', c', pa, pc);
    FlatCat(prompted, lo, a, m, f);
    SameOutsideWiden(k0, k, lo, m, lo, m');
    SameOutsideWiden(k, k'', m, m', lo, m');
    SameOutsideTrans(k0, k, k'', lo, m');
  }

  /** The siblings `a` behind the childless node `p`, the last of which is `last`, become its children. */
  lemma TakeOverLinks(k: Links, k': Links, p: nat, a: Shape, last: nat, mid: Link, m: nat, c: Shape, q: Link)
    requires InRange(k, p) && a.Node? && last == Last(p + 1, a) && last < |k.next|
    requires Walking(k, k.next[p], p + 1, a, mid, m, c, Some(p), q)
    requires k' == k.WithList(p, k.next[p]).WithNext(p, k.next[last]).WithNext(last, None)
    ensures Stored(k', k'.list[p], p + 1, a, None, Some(p)) && Stored(k', k'.next[p], m, c, None, q)
    ensures SameOutside(k, k', p, m) && k'.parent == k.parent
  {
    LastBounds(p + 1, a);
    StoredLast(k, k.next[p], p + 1, a, mid, Some(p));
    StoredRetarget(k, k.next[p], p + 1, a, last, mid, None, Some(p));
    StoredElsewhere(k.WithNext(last, None), k', p, p + 1, k.next[p], p + 1, a, None, Some(p));
    StoredElsewhere(k, k', p, m, mid, m, c, None, q);
  }

  /** After `p` has finalised its children or taken over followers: they are `kids`, and `rest` follows `p`. */
  ghost predicate Opened(k: Links, k': Links, prompted: seq<bool>, parent0: seq<Link>,
                         p: nat, kids: Shape, m: nat, rest: Shape, q: Link) {
    && InRange(k', p) && m == p + 1 + Count(kids) && SameOutside(k, k', p, m) && k'.parent[p] == q
    && Stored(k', k'.list[p], p + 1, kids, None, Some(p)) && Stored(k', k'.next[p], m, rest, None, q)
    && FlatBelow(prompted, p + 1, kids) && Orig(parent0, m, rest, q)
  }

  lemma OpenedFrom(k: Links, k': Links, prompted: seq<bool>, parent0: seq<Link>, p: nat, lo: nat, kids: Shape, m: nat,
                   rest: Shape, q: Link)
    requires lo == p + 1 && InRange(k', p) && m == lo + Count(kids) && SameOutside(k, k', p, m) && k'.parent[p] == q
    requires Stored(k', k'.list[p], lo, kids, None, Some(p)) && Stored(k', k'.next[p], m, rest, None, q)
    requires FlatBelow(prompted, lo, kids) && Orig(parent0, m, rest, q)
    ensures Opened(k, k', prompted, parent0, p, kids, m, rest, q)
  {
  }

  /** The node at `p`, as parsed: its children `b` and the chain `c` behind it from `m` on. */
  ghost predicate Parsed(k: Links, parent0: seq<Link>, p: nat, b: Shape, m: nat, c: Shape, q: Link) {
    && InRange(k, p) && k.parent[p] == q && m == p + 1 + Count(b)
    && Stored(k, k.list[p], p + 1, b, None, Some(p)) && Stored(k, k.next[p], m, c, None, q)
    && Orig(parent0, p + 1, b, Some(p)) && KidsWithin(parent0, p, Count(b)) && Orig(parent0, m, c, q)
  }

  lemma ParsedNode(k: Links, parent0: seq<Link>, p: nat, b: Shape, q: Link)
    requires b.Node? && Stored(k, Some(p), p, b, None, q) && Orig(parent0, p, b, q)
    ensures Parsed(k, parent0, p, b.kids, p + 1 + Count(b.kids), b.next, q)
  {
  }

  lemma ParsedChildless(k: Links, prompted: seq<bool>, parent0: seq<Link>, p: nat, b: Shape, m: nat, c: Shape, q: Link)
    requires Parsed(k, parent0, p, b, m, c, q) && k.list[p] == None
    ensures m == p + 1 && KidsWithin(parent0, p, 0) && Opened(k, k, prompted, parent0, p, Nil, m, c, q)
  {
  }

  lemma OpenedKids(k: Links, k': Links, prompted: seq<bool>, parent0: seq<Link>,
                   p: nat, b: Shape, kids: Shape, m: nat, c: Shape, q: Link)
    requires Parsed(k, parent0, p, b, m, c, q) && SameOutside(k, k', p + 1, m) && Count(kids) == Count(b)
    requires InRange(k', p) && Stored(k', k'.list[p], p + 1, kids, None, Some(p)) && FlatBelow(prompted, p + 1, kids)
    ensures Opened(k, k', prompted, parent0, p, kids, m, c, q)
  {
    StoredElsewhere(k, k', p + 1, m, k.next[p], m, c, None, q);
    SameOutsideWiden(k, k', p + 1, m, p, m);
  }

  lemma FinalizedFrom(k: Links, k': Links, k'': Links, prompted: seq<bool>, parent0: seq<Link>,
                      p: nat, b: Shape, kids: Shape, out: Shape, m: nat, rest: Shape, q: Link)
    requires Opened(k, k', prompted, parent0, p, kids, m, rest, q) && 1 + Count(kids) + Count(rest) == Count(b)
    requires SameOutside(k', k'', p + 1, m) && Count(out) == Count(kids)
    requires Stored(k'', k''.list[p], p + 1, out, None, Some(p)) && Flat(prompted, p + 1, out)
    ensures Finalized(k, k'', prompted, parent0, p, b, Node(out, Nil), m, rest, q)
  {
    StoredElsewhere(k', k'', p + 1, m, k'.next[p], m, rest, None, q);
    SameOutsideWiden(k', k'', p + 1, m, p, m);
    SameOutsideTrans(k, k', k'', p, m);
    SingleStored(k'', p, Node(out, Nil), k''.next[p], q);
  }

  /** The main menu has no siblings, so everything has been finalised with it. */
  lemma RootFinalized(k: Links, k': Links, prompted: seq<bool>, parent0: seq<Link>, b: Shape, f: Shape, m: nat,
                      rest: Shape)
    requires b.Node? && b.next == Nil && Stored(k, Some(0), 0, b, None, None)
    requires Finalized(k, k', prompted, parent0, 0, b, f, m, rest, None)
    ensures m == Count(b) && rest == Nil
  {
    if rest.Node? {
      assert Count(b.next) == 0 && Count(rest) > 0;
      ParentInside(k, k.list[0], 1, b.kids, None, Some(0), m);
    }
  }
}
