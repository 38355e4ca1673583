/**
 The compression function of SHA-256 (mkhash.c) with its rotating array indices and a
 message schedule computed sixteen words at a time, against section 6.2.2 of FIPS 180-4.

 The order of computation is settled for any words with an associative and commutative
 addition; 32-bit words come in only where bits matter.
 */
module Sha256 {
  import opened Words32

  /** Addition and the functions of section 4.1.2 of FIPS 180-4. */
  datatype Ops<!W> = Ops(
    add: (W, W) -> W, ch: (W, W, W) -> W, maj: (W, W, W) -> W,
    bigSigma0: W -> W, bigSigma1: W -> W, smallSigma0: W -> W, smallSigma1: W -> W)

  // ----- section 6.2.2 of FIPS 180-4 -----

  datatype Working<W> = Working(a: W, b: W, c: W, d: W, e: W, f: W, g: W, h: W)

  /** Step 3 for one t. */
  function Round<W>(o: Ops<W>, v: Working<W>, k: W, w: W): Working<W> {
    var t1 := o.add(o.add(o.add(o.add(v.h, o.bigSigma1(v.e)), o.ch(v.e, v.f, v.g)), k), w);
    var t2 := o.add(o.bigSigma0(v.a), o.maj(v.a, v.b, v.c));
    Working(o.add(t1, t2), v.a, v.b, v.c, o.add(v.d, t1), v.e, v.f, v.g)
  }

  /** Step 1: the word `t` of the message schedule for the block `m`. */
  function Schedule<W>(o: Ops<W>, m: seq<W>, t: nat): W
    requires |m| == 16
  {
    if t < 16 then m[t] else
      o.add(o.add(o.add(o.smallSigma1(Schedule(o, m, t - 2)), Schedule(o, m, t - 7)),
                  o.smallSigma0(Schedule(o, m, t - 15))), Schedule(o, m, t - 16))
  }

  function Rounds<W>(o: Ops<W>, k: seq<W>, m: seq<W>, v: Working<W>, t: nat): Working<W>
    requires |m| == 16 && t <= |k|
  {
    if t == 0 then v else Round(o, Rounds(o, k, m, v, t - 1), k[t - 1], Schedule(o, m, t - 1))
  }

  /** Steps 2 to 4: the next hash value. */
  function Compress<W>(o: Ops<W>, k: seq<W>, m: seq<W>, h: seq<W>): (r: seq<W>)
    requires |m| == 16 && |k| == 64 && |h| == 8
    ensures |r| == 8
  {
    var v := Rounds(o, k, m, Working(h[0], h[1], h[2], h[3], h[4], h[5], h[6], h[7]), |k|);
    [o.add(h[0], v.a), o.add(h[1], v.b), o.add(h[2], v.c), o.add(h[3], v.d),
     o.add(h[4], v.e), o.add(h[5], v.f), o.add(h[6], v.g), o.add(h[7], v.h)]
  }

  // ----- the code -----

  ghost predicate SameCh<W(!new)>(c: Ops<W>, o: Ops<W>) {
    forall x, y, z :: c.ch(x, y, z) == o.ch(x, y, z)
  }

  ghost predicate SameMaj<W(!new)>(c: Ops<W>, o: Ops<W>) {
    forall x, y, z :: c.maj(x, y, z) == o.maj(x, y, z)
  }

  /** `c` writes the functions of `o` differently, and addition may be regrouped. */
  ghost predicate Rewrites<W(!new)>(c: Ops<W>, o: Ops<W>) {
    c == o.(ch := c.ch, maj := c.maj) && SameCh(c, o) && SameMaj(c, o) && Commutes(o.add) && Associates(o.add)
  }

  lemma Regroup<W(!new)>(c: Ops<W>, o: Ops<W>, h: W, s: W, f: W, k: W, w: W)
    requires Rewrites(c, o)
    ensures c.add(h, c.add(c.add(s, f), c.add(w, k))) == o.add(o.add(o.add(o.add(h, s), f), k), w)
  {
    assert o.add(o.add(s, f), o.add(w, k)) == o.add(s, o.add(f, o.add(k, w)));
    assert o.add(h, o.add(s, o.add(f, o.add(k, w)))) == o.add(o.add(h, s), o.add(f, o.add(k, w)));
    assert o.add(o.add(h, s), o.add(f, o.add(k, w))) == o.add(o.add(o.add(h, s), f), o.add(k, w));
  }

  /** One round as the code computes it: h is updated, then d, then h again. */
  function CodeRound<W>(c: Ops<W>, v: Working<W>, k: W, w: W): Working<W> {
    var h := c.add(v.h, c.add(c.add(c.bigSigma1(v.e), c.ch(v.e, v.f, v.g)), c.add(w, k)));
    Working(c.add(h, c.add(c.bigSigma0(v.a), c.maj(v.a, v.b, v.c))), v.a, v.b, v.c, c.add(v.d, h), v.e, v.f, v.g)
  }

  lemma RoundSame<W(!new)>(c: Ops<W>, o: Ops<W>, v: Working<W>, k: W, w: W)
    requires Rewrites(c, o)
    ensures CodeRound(c, v, k, w) == Round(o, v, k, w)
  {
    Regroup(c, o, v.h, c.bigSigma1(v.e), c.ch(v.e, v.f, v.g), k, w);
  }

  /** Where the array holds working variable number `j` in round `i`. */
  function Slot(i: nat, j: nat): (r: nat)
    requires i < 64 + j
    ensures r < 8
  {
    (64 + j - i) % 8
  }

  function View<W>(s: seq<W>, i: nat): Working<W>
    requires |s| == 8 && i < 64
  {
    Working(s[Slot(i, 0)], s[Slot(i, 1)], s[Slot(i, 2)], s[Slot(i, 3)],
            s[Slot(i, 4)], s[Slot(i, 5)], s[Slot(i, 6)], s[Slot(i, 7)])
  }

  lemma SlotNext(i: nat, j: nat)
    requires i < 63
    ensures Slot(i + 1, j + 1) == Slot(i, j) && Slot(i + 1, 0) == Slot(i, 7)
  {
  }

  lemma SlotsDiffer(i: nat, j: nat, j': nat)
    requires i < 64 && j < 8 && j' < 8 && j != j'
    ensures Slot(i, j) != Slot(i, j')
  {
  }

  lemma ViewNext<W>(s: seq<W>, i: nat)
    requires |s| == 8 && i < 63
    ensures var v := View(s, i); View(s, i + 1) == Working(v.h, v.a, v.b, v.c, v.d, v.e, v.f, v.g)
  {
    SlotNext(i, 0); SlotNext(i, 1); SlotNext(i, 2); SlotNext(i, 3);
    SlotNext(i, 4); SlotNext(i, 5); SlotNext(i, 6);
  }

  lemma ViewUpdate<W>(s: seq<W>, i: nat, d: W, h: W)
    requires |s| == 8 && i < 64
    ensures View(s[Slot(i, 3) := d][Slot(i, 7) := h], i) == View(s, i).(d := d, h := h)
  {
    forall j, j' | 0 <= j < 8 && 0 <= j' < 8 && j != j' ensures Slot(i, j) != Slot(i, j') { SlotsDiffer(i, j, j'); }
  }

  method Rnd<W>(c: Ops<W>, s: array<W>, i: nat, k: W, w: W)
    requires s.Length == 8 && i < 63
    modifies s
    ensures View(s[..], i + 1) == CodeRound(c, View(old(s[..]), i), k, w)
  {
    var d, h := Slot(i, 3), Slot(i, 7);
    ghost var was := s[..];
    SlotsDiffer(i, 3, 7);
    var sigma, ch := c.bigSigma1(s[Slot(i, 4)]), c.ch(s[Slot(i, 4)], s[Slot(i, 5)], s[Slot(i, 6)]);
    s[h] := c.add(s[h], c.add(c.add(sigma, ch), c.add(w, k)));
    s[d] := c.add(s[d], s[h]);
    SlotsDiffer(i, 0, 3); SlotsDiffer(i, 1, 3); SlotsDiffer(i, 2, 3);
    SlotsDiffer(i, 0, 7); SlotsDiffer(i, 1, 7); SlotsDiffer(i, 2, 7);
    s[h] := c.add(s[h], c.add(c.bigSigma0(s[Slot(i, 0)]), c.maj(s[Slot(i, 0)], s[Slot(i, 1)], s[Slot(i, 2)])));
    assert s[..] == was[d := s[d]][h := s[h]];
    ViewUpdate(was, i, s[d], s[h]);
    ViewNext(s[..], i);
  }

  /** What running with `c` needs for computing what `o` says. */
  ghost predicate Refines<W(!new)>(c: Ops<W>, o: Ops<W>) {
    && c == o.(ch := c.ch, maj := c.maj)
    && forall v, k, w {:trigger CodeRound(c, v, k, w)} :: CodeRound(c, v, k, w) == Round(o, v, k, w)
  }

  lemma RewritesRefines<W(!new)>(c: Ops<W>, o: Ops<W>)
    requires Rewrites(c, o)
    ensures Refines(c, o)
  {
    forall v, k, w ensures CodeRound(c, v, k, w) == Round(o, v, k, w) { RoundSame(c, o, v, k, w); }
  }

  /** The first `n` words of the schedule are in place. */
  ghost predicate Scheduled<W>(o: Ops<W>, m: seq<W>, w: seq<W>, n: nat)
    requires |m| == 16
  {
    n <= |w| && forall t: nat | t < n :: w[t] == Schedule(o, m, t)
  }

  lemma ScheduledNext<W>(o: Ops<W>, m: seq<W>, w: seq<W>, w': seq<W>, n: nat)
    requires |m| == 16 <= n < |w| && Scheduled(o, m, w, n)
    requires w' == w[n := o.add(o.add(o.add(o.smallSigma1(w[n - 2]), w[n - 7]), o.smallSigma0(w[n - 15])), w[n - 16])]
    ensures Scheduled(o, m, w', n + 1)
  {
  }

  /** In round `i` of its sixteen, `s` holds the working variables after `t` rounds in all. */
  ghost predicate Mixed<W>(o: Ops<W>, k: seq<W>, m: seq<W>, v: Working<W>, s: seq<W>, i: nat, t: nat)
    requires |m| == 16 && |s| == 8 && i < 64 && t <= |k|
  {
    View(s, i) == Rounds(o, k, m, v, t)
  }

  lemma MixedNext<W(!new)>(c: Ops<W>, o: Ops<W>, k: seq<W>, m: seq<W>, v: Working<W>, s: seq<W>, s': seq<W>, i: nat,
      t: nat)
    requires Refines(c, o) && |m| == 16 && |s| == |s'| == 8 && i < 63 && t < |k|
    requires Mixed(o, k, m, v, s, i, t) && View(s', i + 1) == CodeRound(c, View(s, i), k[t], Schedule(o, m, t))
    ensures Mixed(o, k, m, v, s', i + 1, t + 1)
  {
  }

  lemma MixedWrap<W>(o: Ops<W>, k: seq<W>, m: seq<W>, v: Working<W>, s: seq<W>, t: nat)
    requires |m| == 16 && |s| == 8 && t <= |k| && Mixed(o, k, m, v, s, 16, t)
    ensures Mixed(o, k, m, v, s, 0, t)
  {
    forall j: nat ensures Slot(16, j) == Slot(0, j) {}
  }

  /** Sixteen rounds, from round `i` on. */
  method MixBlock<W(!new)>(c: Ops<W>, ghost o: Ops<W>, k: seq<W>, ghost m: seq<W>, ghost v: Working<W>,
                           s: array<W>, w: array<W>, i: nat)
    requires Refines(c, o) && |k| == 64 == w.Length && |m| == 16 && s.Length == 8 && i + 16 <= 64 && s != w
    requires Scheduled(o, m, w[..], i + 16) && Mixed(o, k, m, v, s[..], 0, i)
    modifies s
    ensures Mixed(o, k, m, v, s[..], 0, i + 16)
  {
    for j := 0 to 16
      invariant Mixed(o, k, m, v, s[..], j, i + j)
    {
      ghost var was := s[..];
      assert w[..][i + j] == Schedule(o, m, i + j);
      Rnd(c, s, j, k[i + j], w[i + j]);
      MixedNext(c, o, k, m, v, was, s[..], j, i + j);
    }
    MixedWrap(o, k, m, v, s[..], i + 16);
  }

  /** The next sixteen words of the schedule. */
  method ExtendSchedule<W(!new)>(c: Ops<W>, ghost o: Ops<W>, ghost m: seq<W>, w: array<W>, i: nat)
    requires Refines(c, o) && |m| == 16 && w.Length == 64 && i + 32 <= 64 && Scheduled(o, m, w[..], i + 16)
    modifies w
    ensures Scheduled(o, m, w[..], i + 32)
  {
    for j := 0 to 16
      invariant Scheduled(o, m, w[..], i + 16 + j)
    {
      ghost var was := w[..];
      var n := i + j + 16;
      w[n] := c.add(c.add(c.add(c.smallSigma1(w[n - 2]), w[n - 7]), c.smallSigma0(w[n - 15])), w[n - 16]);
      ScheduledNext(o, m, was, w[..], n);
    }
  }

  method CopyWords<W>(dst: array<W>, src: seq<W>)
    requires |src| <= dst.Length
    modifies dst
    ensures dst[..|src|] == src
  {
    for t := 0 to |src|
      invariant dst[..t] == src[..t]
    {
      dst[t] := src[t];
    }
  }

  /** All 64 rounds on the copy `s` of the hash value. */
  method Mix<W(0, !new)>(c: Ops<W>, ghost o: Ops<W>, k: seq<W>, s: array<W>, m: seq<W>)
    requires Refines(c, o) && |k| == 64 && s.Length == 8 && |m| == 16
    modifies s
    ensures View(s[..], 0) == Rounds(o, k, m, View(old(s[..]), 0), |k|)
  {
    var w := new W[64];
    CopyWords(w, m);
    ghost var v := View(s[..], 0);
    assert Scheduled(o, m, w[..], 16) by { assert w[..16] == m; }
    assert Mixed(o, k, m, v, s[..], 0, 0);
    var i := 0;
    ghost var n: nat := 0;
    while true
      invariant n <= 3 && i == 16 * n
      invariant Scheduled(o, m, w[..], i + 16) && Mixed(o, k, m, v, s[..], 0, i)
      decreases 64 - i
    {
      MixBlock(c, o, k, m, v, s, w, i);
      if i == 48 { break; }
      ExtendSchedule(c, o, m, w, i);
      i, n := i + 16, n + 1;
    }
  }

  lemma CompressFrom<W>(o: Ops<W>, k: seq<W>, m: seq<W>, h: seq<W>, s: seq<W>, r: seq<W>)
    requires |m| == 16 && |k| == 64 && |h| == |s| == |r| == 8
    requires View(s, 0) == Rounds(o, k, m, View(h, 0), |k|) && forall t | 0 <= t < 8 :: r[t] == o.add(h[t], s[t])
    ensures r == Compress(o, k, m, h)
  {
    assert View(h, 0) == Working(h[0], h[1], h[2], h[3], h[4], h[5], h[6], h[7]);
    assert View(s, 0) == Working(s[0], s[1], s[2], s[3], s[4], s[5], s[6], s[7]);
  }

  method Transform<W(0, !new)>(c: Ops<W>, ghost o: Ops<W>, k: seq<W>, state: array<W>, m: seq<W>)
    requires Refines(c, o) && |k| == 64 && state.Length == 8 && |m| == 16
    modifies state
    ensures state[..] == Compress(o, k, m, old(state[..]))
  {
    ghost var was := state[..];
    var s := new W[8];
    CopyWords(s, state[..]);
    assert s[..] == s[..8] == was;
    Mix(c, o, k, s, m);
    AddWords(c, state, s[..]);
    CompressFrom(o, k, m, was, s[..], state[..]);
  }

  method AddWords<W>(c: Ops<W>, state: array<W>, s: seq<W>)
    requires state.Length == |s|
    modifies state
    ensures forall t | 0 <= t < |s| :: state[t] == c.add(old(state[t]), s[t])
  {
    for t := 0 to |s|
      invariant forall t' | 0 <= t' < t :: state[t'] == c.add(old(state[t']), s[t'])
      invariant forall t' | t <= t' < |s| :: state[t'] == old(state[t'])
    {
      state[t] := c.add(state[t], s[t]);
    }
  }
}
