/**
 Printing expressions with as few parentheses as expr_print (expr.c) does, and reading them
 back by the expression rules of the grammar (parser.y): NOT over AND over OR, both
 connectives left associative, comparisons only between symbols.
 */
module ExprPrint {
  import opened Tristate
  import opened Expr

  datatype Token = Name(sym: Sym) | Bang | Both | Either | Compare(op: RelOp) | Open | Close

  datatype Kind = NoKind | ListKind | OrKind | AndKind | NotKind | TestKind(op: RelOp) | SymbolKind

  function KindOf(e: Expr): Kind {
    match e
    case Symbol(_) => SymbolKind
    case Not(_) => NotKind
    case Bin(c, _, _) => if c == AndOp then AndKind else OrKind
    case Rel(op, _, _) => TestKind(op)
  }

  /** How tightly an operator binds, from the outermost on. */
  function Level(k: Kind): nat {
    match k
    case NoKind => 0
    case ListKind => 1
    case OrKind => 2
    case AndKind => 3
    case NotKind => 4
    case TestKind(op) => if op == Eq || op == Ne then 5 else 6
    case SymbolKind => 7
  }

  function CompareKind(outer: Kind, inner: Kind): int {
    if outer == inner then 0
    else if outer == SymbolKind then -1
    else if Level(outer) > Level(inner) then 1
    else -1
  }

  predicate Parenthesised(outer: Kind, e: Expr) {
    CompareKind(outer, KindOf(e)) > 0
  }

  /** The tokens of `e` inside an operator of kind `outer`, followed by `k`. */
  function Print(e: Expr, outer: Kind, k: seq<Token>): seq<Token>
    decreases e, 1
  {
    if Parenthesised(outer, e) then [Open] + Inner(e, [Close] + k) else Inner(e, k)
  }

  function Inner(e: Expr, k: seq<Token>): seq<Token>
    decreases e, 0
  {
    match e
    case Symbol(s) => [Name(s)] + k
    case Not(x) => [Bang] + Print(x, NotKind, k)
    case Rel(op, a, b) => [Name(a), Compare(op), Name(b)] + k
    case Bin(c, l, r) => Print(l, KindOf(e), [OpToken(c)] + Print(r, KindOf(e), k))
  }

  function OpToken(c: Conn): Token {
    if c == AndOp then Both else Either
  }

  /** Only an OR inside an AND or a NOT, and an AND inside a NOT, are put in parentheses. */
  lemma FewParentheses(outer: Kind, e: Expr)
    requires outer in {NoKind, OrKind, AndKind, NotKind}
    ensures Parenthesised(outer, e) <==>
            (Is(e, OrOp) && outer in {AndKind, NotKind}) || (Is(e, AndOp) && outer == NotKind)
  {
  }

  // ----- the grammar -----

  datatype Parsed = Fail | Done(e: Expr, rest: seq<Token>)

  /** A symbol, a comparison, a negation or an expression in parentheses. */
  function ParseUnary(ts: seq<Token>): (r: Parsed)
    ensures r.Done? ==> |r.rest| < |ts|
    decreases |ts|, 0
  {
    if ts == [] then Fail
    else if ts[0] == Bang then
      var r := ParseUnary(ts[1..]);
      if r.Done? then Done(Not(r.e), r.rest) else Fail
    else if ts[0] == Open then
      var r := ParseOr(ts[1..]);
      if r.Done? && r.rest != [] && r.rest[0] == Close then Done(r.e, r.rest[1..]) else Fail
    else if !ts[0].Name? then Fail
    else if |ts| > 1 && ts[1].Compare? then
      if |ts| > 2 && ts[2].Name? then Done(Rel(ts[1].op, ts[0].sym, ts[2].sym), ts[3..]) else Fail
    else Done(Symbol(ts[0].sym), ts[1..])
  }

  function ParseAnd(ts: seq<Token>): (r: Parsed)
    ensures r.Done? ==> |r.rest| < |ts|
    decreases |ts|, 2
  {
    var r := ParseUnary(ts);
    if r.Done? then MoreAnd(r.e, r.rest) else Fail
  }

  function MoreAnd(acc: Expr, ts: seq<Token>): (r: Parsed)
    ensures r.Done? ==> |r.rest| <= |ts|
    decreases |ts|, 1
  {
    if ts == [] || ts[0] != Both then Done(acc, ts)
    else
      var r := ParseUnary(ts[1..]);
      if r.Done? then MoreAnd(And(acc, r.e), r.rest) else Fail
  }

  function ParseOr(ts: seq<Token>): (r: Parsed)
    ensures r.Done? ==> |r.rest| < |ts|
    decreases |ts|, 4
  {
    var r := ParseAnd(ts);
    if r.Done? then MoreOr(r.e, r.rest) else Fail
  }

  function MoreOr(acc: Expr, ts: seq<Token>): (r: Parsed)
    ensures r.Done? ==> |r.rest| <= |ts|
    decreases |ts|, 3
  {
    if ts == [] || ts[0] != Either then Done(acc, ts)
    else
      var r := ParseAnd(ts[1..]);
      if r.Done? then MoreOr(Or(acc, r.e), r.rest) else Fail
  }

  function Parse(ts: seq<Token>): Option<Expr> {
    var r := ParseOr(ts);
    if r.Done? && r.rest == [] then Some(r.e) else None
  }

  /** The expression rules themselves, which leave open how to group. */
  ghost predicate Derives(ts: seq<Token>, e: Expr)
    decreases |ts|
  {
    || (|ts| > 1 && ts[0] == Open && ts[|ts| - 1] == Close && Derives(ts[1..|ts| - 1], e))
    || match e
       case Symbol(s) => ts == [Name(s)]
       case Rel(op, a, b) => ts == [Name(a), Compare(op), Name(b)]
       case Not(x) => ts != [] && ts[0] == Bang && Derives(ts[1..], x)
       case Bin(c, l, r) =>
         exists i | 0 <= i < |ts| :: ts[i] == OpToken(c) && Derives(ts[..i], l) && Derives(ts[i + 1..], r)
  }

  /** The tokens of `ts` before its end `rest`. */
  function Used(ts: seq<Token>, rest: seq<Token>): seq<Token>
    requires |rest| <= |ts|
  {
    ts[..|ts| - |rest|]
  }

  ghost predicate Suffix(ts: seq<Token>, rest: seq<Token>) {
    |rest| <= |ts| && ts[|ts| - |rest|..] == rest
  }

  lemma UsedTwice(ts: seq<Token>, mid: seq<Token>, rest: seq<Token>)
    requires Suffix(ts, mid) && Suffix(mid, rest)
    ensures Suffix(ts, rest) && Used(ts, mid) + Used(mid, rest) == Used(ts, rest)
  {
    assert forall i | 0 <= i < |mid| :: mid[i] == ts[|ts| - |mid| + i];
  }

  lemma UsedNext(t: seq<Token>, ts: seq<Token>, mid: seq<Token>, rest: seq<Token>)
    requires ts != [] && Suffix(ts[1..], mid) && Suffix(mid, rest)
    ensures Suffix(ts, rest) && t + [ts[0]] + Used(ts[1..], mid) + Used(mid, rest) == t + Used(ts, rest)
  {
    UsedTwice(ts[1..], mid, rest);
    assert [ts[0]] + Used(ts[1..], rest) == Used(ts, rest);
    Regroup(t, [ts[0]], Used(ts[1..], mid), Used(mid, rest));
  }

  lemma Regroup(t: seq<Token>, u: seq<Token>, v: seq<Token>, w: seq<Token>)
    ensures t + u + v + w == t + (u + (v + w))
  {
  }

  lemma DerivesBin(c: Conn, l: Expr, r: Expr, t: seq<Token>, u: seq<Token>)
    requires Derives(t, l) && Derives(u, r)
    ensures Derives(t + [OpToken(c)] + u, Bin(c, l, r))
  {
    var ts := t + [OpToken(c)] + u;
    assert ts[..|t|] == t && ts[|t| + 1..] == u && ts[|t|] == OpToken(c);
  }

  lemma {:induction false} UnarySound(ts: seq<Token>)
    requires ParseUnary(ts).Done?
    ensures var r := ParseUnary(ts); Suffix(ts, r.rest) && Derives(Used(ts, r.rest), r.e)
    decreases |ts|, 0
  {
    var r := ParseUnary(ts);
    var used := Used(ts, r.rest);
    if ts[0] == Bang {
      UnarySound(ts[1..]);
      assert used[1..] == Used(ts[1..], r.rest);
    } else if ts[0] == Open {
      OrSound(ts[1..]);
      assert used[1..|used| - 1] == Used(ts[1..], ParseOr(ts[1..]).rest);
    } else if |ts| > 1 && ts[1].Compare? {
      assert used == [ts[0], ts[1], ts[2]];
    } else {
      assert used == [ts[0]];
    }
  }

  lemma {:induction false} MoreAndSound(t: seq<Token>, acc: Expr, ts: seq<Token>)
    requires Derives(t, acc) && MoreAnd(acc, ts).Done?
    ensures var r := MoreAnd(acc, ts); Suffix(ts, r.rest) && Derives(t + Used(ts, r.rest), r.e)
    decreases |ts|, 1
  {
    if ts != [] && ts[0] == Both {
      UnarySound(ts[1..]);
      var u := ParseUnary(ts[1..]);
      var next := t + [OpToken(AndOp)] + Used(ts[1..], u.rest);
      DerivesBin(AndOp, acc, u.e, t, Used(ts[1..], u.rest));
      MoreAndSound(next, And(acc, u.e), u.rest);
      UsedNext(t, ts, u.rest, MoreAnd(acc, ts).rest);
    } else {
      assert t + Used(ts, ts) == t;
    }
  }

  lemma {:induction false} AndSound(ts: seq<Token>)
    requires ParseAnd(ts).Done?
    ensures var r := ParseAnd(ts); Suffix(ts, r.rest) && Derives(Used(ts, r.rest), r.e)
    decreases |ts|, 2
  {
    UnarySound(ts);
    var u := ParseUnary(ts);
    MoreAndSound(Used(ts, u.rest), u.e, u.rest);
    UsedTwice(ts, u.rest, ParseAnd(ts).rest);
  }

  lemma {:induction false} MoreOrSound(t: seq<Token>, acc: Expr, ts: seq<Token>)
    requires Derives(t, acc) && MoreOr(acc, ts).Done?
    ensures var r := MoreOr(acc, ts); Suffix(ts, r.rest) && Derives(t + Used(ts, r.rest), r.e)
    decreases |ts|, 3
  {
    if ts != [] && ts[0] == Either {
      AndSound(ts[1..]);
      var u := ParseAnd(ts[1..]);
      var next := t + [OpToken(OrOp)] + Used(ts[1..], u.rest);
      DerivesBin(OrOp, acc, u.e, t, Used(ts[1..], u.rest));
      MoreOrSound(next, Or(acc, u.e), u.rest);
      UsedNext(t, ts, u.rest, MoreOr(acc, ts).rest);
    } else {
      assert t + Used(ts, ts) == t;
    }
  }

  lemma {:induction false} OrSound(ts: seq<Token>)
    requires ParseOr(ts).Done?
    ensures var r := ParseOr(ts); Suffix(ts, r.rest) && Derives(Used(ts, r.rest), r.e)
    decreases |ts|, 4
  {
    AndSound(ts);
    var u := ParseAnd(ts);
    MoreOrSound(Used(ts, u.rest), u.e, u.rest);
    UsedTwice(ts, u.rest, ParseOr(ts).rest);
  }

  /** What the parser returns follows the rules. */
  lemma ParseSound(ts: seq<Token>)
    requires Parse(ts).Some?
    ensures Derives(ts, Parse(ts).value)
  {
    OrSound(ts);
    assert Used(ts, []) == ts;
  }

  // ----- what comes back -----

  /** Chains of one connective nested to the left. */
  function Left(e: Expr): Expr
    decreases e, 0
  {
    match e
    case Not(x) => Not(Left(x))
    case Bin(c, l, r) => Graft(c, Left(l), r)
    case _ => e
  }

  /** `acc` and then the operands of `e`, one after the other. */
  function Graft(c: Conn, acc: Expr, e: Expr): Expr
    decreases e, 1
  {
    if Is(e, c) then Graft(c, Graft(c, acc, e.left), e.right) else Bin(c, acc, Left(e))
  }

  /** `k` does not go on with a comparison. */
  predicate NoTest(k: seq<Token>) {
    k == [] || !k[0].Compare?
  }

  predicate NoAnd(k: seq<Token>) {
    k == [] || k[0] != Both
  }

  /** Which of the lemmas below rests on which for the same expression. */
  function Order(e: Expr, unary: nat, and: nat, or: nat): nat {
    if Is(e, OrOp) then or else if Is(e, AndOp) then and else unary
  }

  lemma {:induction false} UnaryBack(e: Expr, k: seq<Token>)
    requires NoTest(k)
    ensures ParseUnary(Print(e, NotKind, k)) == Done(Left(e), k)
    decreases e, Order(e, 1, 3, 2)
  {
    match e
    case Symbol(s) => assert ([Name(s)] + k)[1..] == k;
    case Rel(op, a, b) => assert ([Name(a), Compare(op), Name(b)] + k)[3..] == k;
    case Not(x) =>
      UnaryBack(x, k);
      assert ([Bang] + Print(x, NotKind, k))[1..] == Print(x, NotKind, k);
    case Bin(_, _, _) =>
      var ts := Inner(e, [Close] + k);
      assert ([Open] + ts)[1..] == ts == Print(e, OrKind, [Close] + k);
      OrBack(e, [Close] + k);
      assert ([Close] + k)[1..] == k;
  }

  lemma {:induction false} AndBack(e: Expr, k: seq<Token>)
    requires NoTest(k)
    ensures ParseAnd(Print(e, AndKind, k)) == MoreAnd(Left(e), k)
    decreases e, Order(e, 2, 1, 3)
  {
    if Is(e, AndOp) {
      AndBack(e.left, [Both] + Print(e.right, AndKind, k));
      MoreAndBack(Left(e.left), e.right, k);
    } else {
      UnaryBack(e, k);
    }
  }

  lemma {:induction false} MoreAndBack(acc: Expr, e: Expr, k: seq<Token>)
    requires NoTest(k)
    ensures MoreAnd(acc, [Both] + Print(e, AndKind, k)) == MoreAnd(Graft(AndOp, acc, e), k)
    decreases e, 4
  {
    if Is(e, AndOp) {
      MoreAndBack(acc, e.left, [Both] + Print(e.right, AndKind, k));
      MoreAndBack(Graft(AndOp, acc, e.left), e.right, k);
    } else {
      assert ([Both] + Print(e, AndKind, k))[1..] == Print(e, NotKind, k);
      UnaryBack(e, k);
    }
  }

  lemma {:induction false} OrBack(e: Expr, k: seq<Token>)
    requires NoTest(k) && NoAnd(k)
    ensures ParseOr(Print(e, OrKind, k)) == MoreOr(Left(e), k)
    decreases e, Order(e, 3, 2, 1)
  {
    if Is(e, OrOp) {
      OrBack(e.left, [Either] + Print(e.right, OrKind, k));
      MoreOrBack(Left(e.left), e.right, k);
    } else {
      AndBack(e, k);
    }
  }

  lemma {:induction false} MoreOrBack(acc: Expr, e: Expr, k: seq<Token>)
    requires NoTest(k) && NoAnd(k)
    ensures MoreOr(acc, [Either] + Print(e, OrKind, k)) == MoreOr(Graft(OrOp, acc, e), k)
    decreases e, 4
  {
    if Is(e, OrOp) {
      MoreOrBack(acc, e.left, [Either] + Print(e.right, OrKind, k));
      MoreOrBack(Graft(OrOp, acc, e.left), e.right, k);
    } else {
      assert ([Either] + Print(e, OrKind, k))[1..] == Print(e, AndKind, k);
      AndBack(e, k);
    }
  }

  /** Reading back what was printed gives the expression with its chains nested to the left. */
  lemma PrintParse(e: Expr)
    ensures Parse(Print(e, NoKind, [])) == Some(Left(e))
  {
    assert Print(e, NoKind, []) == Print(e, OrKind, []);
    OrBack(e, []);
  }

  lemma {:induction false} GraftValue(c: Conn, acc: Expr, e: Expr, env: Env)
    ensures Value(Graft(c, acc, e), env) == Apply(c, Value(acc, env), Value(e, env))
    decreases e, 1
  {
    if Is(e, c) {
      GraftValue(c, acc, e.left, env);
      GraftValue(c, Graft(c, acc, e.left), e.right, env);
    } else {
      LeftValue(e, env);
    }
  }

  /** Which has the same value in every environment. */
  lemma {:induction false} LeftValue(e: Expr, env: Env)
    ensures Value(Left(e), env) == Value(e, env)
    decreases e, 0
  {
    match e
    case Not(x) => LeftValue(x, env);
    case Bin(c, l, r) =>
      LeftValue(l, env);
      GraftValue(c, Left(l), r, env);
    case _ =>
  }

  predicate LeftNested(e: Expr) {
    match e
    case Not(x) => LeftNested(x)
    case Bin(c, l, r) => LeftNested(l) && LeftNested(r) && !Is(r, c)
    case _ => true
  }

  lemma {:induction false} GraftNested(c: Conn, acc: Expr, e: Expr)
    requires LeftNested(acc)
    ensures LeftNested(Graft(c, acc, e)) && Is(Graft(c, acc, e), c)
    decreases e, 1
  {
    if Is(e, c) {
      GraftNested(c, acc, e.left);
      GraftNested(c, Graft(c, acc, e.left), e.right);
    } else {
      LeftIsNested(e);
    }
  }

  lemma {:induction false} LeftIsNested(e: Expr)
    ensures LeftNested(Left(e)) && KindOf(Left(e)) == KindOf(e)
    decreases e, 0
  {
    match e
    case Not(x) => LeftIsNested(x);
    case Bin(c, l, r) =>
      LeftIsNested(l);
      GraftNested(c, Left(l), r);
    case _ =>
  }

  lemma {:induction false} NestedIsLeft(e: Expr)
    requires LeftNested(e)
    ensures Left(e) == e
  {
    match e
    case Not(x) => NestedIsLeft(x);
    case Bin(_, l, r) => NestedIsLeft(l); NestedIsLeft(r);
    case _ =>
  }

  /** The very same expression comes back exactly if its chains are nested to the left. */
  lemma PrintParseExact(e: Expr)
    ensures Parse(Print(e, NoKind, [])) == Some(e) <==> LeftNested(e)
  {
    PrintParse(e);
    LeftIsNested(e);
    if LeftNested(e) { NestedIsLeft(e); }
  }

  lemma {:induction false} GraftPrint(c: Conn, acc: Expr, e: Expr, k: seq<Token>)
    ensures var o := KindOf(Bin(c, acc, e)); Inner(Graft(c, acc, e), k) == Print(acc, o, [OpToken(c)] + Print(e, o, k))
    ensures Is(Graft(c, acc, e), c)
    decreases e, 1
  {
    var o := KindOf(Bin(c, acc, e));
    if Is(e, c) {
      GraftPrint(c, acc, e.left, [OpToken(c)] + Print(e.right, o, k));
      GraftPrint(c, Graft(c, acc, e.left), e.right, k);
    } else {
      LeftPrint(e, o, k);
    }
  }

  /** Nesting does not show: both forms are printed alike. */
  lemma {:induction false} LeftPrint(e: Expr, outer: Kind, k: seq<Token>)
    ensures Print(Left(e), outer, k) == Print(e, outer, k)
    decreases e, 0
  {
    LeftIsNested(e);
    var k' := if Parenthesised(outer, e) then [Close] + k else k;
    match e
    case Not(x) => LeftPrint(x, NotKind, k');
    case Bin(c, l, r) =>
      LeftPrint(l, KindOf(e), [OpToken(c)] + Print(r, KindOf(e), k'));
      GraftPrint(c, Left(l), r, k');
    case _ =>
  }

  // ----- the code -----

  lemma {:induction false} PrintAppend(e: Expr, outer: Kind, k: seq<Token>, m: seq<Token>)
    ensures Print(e, outer, k) + m == Print(e, outer, k + m)
    decreases e, 1
  {
    if Parenthesised(outer, e) {
      InnerAppend(e, [Close] + k, m);
      assert [Close] + k + m == [Close] + (k + m);
      assert [Open] + Inner(e, [Close] + k) + m == [Open] + (Inner(e, [Close] + k) + m);
    } else {
      InnerAppend(e, k, m);
    }
  }

  lemma {:induction false} InnerAppend(e: Expr, k: seq<Token>, m: seq<Token>)
    ensures Inner(e, k) + m == Inner(e, k + m)
    decreases e, 0
  {
    match e
    case Symbol(s) => assert [Name(s)] + k + m == [Name(s)] + (k + m);
    case Rel(op, a, b) => assert [Name(a), Compare(op), Name(b)] + k + m == [Name(a), Compare(op), Name(b)] + (k + m);
    case Not(x) =>
      PrintAppend(x, NotKind, k, m);
      assert [Bang] + Print(x, NotKind, k) + m == [Bang] + (Print(x, NotKind, k) + m);
    case Bin(c, l, r) =>
      var o := KindOf(e);
      PrintAppend(r, o, k, m);
      PrintAppend(l, o, [OpToken(c)] + Print(r, o, k), m);
      assert [OpToken(c)] + Print(r, o, k) + m == [OpToken(c)] + (Print(r, o, k) + m);
  }

  class Printer {
    var out: seq<Token>

    constructor ()
      ensures out == []
    {
      out := [];
    }

    method Emit(t: Token)
      modifies this
      ensures out == old(out) + [t]
    {
      out := out + [t];
    }

    method PrintExpr(e: Expr, prev: Kind)
      modifies this
      ensures out == old(out) + Print(e, prev, [])
      decreases e, 2
    {
      if CompareKind(prev, KindOf(e)) > 0 {
        Emit(Open);
        PrintInner(e);
        Emit(Close);
        InnerAppend(e, [], [Close]);
        assert [] + [Close] == [Close] == [Close] + [];
        assert old(out) + [Open] + Inner(e, []) + [Close] == old(out) + ([Open] + (Inner(e, []) + [Close]));
      } else {
        PrintInner(e);
      }
    }

    method PrintInner(e: Expr)
      modifies this
      ensures out == old(out) + Inner(e, [])
      decreases e, 1
    {
      match e
      case Symbol(s) => Emit(Name(s));
      case Not(x) =>
        Emit(Bang);
        PrintExpr(x, NotKind);
      case Rel(op, a, b) =>
        Emit(Name(a));
        Emit(Compare(op));
        Emit(Name(b));
      case Bin(_, _, _) => PrintBin(e);
    }

    method PrintBin(e: Expr)
      requires e.Bin?
      modifies this
      ensures out == old(out) + Inner(e, [])
      decreases e, 0
    {
      ghost var was, o := out, KindOf(e);
      ghost var left, op, right := Print(e.left, o, []), OpToken(e.conn), Print(e.right, o, []);
      PrintExpr(e.left, KindOf(e));
      Emit(OpToken(e.conn));
      PrintExpr(e.right, KindOf(e));
      PrintAppend(e.left, o, [], [op] + right);
      assert [] + ([op] + right) == [op] + right;
      assert was + left + [op] + right == was + (left + ([op] + right));
    }
  }
}
