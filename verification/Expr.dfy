/**
 Dependency expressions, the environments they are read in, and their value.
 */
module Expr {
  import opened Tristate

  datatype SymType = Unknown | Boolean | Tristate | Int | Hex | Text

  /**
   A symbol is an identity together with its declared type.  `SymY`, `SymM` and
   `SymN` are the three built-in constants; `Quoted` is any other constant and
   `Config` any declared or referenced configuration symbol.
   */
  datatype Sym = SymY | SymM | SymN | Quoted(name: string) | Config(id: nat, kind: SymType) {

    function Type(): SymType {
      if Config? then kind else Unknown
    }

    predicate IsConst() {
      !Config?
    }

    predicate IsYmn() {
      SymY? || SymM? || SymN?
    }

    /** Symbols whose text always follows their tristate value. */
    predicate IsLogical() {
      IsYmn() || Type() == Boolean || Type() == Tristate
    }
  }

  datatype RelOp = Eq | Ne | Lt | Le | Gt | Ge

  datatype Conn = AndOp | OrOp

  datatype Expr =
    | Symbol(sym: Sym)
    | Not(arg: Expr)
    | Bin(conn: Conn, left: Expr, right: Expr)
    | Rel(op: RelOp, a: Sym, b: Sym)

  const ExprY := Symbol(SymY)
  const ExprM := Symbol(SymM)
  const ExprN := Symbol(SymN)

  function And(l: Expr, r: Expr): Expr { Bin(AndOp, l, r) }
  function Or(l: Expr, r: Expr): Expr { Bin(OrOp, l, r) }

  predicate Is(e: Expr, c: Conn) {
    e.Bin? && e.conn == c
  }

  function Size(e: Expr): (n: nat)
    ensures n >= 1
  {
    match e
    case Not(x) => 1 + Size(x)
    case Bin(_, l, r) => 1 + Size(l) + Size(r)
    case _ => 1
  }

  // ----- environments -----

  /** Outcome of reading a symbol's text as a number. */
  datatype Number = NotANumber | Signed(s: int) | Unsigned(u: nat) {
    /** The 64-bit word both readings share in memory. */
    function Word(): int {
      match this
      case NotANumber => 0
      case Signed(s) => s % 0x1_0000_0000_0000_0000
      case Unsigned(u) => u
    }
  }

  /**
   What the values of all symbols are.  `num` stands for the C library's integer
   parser applied to a symbol's text in the base its type calls for.
   */
  datatype Env = Env(tri: Sym -> Tri, text: Sym -> string, num: (SymType, string) -> Number)

  function Compare(a: string, b: string): int {
    if a == [] then (if b == [] then 0 else -1)
    else if b == [] then 1
    else if a[0] != b[0] then a[0] as int - b[0] as int
    else Compare(a[1..], b[1..])
  }

  lemma {:induction false} CompareZero(a: string, b: string)
    ensures Compare(a, b) == 0 <==> a == b
  {
    if a != [] && b != [] {
      assert a == [a[0]] + a[1..] && b == [b[0]] + b[1..];
      CompareZero(a[1..], b[1..]);
    }
  }

  function Sign(d: int): int {
    if d < 0 then -1 else if d > 0 then 1 else 0
  }

  function ParseNumber(env: Env, t: SymType, s: string): Number {
    if t == Boolean || t == Tristate then
      Signed(if s == "n" then 0 else if s == "m" then 1 else if s == "y" then 2 else -1)
    else
      env.num(t, s)
  }

  function CompareSyms(env: Env, a: Sym, b: Sym): int {
    var textual := a.Type() == Text && b.Type() == Text;
    var ka := if textual then NotANumber else ParseNumber(env, a.Type(), env.text(a));
    var kb := if textual then NotANumber else ParseNumber(env, b.Type(), env.text(b));
    if ka.NotANumber? || kb.NotANumber? then Compare(env.text(a), env.text(b))
    else if ka.Unsigned? || kb.Unsigned? then Sign(ka.Word() - kb.Word())
    else Sign(ka.s - kb.s)
  }

  predicate Holds(op: RelOp, res: int) {
    match op
    case Eq => res == 0
    case Ne => res != 0
    case Lt => res < 0
    case Le => res <= 0
    case Gt => res > 0
    case Ge => res >= 0
  }

  function Apply(c: Conn, x: Tri, y: Tri): Tri {
    if c == AndOp then TriAnd(x, y) else TriOr(x, y)
  }

  function Dual(c: Conn): Conn {
    if c == AndOp then OrOp else AndOp
  }

  /** The value that leaves the other operand of `c` unchanged. */
  function Unit(c: Conn): Expr {
    if c == AndOp then ExprY else ExprN
  }

  function Value(e: Expr, env: Env): Tri {
    match e
    case Symbol(s) => env.tri(s)
    case Not(x) => TriNot(Value(x, env))
    case Bin(c, l, r) => Apply(c, Value(l, env), Value(r, env))
    case Rel(op, a, b) => FromBool(Holds(op, CompareSyms(env, a, b)))
  }

  /** An absent expression counts as yes. */
  function ValueOpt(e: Option<Expr>, env: Env): Tri {
    if e.Some? then Value(e.value, env) else YES
  }

  /**
   The facts every environment produced by symbol evaluation satisfies: the
   constants have their values, bool symbols are never mod, the text of a
   bool or tristate symbol spells its value, and y, m, n are not numbers.
   */
  ghost predicate WellFormed(env: Env) {
    && env.tri(SymY) == YES && env.tri(SymM) == MOD && env.tri(SymN) == NO
    && (forall s: Sym :: s.IsLogical() ==> env.text(s) == TriText(env.tri(s)))
    && (forall s: Sym :: s.Type() == Boolean ==> env.tri(s) != MOD)
    && (forall n: string :: env.text(Quoted(n)) == n)
    && (forall t: Tri :: env.num(Unknown, TriText(t)) == NotANumber)
  }

  /** The tristate value a constant equals in a comparison with a tristate symbol, if any. */
  function Denotes(env: Env, c: Sym): Option<Tri>
    requires c.IsConst()
  {
    match c
    case SymY => Some(YES)
    case SymM => Some(MOD)
    case SymN => Some(NO)
    case Quoted(name) =>
      match env.num(Unknown, name)
      case NotANumber => None
      case Signed(s) => if 0 <= s <= 2 then Some(s) else None
      case Unsigned(u) => if u <= 2 then Some(u) else None
  }

  predicate AdmissibleRel(op: RelOp, a: Sym, b: Sym, env: Env) {
    b.Quoted? ==>
      && b.name != "y" && b.name != "m" && b.name != "n"
      && (a.Type() == Tristate && (op == Eq || op == Ne) ==> Denotes(env, b).None?)
  }

  /**
   The domain of the optimiser: the names y, m, n always denote the built-in
   constants, and tristate symbols are not tested for equality with a constant
   that looks like one of the numbers 0, 1, 2.
   */
  predicate Admissible(e: Expr, env: Env) {
    match e
    case Symbol(_) => true
    case Not(x) => Admissible(x, env)
    case Bin(_, l, r) => Admissible(l, env) && Admissible(r, env)
    case Rel(op, a, b) => AdmissibleRel(op, a, b, env)
  }

  lemma TriTextInjective(t: Tri, u: Tri)
    ensures TriText(t) == TriText(u) <==> t == u
  {
  }

  /** Comparing a logical symbol with y, m or n compares their values. */
  lemma CompareYmn(env: Env, a: Sym, c: Sym)
    requires WellFormed(env) && a.IsLogical() && c.IsYmn()
    ensures CompareSyms(env, a, c) == 0 <==> env.tri(a) == env.tri(c)
  {
    assert env.num(Unknown, TriText(env.tri(c))) == NotANumber;
    CompareZero(env.text(a), env.text(c));
    TriTextInjective(env.tri(a), env.tri(c));
  }

  lemma TestYmn(env: Env, a: Sym, c: Sym)
    requires WellFormed(env) && a.IsLogical() && c.IsYmn()
    ensures Value(Rel(Eq, a, c), env) == FromBool(env.tri(a) == env.tri(c))
    ensures Value(Rel(Ne, a, c), env) == FromBool(env.tri(a) != env.tri(c))
  {
    CompareYmn(env, a, c);
  }

  /** Comparing a tristate symbol with a constant compares its value with what the constant denotes. */
  lemma CompareConst(env: Env, a: Sym, c: Sym)
    requires WellFormed(env) && a.Type() == Tristate && c.IsConst()
    requires c.Quoted? ==> c.name != "y" && c.name != "m" && c.name != "n"
    ensures CompareSyms(env, a, c) == 0 <==> Denotes(env, c) == Some(env.tri(a))
  {
    if c.Quoted? {
      CompareZero(env.text(a), env.text(c));
    } else {
      CompareYmn(env, a, c);
    }
  }

  // ----- relations -----

  /**
   How `a` reads in a comparison with `b`: two strings are never numbers, a bool or tristate
   counts as 0, 1 or 2, and anything else is left to the C library, in the base of its type.
   */
  function Reading(env: Env, a: Sym, b: Sym): Number {
    if a.Type() == Text && b.Type() == Text then NotANumber
    else if a.Type() == Boolean || a.Type() == Tristate then Signed(env.tri(a))
    else env.num(a.Type(), env.text(a))
  }

  lemma ReadingParsed(env: Env, a: Sym, b: Sym)
    requires WellFormed(env) && !(a.Type() == Text && b.Type() == Text)
    ensures ParseNumber(env, a.Type(), env.text(a)) == Reading(env, a, b)
  {
  }

  /** The 64-bit word of a number the C library returns. */
  predicate InWord(n: Number, w: int) {
    match n
    case NotANumber => false
    case Unsigned(u) => w == u
    case Signed(s) =>
      -0x8000_0000_0000_0000 <= s < 0x8000_0000_0000_0000 && w == if s < 0 then s + 0x1_0000_0000_0000_0000 else s
  }

  /** The six relations hold of `a` and `b` as they do of the numbers `i` and `j`. */
  ghost predicate RelatedAs(env: Env, a: Sym, b: Sym, i: int, j: int) {
    && Value(Rel(Lt, a, b), env) == FromBool(i < j) && Value(Rel(Le, a, b), env) == FromBool(i <= j)
    && Value(Rel(Gt, a, b), env) == FromBool(i > j) && Value(Rel(Ge, a, b), env) == FromBool(i >= j)
    && Value(Rel(Eq, a, b), env) == FromBool(i == j) && Value(Rel(Ne, a, b), env) == FromBool(i != j)
  }

  /** Where both read as signed numbers, the relations are those of the numbers. */
  lemma RelSigned(env: Env, a: Sym, b: Sym, i: int, j: int)
    requires WellFormed(env) && Reading(env, a, b) == Signed(i) && Reading(env, b, a) == Signed(j)
    ensures RelatedAs(env, a, b, i, j)
  {
    ReadingParsed(env, a, b);
    ReadingParsed(env, b, a);
    assert CompareSyms(env, a, b) == Sign(i - j);
  }

  /** Where one is unsigned, they are those of the 64-bit words: a negative number counts from the top. */
  lemma RelUnsigned(env: Env, a: Sym, b: Sym, i: int, j: int)
    requires WellFormed(env) && InWord(Reading(env, a, b), i) && InWord(Reading(env, b, a), j)
    requires Reading(env, a, b).Unsigned? || Reading(env, b, a).Unsigned?
    ensures RelatedAs(env, a, b, i, j)
  {
    ReadingParsed(env, a, b);
    ReadingParsed(env, b, a);
    WordIs(Reading(env, a, b), i);
    WordIs(Reading(env, b, a), j);
    assert CompareSyms(env, a, b) == Sign(i - j);
  }

  lemma WordIs(n: Number, w: int)
    requires InWord(n, w)
    ensures n.Word() == w
  {
  }

  /** `x` comes before `y`: it is a proper prefix of it, or smaller at the first place where they differ. */
  ghost predicate Precedes(x: string, y: string) {
    || x < y
    || exists k: nat | k < |x| && k < |y| :: x[..k] == y[..k] && x[k] < y[k]
  }

  lemma {:induction false} CompareOrder(x: string, y: string)
    ensures Compare(x, y) < 0 <==> Precedes(x, y)
    ensures Compare(x, y) > 0 <==> Precedes(y, x)
  {
    if x != [] && y != [] && x[0] == y[0] {
      CompareOrder(x[1..], y[1..]);
      PrecedesTail(x, y);
      PrecedesTail(y, x);
    } else if x != [] && y != [] {
      assert x[..0] == y[..0];
    }
  }

  lemma PrecedesTail(x: string, y: string)
    requires x != [] && y != [] && x[0] == y[0]
    ensures Precedes(x, y) <==> Precedes(x[1..], y[1..])
  {
    assert x == [x[0]] + x[1..] && y == [y[0]] + y[1..];
    if k: nat :| k < |x| && k < |y| && x[..k] == y[..k] && x[k] < y[k] {
      assert x[1..][..k - 1] == x[..k][1..] && y[1..][..k - 1] == y[..k][1..];
    }
    if k: nat :| k < |x[1..]| && k < |y[1..]| && x[1..][..k] == y[1..][..k] && x[1..][k] < y[1..][k] {
      assert x[..k + 1] == [x[0]] + x[1..][..k] && y[..k + 1] == [y[0]] + y[1..][..k];
    }
  }

  /** Where one is no number, they are those of the texts. */
  lemma RelText(env: Env, a: Sym, b: Sym)
    requires WellFormed(env) && (Reading(env, a, b).NotANumber? || Reading(env, b, a).NotANumber?)
    ensures var x, y := env.text(a), env.text(b);
            && Value(Rel(Lt, a, b), env) == (if Precedes(x, y) then YES else NO)
            && Value(Rel(Le, a, b), env) == (if Precedes(y, x) then NO else YES)
            && Value(Rel(Gt, a, b), env) == (if Precedes(y, x) then YES else NO)
            && Value(Rel(Ge, a, b), env) == (if Precedes(x, y) then NO else YES)
            && Value(Rel(Eq, a, b), env) == FromBool(x == y) && Value(Rel(Ne, a, b), env) == FromBool(x != y)
  {
    CompareOrder(env.text(a), env.text(b));
    CompareZero(env.text(a), env.text(b));
  }

  /** The relations of two logical symbols that are not constants are those of their values. */
  lemma RelLogical(env: Env, a: Sym, b: Sym)
    requires WellFormed(env) && a.IsLogical() && b.IsLogical() && !a.IsConst() && !b.IsConst()
    ensures RelatedAs(env, a, b, env.tri(a), env.tri(b))
  {
    RelSigned(env, a, b, env.tri(a), env.tri(b));
  }
}
