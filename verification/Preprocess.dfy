/**
 Macro expansion in configuration files (preprocess.c): `$(name)`, `$(name,arg,...)`,
 positional arguments, built-in functions and environment variables.

 A pointer into a string is modelled by the text from that point on.
 */
module Preprocess {
  import opened Tristate

  /** `StoreOutOfBounds` is not reported: the code writes behind its vector of arguments, and C defines no outcome. */
  datatype Error = UnterminatedReference | TooManyArguments | StoreOutOfBounds | RecursiveVariable | TooDeep
                 | TooFewFunctionArguments | TooManyFunctionArguments | ShellFailed | UserError(message: string)

  datatype Result<T> = Ok(value: T) | Err(error: Error)

  datatype Flavor = Simple | Recursive

  datatype Variable = Variable(name: string, value: string, flavor: Flavor, expCount: nat)

  /** What expansion asks of its surroundings; `number` is the value of a text that is all number. */
  datatype World = World(
    number: string -> Option<nat>, getenv: string -> Option<string>, shell: string -> Option<string>,
    fileName: string, lineNumber: string)

  const MAX_ARGS: nat := 16
  const MAX_DEPTH: nat := 1000

  datatype Stop = EndOfString | EndOfToken

  predicate IsEnd(stop: Stop, c: char) {
    stop == EndOfToken &&
    !('a' <= c <= 'z' || 'A' <= c <= 'Z' || '0' <= c <= '9' || c == '_' || c == '-' || c == '.' || c == '/')
  }

  // ----- variables -----

  predicate Bounded(vs: seq<Variable>) {
    forall i | 0 <= i < |vs| :: vs[i].expCount <= MAX_DEPTH + 1
  }

  /** How many more times variables can be entered. */
  function Budget(vs: seq<Variable>): nat
    requires Bounded(vs)
  {
    if vs == [] then 0 else MAX_DEPTH + 1 - vs[0].expCount + Budget(vs[1..])
  }

  function Lookup(vs: seq<Variable>, name: string): (r: Option<nat>)
    ensures r.Some? ==> r.value < |vs| && vs[r.value].name == name
    ensures r.None? ==> forall i | 0 <= i < |vs| :: vs[i].name != name
  {
    if vs == [] then None
    else if vs[0].name == name then Some(0)
    else match Lookup(vs[1..], name) case None => None case Some(i) => Some(i + 1)
  }

  function Enter(vs: seq<Variable>, i: nat): (r: seq<Variable>)
    requires i < |vs| && Bounded(vs) && vs[i].expCount <= MAX_DEPTH
    ensures Bounded(r) && Budget(r) < Budget(vs)
  {
    var r := vs[i := vs[i].(expCount := vs[i].expCount + 1)];
    EnterBudget(vs, i);
    r
  }

  lemma {:induction false} EnterBudget(vs: seq<Variable>, i: nat)
    requires i < |vs| && Bounded(vs) && vs[i].expCount <= MAX_DEPTH
    ensures var r := vs[i := vs[i].(expCount := vs[i].expCount + 1)]; Bounded(r) && Budget(r) + 1 == Budget(vs)
  {
    var r := vs[i := vs[i].(expCount := vs[i].expCount + 1)];
    if i == 0 {
      assert r[1..] == vs[1..];
    } else {
      assert r[1..] == vs[1..][i - 1 := vs[i].(expCount := vs[i].expCount + 1)];
      EnterBudget(vs[1..], i - 1);
    }
  }

  // ----- text -----

  function Shift(r: Option<nat>): Option<nat> {
    match r case None => None case Some(i) => Some(i + 1)
  }

  /** Where the reference ends whose opening parenthesis, and `nest` more, are before `s`. */
  function Close(s: string, nest: nat): (r: Option<nat>)
    ensures r.Some? ==> r.value < |s| && s[r.value] == ')'
  {
    if s == "" then None
    else if s[0] == '(' then Shift(Close(s[1..], nest + 1))
    else if s[0] == ')' then if nest == 0 then Some(0) else Shift(Close(s[1..], nest - 1))
    else Shift(Close(s[1..], nest))
  }

  function NestAfter(c: char, nest: int): int {
    if c == '(' then nest + 1 else if c == ')' then nest - 1 else nest
  }

  /** The texts between commas outside parentheses. */
  function Split(s: string, nest: int): (r: seq<string>)
    ensures |r| > 0 && forall i | 0 <= i < |r| :: |r[i]| <= |s|
  {
    if s == "" then [""]
    else if nest == 0 && s[0] == ',' then [""] + Split(s[1..], 0)
    else
      var r := Split(s[1..], NestAfter(s[0], nest));
      [[s[0]] + r[0]] + r[1..]
  }

  // ----- what expansion means -----

  datatype Expansion = Done(text: string, rest: string) | Failed(error: Error)

  function Before(t: string, e: Expansion): Expansion {
    if e.Done? then Done(t + e.text, e.rest) else e
  }

  function AsResult(e: Expansion): Result<string> {
    if e.Done? then Ok(e.text) else Err(e.error)
  }

  function Expand(w: World, vs: seq<Variable>, stop: Stop, s: string, args: seq<string>): Expansion
    requires Bounded(vs)
    decreases Budget(vs), |s|, 0
  {
    if s == "" then Done("", "")
    else if s[0] == '$' then
      var d := Dollar(w, vs, s[1..], args);
      if d.Failed? then d else Before(d.text, Expand(w, vs, stop, d.rest, args))
    else if IsEnd(stop, s[0]) then Done("", s)
    else Before([s[0]], Expand(w, vs, stop, s[1..], args))
  }

  /** The reference, if it is one, whose dollar sign is just before `s`. */
  function Dollar(w: World, vs: seq<Variable>, s: string, args: seq<string>): (r: Expansion)
    requires Bounded(vs)
    ensures r.Done? ==> |r.rest| <= |s|
    decreases Budget(vs), |s|, 3
  {
    if s == "" || s[0] != '(' then Done("$", s)
    else
      match Close(s[1..], 0)
      case None => Failed(UnterminatedReference)
      case Some(q) =>
        match EvalClause(w, vs, s[1..q + 1], args)
        case Err(e) => Failed(e)
        case Ok(v) => Done(v, s[q + 2..])
  }

  function EvalClause(w: World, vs: seq<Variable>, c: string, args: seq<string>): Result<string>
    requires Bounded(vs)
    decreases Budget(vs), |c|, 2
  {
    var n := w.number(c);
    if n.Some? && 0 < n.value <= |args| then Ok(args[n.value - 1])
    else
      match Fit(Split(c, 0))
      case Err(e) => Err(e)
      case Ok(parts) =>
        match ExpandAll(w, vs, parts, args, |c|)
        case Err(e) => Err(e)
        case Ok(ts) => Apply(w, vs, ts[0], ts[1..])
  }

  /** The parts of a clause if the vector of arguments can hold them; one part too many is not noticed. */
  function Fit(parts: seq<string>): (r: Result<seq<string>>)
    ensures r.Ok? ==> r.value == parts
  {
    if |parts| > MAX_ARGS + 1 then Err(TooManyArguments)
    else if |parts| == MAX_ARGS + 1 then Err(StoreOutOfBounds)
    else Ok(parts)
  }

  function ExpandAll(w: World, vs: seq<Variable>, parts: seq<string>, args: seq<string>, n: nat)
    : (r: Result<seq<string>>)
    requires Bounded(vs) && forall i | 0 <= i < |parts| :: |parts[i]| <= n
    ensures r.Ok? ==> |r.value| == |parts|
    decreases Budget(vs), n, 1, |parts|
  {
    if parts == [] then Ok([])
    else
      match Expand(w, vs, EndOfString, parts[0], args)
      case Failed(e) => Err(e)
      case Done(t, _) => BeforeAll([t], ExpandAll(w, vs, parts[1..], args, n))
  }

  function BeforeAll(ts: seq<string>, r: Result<seq<string>>): Result<seq<string>> {
    if r.Ok? then Ok(ts + r.value) else r
  }

  lemma BeforeAllNone(r: Result<seq<string>>)
    ensures BeforeAll([], r) == r
  {
    if r.Ok? { assert [] + r.value == r.value; }
  }

  lemma BeforeAllNext(ts: seq<string>, t: string, r: Result<seq<string>>)
    ensures BeforeAll(ts, BeforeAll([t], r)) == BeforeAll(ts + [t], r)
  {
    if r.Ok? { assert ts + ([t] + r.value) == ts + [t] + r.value; }
  }

  /** A variable, else a built-in function, else an environment variable, else nothing. */
  function Apply(w: World, vs: seq<Variable>, name: string, args: seq<string>): Result<string>
    requires Bounded(vs)
    decreases Budget(vs), 0, 1
  {
    match Lookup(vs, name)
    case Some(i) =>
      if args == [] && vs[i].expCount > 0 then Err(RecursiveVariable)
      else if vs[i].expCount > MAX_DEPTH then Err(TooDeep)
      else if vs[i].flavor == Simple then Ok(vs[i].value)
      else
        AsResult(Expand(w, Enter(vs, i), EndOfString, vs[i].value, args))
    case None =>
      var r := BuiltIn(w, name, args);
      if r.Some? then r.value
      else if args == [] && name != "" && w.getenv(name).Some? then Ok(w.getenv(name).value) else Ok("")
  }

  datatype Arity = Arity(min: nat, max: nat)

  function FunctionTable(name: string): Option<Arity> {
    if name == "error-if" || name == "warning-if" then Some(Arity(2, 2))
    else if name == "info" || name == "shell" then Some(Arity(1, 1))
    else if name == "filename" || name == "lineno" then Some(Arity(0, 0))
    else None
  }

  function BuiltIn(w: World, name: string, args: seq<string>): Option<Result<string>> {
    match FunctionTable(name)
    case None => None
    case Some(a) =>
      Some(if |args| < a.min then Err(TooFewFunctionArguments)
           else if |args| > a.max then Err(TooManyFunctionArguments)
           else if name == "error-if" then if args[0] == "y" then Err(UserError(args[1])) else Ok("")
           else if name == "filename" then Ok(w.fileName)
           else if name == "lineno" then Ok(w.lineNumber)
           else if name == "shell" then if w.shell(args[0]).Some? then Ok(w.shell(args[0]).value) else Err(ShellFailed)
           else Ok(""))
  }

  // ----- cursors -----

  /** `p` points into the string that starts at `start`. */
  predicate Within(start: string, p: string) {
    |p| <= |start| && start[|start| - |p|..] == p
  }

  /** The characters from `start` up to `p`. */
  function Span(start: string, p: string): string
    requires Within(start, p)
  {
    start[..|start| - |p|]
  }

  lemma SpanNext(start: string, p: string)
    requires Within(start, p) && p != ""
    ensures Within(start, p[1..]) && Span(start, p[1..]) == Span(start, p) + [p[0]]
  {
  }

  lemma SpanNone(p: string, t: string)
    ensures Within(p, p) && t + Span(p, p) == t
  {
  }

  /** Looking for the end of a reference: `q` has been reached inside `nest` parentheses. */
  ghost predicate Seeking(p: string, q: string, nest: nat) {
    && Within(p, q)
    && Close(p, 0) == match Close(q, nest) case None => None case Some(i) => Some(|p| - |q| + i)
  }

  lemma SeekNext(p: string, q: string, nest: nat)
    requires Seeking(p, q, nest) && q != "" && NestAfter(q[0], nest) >= 0
    ensures Seeking(p, q[1..], NestAfter(q[0], nest))
  {
    SpanNext(p, q);
  }

  function Glue(t: string, parts: seq<string>): seq<string>
    requires |parts| > 0
  {
    [t + parts[0]] + parts[1..]
  }

  /** Splitting `c`: `parts` are complete, and `p` has been reached with `t` of the next one read. */
  ghost predicate Splitting(c: string, parts: seq<string>, t: string, p: string, nest: int) {
    Split(c, 0) == parts + Glue(t, Split(p, nest))
  }

  lemma SplitNext(c: string, parts: seq<string>, t: string, p: string, nest: int)
    requires Splitting(c, parts, t, p, nest) && p != ""
    ensures if nest == 0 && p[0] == ',' then Splitting(c, parts + [t], "", p[1..], 0)
            else Splitting(c, parts, t + [p[0]], p[1..], NestAfter(p[0], nest))
  {
    var next := Split(p[1..], if nest == 0 && p[0] == ',' then 0 else NestAfter(p[0], nest));
    if nest == 0 && p[0] == ',' {
      assert Split(p, nest) == [""] + next && t + "" == t;
      assert "" + next[0] == next[0] && Glue("", next) == next;
      assert parts + ([t] + next) == parts + [t] + next;
    } else {
      assert t + ([p[0]] + next[0]) == t + [p[0]] + next[0];
    }
  }

  lemma BeforeBefore(t: string, u: string, e: Expansion)
    ensures Before(t, Before(u, e)) == Before(t + u, e)
  {
    if e.Done? { assert t + (u + e.text) == t + u + e.text; }
  }

  /** `ready` is the expansion of `str` up to `p`. */
  ghost predicate Expanding(w: World, vs: seq<Variable>, stop: Stop, str: string, args: seq<string>, ready: string,
                            p: string)
    requires Bounded(vs)
  {
    Expand(w, vs, stop, str, args) == Before(ready, Expand(w, vs, stop, p, args))
  }

  lemma ExpandFirst(w: World, vs: seq<Variable>, stop: Stop, str: string, args: seq<string>)
    requires Bounded(vs)
    ensures Expanding(w, vs, stop, str, args, "", str)
  {
    var e := Expand(w, vs, stop, str, args);
    if e.Done? { assert "" + e.text == e.text; }
  }

  lemma ExpandLast(w: World, vs: seq<Variable>, stop: Stop, str: string, args: seq<string>, ready: string, p: string)
    requires Bounded(vs) && Expanding(w, vs, stop, str, args, ready, p)
    requires p == "" || (p[0] != '$' && IsEnd(stop, p[0]))
    ensures Expand(w, vs, stop, str, args) == Done(ready, p)
  {
    assert ready + "" == ready;
  }

  lemma ExpandNext(w: World, vs: seq<Variable>, stop: Stop, str: string, args: seq<string>, ready: string, p: string)
    requires Bounded(vs) && Expanding(w, vs, stop, str, args, ready, p) && p != ""
    ensures p[0] == '$' ==>
              var d := Dollar(w, vs, p[1..], args);
              if d.Failed? then Expand(w, vs, stop, str, args) == d
              else Expanding(w, vs, stop, str, args, ready + d.text, d.rest)
    ensures p[0] != '$' && !IsEnd(stop, p[0]) ==> Expanding(w, vs, stop, str, args, ready + [p[0]], p[1..])
  {
    if p[0] == '$' {
      var d := Dollar(w, vs, p[1..], args);
      if d.Done? { BeforeBefore(ready, d.text, Expand(w, vs, stop, d.rest, args)); }
    } else if !IsEnd(stop, p[0]) {
      BeforeBefore(ready, [p[0]], Expand(w, vs, stop, p[1..], args));
    }
  }

  // ----- what the helpers find -----

  /** Nesting depth after `s`, from `nest` on. */
  function Depth(s: string, nest: int): int {
    if s == "" then nest else Depth(s[1..], NestAfter(s[0], nest))
  }

  /** A reference ends where the depth first falls below that of its opening parenthesis. */
  ghost predicate ClosesAt(s: string, nest: nat, q: nat) {
    q < |s| && Depth(s[..q + 1], nest) < 0 && forall j | 0 <= j <= q :: Depth(s[..j], nest) >= 0
  }

  lemma DepthNext(s: string, nest: int, j: nat)
    requires 0 < j <= |s|
    ensures Depth(s[..j], nest) == Depth(s[1..][..j - 1], NestAfter(s[0], nest))
  {
    assert s[..j][1..] == s[1..][..j - 1];
  }

  lemma {:induction false} CloseMatches(s: string, nest: nat, q: nat)
    ensures Close(s, nest) == Some(q) <==> ClosesAt(s, nest, q)
  {
    if s != "" && NestAfter(s[0], nest) >= 0 {
      var n := NestAfter(s[0], nest);
      if q == 0 {
        DepthNext(s, nest, 1);
      } else {
        CloseMatches(s[1..], n, q - 1);
        forall j | 0 < j <= |s| ensures Depth(s[..j], nest) == Depth(s[1..][..j - 1], n) { DepthNext(s, nest, j); }
        if ClosesAt(s, nest, q) {
          forall j | 0 <= j <= q - 1 ensures Depth(s[1..][..j], n) >= 0 { DepthNext(s, nest, j + 1); }
        }
      }
    } else if s != "" {
      DepthNext(s, nest, 1);
      assert s[1..][..0] == "" && Depth(s[..1], nest) < 0;
    }
  }

  function Join(parts: seq<string>): string
    requires |parts| > 0
  {
    parts[0] + if |parts| == 1 then "" else "," + Join(parts[1..])
  }

  /** No comma of `t` is outside parentheses. */
  ghost predicate OnePart(t: string, nest: int) {
    forall i | 0 <= i < |t| && t[i] == ',' :: Depth(t[..i], nest) != 0
  }

  lemma OnePartNext(c: char, t: string, nest: int)
    requires OnePart(t, NestAfter(c, nest)) && !(nest == 0 && c == ',')
    ensures OnePart([c] + t, nest)
  {
    forall i | 0 <= i < |t| + 1 && ([c] + t)[i] == ',' ensures Depth(([c] + t)[..i], nest) != 0 {
      if i > 0 {
        DepthNext([c] + t, nest, i);
        assert ([c] + t)[1..] == t;
      }
    }
  }

  /** Splitting loses nothing and splits at every comma outside parentheses. */
  lemma {:induction false} SplitJoin(s: string, nest: int)
    ensures var parts := Split(s, nest);
            && Join(parts) == s && OnePart(parts[0], nest) && forall i | 0 < i < |parts| :: OnePart(parts[i], 0)
  {
    if s != "" {
      if nest == 0 && s[0] == ',' {
        SplitJoin(s[1..], 0);
        assert Split(s, nest)[1..] == Split(s[1..], 0);
      } else {
        var n := NestAfter(s[0], nest);
        var r := Split(s[1..], n);
        SplitJoin(s[1..], n);
        OnePartNext(s[0], r[0], nest);
        JoinNext(s[0], r);
      }
    }
  }

  lemma Associate(s: string, t: string, u: string)
    ensures s + t + u == s + (t + u)
  {
  }

  lemma JoinNext(c: char, r: seq<string>)
    requires |r| > 0
    ensures Join([[c] + r[0]] + r[1..]) == [c] + Join(r)
  {
    var r' := [[c] + r[0]] + r[1..];
    assert |r'| == |r| && r'[0] == [c] + r[0] && r'[1..] == r[1..];
    Associate([c], r[0], if |r| == 1 then "" else "," + Join(r[1..]));
  }

  // ----- the vector of arguments -----

  /**
   The slots written when the clause is read from `p` on with `argc` parts stored: the code
   looks at the bound before it stores at a comma, but not before it stores the last part.
   */
  function Stores(p: string, nest: int, argc: nat): seq<nat> {
    if p == "" then [argc]
    else if nest == 0 && p[0] == ',' then
      if argc >= MAX_ARGS then [] else [argc] + Stores(p[1..], 0, argc + 1)
    else Stores(p[1..], NestAfter(p[0], nest), argc)
  }

  predicate InBounds(slots: seq<nat>) {
    forall k | 0 <= k < |slots| :: slots[k] < MAX_ARGS
  }

  lemma InBoundsNext(slot: nat, slots: seq<nat>)
    ensures InBounds([slot] + slots) <==> slot < MAX_ARGS && InBounds(slots)
  {
    assert ([slot] + slots)[1..] == slots;
    assert ([slot] + slots)[0] == slot;
    if InBounds([slot] + slots) {
      forall k | 0 <= k < |slots| ensures slots[k] < MAX_ARGS { assert slots[k] == ([slot] + slots)[k + 1]; }
    }
  }

  /** Every slot written exists, except for exactly one part more than there are slots. */
  lemma {:induction false} StoresInBounds(p: string, nest: int, argc: nat)
    requires argc <= MAX_ARGS
    ensures InBounds(Stores(p, nest, argc)) <==> argc + |Split(p, nest)| != MAX_ARGS + 1
  {
    if p == "" {
      assert Stores(p, nest, argc)[0] == argc;
    } else if nest == 0 && p[0] == ',' {
      if argc < MAX_ARGS {
        StoresInBounds(p[1..], 0, argc + 1);
        InBoundsNext(argc, Stores(p[1..], 0, argc + 1));
      }
    } else {
      StoresInBounds(p[1..], NestAfter(p[0], nest), argc);
    }
  }

  /** For a clause that is evaluated, that is the condition. */
  lemma ClauseInBounds(w: World, vs: seq<Variable>, c: string, args: seq<string>)
    requires Bounded(vs) && !(w.number(c).Some? && 0 < w.number(c).value <= |args|)
    ensures InBounds(Stores(c, 0, 0)) <==> |Split(c, 0)| != MAX_ARGS + 1
    ensures |Split(c, 0)| == MAX_ARGS + 1 ==> EvalClause(w, vs, c, args) == Err(StoreOutOfBounds)
  {
    StoresInBounds(c, 0, 0);
  }

  const SIXTEEN_COMMAS := ",,,,,,,,,,,,,,,,"

  lemma {:induction false} CommasSplit(n: nat)
    requires n <= |SIXTEEN_COMMAS|
    ensures |Split(SIXTEEN_COMMAS[n..], 0)| == |SIXTEEN_COMMAS| - n + 1
    decreases |SIXTEEN_COMMAS| - n
  {
    if n < |SIXTEEN_COMMAS| {
      assert SIXTEEN_COMMAS[n..][1..] == SIXTEEN_COMMAS[n + 1..] && SIXTEEN_COMMAS[n] == ',';
      CommasSplit(n + 1);
    }
  }

  /** Sixteen commas make the code write the slot behind the last one. */
  lemma SixteenCommas(w: World, vs: seq<Variable>)
    requires Bounded(vs)
    ensures !InBounds(Stores(SIXTEEN_COMMAS, 0, 0))
    ensures EvalClause(w, vs, SIXTEEN_COMMAS, []) == Err(StoreOutOfBounds)
  {
    CommasSplit(0);
    assert SIXTEEN_COMMAS[0..] == SIXTEEN_COMMAS;
    ClauseInBounds(w, vs, SIXTEEN_COMMAS, []);
  }

  function Commas(s: string): nat {
    if s == "" then 0 else (if s[0] == ',' then 1 else 0) + Commas(s[1..])
  }

  /** No text that is expanded has sixteen commas. */
  ghost predicate FewCommas(vs: seq<Variable>, s: string) {
    Commas(s) < MAX_ARGS && forall i | 0 <= i < |vs| :: Commas(vs[i].value) < MAX_ARGS
  }

  lemma {:induction false} CommasPart(s: string, i: nat, j: nat)
    requires i <= j <= |s|
    ensures Commas(s[i..j]) <= Commas(s)
  {
    if i == 0 < j {
      CommasPart(s[1..], 0, j - 1);
      assert s[0..j][1..] == s[1..][0..j - 1] && s[0..j][0] == s[0];
    } else if i < j {
      CommasPart(s[1..], i - 1, j - 1);
      assert s[i..j] == s[1..][i - 1..j - 1];
    }
  }

  lemma {:induction false} CommasParts(s: string, nest: int)
    ensures |Split(s, nest)| <= Commas(s) + 1
    ensures forall t <- Split(s, nest) :: Commas(t) <= Commas(s)
  {
    if s != "" {
      if nest == 0 && s[0] == ',' {
        CommasParts(s[1..], 0);
      } else {
        CommasParts(s[1..], NestAfter(s[0], nest));
        var r := Split(s[1..], NestAfter(s[0], nest));
        assert r[0] in r && ([s[0]] + r[0])[1..] == r[0];
      }
    }
  }

  /** Then no expansion writes out of bounds. */
  lemma {:induction false} FewCommasSafe(w: World, vs: seq<Variable>, stop: Stop, s: string, args: seq<string>)
    requires Bounded(vs) && FewCommas(vs, s)
    ensures Expand(w, vs, stop, s, args) != Failed(StoreOutOfBounds)
    decreases Budget(vs), |s|, 0
  {
    if s != "" {
      CommasPart(s, 1, |s|);
      if s[0] == '$' {
        FewCommasDollar(w, vs, s[1..], args);
        var d := Dollar(w, vs, s[1..], args);
        if d.Done? { FewCommasSafe(w, vs, stop, d.rest, args); }
      } else if !IsEnd(stop, s[0]) {
        FewCommasSafe(w, vs, stop, s[1..], args);
      }
    }
  }

  lemma {:induction false} FewCommasDollar(w: World, vs: seq<Variable>, s: string, args: seq<string>)
    requires Bounded(vs) && FewCommas(vs, s)
    ensures var d := Dollar(w, vs, s, args);
            d != Failed(StoreOutOfBounds) && (d.Done? ==> FewCommas(vs, d.rest))
    decreases Budget(vs), |s|, 3
  {
    if s != "" && s[0] == '(' && Close(s[1..], 0).Some? {
      var q := Close(s[1..], 0).value;
      CommasPart(s, 1, q + 1);
      CommasPart(s, q + 2, |s|);
      assert s[q + 2..|s|] == s[q + 2..];
      FewCommasClause(w, vs, s[1..q + 1], args);
    }
  }

  lemma {:induction false} FewCommasClause(w: World, vs: seq<Variable>, c: string, args: seq<string>)
    requires Bounded(vs) && FewCommas(vs, c)
    ensures EvalClause(w, vs, c, args) != Err(StoreOutOfBounds)
    decreases Budget(vs), |c|, 2
  {
    var n := w.number(c);
    if !(n.Some? && 0 < n.value <= |args|) {
      var parts := Split(c, 0);
      CommasParts(c, 0);
      FewCommasAll(w, vs, parts, args, |c|);
      var ts := ExpandAll(w, vs, parts, args, |c|);
      if ts.Ok? { FewCommasApply(w, vs, ts.value[0], ts.value[1..]); }
    }
  }

  lemma {:induction false} FewCommasAll(w: World, vs: seq<Variable>, parts: seq<string>, args: seq<string>, n: nat)
    requires Bounded(vs) && forall i | 0 <= i < |parts| :: |parts[i]| <= n && FewCommas(vs, parts[i])
    ensures ExpandAll(w, vs, parts, args, n) != Err(StoreOutOfBounds)
    decreases Budget(vs), n, 1, |parts|
  {
    if parts != [] {
      FewCommasSafe(w, vs, EndOfString, parts[0], args);
      FewCommasAll(w, vs, parts[1..], args, n);
    }
  }

  lemma {:induction false} FewCommasApply(w: World, vs: seq<Variable>, name: string, args: seq<string>)
    requires Bounded(vs) && FewCommas(vs, "")
    ensures Apply(w, vs, name, args) != Err(StoreOutOfBounds)
    decreases Budget(vs), 0, 1
  {
    var at := Lookup(vs, name);
    if at.Some? && vs[at.value].expCount <= MAX_DEPTH && vs[at.value].flavor == Recursive {
      FewCommasSafe(w, Enter(vs, at.value), EndOfString, vs[at.value].value, args);
    }
  }

  // ----- laws of expansion -----

  predicate NoReference(s: string) {
    forall i | 0 <= i < |s| - 1 :: !(s[i] == '$' && s[i + 1] == '(')
  }

  /** Text without references expands to itself. */
  lemma {:induction false} PlainText(w: World, vs: seq<Variable>, s: string, args: seq<string>)
    requires Bounded(vs) && NoReference(s)
    ensures Expand(w, vs, EndOfString, s, args) == Done(s, "")
    decreases |s|
  {
    if s != "" {
      PlainText(w, vs, s[1..], args);
      assert s == [s[0]] + s[1..];
    }
  }

  /** Every reference in `s` is closed in `s`, and `s` does not end in a lone dollar sign. */
  predicate Complete(s: string)
    decreases |s|
  {
    s == "" ||
    if s[0] != '$' then Complete(s[1..])
    else if |s| == 1 then false
    else if s[1] != '(' then Complete(s[1..])
    else match Close(s[2..], 0) case None => false case Some(q) => Complete(s[q + 3..])
  }

  lemma {:induction false} CloseExtends(s: string, t: string, nest: nat)
    requires Close(s, nest).Some?
    ensures Close(s + t, nest) == Close(s, nest)
  {
    assert (s + t)[1..] == s[1..] + t;
    if NestAfter(s[0], nest) >= 0 { CloseExtends(s[1..], t, NestAfter(s[0], nest)); }
  }

  function Then(e: Expansion, f: Expansion): Expansion {
    if e.Done? then Before(e.text, f) else e
  }

  lemma ThenBefore(t: string, e: Expansion, f: Expansion)
    ensures Then(Before(t, e), f) == Before(t, Then(e, f))
  {
    if e.Done? { BeforeBefore(t, e.text, f); }
  }

  /** Expansion goes from left to right, each piece on its own. */
  lemma {:induction false} Concatenation(w: World, vs: seq<Variable>, s: string, t: string, args: seq<string>)
    requires Bounded(vs) && Complete(s)
    ensures Expand(w, vs, EndOfString, s + t, args) ==
            Then(Expand(w, vs, EndOfString, s, args), Expand(w, vs, EndOfString, t, args))
    decreases |s|
  {
    var f := Expand(w, vs, EndOfString, t, args);
    if s == "" {
      assert s + t == t;
      if f.Done? { assert "" + f.text == f.text; }
    } else if s[0] != '$' {
      assert (s + t)[1..] == s[1..] + t;
      Concatenation(w, vs, s[1..], t, args);
      ThenBefore([s[0]], Expand(w, vs, EndOfString, s[1..], args), f);
    } else {
      assert "$" + s[1..] == s;
      ConcatDollar(w, vs, s[1..], t, args);
      var d := Dollar(w, vs, s[1..], args);
      assert (s + t)[1..] == s[1..] + t;
      if d.Done? {
        Concatenation(w, vs, d.rest, t, args);
        ThenBefore(d.text, Expand(w, vs, EndOfString, d.rest, args), f);
      }
    }
  }

  lemma ConcatDollar(w: World, vs: seq<Variable>, s: string, t: string, args: seq<string>)
    requires Bounded(vs) && Complete("$" + s)
    ensures var d := Dollar(w, vs, s, args);
            if d.Failed? then Dollar(w, vs, s + t, args) == d
            else Complete(d.rest) && Dollar(w, vs, s + t, args) == Done(d.text, d.rest + t)
  {
    assert ("$" + s)[1..] == s;
    if s[0] == '(' {
      assert ("$" + s)[2..] == s[1..];
      CloseExtends(s[1..], t, 0);
      Cut(s, t, Close(s[1..], 0).value);
    }
  }

  lemma Cut(s: string, t: string, q: nat)
    requires q + 2 <= |s|
    ensures (s + t)[1..] == s[1..] + t && (s + t)[1..q + 1] == s[1..q + 1]
    ensures (s + t)[q + 2..] == s[q + 2..] + t && ("$" + s)[q + 3..] == s[q + 2..]
  {
  }

  // ----- the counters only ever forbid -----

  /** The same variables, entered no more often. */
  predicate Looser(vs: seq<Variable>, vs': seq<Variable>) {
    |vs| == |vs'| && forall i | 0 <= i < |vs| ::
      vs[i].expCount <= vs'[i].expCount && vs[i].(expCount := 0) == vs'[i].(expCount := 0)
  }

  lemma {:induction false} LooserLookup(vs: seq<Variable>, vs': seq<Variable>, name: string)
    requires Looser(vs, vs')
    ensures Lookup(vs, name) == Lookup(vs', name)
  {
    if vs != [] {
      assert vs[0].name == vs[0].(expCount := 0).name == vs'[0].(expCount := 0).name;
      LooserLookup(vs[1..], vs'[1..], name);
    }
  }

  /** An expansion that succeeds also succeeds, with the same text, where variables were entered less often. */
  lemma {:induction false} CountersForbid(
      w: World, vs: seq<Variable>, vs': seq<Variable>, stop: Stop, s: string, args: seq<string>)
    requires Bounded(vs) && Bounded(vs') && Looser(vs, vs') && Expand(w, vs', stop, s, args).Done?
    ensures Expand(w, vs, stop, s, args) == Expand(w, vs', stop, s, args)
    decreases Budget(vs'), |s|, 0
  {
    if s != "" && s[0] == '$' {
      CountersForbidDollar(w, vs, vs', s[1..], args);
      CountersForbid(w, vs, vs', stop, Dollar(w, vs', s[1..], args).rest, args);
    } else if s != "" && !IsEnd(stop, s[0]) {
      CountersForbid(w, vs, vs', stop, s[1..], args);
    }
  }

  lemma {:induction false} CountersForbidDollar(w: World, vs: seq<Variable>, vs': seq<Variable>, s: string,
                                                args: seq<string>)
    requires Bounded(vs) && Bounded(vs') && Looser(vs, vs') && Dollar(w, vs', s, args).Done?
    ensures Dollar(w, vs, s, args) == Dollar(w, vs', s, args)
    decreases Budget(vs'), |s|, 3
  {
    if s != "" && s[0] == '(' {
      var c := s[1..Close(s[1..], 0).value + 1];
      var n := w.number(c);
      if !(n.Some? && 0 < n.value <= |args|) {
        CountersForbidAll(w, vs, vs', Split(c, 0), args, |c|);
        var ts := ExpandAll(w, vs', Split(c, 0), args, |c|).value;
        CountersForbidApply(w, vs, vs', ts[0], ts[1..]);
      }
    }
  }

  lemma {:induction false} CountersForbidAll(
      w: World, vs: seq<Variable>, vs': seq<Variable>, parts: seq<string>, args: seq<string>, n: nat)
    requires Bounded(vs) && Bounded(vs') && Looser(vs, vs') && forall i | 0 <= i < |parts| :: |parts[i]| <= n
    requires ExpandAll(w, vs', parts, args, n).Ok?
    ensures ExpandAll(w, vs, parts, args, n) == ExpandAll(w, vs', parts, args, n)
    decreases Budget(vs'), n, 1, |parts|
  {
    if parts != [] {
      CountersForbid(w, vs, vs', EndOfString, parts[0], args);
      CountersForbidAll(w, vs, vs', parts[1..], args, n);
    }
  }

  lemma {:induction false} CountersForbidApply(
      w: World, vs: seq<Variable>, vs': seq<Variable>, name: string, args: seq<string>)
    requires Bounded(vs) && Bounded(vs') && Looser(vs, vs') && Apply(w, vs', name, args).Ok?
    ensures Apply(w, vs, name, args) == Apply(w, vs', name, args)
    decreases Budget(vs'), 0, 1
  {
    LooserLookup(vs, vs', name);
    var at := Lookup(vs, name);
    if at.Some? {
      var v, v' := vs[at.value], vs'[at.value];
      assert v.(expCount := 0) == v'.(expCount := 0) && v.expCount <= v'.expCount;
      assert v.value == v.(expCount := 0).value && v.flavor == v.(expCount := 0).flavor;
      if v.flavor == Recursive {
        CountersForbid(w, Enter(vs, at.value), Enter(vs', at.value), EndOfString, v.value, args);
      }
    }
  }

  // ----- plain references -----

  /** A name that stands for itself in a clause. */
  predicate PlainName(name: string) {
    forall i | 0 <= i < |name| :: name[i] !in {'$', '(', ')', ','}
  }

  function Reference(name: string): string {
    "$(" + name + ")"
  }

  lemma {:induction false} PlainSplit(name: string)
    requires PlainName(name)
    ensures Split(name, 0) == [name]
  {
    if name != "" {
      PlainSplit(name[1..]);
      assert [name[0]] + name[1..] == name;
    }
  }

  lemma {:induction false} PlainClose(name: string, t: string)
    requires PlainName(name)
    ensures Close(name + ")" + t, 0) == Some(|name|)
  {
    var s := name + ")" + t;
    if name != "" {
      assert s[0] == name[0] && s[1..] == name[1..] + ")" + t;
      PlainClose(name[1..], t);
    }
  }

  /** A clause that is a plain name, without arguments around, is looked up. */
  lemma PlainClause(w: World, vs: seq<Variable>, name: string)
    requires Bounded(vs) && PlainName(name)
    ensures EvalClause(w, vs, name, []) == Apply(w, vs, name, [])
  {
    PlainSplit(name);
    PlainText(w, vs, name, []);
    assert [name][1..] == [] && [name] + [] == [name];
    assert ExpandAll(w, vs, [name][1..], [], |name|) == Ok([]);
  }

  lemma PlainReference(w: World, vs: seq<Variable>, name: string)
    requires Bounded(vs) && PlainName(name)
    ensures AsResult(Expand(w, vs, EndOfString, Reference(name), [])) == Apply(w, vs, name, [])
    ensures Complete(Reference(name))
  {
    var s := Reference(name);
    assert s[1..][1..] == s[2..] == name + ")" + "";
    PlainClose(name, "");
    assert s[1..][1..|name| + 1] == name && s[1..][|name| + 2..] == "" == s[|name| + 3..];
    PlainClause(w, vs, name);
    var r := Apply(w, vs, name, []);
    if r.Ok? { assert r.value + "" == r.value; }
  }

  /** Variables of `names` that each refer to one of `names`. */
  ghost predicate Cyclic(vs: seq<Variable>, names: set<string>) {
    forall x {:trigger RefersInto(vs, x, names)} | x in names :: RefersInto(vs, x, names)
  }

  ghost predicate RefersInto(vs: seq<Variable>, x: string, names: set<string>) {
    var at := Lookup(vs, x);
    at.Some? && vs[at.value].flavor == Recursive && Mentions(vs[at.value].value, names)
  }

  ghost predicate Mentions(value: string, names: set<string>) {
    exists a, y, b :: y in names && MentionsAt(value, a, y, b)
  }

  /** `value` is made of `a`, a reference to `y` and `b`. */
  predicate MentionsAt(value: string, a: string, y: string, b: string) {
    PlainName(y) && Complete(a) && value == a + (Reference(y) + b)
  }

  /** A variable on a cycle never has a value, whatever has been entered before. */
  lemma {:induction false} CycleFails(w: World, vs: seq<Variable>, names: set<string>, x: string)
    requires Bounded(vs) && Cyclic(vs, names) && x in names
    ensures Apply(w, vs, x, []).Err?
    decreases Budget(vs)
  {
    assert RefersInto(vs, x, names);
    var i := Lookup(vs, x).value;
    if vs[i].expCount == 0 {
      var a, y, b :| y in names && MentionsAt(vs[i].value, a, y, b);
      EnterCyclic(vs, i, names);
      CycleFails(w, Enter(vs, i), names, y);
      FailsInside(w, Enter(vs, i), vs[i].value, a, y, b);
    }
  }

  lemma FailsInside(w: World, vs: seq<Variable>, value: string, a: string, y: string, b: string)
    requires Bounded(vs) && MentionsAt(value, a, y, b) && Apply(w, vs, y, []).Err?
    ensures Expand(w, vs, EndOfString, value, []).Failed?
  {
    PlainReference(w, vs, y);
    Concatenation(w, vs, Reference(y), b, []);
    Concatenation(w, vs, a, Reference(y) + b, []);
  }

  lemma EnterCyclic(vs: seq<Variable>, i: nat, names: set<string>)
    requires i < |vs| && Bounded(vs) && vs[i].expCount <= MAX_DEPTH && Cyclic(vs, names)
    ensures Cyclic(Enter(vs, i), names)
  {
    forall z | z in names ensures RefersInto(Enter(vs, i), z, names) {
      assert RefersInto(vs, z, names);
      EnterLookup(vs, i, z);
    }
  }

  lemma {:induction false} EnterLookup(vs: seq<Variable>, i: nat, name: string)
    requires i < |vs| && Bounded(vs) && vs[i].expCount <= MAX_DEPTH
    ensures Lookup(Enter(vs, i), name) == Lookup(vs, name)
  {
    LooserLookup(vs, Enter(vs, i), name);
  }

  /** Text whose references are plain and name only things that have a value, variables of rank below `r`. */
  ghost predicate Template(vs: seq<Variable>, rank: string -> nat, r: nat, s: string)
    decreases |s|
  {
    s == "" ||
    if s[0] != '$' || |s| == 1 || s[1] != '(' then Template(vs, rank, r, s[1..])
    else match Close(s[2..], 0)
      case None => false
      case Some(q) => Usable(vs, rank, r, s[2..q + 2]) && Template(vs, rank, r, s[q + 3..])
  }

  ghost predicate Usable(vs: seq<Variable>, rank: string -> nat, r: nat, name: string) {
    && PlainName(name)
    && (Lookup(vs, name).Some? ==> rank(name) < r)
    && (Lookup(vs, name).None? && FunctionTable(name).Some? ==> FunctionTable(name).value.min == 0)
  }

  /** Variables refer only to variables of lower rank, and none of rank below `r` has been entered. */
  ghost predicate Layered(vs: seq<Variable>, rank: string -> nat, r: nat) {
    forall i | 0 <= i < |vs| ::
      && (vs[i].flavor == Recursive ==> Template(vs, rank, rank(vs[i].name), vs[i].value))
      && (rank(vs[i].name) < r ==> vs[i].expCount == 0)
  }

  /** Without cycles every template has a value. */
  lemma {:induction false} LayeredExpands(w: World, vs: seq<Variable>, rank: string -> nat, r: nat, s: string)
    requires Bounded(vs) && Layered(vs, rank, r) && Template(vs, rank, r, s)
    ensures Expand(w, vs, EndOfString, s, []).Done?
    decreases r, |s|, 1
  {
    if s == "" {
    } else if s[0] != '$' {
      LayeredExpands(w, vs, rank, r, s[1..]);
    } else if |s| == 1 || s[1] != '(' {
      LayeredExpands(w, vs, rank, r, s[1..]);
    } else {
      var q := Close(s[2..], 0).value;
      LayeredApply(w, vs, rank, r, s[2..q + 2], |s|);
      PlainDollar(w, vs, s, q);
      LayeredExpands(w, vs, rank, r, s[q + 3..]);
    }
  }

  lemma PlainDollar(w: World, vs: seq<Variable>, s: string, q: nat)
    requires Bounded(vs) && |s| > 1 && s[..2] == "$(" && Close(s[2..], 0) == Some(q) && PlainName(s[2..q + 2])
    ensures var v := Apply(w, vs, s[2..q + 2], []);
            Dollar(w, vs, s[1..], []) == if v.Ok? then Done(v.value, s[q + 3..]) else Failed(v.error)
  {
    assert s[1] == s[..2][1];
    assert s[1..][1..] == s[2..] && s[1..][1..q + 1] == s[2..q + 2] && s[1..][q + 2..] == s[q + 3..];
    PlainClause(w, vs, s[2..q + 2]);
  }

  lemma {:induction false} LayeredApply(w: World, vs: seq<Variable>, rank: string -> nat, r: nat, name: string, n: nat)
    requires Bounded(vs) && Layered(vs, rank, r) && Usable(vs, rank, r, name)
    ensures Apply(w, vs, name, []).Ok?
    decreases r, n, 0
  {
    var at := Lookup(vs, name);
    if at.Some? && vs[at.value].flavor == Recursive {
      var i := at.value;
      var vs' := Enter(vs, i);
      forall j | 0 <= j < |vs'|
        ensures vs'[j].flavor == Recursive ==> Template(vs', rank, rank(vs'[j].name), vs'[j].value)
        ensures rank(vs'[j].name) < rank(name) ==> vs'[j].expCount == 0
      {
        if vs[j].flavor == Recursive { EnterTemplate(vs, i, rank, rank(vs[j].name), vs[j].value); }
      }
      EnterTemplate(vs, i, rank, rank(name), vs[i].value);
      LayeredExpands(w, vs', rank, rank(name), vs[i].value);
    }
  }

  lemma {:induction false} EnterTemplate(vs: seq<Variable>, i: nat, rank: string -> nat, r: nat, s: string)
    requires i < |vs| && Bounded(vs) && vs[i].expCount <= MAX_DEPTH && Template(vs, rank, r, s)
    ensures Template(Enter(vs, i), rank, r, s)
    decreases |s|
  {
    if s == "" {
    } else if s[0] != '$' || |s| == 1 || s[1] != '(' {
      EnterTemplate(vs, i, rank, r, s[1..]);
    } else {
      var q := Close(s[2..], 0).value;
      EnterUsable(vs, i, rank, r, s[2..q + 2]);
      EnterTemplate(vs, i, rank, r, s[q + 3..]);
    }
  }

  lemma EnterUsable(vs: seq<Variable>, i: nat, rank: string -> nat, r: nat, name: string)
    requires i < |vs| && Bounded(vs) && vs[i].expCount <= MAX_DEPTH && Usable(vs, rank, r, name)
    ensures Usable(Enter(vs, i), rank, r, name)
  {
    EnterLookup(vs, i, name);
  }

  // ----- the code -----

  class Preprocessor {
    const w: World
    var vars: seq<Variable>

    constructor (w: World)
      ensures this.w == w && vars == []
    {
      this.w, vars := w, [];
    }

    /** The value of a variable called with arguments, if there is such a variable. */
    method VariableExpand(name: string, args: seq<string>) returns (r: Option<Result<string>>)
      requires Bounded(vars)
      modifies this
      ensures r.Some? <==> Lookup(old(vars), name).Some?
      ensures r.Some? ==> r.value == Apply(w, old(vars), name, args)
      ensures r.None? || r.value.Ok? ==> vars == old(vars)
      decreases Budget(vars), 0, 1
    {
      var at := Lookup(vars, name);
      if at.None? { return None; }
      var i := at.value;
      if args == [] && vars[i].expCount > 0 { return Some(Err(RecursiveVariable)); }
      if vars[i].expCount > MAX_DEPTH { return Some(Err(TooDeep)); }
      EnterBudget(vars, i);
      vars := vars[i := vars[i].(expCount := vars[i].expCount + 1)];
      if vars[i].flavor == Recursive {
        var e, _ := ExpandString(EndOfString, vars[i].value, args);
        if e.Failed? { return Some(Err(e.error)); }
        r := Some(Ok(e.text));
      } else {
        r := Some(Ok(vars[i].value));
      }
      vars := vars[i := vars[i].(expCount := vars[i].expCount - 1)];
    }

    /** Splits a clause at commas outside parentheses into the slots of `argv`. */
    method SplitClause(c: string, argv: array<string>) returns (r: Result<nat>, ghost stored: seq<nat>)
      requires argv.Length == MAX_ARGS
      modifies argv
      ensures stored == Stores(c, 0, 0)
      ensures r.Err? <==> Fit(Split(c, 0)).Err?
      ensures r.Err? ==> r.error == Fit(Split(c, 0)).error
      ensures r.Ok? ==> r.value <= MAX_ARGS && argv[..r.value] == Split(c, 0)
    {
      var argc: nat, prev, p, nest := 0, c, c, 0;
      stored := [];
      assert Glue("", Split(c, 0)) == Split(c, 0) by { assert "" + Split(c, 0)[0] == Split(c, 0)[0]; }
      while p != ""
        invariant Within(prev, p) && argc <= MAX_ARGS && Splitting(c, argv[..argc], Span(prev, p), p, nest)
        invariant Stores(c, 0, 0) == stored + Stores(p, nest, argc)
        decreases |p|
      {
        SplitNext(c, argv[..argc], Span(prev, p), p, nest);
        SpanNext(prev, p);
        if nest == 0 && p[0] == ',' {
          if argc >= MAX_ARGS { return Err(TooManyArguments), stored; }
          ghost var parts := argv[..argc];
          argv[argc] := Span(prev, p);
          stored := stored + [argc];
          argc := argc + 1;
          assert argv[..argc] == parts + [Span(prev, p)];
          prev := p[1..];
        } else {
          nest := NestAfter(p[0], nest);
        }
        p := p[1..];
      }
      assert Split(p, nest) == [""] && Span(prev, p) + "" == prev && Glue(Span(prev, p), [""]) == [prev];
      stored := stored + [argc];
      if argc == MAX_ARGS { return Err(StoreOutOfBounds), stored; }
      ghost var parts := argv[..argc];
      argv[argc] := prev;
      argc := argc + 1;
      assert argv[..argc] == parts + [prev];
      r := Ok(argc);
    }

    /** Expands the first `argc` slots of `argv` in place. */
    method ExpandParts(argv: array<string>, argc: nat, args: seq<string>, ghost n: nat) returns (r: Option<Error>)
      requires Bounded(vars) && argc <= argv.Length && forall i | 0 <= i < argc :: |argv[i]| <= n
      modifies this, argv
      ensures var parts := old(argv[..argc]);
              match r
              case Some(e) => ExpandAll(w, old(vars), parts, args, n) == Err(e)
              case None => ExpandAll(w, old(vars), parts, args, n) == Ok(argv[..argc]) && vars == old(vars)
      decreases Budget(vars), n, 1
    {
      ghost var parts := argv[..argc];
      assert parts[0..] == parts && argv[..0] == [];
      BeforeAllNone(ExpandAll(w, vars, parts, args, n));
      for i := 0 to argc
        invariant vars == old(vars) && argv[i..argc] == parts[i..]
        invariant ExpandAll(w, vars, parts, args, n) == BeforeAll(argv[..i], ExpandAll(w, vars, parts[i..], args, n))
      {
        assert argv[i] == argv[i..argc][0] == parts[i];
        var e, _ := ExpandString(EndOfString, argv[i], args);
        if e.Failed? { return Some(e.error); }
        assert parts[i..][1..] == parts[i + 1..];
        BeforeAllNext(argv[..i], e.text, ExpandAll(w, vars, parts[i + 1..], args, n));
        ghost var before, after := argv[..i], argv[i + 1..argc];
        argv[i] := e.text;
        assert argv[..i + 1] == before + [e.text] && argv[i + 1..argc] == after == parts[i + 1..];
      }
      assert argv[..argc] + [] == argv[..argc];
      r := None;
    }

    method Evaluate(c: string, args: seq<string>) returns (r: Result<string>)
      requires Bounded(vars)
      modifies this
      ensures r == EvalClause(w, old(vars), c, args)
      ensures r.Ok? ==> vars == old(vars)
      decreases Budget(vars), |c|, 2
    {
      var n := w.number(c);
      if n.Some? && 0 < n.value <= |args| { return Ok(args[n.value - 1]); }
      var argv := new string[MAX_ARGS];
      var argc, _ := SplitClause(c, argv);
      if argc.Err? { return Err(argc.error); }
      assert forall i | 0 <= i < argc.value :: argv[i] == argv[..argc.value][i];
      var e := ExpandParts(argv, argc.value, args, |c|);
      if e.Some? { return Err(e.value); }
      var ts := argv[..argc.value];
      var name, newArgs := ts[0], ts[1..];
      var v := VariableExpand(name, newArgs);
      if v.Some? { return v.value; }
      var f := BuiltIn(w, name, newArgs);
      if f.Some? { return f.value; }
      if newArgs == [] && name != "" && w.getenv(name).Some? { return Ok(w.getenv(name).value); }
      r := Ok("");
    }

    /** Finds the parenthesis that closes the reference `p`; returns "" if there is none. */
    method FindClose(p: string) returns (q: string)
      ensures Within(p, q) && (q == "" <==> Close(p, 0) == None)
      ensures q != "" ==> Close(p, 0) == Some(|p| - |q|)
    {
      var nest := 0;
      q := p;
      while q != ""
        invariant nest >= 0 && Seeking(p, q, nest)
        decreases |q|
      {
        if NestAfter(q[0], nest) >= 0 { SeekNext(p, q, nest); }
        if q[0] == '(' {
          nest := nest + 1;
        } else if q[0] == ')' {
          if nest == 0 { break; }
          nest := nest - 1;
        }
        q := q[1..];
      }
    }

    /** The text for the reference whose dollar sign is just before `str`, and what follows it. */
    method ExpandDollar(str: string, args: seq<string>) returns (r: Expansion)
      requires Bounded(vars)
      modifies this
      ensures r == Dollar(w, old(vars), str, args)
      ensures r.Done? ==> vars == old(vars)
      decreases Budget(vars), |str|, 3
    {
      if str == "" || str[0] != '(' { return Done("$", str); }
      var p := str[1..];
      var q := FindClose(p);
      if q == "" { return Failed(UnterminatedReference); }
      var n := |p| - |q|;
      assert p[..n] == str[1..n + 1] && q[1..] == str[n + 2..];
      var v := Evaluate(p[..n], args);
      if v.Err? { return Failed(v.error); }
      r := Done(v.value, q[1..]);
    }

    /** Expands up to the end; `outLen` is the size of the buffer for the result. */
    method ExpandString(stop: Stop, str: string, args: seq<string>) returns (r: Expansion, outLen: nat)
      requires Bounded(vars)
      modifies this
      ensures r == Expand(w, old(vars), stop, str, args)
      ensures r.Done? ==> vars == old(vars) && outLen == |r.text| + 1
      decreases Budget(vars), |str|, 0
    {
      var out, start, p := "", str, str;
      outLen := 1;
      ghost var ready := "";
      SpanNone(str, ready);
      ExpandFirst(w, vars, stop, str, args);
      while true
        invariant vars == old(vars) && outLen == |out| + 1
        invariant |start| <= |str| && Within(start, p) && ready == out + Span(start, p)
        invariant Expanding(w, vars, stop, str, args, ready, p)
        decreases |p|
      {
        if p != "" { ExpandNext(w, vars, stop, str, args, ready, p); }
        if p != "" && p[0] == '$' {
          var inLen := |start| - |p|;
          var d := ExpandDollar(p[1..], args);
          if d.Failed? { return d, outLen; }
          assert ready == out + start[..inLen];
          outLen := outLen + inLen + |d.text|;
          out := out + start[..inLen] + d.text;
          ready := ready + d.text;
          p := d.rest;
          start := p;
          SpanNone(p, ready);
          continue;
        }
        if p == "" || IsEnd(stop, p[0]) {
          ExpandLast(w, vars, stop, str, args, ready, p);
          break;
        }
        SpanNext(start, p);
        assert out + Span(start, p[1..]) == ready + [p[0]];
        ready := ready + [p[0]];
        p := p[1..];
      }
      var inLen := |start| - |p|;
      outLen := outLen + inLen;
      r := Done(out + start[..inLen], p);
    }
  }
}
