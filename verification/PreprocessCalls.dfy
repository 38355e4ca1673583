/**
 What references stand for: a call replaces the positional references in the value of the
 called variable, and arguments, variables, built-in functions and the environment are tried in
 this order.
 */
module PreprocessCalls {
  import opened Tristate
  import opened Preprocess

  // ----- references -----

  /** Text without commas and parentheses. */
  predicate Bare(s: string) {
    forall i | 0 <= i < |s| :: s[i] != ',' && s[i] != '(' && s[i] != ')'
  }

  function Reference(c: string): string {
    "$(" + c + ")"
  }

  /** Inside `nest` parentheses that `s` closes, and no others. */
  predicate Closed(s: string, nest: nat) {
    if s == "" then nest == 0
    else if s[0] == '(' then Closed(s[1..], nest + 1)
    else if s[0] == ')' then nest > 0 && Closed(s[1..], nest - 1)
    else Closed(s[1..], nest)
  }

  lemma {:induction false} CloseBehind(c: string, nest: nat)
    requires Closed(c, nest)
    ensures Close(c + ")", nest) == Some(|c|)
  {
    var s := c + ")";
    if c != "" {
      assert s[1..] == c[1..] + ")" && s[0] == c[0];
      CloseBehind(c[1..], NestAfter(c[0], nest));
    }
  }

  lemma InParentheses(c: string)
    ensures var s := "(" + c + ")"; s[1..] == c + ")" && s[1..|c| + 1] == c && s[|c| + 2..] == ""
  {
  }

  lemma ParenthesesClose(c: string)
    requires Closed(c, 0)
    ensures var s := "(" + c + ")"; Close(s[1..], 0) == Some(|c|) && s[1..|c| + 1] == c && s[|c| + 2..] == ""
  {
    InParentheses(c);
    CloseBehind(c, 0);
  }

  lemma ReferenceComplete(c: string)
    requires Closed(c, 0)
    ensures Complete(Reference(c))
  {
    var s := Reference(c);
    assert s[2..] == c + ")";
    CloseBehind(c, 0);
    assert s[|c| + 3..] == "";
  }

  function AsExpansion(r: Result<string>): Expansion {
    match r case Ok(v) => Done(v, "") case Err(e) => Failed(e)
  }

  lemma DollarClause(w: World, vs: seq<Variable>, c: string, args: seq<string>)
    requires Bounded(vs) && Closed(c, 0)
    ensures Dollar(w, vs, "(" + c + ")", args) == AsExpansion(EvalClause(w, vs, c, args))
  {
    ParenthesesClose(c);
  }

  /** A reference stands for the value of its clause. */
  lemma ReferenceExpands(w: World, vs: seq<Variable>, c: string, args: seq<string>)
    requires Bounded(vs) && Closed(c, 0)
    ensures Expand(w, vs, EndOfString, Reference(c), args) == AsExpansion(EvalClause(w, vs, c, args))
  {
    assert Reference(c)[1..] == "(" + c + ")" && Reference(c)[0] == '$';
    DollarClause(w, vs, c, args);
    var r := EvalClause(w, vs, c, args);
    if r.Ok? { assert Expand(w, vs, EndOfString, "", args) == Done("", "") && r.value + "" == r.value; }
  }

  lemma {:induction false} BareClosed(s: string)
    requires Bare(s)
    ensures Closed(s, 0)
  {
    if s != "" { BareClosed(s[1..]); }
  }

  // ----- templates -----

  /** Part of a template: text, or a reference to argument `k` written as `ref`. */
  datatype Piece = Lit(text: string) | Arg(ref: string, k: nat)

  ghost predicate PieceOk(w: World, p: Piece, n: nat) {
    match p
    case Lit(t) => NoReference(t) && Complete(t)
    case Arg(ref, k) => Bare(ref) && w.number(ref) == Some(k) && 1 <= k <= n
  }

  ghost predicate PiecesOk(w: World, ps: seq<Piece>, n: nat) {
    forall j | 0 <= j < |ps| :: PieceOk(w, ps[j], n)
  }

  function Written(p: Piece): string {
    match p case Lit(t) => t case Arg(ref, _) => Reference(ref)
  }

  function TextOf(ps: seq<Piece>): string {
    if ps == [] then "" else Written(ps[0]) + TextOf(ps[1..])
  }

  /** The template with each reference replaced by its argument. */
  function Filled(ps: seq<Piece>, args: seq<string>): string {
    if ps == [] then "" else FilledOne(ps[0], args) + Filled(ps[1..], args)
  }

  function FilledOne(p: Piece, args: seq<string>): string {
    match p
    case Lit(t) => t
    case Arg(_, k) => if 1 <= k <= |args| then args[k - 1] else ""
  }

  lemma PieceExpands(w: World, vs: seq<Variable>, p: Piece, args: seq<string>)
    requires Bounded(vs) && PieceOk(w, p, |args|)
    ensures Complete(Written(p))
    ensures Expand(w, vs, EndOfString, Written(p), args) == Done(FilledOne(p, args), "")
  {
    match p
    case Lit(t) => PlainText(w, vs, t, args);
    case Arg(ref, _) =>
      BareClosed(ref);
      ReferenceComplete(ref);
      ReferenceExpands(w, vs, ref, args);
  }

  lemma {:induction false} TemplateExpands(w: World, vs: seq<Variable>, ps: seq<Piece>, args: seq<string>)
    requires Bounded(vs) && PiecesOk(w, ps, |args|)
    ensures Expand(w, vs, EndOfString, TextOf(ps), args) == Done(Filled(ps, args), "")
  {
    if ps != [] {
      PieceExpands(w, vs, ps[0], args);
      TemplateExpands(w, vs, ps[1..], args);
      Concatenation(w, vs, Written(ps[0]), TextOf(ps[1..]), args);
      ThenDone(FilledOne(ps[0], args), Filled(ps[1..], args));
    }
  }

  lemma ThenDone(t: string, u: string)
    ensures Then(Done(t, ""), Done(u, "")) == Done(t + u, "")
  {
  }

  // ----- calls -----

  /** The clause that calls the first part with the others for arguments. */
  function Call(parts: seq<string>): string
    requires |parts| > 0
  {
    if |parts| == 1 then parts[0] else parts[0] + "," + Call(parts[1..])
  }

  /** Closed, with commas only inside parentheses. */
  predicate Balanced(s: string, nest: nat) {
    if s == "" then nest == 0
    else if s[0] == '(' then Balanced(s[1..], nest + 1)
    else if s[0] == ')' then nest > 0 && Balanced(s[1..], nest - 1)
    else (s[0] == ',' ==> nest > 0) && Balanced(s[1..], nest)
  }

  predicate AllBalanced(parts: seq<string>) {
    forall j | 0 <= j < |parts| :: Balanced(parts[j], 0)
  }

  lemma {:induction false} BalancedCat(s: string, nest: nat, t: string)
    requires Balanced(s, nest) && Balanced(t, 0)
    ensures Balanced(s + t, nest)
  {
    if s == "" {
      assert s + t == t;
    } else {
      assert (s + t)[1..] == s[1..] + t && (s + t)[0] == s[0];
      BalancedCat(s[1..], NestAfter(s[0], nest), t);
    }
  }

  lemma {:induction false} ClosedCat(s: string, nest: nat, t: string)
    requires Balanced(s, nest) && Closed(t, 0)
    ensures Closed(s + t, nest)
  {
    if s == "" {
      assert s + t == t;
    } else {
      assert (s + t)[1..] == s[1..] + t && (s + t)[0] == s[0];
      ClosedCat(s[1..], NestAfter(s[0], nest), t);
    }
  }

  lemma {:induction false} BareBalanced(s: string)
    requires Bare(s)
    ensures Balanced(s, 0)
  {
    if s != "" { BareBalanced(s[1..]); }
  }

  lemma {:induction false} BareInside(s: string)
    requires Bare(s)
    ensures Balanced(s + ")", 1)
  {
    var t := s + ")";
    if s != "" {
      assert t[1..] == s[1..] + ")" && t[0] == s[0];
      BareInside(s[1..]);
    }
  }

  lemma ReferenceBalanced(s: string)
    requires Bare(s)
    ensures Balanced(Reference(s), 0)
  {
    var r := Reference(s);
    assert r[1..][1..] == s + ")" && r[0] == '$' && r[1..][0] == '(';
    BareInside(s);
  }

  lemma {:induction false} CallClosed(parts: seq<string>)
    requires |parts| > 0 && AllBalanced(parts)
    ensures Closed(Call(parts), 0)
  {
    if |parts| == 1 {
      ClosedCat(parts[0], 0, "");
      assert parts[0] + "" == parts[0];
    } else {
      CallClosed(parts[1..]);
      var rest := "," + Call(parts[1..]);
      assert rest[1..] == Call(parts[1..]);
      ClosedCat(parts[0], 0, rest);
      assert parts[0] + rest == Call(parts);
    }
  }

  lemma {:induction false} SplitLast(t: string, nest: nat)
    requires Balanced(t, nest)
    ensures Split(t, nest) == [t]
  {
    if t != "" {
      SplitLast(t[1..], NestAfter(t[0], nest));
      assert [t[0]] + t[1..] == t;
    }
  }

  lemma {:induction false} SplitComma(t: string, nest: nat, rest: string)
    requires Balanced(t, nest)
    ensures Split(t + "," + rest, nest) == [t] + Split(rest, 0)
  {
    var s := t + "," + rest;
    if t == "" {
      assert s[1..] == rest && s[0] == ',';
    } else {
      assert s[1..] == t[1..] + "," + rest && s[0] == t[0];
      SplitComma(t[1..], NestAfter(t[0], nest), rest);
      assert [t[0]] + t[1..] == t;
    }
  }

  /** A call is split into its parts. */
  lemma {:induction false} SplitCall(parts: seq<string>)
    requires |parts| > 0 && AllBalanced(parts)
    ensures Split(Call(parts), 0) == parts
  {
    if |parts| == 1 {
      SplitLast(parts[0], 0);
    } else {
      SplitCall(parts[1..]);
      SplitComma(parts[0], 0, Call(parts[1..]));
      assert [parts[0]] + parts[1..] == parts;
    }
  }

  // ----- parts that are templates -----

  /** Made of text without commas and parentheses, and of positional references. */
  ghost predicate PartOk(w: World, ps: seq<Piece>, n: nat) {
    PiecesOk(w, ps, n) && forall j | 0 <= j < |ps| :: ps[j].Lit? ==> Bare(ps[j].text)
  }

  ghost predicate PartsOk(w: World, parts: seq<seq<Piece>>, n: nat) {
    forall j | 0 <= j < |parts| :: PartOk(w, parts[j], n)
  }

  function Texts(parts: seq<seq<Piece>>): (ts: seq<string>)
    ensures |ts| == |parts| && forall j | 0 <= j < |parts| :: ts[j] == TextOf(parts[j])
  {
    if parts == [] then [] else [TextOf(parts[0])] + Texts(parts[1..])
  }

  /** Every part with the arguments of the caller put in. */
  function AllFilled(parts: seq<seq<Piece>>, caller: seq<string>): (ts: seq<string>)
    ensures |ts| == |parts| && forall j | 0 <= j < |parts| :: ts[j] == Filled(parts[j], caller)
  {
    if parts == [] then [] else [Filled(parts[0], caller)] + AllFilled(parts[1..], caller)
  }

  lemma {:induction false} TemplateBalanced(w: World, ps: seq<Piece>, n: nat)
    requires PartOk(w, ps, n)
    ensures Balanced(TextOf(ps), 0)
  {
    if ps != [] {
      TemplateBalanced(w, ps[1..], n);
      match ps[0] {
        case Lit(t) => BareBalanced(t);
        case Arg(ref, k) => assert PieceOk(w, ps[0], n); ReferenceBalanced(ref);
      }
      BalancedCat(Written(ps[0]), 0, TextOf(ps[1..]));
    }
  }

  lemma {:induction false} PartsExpand(w: World, vs: seq<Variable>, parts: seq<seq<Piece>>, caller: seq<string>, n: nat)
    requires Bounded(vs) && PartsOk(w, parts, |caller|) && forall t <- Texts(parts) :: |t| <= n
    ensures ExpandAll(w, vs, Texts(parts), caller, n) == Ok(AllFilled(parts, caller))
  {
    if parts != [] {
      TemplateExpands(w, vs, parts[0], caller);
      assert Texts(parts)[1..] == Texts(parts[1..]);
      PartsExpand(w, vs, parts[1..], caller, n);
    }
  }

  /** The clause is the number of an argument of the caller. */
  predicate Positional(w: World, c: string, args: seq<string>) {
    w.number(c).Some? && 0 < w.number(c).value <= |args|
  }

  /** The parts of a call are expanded where the call stands, and then decide what it is. */
  lemma CallApplies(w: World, vs: seq<Variable>, parts: seq<seq<Piece>>, caller: seq<string>)
    requires Bounded(vs) && 0 < |parts| <= MAX_ARGS && PartsOk(w, parts, |caller|)
    requires !Positional(w, Call(Texts(parts)), caller)
    ensures Closed(Call(Texts(parts)), 0)
    ensures var vals := AllFilled(parts, caller);
            EvalClause(w, vs, Call(Texts(parts)), caller) == Apply(w, vs, vals[0], vals[1..])
  {
    var c := Call(Texts(parts));
    forall j | 0 <= j < |parts| ensures Balanced(Texts(parts)[j], 0) { TemplateBalanced(w, parts[j], |caller|); }
    CallClosed(Texts(parts));
    SplitCall(Texts(parts));
    PartsExpand(w, vs, parts, caller, |c|);
  }

  /**
   The call law: `$(f,a1,...,an)` is the value of the recursive variable f with each `$(k)` in it
   replaced by ak, in which the arguments of the caller have been put in before.
   */
  lemma CallLaw(w: World, vs: seq<Variable>, i: nat, ps: seq<Piece>, parts: seq<seq<Piece>>, caller: seq<string>)
    requires Bounded(vs) && i < |vs| && forall j | 0 <= j < i :: vs[j].name != vs[i].name
    requires 0 < |parts| <= MAX_ARGS && PartsOk(w, parts, |caller|) && Filled(parts[0], caller) == vs[i].name
    requires vs[i].flavor == Recursive && vs[i].value == TextOf(ps) && PiecesOk(w, ps, |parts| - 1)
    requires vs[i].expCount <= MAX_DEPTH && (|parts| == 1 ==> vs[i].expCount == 0)
    requires !Positional(w, Call(Texts(parts)), caller)
    ensures Expand(w, vs, EndOfString, Reference(Call(Texts(parts))), caller) ==
            Done(Filled(ps, AllFilled(parts, caller)[1..]), "")
  {
    LookupFirst(vs, i);
    CallApplies(w, vs, parts, caller);
    ReferenceExpands(w, vs, Call(Texts(parts)), caller);
    TemplateExpands(w, Enter(vs, i), ps, AllFilled(parts, caller)[1..]);
  }

  // ----- what a name stands for -----

  /** An argument wins over everything else. */
  lemma ArgumentFirst(w: World, vs: seq<Variable>, c: string, args: seq<string>, k: nat)
    requires Bounded(vs) && Bare(c) && w.number(c) == Some(k) && 1 <= k <= |args|
    ensures Expand(w, vs, EndOfString, Reference(c), args) == Done(args[k - 1], "")
  {
    BareClosed(c);
    ReferenceExpands(w, vs, c, args);
  }

  lemma {:induction false} LookupFirst(vs: seq<Variable>, i: nat)
    requires i < |vs| && forall j | 0 <= j < i :: vs[j].name != vs[i].name
    ensures Lookup(vs, vs[i].name) == Some(i)
  {
    if i > 0 { LookupFirst(vs[1..], i - 1); }
  }

  /** A variable wins over functions and the environment; one that is not recursive is not expanded any further. */
  lemma VariableSecond(w: World, vs: seq<Variable>, i: nat, parts: seq<seq<Piece>>, caller: seq<string>)
    requires Bounded(vs) && i < |vs| && forall j | 0 <= j < i :: vs[j].name != vs[i].name
    requires vs[i].flavor == Simple && vs[i].expCount <= MAX_DEPTH && (|parts| == 1 ==> vs[i].expCount == 0)
    requires 0 < |parts| <= MAX_ARGS && PartsOk(w, parts, |caller|) && Filled(parts[0], caller) == vs[i].name
    requires !Positional(w, Call(Texts(parts)), caller)
    ensures Expand(w, vs, EndOfString, Reference(Call(Texts(parts))), caller) == Done(vs[i].value, "")
  {
    LookupFirst(vs, i);
    CallApplies(w, vs, parts, caller);
    ReferenceExpands(w, vs, Call(Texts(parts)), caller);
  }

  /** The call has this name and these arguments, and is neither a positional reference nor a variable. */
  ghost predicate NoVariable(w: World, vs: seq<Variable>, parts: seq<seq<Piece>>, caller: seq<string>, name: string,
                             args: seq<string>) {
    && Bounded(vs) && 0 < |parts| <= MAX_ARGS && PartsOk(w, parts, |caller|)
    && AllFilled(parts, caller) == [name] + args
    && !Positional(w, Call(Texts(parts)), caller) && forall i | 0 <= i < |vs| :: vs[i].name != name
  }

  /** What the call expands to. */
  ghost predicate Gives(w: World, vs: seq<Variable>, parts: seq<seq<Piece>>, caller: seq<string>, e: Expansion)
    requires Bounded(vs) && |parts| > 0
  {
    Expand(w, vs, EndOfString, Reference(Call(Texts(parts))), caller) == e
  }

  lemma NotAVariable(w: World, vs: seq<Variable>, parts: seq<seq<Piece>>, caller: seq<string>, name: string,
                     args: seq<string>)
    requires NoVariable(w, vs, parts, caller, name, args)
    ensures Gives(w, vs, parts, caller,
                  AsExpansion(Apply(w, vs, name, args)))
    ensures Lookup(vs, name) == None
  {
    CallApplies(w, vs, parts, caller);
    ReferenceExpands(w, vs, Call(Texts(parts)), caller);
    assert ([name] + args)[1..] == args;
  }

  /** Built-in functions win over the environment; the file and line take no arguments. */
  lemma PlaceFunctions(w: World, vs: seq<Variable>, parts: seq<seq<Piece>>, caller: seq<string>, name: string,
                       args: seq<string>)
    requires NoVariable(w, vs, parts, caller, name, args) && (name == "filename" || name == "lineno")
    ensures Gives(w, vs, parts, caller,
                  if args != [] then Failed(TooManyFunctionArguments)
                  else if name == "filename" then Done(w.fileName, "")
                  else Done(w.lineNumber, ""))
  {
    NotAVariable(w, vs, parts, caller, name, args);
  }

  /** A message or a command is the only argument. */
  lemma CommandFunctions(w: World, vs: seq<Variable>, parts: seq<seq<Piece>>, caller: seq<string>, name: string,
                         args: seq<string>)
    requires NoVariable(w, vs, parts, caller, name, args) && (name == "info" || name == "shell")
    ensures Gives(w, vs, parts, caller,
                  if args == [] then Failed(TooFewFunctionArguments)
                  else if |args| > 1 then Failed(TooManyFunctionArguments)
                  else if name == "info" then Done("", "")
                  else if w.shell(args[0]).Some? then Done(w.shell(args[0]).value, "")
                  else Failed(ShellFailed))
  {
    NotAVariable(w, vs, parts, caller, name, args);
  }

  /** A condition and a message: an error is reported if the condition is y, a warning stands for nothing. */
  lemma CheckFunctions(w: World, vs: seq<Variable>, parts: seq<seq<Piece>>, caller: seq<string>, name: string,
                       args: seq<string>)
    requires NoVariable(w, vs, parts, caller, name, args) && (name == "error-if" || name == "warning-if")
    ensures Gives(w, vs, parts, caller,
                  if |args| < 2 then Failed(TooFewFunctionArguments)
                  else if |args| > 2 then Failed(TooManyFunctionArguments)
                  else if name == "error-if" && args[0] == "y" then Failed(UserError(args[1]))
                  else Done("", ""))
  {
    NotAVariable(w, vs, parts, caller, name, args);
  }

  /** Any other name is looked up in the environment if it is not called, and else stands for nothing. */
  lemma EnvironmentLast(w: World, vs: seq<Variable>, parts: seq<seq<Piece>>, caller: seq<string>, name: string,
                        args: seq<string>)
    requires NoVariable(w, vs, parts, caller, name, args)
    requires name !in {"filename", "lineno", "info", "shell", "warning-if", "error-if"}
    ensures Gives(w, vs, parts, caller,
                  if args == [] && name != "" && w.getenv(name).Some? then Done(w.getenv(name).value, "")
                  else Done("", ""))
  {
    NotAVariable(w, vs, parts, caller, name, args);
  }

  /** A token ends at the first character that cannot be part of one. */
  lemma {:induction false} TokenEnds(w: World, vs: seq<Variable>, s: string, k: nat, args: seq<string>)
    requires Bounded(vs) && k <= |s| && (k < |s| ==> s[k] != '$' && IsEnd(EndOfToken, s[k]))
    requires forall j | 0 <= j < k :: s[j] != '$' && !IsEnd(EndOfToken, s[j])
    ensures Expand(w, vs, EndOfToken, s, args) == Done(s[..k], s[k..])
    decreases k
  {
    if k > 0 {
      TokenEnds(w, vs, s[1..], k - 1, args);
      assert s[..k] == [s[0]] + s[1..][..k - 1];
    }
  }
}
