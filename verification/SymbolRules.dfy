/**
 What the values of a solution are, rule by rule, in terms of the declarations: which default
 counts, what the user's value, an imply and a select do to it, and what text a symbol has.
 */
module SymbolRules {
  import opened Tristate
  import opened Expr
  import opened Symbols

  // ----- visibility -----

  /** Property `k` is a prompt whose condition has the value `v`. */
  predicate PromptWith(d: Decl, env: Env, k: nat, v: Tri) {
    && k < |d.props| && d.props[k].kind in {Prompt, Comment, MenuTitle}
    && v == if d.props[k].visible.Some? then Value(d.props[k].visible.value, env) else YES
  }

  /** The highest condition of a prompt has the value `v`; without any prompt that is no. */
  ghost predicate BestCondition(d: Decl, env: Env, v: Tri) {
    && (v != NO ==> exists k: nat :: PromptWith(d, env, k, v))
    && (forall k: nat, w: Tri | PromptWith(d, env, k, w) :: w <= v)
  }

  lemma {:induction false} BestPromptIsBest(d: Decl, n: nat, env: Env)
    requires n <= |d.props|
    ensures var v := BestPrompt(d.props, n, env);
            && (v != NO ==> exists k: nat :: k < n && PromptWith(d, env, k, v))
            && (forall k: nat, w: Tri | k < n && PromptWith(d, env, k, w) :: w <= v)
  {
    if n > 0 {
      BestPromptIsBest(d, n - 1, env);
      var v, p := BestPrompt(d.props, n, env), d.props[n - 1];
      if p.HasText() && v == ValueOpt(p.visible, env) { assert PromptWith(d, env, n - 1, v); }
    }
  }

  /** A symbol that can only be y or n. */
  predicate NeverMod(t: Table, d: Decl) {
    d.kind != Tristate || t.modules == NO
  }

  /** The value with mod counting as yes where the symbol cannot be mod. */
  function Counted(t: Table, d: Decl, v: Tri): Tri {
    if v == MOD && NeverMod(t, d) then YES else v
  }

  lemma VisibleIsBest(t: Table, d: Decl, env: Env, v: Tri)
    requires BestCondition(d, env, v)
    ensures Visible(t, d, env) == Counted(t, d, v)
  {
    BestPromptIsBest(d, |d.props|, env);
    var w := BestPrompt(d.props, |d.props|, env);
    if w != NO { assert w <= v; }
    if v != NO { assert v <= w; }
  }

  // ----- the property in force -----

  function ConditionValue(p: Prop, env: Env): Tri {
    if p.visible.Some? then Value(p.visible.value, env) else YES
  }

  /** Property `k` is the first of its kind whose condition is not no. */
  ghost predicate InForce(d: Decl, kind: PropKind, env: Env, k: nat) {
    && k < |d.props| && d.props[k].kind == kind && ConditionValue(d.props[k], env) != NO
    && forall j: nat | j < k && d.props[j].kind == kind :: ConditionValue(d.props[j], env) == NO
  }

  ghost predicate NoneInForce(d: Decl, kind: PropKind, env: Env) {
    forall j: nat | j < |d.props| && d.props[j].kind == kind :: ConditionValue(d.props[j], env) == NO
  }

  lemma {:induction false} ActiveIsInForce(d: Decl, kind: PropKind, env: Env, i: nat, k: nat)
    requires i <= k && InForce(d, kind, env, k)
    ensures ActiveProp(kind, d.props, i, env) == Some(d.props[k])
    decreases k - i
  {
    if i < k { ActiveIsInForce(d, kind, env, i + 1, k); }
  }

  lemma {:induction false} NoneActive(d: Decl, kind: PropKind, env: Env, i: nat)
    requires i <= |d.props| && NoneInForce(d, kind, env)
    ensures ActiveProp(kind, d.props, i, env) == None
    decreases |d.props| - i
  {
    if i < |d.props| { NoneActive(d, kind, env, i + 1); }
  }

  // ----- bools and tristates -----

  /** The value of an optional expression, `absent` if there is none. */
  function OptValue(e: Option<Expr>, absent: Tri, env: Env): Tri {
    if e.Some? then Value(e.value, env) else absent
  }

  /** The default in force gives `v`: the minimum of its expression and its condition, or no if there is none. */
  ghost predicate DefaultGives(d: Decl, env: Env, v: Tri) {
    || (NoneInForce(d, Default, env) && v == NO)
    || (exists k: nat :: InForce(d, Default, env, k) &&
          v == TriAnd(OptValue(d.props[k].expr, YES, env), ConditionValue(d.props[k], env)))
  }

  lemma DefaultIsGiven(d: Decl, env: Env, v: Tri)
    requires DefaultGives(d, env, v)
    ensures DefaultTri(d, env) == v
  {
    if NoneInForce(d, Default, env) && v == NO {
      NoneActive(d, Default, env, 0);
    } else {
      var k: nat :| InForce(d, Default, env, k) &&
        v == TriAnd(OptValue(d.props[k].expr, YES, env), ConditionValue(d.props[k], env));
      ActiveIsInForce(d, Default, env, 0, k);
    }
  }

  predicate Logical(d: Decl) {
    d.kind == Boolean || d.kind == Tristate
  }

  /** The user has given a value and some prompt is visible. */
  ghost predicate UserSets(d: Decl, env: Env) {
    (d.user.Some? || d.userText.Some?) && exists k: nat, v: Tri :: PromptWith(d, env, k, v) && v != NO
  }

  /** Nothing is demanded of the symbol. */
  predicate NotSelected(d: Decl, env: Env) {
    OptValue(d.revDep, NO, env) == NO
  }

  predicate NotImplied(d: Decl, env: Env) {
    OptValue(d.implied, NO, env) == NO
  }

  lemma NotSet(t: Table, d: Decl, env: Env)
    requires !UserSets(d, env) && (d.user.Some? || d.userText.Some?)
    ensures Visible(t, d, env) == NO
  {
    BestPromptIsBest(d, |d.props|, env);
  }

  /** Without the user, an imply or a select, the value is that of the default. */
  lemma DefaultRule(t: Table, vals: Valuation, i: nat, v: Tri)
    requires Solution(t, vals) && i < |vals| && Logical(t.decls[i])
    requires var d, env := t.decls[i], EnvOf(t, vals);
             !UserSets(d, env) && NotSelected(d, env) && NotImplied(d, env) && DefaultGives(d, env, v)
    ensures vals[i].tri == Counted(t, t.decls[i], v)
  {
    var d, env := t.decls[i], EnvOf(t, vals);
    assert vals[i] == Step(t, vals, d);
    if d.user.Some? { NotSet(t, d, env); }
    DefaultIsGiven(d, env, v);
  }

  /** A value of the user counts as far as the symbol is visible, whatever the defaults and implies. */
  lemma UserRule(t: Table, vals: Valuation, i: nat, v: Tri)
    requires Solution(t, vals) && i < |vals| && Logical(t.decls[i]) && t.decls[i].user.Some?
    requires var d, env := t.decls[i], EnvOf(t, vals); BestCondition(d, env, v) && v != NO && NotSelected(d, env)
    ensures var d := t.decls[i]; vals[i].tri == Counted(t, d, TriAnd(d.user.value, Counted(t, d, v)))
  {
    var d, env := t.decls[i], EnvOf(t, vals);
    assert vals[i] == Step(t, vals, d);
    VisibleIsBest(t, d, env, v);
  }

  /** An imply raises the default, but not above the symbol's own dependency. */
  lemma ImplyRule(t: Table, vals: Valuation, i: nat, v: Tri)
    requires Solution(t, vals) && i < |vals| && Logical(t.decls[i])
    requires var d, env := t.decls[i], EnvOf(t, vals);
             !UserSets(d, env) && NotSelected(d, env) && !NotImplied(d, env) && DefaultGives(d, env, v)
    ensures var d, env := t.decls[i], EnvOf(t, vals);
            var dir, imp := Counted(t, d, OptValue(d.dirDep, YES, env)), Counted(t, d, OptValue(d.implied, NO, env));
            vals[i].tri == Counted(t, d, TriAnd(TriOr(v, imp), dir))
  {
    var d, env := t.decls[i], EnvOf(t, vals);
    assert vals[i] == Step(t, vals, d);
    if d.user.Some? { NotSet(t, d, env); }
    DefaultIsGiven(d, env, v);
  }

  /** What the user, the default in force and an imply make of the symbol before selects are looked at. */
  ghost predicate OwnValue(t: Table, d: Decl, env: Env, w: Tri) {
    if UserSets(d, env) && d.user.Some? then
      exists v: Tri :: BestCondition(d, env, v) && w == TriAnd(d.user.value, Counted(t, d, v))
    else if NotImplied(d, env) then DefaultGives(d, env, w)
    else
      var dir, imp := Counted(t, d, OptValue(d.dirDep, YES, env)), Counted(t, d, OptValue(d.implied, NO, env));
      exists v: Tri :: DefaultGives(d, env, v) && w == TriAnd(TriOr(v, imp), dir)
  }

  lemma {:induction false} SomeInForce(d: Decl, kind: PropKind, env: Env, n: nat) returns (k: nat)
    requires n <= |d.props| && !NoneInForce(d, kind, env)
    requires forall j: nat | j < n && d.props[j].kind == kind :: ConditionValue(d.props[j], env) == NO
    ensures InForce(d, kind, env, k)
    decreases |d.props| - n
  {
    if d.props[n].kind == kind && ConditionValue(d.props[n], env) != NO {
      k := n;
    } else {
      k := SomeInForce(d, kind, env, n + 1);
    }
  }

  /** There is always such a value. */
  lemma OwnValueExists(t: Table, d: Decl, env: Env) returns (w: Tri)
    ensures OwnValue(t, d, env, w)
  {
    if UserSets(d, env) && d.user.Some? {
      BestPromptIsBest(d, |d.props|, env);
      var v := BestPrompt(d.props, |d.props|, env);
      assert BestCondition(d, env, v);
      w := TriAnd(d.user.value, Counted(t, d, v));
    } else {
      var v := NO;
      if !NoneInForce(d, Default, env) {
        var k := SomeInForce(d, Default, env, 0);
        v := TriAnd(OptValue(d.props[k].expr, YES, env), ConditionValue(d.props[k], env));
      }
      assert DefaultGives(d, env, v);
      var dir, imp := Counted(t, d, OptValue(d.dirDep, YES, env)), Counted(t, d, OptValue(d.implied, NO, env));
      w := if NotImplied(d, env) then v else TriAnd(TriOr(v, imp), dir);
    }
  }

  /**
   A select raises the own value to what is demanded, unless the symbol's own dependency is no:
   then the symbol is no.
   */
  lemma LogicalRule(t: Table, vals: Valuation, i: nat, w: Tri)
    requires Solution(t, vals) && i < |vals| && Logical(t.decls[i]) && OwnValue(t, t.decls[i], EnvOf(t, vals), w)
    ensures var d, env := t.decls[i], EnvOf(t, vals);
            var rev := Counted(t, d, OptValue(d.revDep, NO, env));
            vals[i].tri == if OptValue(d.dirDep, YES, env) == NO && rev != NO then NO
                           else Counted(t, d, TriOr(w, rev))
  {
    var d, env := t.decls[i], EnvOf(t, vals);
    assert vals[i] == Step(t, vals, d);
    if UserSets(d, env) && d.user.Some? { OwnByUser(t, d, env, w); } else { OwnByDefault(t, d, env, w); }
  }

  /** The value with what is demanded by selects. */
  function Raised(t: Table, d: Decl, env: Env, w: Tri): Tri {
    var rev := Counted(t, d, OptValue(d.revDep, NO, env));
    if OptValue(d.dirDep, YES, env) == NO && rev != NO then NO else Counted(t, d, TriOr(w, rev))
  }

  lemma OwnByUser(t: Table, d: Decl, env: Env, w: Tri)
    requires Logical(d) && OwnValue(t, d, env, w) && UserSets(d, env) && d.user.Some?
    ensures LogicalValue(t, d, Visible(t, d, env), env) == Raised(t, d, env, w)
  {
    var v: Tri :| BestCondition(d, env, v) && w == TriAnd(d.user.value, Counted(t, d, v));
    VisibleIsBest(t, d, env, v);
  }

  lemma OwnByDefault(t: Table, d: Decl, env: Env, w: Tri)
    requires Logical(d) && OwnValue(t, d, env, w) && !(UserSets(d, env) && d.user.Some?)
    ensures LogicalValue(t, d, Visible(t, d, env), env) == Raised(t, d, env, w)
  {
    if d.user.Some? { NotSet(t, d, env); }
    if NotImplied(d, env) {
      DefaultIsGiven(d, env, w);
    } else {
      var dir, imp := Counted(t, d, OptValue(d.dirDep, YES, env)), Counted(t, d, OptValue(d.implied, NO, env));
      var v: Tri :| DefaultGives(d, env, v) && w == TriAnd(TriOr(v, imp), dir);
      DefaultIsGiven(d, env, v);
    }
  }

  // ----- ints, hexes and strings -----

  predicate Textual(d: Decl) {
    d.kind == Int || d.kind == Hex || d.kind == Text
  }

  /** The text of the symbol that is the whole expression of the default in force, or nothing. */
  ghost predicate DefaultText(t: Table, d: Decl, vals: Valuation, text: string)
    requires |vals| == |t.decls|
  {
    var env := EnvOf(t, vals);
    || (NoneInForce(d, Default, env) && text == "")
    || (exists k: nat :: InForce(d, Default, env, k) &&
          text == match d.props[k].expr
                  case Some(Symbol(s)) => SymRaw(t, vals, s)
                  case _ => "")
  }

  /** The user's text where the symbol is visible, else that of the default. */
  ghost predicate OwnText(t: Table, d: Decl, vals: Valuation, text: string)
    requires |vals| == |t.decls|
  {
    if UserSets(d, EnvOf(t, vals)) && d.userText.Some? then text == d.userText.value else DefaultText(t, d, vals, text)
  }

  lemma OwnTextIsPlain(t: Table, d: Decl, vals: Valuation, text: string)
    requires |vals| == |t.decls| && OwnText(t, d, vals, text)
    ensures PlainValue(t, d, vals) == text
  {
    var env := EnvOf(t, vals);
    if UserSets(d, env) && d.userText.Some? {
      BestPromptIsBest(d, |d.props|, env);
    } else {
      if d.userText.Some? { NotSet(t, d, env); }
      if NoneInForce(d, Default, env) && text == "" {
        NoneActive(d, Default, env, 0);
      } else {
        var k: nat :| InForce(d, Default, env, k) &&
          text == match d.props[k].expr case Some(Symbol(s)) => SymRaw(t, vals, s) case _ => "";
        ActiveIsInForce(d, Default, env, 0, k);
      }
    }
  }

  /** A text stays as it is if the symbol is a string or no range is in force. */
  lemma TextRule(t: Table, vals: Valuation, i: nat, text: string)
    requires Solution(t, vals) && i < |vals| && Textual(t.decls[i]) && OwnText(t, t.decls[i], vals, text)
    requires t.decls[i].kind == Text || NoneInForce(t.decls[i], Range, EnvOf(t, vals))
    ensures vals[i] == SymVal(NO, text)
  {
    var d, env := t.decls[i], EnvOf(t, vals);
    assert vals[i] == Step(t, vals, d);
    OwnTextIsPlain(t, d, vals, text);
    if d.kind != Text { NoneActive(d, Range, env, 0); }
  }

  /** A bound as a number, in the base of its own type if it is a number and in that of the ranged symbol if not. */
  function BoundOf(t: Table, d: Decl, s: Sym, vals: Valuation): int
    requires |vals| == |t.decls|
  {
    var base := if s.Config? && (s.kind == Int || s.kind == Hex) then s.kind else d.kind;
    t.parse(base, SymRaw(t, vals, s))
  }

  /** With a range in force a number is kept if it is within it, and else becomes the bound it violates. */
  lemma RangeRule(t: Table, vals: Valuation, i: nat, text: string, k: nat)
    requires Solution(t, vals) && i < |vals| && OwnText(t, t.decls[i], vals, text)
    requires var d := t.decls[i];
             && (d.kind == Int || d.kind == Hex)
             && InForce(d, Range, EnvOf(t, vals), k) && d.props[k].bounds.Some?
    ensures var d := t.decls[i];
            var b, n := d.props[k].bounds.value, t.parse(d.kind, text);
            var low, high := BoundOf(t, d, b.low, vals), BoundOf(t, d, b.high, vals);
            && (low <= n <= high ==> vals[i] == SymVal(NO, text))
            && (n < low ==> vals[i] == SymVal(NO, t.show(d.kind, low)))
            && (low <= n && high < n ==> vals[i] == SymVal(NO, t.show(d.kind, high)))
  {
    var d, env := t.decls[i], EnvOf(t, vals);
    assert vals[i] == Step(t, vals, d);
    OwnTextIsPlain(t, d, vals, text);
    ActiveIsInForce(d, Range, env, 0, k);
  }

  /** Every text symbol has such a text. */
  lemma OwnTextExists(t: Table, d: Decl, vals: Valuation) returns (text: string)
    requires |vals| == |t.decls|
    ensures OwnText(t, d, vals, text)
  {
    var env := EnvOf(t, vals);
    text := "";
    if UserSets(d, env) && d.userText.Some? {
      text := d.userText.value;
    } else if !NoneInForce(d, Default, env) {
      var k := SomeInForce(d, Default, env, 0);
      text := match d.props[k].expr case Some(Symbol(s)) => SymRaw(t, vals, s) case _ => "";
    }
  }
}
