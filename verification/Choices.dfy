/**
 Choices (symbol.c): in mode yes exactly one of the visible members is yes.  Conditions are
 read in an environment in which the choice already has its mode, as the code arranges by
 storing the mode before it looks at the members.
 */
module Choices {
  import opened Tristate
  import opened Expr
  import opened Symbols
  import MenuInherit
  import MenuRecords
  import SymbolRules

  /** A default of the choice: under this condition, that member. */
  datatype Preference = Preference(cond: Option<Expr>, member: nat)

  /** `pick` is the member the user set; the choice's own defaults are the preferences. */
  datatype Group = Group(choice: Decl, members: seq<Decl>, preferences: seq<Preference>, pick: Option<nat>) {
    ghost predicate Valid() {
      && (choice.kind == Boolean || choice.kind == Tristate) && choice.implied.None?
      && (forall k | 0 <= k < |choice.props| :: choice.props[k].kind != Default)
      && (forall i | 0 <= i < |members| :: members[i].kind == Boolean || members[i].kind == Tristate)
      && (forall j | 0 <= j < |preferences| :: preferences[j].member < |members|)
      && (pick.Some? ==> pick.value < |members|)
    }
  }

  // ----- the mode -----

  /** A choice has the value an ordinary symbol would have. */
  function Mode(t: Table, g: Group, env: Env): Tri {
    LogicalValue(t, g.choice, Visible(t, g.choice, env), env)
  }

  lemma {:induction false} NoDefault(props: seq<Prop>, i: nat, env: Env)
    requires i <= |props| && forall k | 0 <= k < |props| :: props[k].kind != Default
    ensures ActiveProp(Default, props, i, env).None?
    decreases |props| - i
  {
    if i < |props| { NoDefault(props, i + 1, env); }
  }

  /**
   The mode is at least what is demanded of the choice, unless the choice is impossible, and
   no more than its visibility or that demand; it is not mod if it cannot be.
   */
  lemma ModeBounds(t: Table, g: Group, env: Env)
    requires g.Valid()
    ensures var d, m := g.choice, Mode(t, g, env);
            var vis, rev := Visible(t, d, env), DepValue(t, d, d.revDep, NO, env);
            && (if DepValue(t, d, d.dirDep, YES, env) == NO && rev != NO then m == NO else rev <= m)
            && m <= TriOr(vis, rev) && (EffectiveType(t, d.kind) == Boolean ==> m != MOD)
            && (rev == NO && d.user.Some? && vis != NO ==> m == TriAnd(Promote(t, d.kind, d.user.value), vis))
  {
    NoDefault(g.choice.props, 0, env);
  }

  /**
   The mode is the user's, as far as the choice is visible, or what is demanded of it if that is
   higher; an impossible choice of which something is demanded is no.
   */
  lemma ModeExact(t: Table, g: Group, env: Env, v: Tri)
    requires g.Valid() && SymbolRules.BestCondition(g.choice, env, v)
    ensures var d := g.choice;
            var rev := SymbolRules.Counted(t, d, SymbolRules.OptValue(d.revDep, NO, env));
            var own := if v != NO && d.user.Some? then TriAnd(d.user.value, SymbolRules.Counted(t, d, v)) else NO;
            Mode(t, g, env) == if SymbolRules.OptValue(d.dirDep, YES, env) == NO && rev != NO then NO
                               else SymbolRules.Counted(t, d, TriOr(own, rev))
  {
    NoDefault(g.choice.props, 0, env);
    SymbolRules.VisibleIsBest(t, g.choice, env, v);
  }

  /** With the demand finalisation records for it, a choice that is visible and possible is never no. */
  lemma MandatoryMode(t: Table, g: Group, env: Env)
    requires g.Valid() && g.choice.revDep.Some?
    requires Value(g.choice.revDep.value, env) >= TriAnd(BestPrompt(g.choice.props, |g.choice.props|, env), MOD)
    requires Visible(t, g.choice, env) != NO && DepValue(t, g.choice, g.choice.dirDep, YES, env) != NO
    ensures Mode(t, g, env) != NO
  {
    ModeBounds(t, g, env);
  }

  /** The best condition is that of some prompt. */
  lemma {:induction false} BestPromptFrom(props: seq<Prop>, n: nat, env: Env) returns (k: nat)
    requires n <= |props| && BestPrompt(props, n, env) != NO
    ensures k < n && props[k].HasText() && ValueOpt(props[k].visible, env) == BestPrompt(props, n, env)
  {
    var p := props[n - 1];
    if p.HasText() && ValueOpt(p.visible, env) == BestPrompt(props, n, env) {
      k := n - 1;
    } else {
      k := BestPromptFrom(props, n - 1, env);
    }
  }

  /** The prompt with condition `cond` is that of an entry for the choice `s`, which is not optional. */
  ghost predicate PromptOf(src: MenuInherit.Source, s: Sym, cond: Option<Expr>)
    requires src.Valid()
  {
    exists i: nat :: MenuRecords.Mandatory(src, i, s) &&
      cond == MenuInherit.PromptVisible(src.entries[i], MenuInherit.FinalProps(src, i))
  }

  lemma DemandRecorded(src: MenuInherit.Source, ds: MenuInherit.DepState, s: Sym, cond: Option<Expr>, env: Env)
    requires src.Valid() && MenuRecords.AllRecorded(src, ds) && PromptOf(src, s, cond) && WellFormed(env)
    ensures s in ds.revDep && Value(ds.revDep[s], env) >= TriAnd(ValueOpt(cond, env), MOD)
  {
    var i: nat :| MenuRecords.Mandatory(src, i, s) &&
      cond == MenuInherit.PromptVisible(src.entries[i], MenuInherit.FinalProps(src, i));
    assert MenuRecords.ModeOk(src, ds, i);
    DisjunctBelow(ds.revDep[s], MenuRecords.ModeOf(src, i), env);
  }

  /**
   From the menu to the mode: with the reverse dependency that finalisation records, a choice
   none of whose prompts is optional is not no wherever it is visible and possible.
   */
  lemma RecordedMode(src: MenuInherit.Source, ds: MenuInherit.DepState, s: Sym, t: Table, g: Group, env: Env)
    requires src.Valid() && MenuRecords.AllRecorded(src, ds) && WellFormed(env) && g.Valid()
    requires s in ds.revDep ==> g.choice.revDep == Some(ds.revDep[s])
    requires forall p <- g.choice.props | p.HasText() :: PromptOf(src, s, p.visible)
    requires Visible(t, g.choice, env) != NO && DepValue(t, g.choice, g.choice.dirDep, YES, env) != NO
    ensures Mode(t, g, env) != NO
  {
    var k := BestPromptFrom(g.choice.props, |g.choice.props|, env);
    assert g.choice.props[k] in g.choice.props;
    DemandRecorded(src, ds, s, g.choice.props[k].visible, env);
    MandatoryMode(t, g, env);
  }

  // ----- the member in force -----

  /** The condition of one prompt; mod is not enough for a tristate member of a choice in mode yes. */
  function PromptValue(kind: SymType, cond: Option<Expr>, mode: Tri, env: Env): Tri {
    var v := ValueOpt(cond, env);
    if kind == Tristate && v == MOD && mode == YES then NO else v
  }

  /** A member is visible if one of its prompts is. */
  ghost predicate Shown(d: Decl, mode: Tri, env: Env) {
    exists k | 0 <= k < |d.props| :: d.props[k].HasText() && PromptValue(d.kind, d.props[k].visible, mode, env) != NO
  }

  ghost predicate ShownAt(g: Group, mode: Tri, env: Env, i: nat) {
    i < |g.members| && Shown(g.members[i], mode, env)
  }

  /** A default whose condition is not no and whose member is visible. */
  ghost predicate Active(g: Group, mode: Tri, env: Env, j: nat) {
    j < |g.preferences| && ValueOpt(g.preferences[j].cond, env) != NO && ShownAt(g, mode, env, g.preferences[j].member)
  }

  ghost predicate PickShown(g: Group, mode: Tri, env: Env) {
    g.pick.Some? && ShownAt(g, mode, env, g.pick.value)
  }

  ghost predicate FirstActive(g: Group, mode: Tri, env: Env, j: nat) {
    Active(g, mode, env, j) && forall k: nat | k < j :: !Active(g, mode, env, k)
  }

  ghost predicate FirstShown(g: Group, mode: Tri, env: Env, i: nat) {
    ShownAt(g, mode, env, i) && forall k: nat | k < i :: !ShownAt(g, mode, env, k)
  }

  /** The user's pick if visible, else the first visible active default, else the first visible member. */
  ghost predicate Chosen(g: Group, mode: Tri, env: Env, i: nat) {
    if PickShown(g, mode, env) then i == g.pick.value
    else if exists j :: Active(g, mode, env, j) then
      exists j: nat :: FirstActive(g, mode, env, j) && g.preferences[j].member == i
    else FirstShown(g, mode, env, i)
  }

  /** A prompt is enough if its condition is not no, or yes for a tristate member of a choice in mode yes. */
  lemma ShownExact(d: Decl, mode: Tri, env: Env)
    ensures Shown(d, mode, env) <==>
            exists k: nat, v: Tri :: SymbolRules.PromptWith(d, env, k, v) &&
              (if d.kind == Tristate && mode == YES then v == YES else v != NO)
  {
    if Shown(d, mode, env) {
      var k: nat :| k < |d.props| && d.props[k].HasText() && PromptValue(d.kind, d.props[k].visible, mode, env) != NO;
      assert SymbolRules.PromptWith(d, env, k, ValueOpt(d.props[k].visible, env));
    }
  }

  /** The member the user picked comes first. */
  lemma PickFirst(g: Group, mode: Tri, env: Env, i: nat)
    requires g.pick == Some(i) && i < |g.members| && Shown(g.members[i], mode, env)
    ensures Chosen(g, mode, env, i)
  {
  }

  ghost predicate NotPicked(g: Group, mode: Tri, env: Env) {
    g.pick.Some? && g.pick.value < |g.members| ==> !Shown(g.members[g.pick.value], mode, env)
  }

  /** Default `j` is in force and names a visible member. */
  ghost predicate Applies(g: Group, mode: Tri, env: Env, j: nat) {
    && j < |g.preferences| && SymbolRules.OptValue(g.preferences[j].cond, YES, env) != NO
    && g.preferences[j].member < |g.members| && Shown(g.members[g.preferences[j].member], mode, env)
  }

  /** Then the first default that applies. */
  lemma DefaultNext(g: Group, mode: Tri, env: Env, j: nat)
    requires NotPicked(g, mode, env) && Applies(g, mode, env, j) && forall k: nat | k < j :: !Applies(g, mode, env, k)
    ensures Chosen(g, mode, env, g.preferences[j].member)
  {
    forall k: nat | k < j ensures !Active(g, mode, env, k) { assert !Applies(g, mode, env, k); }
    assert Active(g, mode, env, j) && FirstActive(g, mode, env, j);
  }

  /** And then the first visible member. */
  lemma VisibleLast(g: Group, mode: Tri, env: Env, i: nat)
    requires NotPicked(g, mode, env) && forall j: nat | j < |g.preferences| :: !Applies(g, mode, env, j)
    requires i < |g.members| && Shown(g.members[i], mode, env)
    requires forall k: nat | k < i :: !Shown(g.members[k], mode, env)
    ensures Chosen(g, mode, env, i)
  {
    forall j: nat ensures !Active(g, mode, env, j) { assert j < |g.preferences| ==> !Applies(g, mode, env, j); }
  }

  /** Only one member can be chosen. */
  lemma ChosenUnique(g: Group, mode: Tri, env: Env, i: nat, i': nat)
    requires Chosen(g, mode, env, i) && Chosen(g, mode, env, i')
    ensures i == i'
  {
    if !PickShown(g, mode, env) {
      if exists j :: Active(g, mode, env, j) {
        var j: nat :| FirstActive(g, mode, env, j) && g.preferences[j].member == i;
        var j': nat :| FirstActive(g, mode, env, j') && g.preferences[j'].member == i';
        assert !(j < j') && !(j' < j);
      }
    }
  }

  ghost predicate SomeShown(g: Group, mode: Tri, env: Env) {
    exists i :: ShownAt(g, mode, env, i)
  }

  /** The value of a member that is not fully visible: the user's if it is visible at all, or its default. */
  function HiddenValue(t: Table, d: Decl, vis: Tri, env: Env): Tri {
    Promote(t, d.kind, if vis != NO && d.user.Some? then TriAnd(d.user.value, vis) else DefaultTri(d, env))
  }

  /** A hidden member has the value of the default in force. */
  lemma HiddenRule(t: Table, d: Decl, env: Env, v: Tri)
    requires (d.kind == Boolean || d.kind == Tristate) && SymbolRules.DefaultGives(d, env, v)
    ensures HiddenValue(t, d, NO, env) == SymbolRules.Counted(t, d, v)
  {
    SymbolRules.DefaultIsGiven(d, env, v);
  }

  /** In mode yes: the chosen member is yes, other visible ones are no, and hidden ones have their defaults. */
  ghost predicate MembersSet(t: Table, g: Group, chosen: nat, values: seq<Tri>, env: Env) {
    && |values| == |g.members| && chosen < |values| && ShownAt(g, YES, env, chosen)
    && forall i: nat | i < |values| ::
         values[i] == if ShownAt(g, YES, env, i) then (if i == chosen then YES else NO)
                      else HiddenValue(t, g.members[i], NO, env)
  }

  /** So exactly one member is yes if and only if no hidden member has a default of yes. */
  lemma ExactlyOne(t: Table, g: Group, chosen: nat, values: seq<Tri>, env: Env)
    requires MembersSet(t, g, chosen, values, env)
    ensures (forall i: nat | i < |values| :: values[i] == YES <==> i == chosen) <==>
            (forall i: nat | i < |g.members| && !ShownAt(g, YES, env, i) ::
                HiddenValue(t, g.members[i], NO, env) != YES)
  {
    if forall i: nat | i < |values| :: values[i] == YES <==> i == chosen {
      forall i: nat | i < |g.members| && !ShownAt(g, YES, env, i) ensures HiddenValue(t, g.members[i], NO, env) != YES {
        assert values[i] == HiddenValue(t, g.members[i], NO, env);
      }
    }
  }

  /** Two members, the second of them hidden with a default of yes. */
  function HiddenDefault(choice: Decl): Group {
    var shown := Decl("A", Boolean, [Prop(Prompt, None, None, None)], None, None, None, None, None);
    var hidden := Decl("B", Boolean, [Prop(Prompt, Some(ExprN), None, None), Prop(Default, None, Some(ExprY), None)],
                       None, None, None, None, None);
    Group(choice, [shown, hidden], [], None)
  }

  /** Both end up yes. */
  lemma HiddenDefaultYes(t: Table, choice: Decl, env: Env)
    requires WellFormed(env)
    ensures MembersSet(t, HiddenDefault(choice), 0, [YES, YES], env)
  {
    var g := HiddenDefault(choice);
    var a, b := g.members[0], g.members[1];
    assert a.props[0].HasText() && PromptValue(a.kind, a.props[0].visible, YES, env) == YES;
    assert Value(ExprN, env) == NO && !Shown(b, YES, env);
    assert ActiveProp(Default, b.props, 1, env) == Some(b.props[1]);
    assert ActiveProp(Default, b.props, 0, env) == Some(b.props[1]);
  }

  // ----- the code -----

  class Calculator {
    const t: Table
    const g: Group
    var mode: Tri            // the choice's tristate value
    var userSet: bool        // the choice was set by the user
    var chosen: Option<nat>  // the choice's symbol value
    var visible: seq<Tri>    // of the members

    constructor (t: Table, g: Group)
      requires g.Valid()
      ensures this.t == t && this.g == g && |visible| == |g.members| && userSet == g.choice.user.Some?
    {
      this.t, this.g, mode, userSet, chosen := t, g, NO, g.choice.user.Some?, None;
      visible := seq(|g.members|, _ => NO);
    }

    /** The members' visibilities are those in mode yes. */
    ghost predicate Seen(env: Env)
      reads this
    {
      && |visible| == |g.members|
      && forall i: nat | i < |visible| :: visible[i] == (if Shown(g.members[i], YES, env) then YES else NO)
    }

    /** Visibility of member `i`. */
    method CalcVisibility(i: nat, env: Env)
      requires g.Valid() && i < |g.members| == |visible|
      modifies this`visible
      ensures |visible| == |old(visible)| && forall k | 0 <= k < |visible| && k != i :: visible[k] == old(visible)[k]
      ensures visible[i] != NO <==> Shown(g.members[i], mode, env)
      ensures mode == YES ==> visible[i] != MOD
    {
      var d := g.members[i];
      var tri := NO;
      for k := 0 to |d.props|
        invariant tri != NO <==>
                  exists j | 0 <= j < k ::
                    d.props[j].HasText() && PromptValue(d.kind, d.props[j].visible, mode, env) != NO
        invariant mode == YES && d.kind == Tristate ==> tri != MOD
      {
        if d.props[k].HasText() {
          var v := ValueOpt(d.props[k].visible, env);
          if d.kind == Tristate && v == MOD && mode == YES { v := NO; }
          tri := TriOr(tri, v);
        }
      }
      if tri == MOD && (d.kind != Tristate || t.modules == NO) { tri := YES; }
      visible := visible[i := tri];
    }

    /** The first visible active default, else the first visible member. */
    method ChoiceDefault(env: Env) returns (r: Option<nat>)
      requires g.Valid() && Seen(env)
      ensures !PickShown(g, YES, env) ==> if r.Some? then Chosen(g, YES, env, r.value) else !SomeShown(g, YES, env)
    {
      for j := 0 to |g.preferences|
        invariant forall k: nat | k < j :: !Active(g, YES, env, k)
      {
        if ValueOpt(g.preferences[j].cond, env) != NO && visible[g.preferences[j].member] != NO {
          assert FirstActive(g, YES, env, j);
          return Some(g.preferences[j].member);
        }
      }
      for i := 0 to |g.members|
        invariant forall k: nat | k < i :: !ShownAt(g, YES, env, k)
      {
        if visible[i] != NO {
          assert FirstShown(g, YES, env, i);
          return Some(i);
        }
      }
      return None;
    }

    /**
     Which member a choice in mode yes stands for; without a visible one it falls back to no.
     The choice counts as set by the user only if all visible members were.
     */
    method CalcChoice(env: Env) returns (r: Option<nat>)
      requires g.Valid() && |visible| == |g.members| && mode == YES
      modifies this`visible, this`mode, this`userSet
      ensures Seen(env) && mode == if r.Some? then YES else NO
      ensures if r.Some? then Chosen(g, YES, env, r.value) && ShownAt(g, YES, env, r.value) else !SomeShown(g, YES, env)
      ensures userSet <==> old(userSet) && forall i: nat | ShownAt(g, YES, env, i) :: g.members[i].user.Some?
    {
      var flag := userSet;
      for i := 0 to |g.members|
        invariant |visible| == |g.members| && mode == YES && userSet == old(userSet)
        invariant forall k: nat | k < i :: visible[k] == (if Shown(g.members[k], YES, env) then YES else NO)
        invariant flag <==> userSet && forall k: nat | k < i && ShownAt(g, YES, env, k) :: g.members[k].user.Some?
      {
        CalcVisibility(i, env);
        if visible[i] != NO { flag := flag && g.members[i].user.Some?; }
      }
      userSet := flag;
      if g.pick.Some? && visible[g.pick.value] != NO { return g.pick; }
      r := ChoiceDefault(env);
      if r.None? { mode := NO; }
    }

    /** The tristate value of the choice itself. */
    method CalcMode(env: Env)
      requires g.Valid()
      modifies this`mode
      ensures mode == Mode(t, g, env)
    {
      var d := g.choice;
      var tri := NO;
      for k := 0 to |d.props|
        invariant tri == BestPrompt(d.props, k, env)
      {
        if d.props[k].HasText() { tri := TriOr(tri, ValueOpt(d.props[k].visible, env)); }
      }
      var vis := if tri == MOD && (d.kind != Tristate || t.modules == NO) then YES else tri;
      var dir := if d.dirDep.Some? then Value(d.dirDep.value, env) else YES;
      if dir == MOD && EffectiveType(t, d.kind) == Boolean { dir := YES; }
      var rev := if d.revDep.Some? then Value(d.revDep.value, env) else NO;
      if rev == MOD && EffectiveType(t, d.kind) == Boolean { rev := YES; }
      mode := NO;
      if vis != NO && d.user.Some? { mode := TriAnd(d.user.value, vis); }
      if dir == NO && rev != NO { mode := NO; } else { mode := TriOr(mode, rev); }
      if mode == MOD && EffectiveType(t, d.kind) == Boolean { mode := YES; }
      NoDefault(d.props, 0, env);
    }

    /** The value of member `i`. */
    method CalcMember(i: nat, env: Env) returns (v: Tri)
      requires g.Valid() && i < |g.members| == |visible|
      modifies this`visible
      ensures |visible| == |old(visible)| && (visible[i] != NO <==> ShownAt(g, mode, env, i))
      ensures mode == YES ==> visible[i] != MOD
      ensures v == if visible[i] == YES then (if chosen == Some(i) then YES else NO)
                   else HiddenValue(t, g.members[i], visible[i], env)
    {
      CalcVisibility(i, env);
      var d := g.members[i];
      v := NO;
      if visible[i] == YES {
        v := if chosen == Some(i) then YES else NO;
      } else if visible[i] != NO && d.user.Some? {
        v := TriAnd(d.user.value, visible[i]);
      } else {
        var p := ActiveProp(Default, d.props, 0, env);
        if p.Some? { v := TriAnd(ValueOpt(p.value.expr, env), ValueOpt(p.value.visible, env)); }
      }
      if v == MOD && (visible[i] == YES || EffectiveType(t, d.kind) == Boolean) { v := YES; }
    }

    /** All members of a choice in mode yes that stands for member `r`. */
    method CalcMembers(r: nat, env: Env) returns (values: seq<Tri>)
      requires g.Valid() && |visible| == |g.members| && mode == YES && chosen == Some(r) && ShownAt(g, YES, env, r)
      modifies this`visible
      ensures MembersSet(t, g, r, values, env)
    {
      values := [];
      for i := 0 to |g.members|
        invariant |visible| == |g.members| && |values| == i
        invariant forall k: nat | k < i ::
                    values[k] == if ShownAt(g, YES, env, k) then (if k == r then YES else NO)
                                 else HiddenValue(t, g.members[k], NO, env)
      {
        var v := CalcMember(i, env);
        values := values + [v];
      }
    }

    /** The choice and then its members. */
    method CalcGroup(env: Env) returns (values: seq<Tri>)
      requires g.Valid() && |visible| == |g.members|
      modifies this
      ensures Mode(t, g, env) == YES && SomeShown(g, YES, env) ==>
                && mode == YES && chosen.Some? && Chosen(g, YES, env, chosen.value)
                && MembersSet(t, g, chosen.value, values, env)
      ensures Mode(t, g, env) == YES && !SomeShown(g, YES, env) ==> mode == NO && chosen == None
      ensures Mode(t, g, env) != YES ==> mode == Mode(t, g, env) && chosen == None
    {
      CalcMode(env);
      values, chosen := [], None;
      if mode == YES { chosen := CalcChoice(env); }
      if mode == YES { values := CalcMembers(chosen.value, env); }
    }
  }
}
