/**
 Writing symbols to a configuration file and reading the file back (confdata.c, symbol.c).
 */
module ConfData {
  import opened Tristate
  import opened Expr
  import opened ConfText

  datatype Setting = IsTri(t: Tri) | IsText(s: string)

  /** A known symbol and the value the file gave it, if any. */
  datatype Slot = Slot(kind: SymType, def: Option<Setting>)

  type Table = map<string, Slot>

  const PREFIX := "CONFIG_"

  // ----- values -----

  predicate Digit(c: char) {
    '0' <= c <= '9'
  }

  predicate HexDigit(c: char) {
    Digit(c) || 'a' <= c <= 'f' || 'A' <= c <= 'F'
  }

  predicate Digits(s: string) {
    forall i | 0 <= i < |s| :: Digit(s[i])
  }

  predicate HexDigits(s: string) {
    forall i | 0 <= i < |s| :: HexDigit(s[i])
  }

  predicate ValidNat(s: string) {
    s != "" && (s[0] == '0' ==> |s| == 1) && Digits(s)
  }

  /** No leading zeros, perhaps a minus sign. */
  predicate ValidInt(s: string) {
    if s != "" && s[0] == '-' then ValidNat(s[1..]) else ValidNat(s)
  }

  predicate HexPrefix(s: string) {
    |s| > 1 && s[0] == '0' && (s[1] == 'x' || s[1] == 'X')
  }

  predicate ValidHex(s: string) {
    if HexPrefix(s) then s[2..] != "" && HexDigits(s[2..]) else s != "" && HexDigits(s)
  }

  predicate ValidText(kind: SymType, s: string) {
    match kind
    case Text => true
    case Int => ValidInt(s)
    case Hex => ValidHex(s)
    case Boolean => s != "" && s[0] in "yYmMnN"
    case Tristate => s != "" && s[0] in "yYmMnN"
    case Unknown => false
  }

  /** What the text behind the equals sign sets a symbol of this type to. */
  function ReadValue(kind: SymType, p: string): Option<Setting> {
    match kind
    case Tristate => if p != "" && p[0] == 'm' then Some(IsTri(MOD)) else ReadBool(p)
    case Boolean => ReadBool(p)
    case Text =>
      if p == "" || p[0] != '"' then None else AsText(Unescaped(p[1..]))
    case Int => if ValidInt(p) then Some(IsText(p)) else None
    case Hex => if ValidHex(p) then Some(IsText(p)) else None
    case Unknown => None
  }

  function AsText(s: Option<string>): Option<Setting> {
    if s.Some? then Some(IsText(s.value)) else None
  }

  function ReadBool(p: string): Option<Setting> {
    if p == "" then None
    else if p[0] == 'y' then Some(IsTri(YES))
    else if p[0] == 'n' then Some(IsTri(NO))
    else None
  }

  // ----- lines -----

  function IndexOf(s: string, c: char): (r: Option<nat>)
    ensures r.Some? ==> r.value < |s| && s[r.value] == c && c !in s[..r.value]
    ensures r.None? ==> c !in s
  {
    if s == "" then None
    else if s[0] == c then Some(0)
    else
      match IndexOf(s[1..], c)
      case None => None
      case Some(i) => assert s[..i + 1] == [s[0]] + s[1..][..i]; Some(i + 1)
  }

  predicate StartsWith(s: string, t: string) {
    |t| <= |s| && s[..|t|] == t
  }

  /** The value without the end of the line. */
  function Chomp(p: string): string {
    match IndexOf(p, '\n')
    case None => p
    case Some(i) => if i > 0 && p[i - 1] == '\r' then p[..i - 1] else p[..i]
  }

  function Set(t: Table, name: string, v: Option<Setting>): Table {
    if name in t && v.Some? then t[name := t[name].(def := v)] else t
  }

  const NOT_SET := "is not set"

  /** What follows the prefix in a comment. */
  function ApplyComment(t: Table, rest: string): Table {
    match IndexOf(rest, ' ')
    case None => t
    case Some(i) =>
      if !StartsWith(rest[i + 1..], NOT_SET) then t
      else if rest[..i] in t && t[rest[..i]].kind in {Boolean, Tristate} then Set(t, rest[..i], Some(IsTri(NO)))
      else t
  }

  /** What follows the prefix elsewhere. */
  function ApplyAssignment(t: Table, rest: string): Table {
    match IndexOf(rest, '=')
    case None => t
    case Some(i) =>
      if rest[..i] in t then Set(t, rest[..i], ReadValue(t[rest[..i]].kind, Chomp(rest[i + 1..]))) else t
  }

  /** The text up to the first NUL. */
  function CString(s: string): (r: string)
    ensures '\0' !in r && r <= s
  {
    match IndexOf(s, '\0') case None => s case Some(i) => s[..i]
  }

  predicate IsComment(line: string) {
    line != "" && line[0] == '#'
  }

  /**
   What the buffer holds behind the second character of a line: if the line does not reach
   that far, the `left` of older lines.
   */
  function Tail(line: string, left: string): string {
    if |line| <= 1 then left else CString(line[2..])
  }

  function ApplyTail(t: Table, tail: string): Table {
    if StartsWith(tail, PREFIX) then ApplyComment(t, tail[|PREFIX|..]) else t
  }

  function ApplyText(t: Table, text: string): Table {
    if StartsWith(text, PREFIX) then ApplyAssignment(t, text[|PREFIX|..]) else t
  }

  function ApplyLine(t: Table, line: string, left: string): Table {
    if IsComment(line) then ApplyTail(t, Tail(line, left)) else ApplyText(t, CString(line))
  }

  /** A comment is cut before the space behind the name. */
  function CutTail(tail: string): string {
    if !StartsWith(tail, PREFIX) then tail
    else match IndexOf(tail[|PREFIX|..], ' ') case None => tail case Some(i) => tail[..|PREFIX| + i]
  }

  /** What a line leaves in the buffer from the third character on. */
  function Left(line: string, left: string): string {
    if IsComment(line) then CutTail(Tail(line, left)) else Tail(line, left)
  }

  /** The length of the first line, with its newline if it has one. */
  function LineLength(s: string): (n: nat)
    requires s != ""
    ensures 0 < n <= |s|
  {
    match IndexOf(s, '\n') case None => |s| case Some(i) => i + 1
  }

  /** The lines of `s` in order, each read into the buffer over what the one before has `left` there. */
  function ReadFrom(t: Table, s: string, left: string): Table
    decreases |s|
  {
    if s == "" then t
    else
      var n := LineLength(s);
      ReadFrom(ApplyLine(t, s[..n], left), s[n..], Left(s[..n], left))
  }

  /** All values forgotten. */
  function Reset(t: Table): Table {
    map name | name in t :: t[name].(def := None)
  }

  // ----- writing -----

  function SymbolLine(name: string, kind: SymType, value: string): string {
    match kind
    case Unknown => ""
    case Text => PREFIX + name + "=" + InQuotes(value) + "\n"
    case _ =>
      if (kind == Boolean || kind == Tristate) && value != "" && value[0] == 'n' then
        "# " + PREFIX + name + " " + NOT_SET + "\n"
      else PREFIX + name + "=" + value + "\n"
  }

  datatype Written = Written(name: string, kind: SymType, value: string)

  function WriteAll(ws: seq<Written>): string {
    if ws == [] then "" else SymbolLine(ws[0].name, ws[0].kind, ws[0].value) + WriteAll(ws[1..])
  }

  /** The value a symbol with this text has. */
  function Meaning(kind: SymType, value: string): Setting {
    if kind == Boolean || kind == Tristate then
      IsTri(if value == "y" then YES else if value == "m" then MOD else NO)
    else IsText(value)
  }

  predicate Plain(s: string, cs: string) {
    forall i | 0 <= i < |s| :: s[i] !in cs
  }

  /** What the calculation of values guarantees of a symbol that is written. */
  predicate Writable(w: Written) {
    && Plain(w.name, " =\n\0")
    && match w.kind
       case Boolean => w.value == "y" || w.value == "n"
       case Tristate => w.value == "y" || w.value == "m" || w.value == "n"
       case Text => Plain(w.value, "\n\0")
       case Unknown => false
       case _ => ValidText(w.kind, w.value)
  }

  // ----- round trip -----

  lemma {:induction false} IndexOfFirst(a: string, c: char, b: string)
    requires c !in a
    ensures IndexOf(a + [c] + b, c) == Some(|a|)
  {
    var s := a + [c] + b;
    if a != "" {
      assert s[1..] == a[1..] + [c] + b;
      IndexOfFirst(a[1..], c, b);
    }
  }

  lemma ChompLine(v: string)
    requires '\n' !in v && (v == "" || v[|v| - 1] != '\r')
    ensures Chomp(v + "\n") == v
  {
    IndexOfFirst(v, '\n', "");
    assert v + ['\n'] + "" == v + "\n";
  }

  lemma AssignmentRest(t: Table, name: string, v: string)
    requires Plain(name, "=") && '\n' !in v && (v == "" || v[|v| - 1] != '\r') && name in t
    ensures ApplyAssignment(t, name + ['='] + (v + "\n")) == Set(t, name, ReadValue(t[name].kind, v))
  {
    var rest := name + ['='] + (v + "\n");
    IndexOfFirst(name, '=', v + "\n");
    assert rest[..|name|] == name && rest[|name| + 1..] == v + "\n";
    ChompLine(v);
  }

  lemma CStringPlain(s: string)
    requires '\0' !in s
    ensures CString(s) == s
  {
  }

  /** A line that sets a value. */
  lemma AssignmentLine(t: Table, name: string, v: string, left: string)
    requires Plain(name, "=\0") && '\n' !in v && '\0' !in v && (v == "" || v[|v| - 1] != '\r') && name in t
    ensures ApplyLine(t, PREFIX + name + "=" + v + "\n", left) == Set(t, name, ReadValue(t[name].kind, v))
  {
    var rest := name + ['='] + (v + "\n");
    assert PREFIX + name + "=" + v + "\n" == PREFIX + rest;
    CStringPlain(PREFIX + rest);
    Behind(PREFIX, rest);
    AssignmentRest(t, name, v);
  }

  lemma UnsetRest(t: Table, name: string, end: string)
    requires Plain(name, " ") && name in t && t[name].kind in {Boolean, Tristate}
    ensures ApplyComment(t, name + [' '] + (NOT_SET + end)) == Set(t, name, Some(IsTri(NO)))
  {
    var rest := name + [' '] + (NOT_SET + end);
    IndexOfFirst(name, ' ', NOT_SET + end);
    assert rest[..|name|] == name && rest[|name| + 1..] == NOT_SET + end;
    assert (NOT_SET + end)[..|NOT_SET|] == NOT_SET;
  }

  /** A line that says a symbol is not set. */
  lemma UnsetLine(t: Table, name: string, left: string)
    requires Plain(name, " \0") && name in t && t[name].kind in {Boolean, Tristate}
    ensures ApplyLine(t, "# " + PREFIX + name + " " + NOT_SET + "\n", left) == Set(t, name, Some(IsTri(NO)))
  {
    var line := "# " + PREFIX + name + " " + NOT_SET + "\n";
    var rest := name + [' '] + (NOT_SET + "\n");
    assert line == "# " + (PREFIX + rest);
    assert line[2..] == PREFIX + rest;
    CStringPlain(PREFIX + rest);
    Behind(PREFIX, rest);
    UnsetRest(t, name, "\n");
  }

  lemma Behind(s: string, t: string)
    ensures StartsWith(s + t, s) && (s + t)[|s|..] == t
  {
  }

  lemma ValidHasNoLineEnd(kind: SymType, s: string, i: nat)
    requires kind in {Int, Hex} && ValidText(kind, s) && i < |s|
    ensures s[i] !in "\n\r\0"
  {
    if kind == Int {
      if s[0] != '-' { assert Digit(s[i]); } else if i > 0 { assert Digit(s[1..][i - 1]); }
    } else if HexPrefix(s) {
      if i > 1 { assert HexDigit(s[2..][i - 2]); }
    } else {
      assert HexDigit(s[i]);
    }
  }

  lemma {:induction false} EscapedPlainText(s: string)
    requires Plain(s, "\n\0")
    ensures '\n' !in Escaped(s) && '\0' !in Escaped(s)
  {
    if s != "" { EscapedPlainText(s[1..]); }
  }

  /** The text after the equals sign. */
  function ValueText(w: Written): string {
    if w.kind == Text then InQuotes(w.value) else w.value
  }

  lemma ValueReadsBack(w: Written)
    requires Writable(w) && !(w.kind in {Boolean, Tristate} && w.value == "n")
    ensures ReadValue(w.kind, ValueText(w)) == Some(Meaning(w.kind, w.value))
    ensures var v := ValueText(w); '\n' !in v && '\0' !in v && (v == "" || v[|v| - 1] != '\r')
  {
    if w.kind == Text {
      EscapeRoundTrip(w.value, "");
      EscapedPlainText(w.value);
      assert InQuotes(w.value)[1..] == Escaped(w.value) + "\"" + "";
    } else if w.kind in {Int, Hex} {
      forall i | 0 <= i < |w.value| ensures w.value[i] !in "\n\r\0" {
        ValidHasNoLineEnd(w.kind, w.value, i);
      }
    }
  }

  predicate Known(t: Table, w: Written) {
    w.name in t && t[w.name].kind == w.kind
  }

  /** The line written for a symbol sets it to its value. */
  lemma LineRoundTrip(t: Table, w: Written, left: string)
    requires Writable(w) && Known(t, w)
    ensures ApplyLine(t, SymbolLine(w.name, w.kind, w.value), left) == Set(t, w.name, Some(Meaning(w.kind, w.value)))
  {
    if w.kind in {Boolean, Tristate} && w.value == "n" {
      UnsetLine(t, w.name, left);
    } else {
      ValueReadsBack(w);
      AssignmentLine(t, w.name, ValueText(w), left);
    }
  }

  lemma LineShape(w: Written) returns (body: string)
    requires Writable(w)
    ensures SymbolLine(w.name, w.kind, w.value) == body + "\n" && '\n' !in body
  {
    if w.kind in {Boolean, Tristate} && w.value == "n" {
      body := "# " + PREFIX + w.name + " " + NOT_SET;
    } else {
      ValueReadsBack(w);
      body := PREFIX + w.name + "=" + ValueText(w);
    }
  }

  lemma ReadOneLine(t: Table, body: string, rest: string, left: string)
    requires '\n' !in body
    ensures ReadFrom(t, body + "\n" + rest, left) ==
            ReadFrom(ApplyLine(t, body + "\n", left), rest, Left(body + "\n", left))
  {
    var s := body + "\n" + rest;
    IndexOfFirst(body, '\n', rest);
    assert body + ['\n'] + rest == s;
    assert s[..|body| + 1] == body + "\n" && s[|body| + 1..] == rest;
  }

  function SetAll(t: Table, ws: seq<Written>): Table {
    if ws == [] then t else SetAll(Set(t, ws[0].name, Some(Meaning(ws[0].kind, ws[0].value))), ws[1..])
  }

  lemma KnownSet(t: Table, ws: seq<Written>, name: string, v: Option<Setting>)
    requires forall w | w in ws :: Known(t, w)
    ensures forall w | w in ws :: Known(Set(t, name, v), w)
  {
    forall w | w in ws ensures Known(Set(t, name, v), w) { assert Known(t, w); }
  }

  lemma {:induction false} ReadWritten(t: Table, ws: seq<Written>, left: string)
    requires forall w | w in ws :: Writable(w) && Known(t, w)
    ensures ReadFrom(t, WriteAll(ws), left) == SetAll(t, ws)
  {
    if ws != [] {
      var w := ws[0];
      ReadOneWritten(t, w, WriteAll(ws[1..]), left);
      var t' := Set(t, w.name, Some(Meaning(w.kind, w.value)));
      KnownSet(t, ws, w.name, Some(Meaning(w.kind, w.value)));
      ReadWritten(t', ws[1..], Left(SymbolLine(w.name, w.kind, w.value), left));
    }
  }

  lemma ReadOneWritten(t: Table, w: Written, rest: string, left: string)
    requires Writable(w) && Known(t, w)
    ensures ReadFrom(t, SymbolLine(w.name, w.kind, w.value) + rest, left) ==
            ReadFrom(Set(t, w.name, Some(Meaning(w.kind, w.value))), rest,
                     Left(SymbolLine(w.name, w.kind, w.value), left))
  {
    var body := LineShape(w);
    ReadOneLine(t, body, rest, left);
    LineRoundTrip(t, w, left);
  }

  predicate Distinct(ws: seq<Written>) {
    forall i, j | 0 <= i < j < |ws| :: ws[i].name != ws[j].name
  }

  lemma {:induction false} SetAllElsewhere(t: Table, ws: seq<Written>, name: string)
    requires forall w | w in ws :: w.name != name
    ensures SetAll(t, ws).Keys == t.Keys && (name in t ==> SetAll(t, ws)[name] == t[name])
  {
    if ws != [] { SetAllElsewhere(Set(t, ws[0].name, Some(Meaning(ws[0].kind, ws[0].value))), ws[1..], name); }
  }

  lemma {:induction false} SetAllAt(t: Table, ws: seq<Written>, i: nat)
    requires Distinct(ws) && i < |ws| && ws[i].name in t
    ensures var w := ws[i];
            w.name in SetAll(t, ws) && SetAll(t, ws)[w.name] == t[w.name].(def := Some(Meaning(w.kind, w.value)))
  {
    var t' := Set(t, ws[0].name, Some(Meaning(ws[0].kind, ws[0].value)));
    if i == 0 {
      SetAllElsewhere(t', ws[1..], ws[0].name);
    } else {
      SetAllAt(t', ws[1..], i - 1);
    }
  }

  lemma KnownReset(t: Table, ws: seq<Written>)
    requires forall w | w in ws :: Writable(w) && Known(t, w)
    ensures forall w | w in ws :: Known(Reset(t), w)
  {
    forall w | w in ws ensures Known(Reset(t), w) { assert Known(t, w); }
  }

  /** Reading what was written gives every symbol of the list its value, whatever it had before. */
  lemma WriteReadRoundTrip(t: Table, ws: seq<Written>, i: nat, left: string)
    requires Distinct(ws) && (forall w | w in ws :: Writable(w) && Known(t, w)) && i < |ws|
    ensures var r := ReadFrom(Reset(t), WriteAll(ws), left);
            ws[i].name in r && r[ws[i].name] == Slot(ws[i].kind, Some(Meaning(ws[i].kind, ws[i].value)))
  {
    assert Known(t, ws[i]);
    KnownReset(t, ws);
    ReadWritten(Reset(t), ws, left);
    SetAllAt(Reset(t), ws, i);
  }

  /** No other symbol gets a value, and none is added. */
  lemma WriteReadNothingElse(t: Table, ws: seq<Written>, name: string, left: string)
    requires forall w | w in ws :: Writable(w) && Known(t, w) && w.name != name
    ensures var r := ReadFrom(Reset(t), WriteAll(ws), left);
            r.Keys == t.Keys && (name in t ==> r[name] == Slot(t[name].kind, None))
  {
    KnownReset(t, ws);
    ReadWritten(Reset(t), ws, left);
    SetAllElsewhere(Reset(t), ws, name);
  }

  // ----- lines that are not written by the code -----

  lemma ChompCr(v: string)
    requires '\n' !in v
    ensures Chomp(v + "\r" + "\n") == v
  {
    IndexOfFirst(v + "\r", '\n', "");
    assert v + "\r" + ['\n'] + "" == v + "\r" + "\n";
    assert (v + "\r" + "\n")[..|v|] == v;
  }

  /** A carriage return before the end of the line does not belong to the value. */
  lemma AssignmentCr(t: Table, name: string, v: string, left: string)
    requires Plain(name, "=\0") && '\n' !in v && '\0' !in v && name in t
    ensures ApplyLine(t, PREFIX + (name + ['='] + (v + "\r" + "\n")), left) == Set(t, name, ReadValue(t[name].kind, v))
  {
    var rest := name + ['='] + (v + "\r" + "\n");
    CStringPlain(PREFIX + rest);
    Behind(PREFIX, rest);
    IndexOfFirst(name, '=', v + "\r" + "\n");
    assert rest[..|name|] == name && rest[|name| + 1..] == v + "\r" + "\n";
    ChompCr(v);
  }

  /** A bool or tristate may be set to n by an assignment as well; m sets only a tristate, and nothing else counts. */
  lemma LogicalAssignment(t: Table, name: string, v: string, left: string)
    requires Plain(name, "=\0") && Plain(v, "\n\r\0") && name in t && t[name].kind in {Boolean, Tristate}
    ensures var r := ApplyLine(t, PREFIX + name + "=" + v + "\n", left);
            if v != "" && v[0] == 'y' then r == t[name := t[name].(def := Some(IsTri(YES)))]
            else if v != "" && v[0] == 'n' then r == t[name := t[name].(def := Some(IsTri(NO)))]
            else if v != "" && v[0] == 'm' && t[name].kind == Tristate then
              r == t[name := t[name].(def := Some(IsTri(MOD)))]
            else r == t
  {
    AssignmentLine(t, name, v, left);
  }

  /** Any other symbol is set to the text between quotes or to a valid number, and else left alone. */
  lemma TextualAssignment(t: Table, name: string, v: string, left: string)
    requires Plain(name, "=\0") && Plain(v, "\n\r\0") && name in t && t[name].kind in {Text, Int, Hex}
    ensures var r, kind := ApplyLine(t, PREFIX + name + "=" + v + "\n", left), t[name].kind;
            if kind != Text then
              r == if ValidText(kind, v) then t[name := t[name].(def := Some(IsText(v)))] else t
            else if v != "" && v[0] == '"' && Unescaped(v[1..]).Some? then
              r == t[name := t[name].(def := Some(IsText(Unescaped(v[1..]).value)))]
            else r == t
  {
    AssignmentLine(t, name, v, left);
  }

  /** A comment has no effect on symbols of other types. */
  lemma UnsetOther(t: Table, name: string, left: string)
    requires Plain(name, " \0") && name in t && t[name].kind !in {Boolean, Tristate}
    ensures ApplyLine(t, "# " + (PREFIX + (name + [' '] + (NOT_SET + "\n"))), left) == t
  {
    var rest := name + [' '] + (NOT_SET + "\n");
    var line := "# " + (PREFIX + rest);
    assert line[2..] == PREFIX + rest;
    CStringPlain(PREFIX + rest);
    Behind(PREFIX, rest);
    IndexOfFirst(name, ' ', NOT_SET + "\n");
    assert rest[..|name|] == name;
  }

  /** Exactly symbols that are n are written as comments. */
  lemma WrittenComment(w: Written)
    requires Writable(w)
    ensures IsComment(SymbolLine(w.name, w.kind, w.value)) <==> w.kind in {Boolean, Tristate} && w.value == "n"
  {
    var line := SymbolLine(w.name, w.kind, w.value);
    if !(w.kind in {Boolean, Tristate} && w.value == "n") { assert line[0] == PREFIX[0]; }
  }

  // ----- numbers -----

  function DigitOf(n: nat): char
    requires n < 10
  {
    '0' + n as char
  }

  /** The decimal numeral of a number. */
  function Decimal(n: nat): string {
    if n < 10 then [DigitOf(n)] else Decimal(n / 10) + [DigitOf(n % 10)]
  }

  lemma {:induction false} DecimalValid(n: nat)
    ensures ValidNat(Decimal(n)) && (Decimal(n)[0] == '0' <==> n == 0)
  {
    if n >= 10 {
      DecimalValid(n / 10);
      assert Decimal(n)[0] == Decimal(n / 10)[0];
    }
  }

  lemma {:induction false} ValidDecimal(s: string) returns (n: nat)
    requires ValidNat(s)
    ensures s == Decimal(n)
  {
    var k := |s| - 1;
    assert Digit(s[k]);
    var d: nat := s[k] as int - '0' as int;
    if k == 0 {
      n := d;
      assert s == [s[0]];
    } else {
      var head := s[..k];
      assert head[0] == s[0] && forall i | 0 <= i < k :: head[i] == s[i] && Digit(s[i]);
      var m := ValidDecimal(head);
      DecimalValid(m);
      n := 10 * m + d;
      assert n / 10 == m && n % 10 == d;
      assert s == head + [s[k]];
    }
  }

  /** The ints that are accepted are the decimal numerals, with or without a minus sign. */
  lemma ValidIntExact(s: string)
    ensures ValidText(Int, s) <==> exists n: nat :: s == Decimal(n) || s == "-" + Decimal(n)
  {
    if n: nat :| s == Decimal(n) || s == "-" + Decimal(n) {
      DecimalValid(n);
      if s == Decimal(n) {
        assert Digit(s[0]);
      } else {
        assert s[1..] == Decimal(n);
      }
    }
    if ValidInt(s) {
      var minus := s[0] == '-';
      var n := ValidDecimal(if minus then s[1..] else s);
      if minus { assert s == "-" + s[1..]; }
    }
  }

  // ----- what is left in the buffer -----

  /** Nothing but newlines and then a comment sign. */
  predicate BareHash(s: string) {
    s != "" && s[|s| - 1] == '#' && forall i | 0 <= i < |s| - 1 :: s[i] == '\n'
  }

  /** A first line of one character is a newline, or else it is all there is. */
  lemma ShortLine(s: string)
    requires s != "" && LineLength(s) == 1
    ensures s[..1] == [s[0]] && (s[0] != '\n' ==> |s| == 1)
  {
  }

  lemma BareHashNext(s: string)
    requires s != "" && s[0] == '\n'
    ensures LineLength(s) == 1 && (BareHash(s) <==> BareHash(s[1..]))
  {
    if BareHash(s[1..]) {
      forall i | 0 <= i < |s| - 1 ensures s[i] == '\n' { if i > 0 { assert s[1..][i - 1] == '\n'; } }
    }
  }

  /** Otherwise the file alone decides what is read. */
  lemma {:induction false} ReadDetermined(t: Table, s: string, left: string, left': string)
    requires !BareHash(s)
    ensures ReadFrom(t, s, left) == ReadFrom(t, s, left')
    decreases |s|
  {
    if s != "" && LineLength(s) == 1 {
      ShortLine(s);
      if s[0] == '\n' {
        BareHashNext(s);
        ReadDetermined(t, s[1..], left, left');
      }
    }
  }

  lemma {:induction false} ReadBare(t: Table, s: string, left: string)
    requires BareHash(s)
    ensures ReadFrom(t, s, left) == ApplyTail(t, left)
    decreases |s|
  {
    if s[0] == '\n' {
      BareHashNext(s);
      ReadBare(t, s[1..], left);
    } else {
      assert s == "#";
      LoneHash(t, left);
    }
  }

  /** A lone comment sign is followed by whatever the buffer holds. */
  lemma LoneHash(t: Table, left: string)
    ensures ReadFrom(t, "#", left) == ApplyTail(t, left)
  {
    var s := "#";
    assert LineLength(s) == 1 && s[..1] == s && s[1..] == "";
  }

  /** The text of a comment that unsets `name`, from the third character on. */
  function UnsetText(name: string): string {
    PREFIX + name + " " + NOT_SET
  }

  lemma UnsetTail(t: Table, name: string, end: string)
    requires Plain(name, " ") && name in t && t[name].kind in {Boolean, Tristate}
    ensures ApplyTail(t, UnsetText(name) + end) == Set(t, name, Some(IsTri(NO)))
  {
    var rest := name + [' '] + (NOT_SET + end);
    assert UnsetText(name) + end == PREFIX + rest;
    Behind(PREFIX, rest);
    UnsetRest(t, name, end);
  }

  /** With only empty lines before it, what the buffer held at first may unset a symbol, or not. */
  lemma BareHashReads(t: Table, s: string, name: string)
    requires BareHash(s) && Plain(name, " ") && name in t && t[name].kind in {Boolean, Tristate}
    ensures ReadFrom(t, s, "") == t && ReadFrom(t, s, UnsetText(name)) == Set(t, name, Some(IsTri(NO)))
  {
    ReadBare(t, s, "");
    ReadBare(t, s, UnsetText(name));
    UnsetTail(t, name, "");
    assert UnsetText(name) + "" == UnsetText(name);
  }

  /** So the file "#" does not decide about A. */
  lemma LoneHashReads()
    ensures var t: Table := map["A" := Slot(Boolean, None)];
            && ReadFrom(t, "#", "") == t
            && ReadFrom(t, "#", UnsetText("A")) == map["A" := Slot(Boolean, Some(IsTri(NO)))]
  {
    BareHashReads(map["A" := Slot(Boolean, None)], "#", "A");
  }

  /** The file alone decides what is read exactly if it is not a comment sign after empty lines. */
  lemma ReadExact(s: string)
    ensures (forall t: Table, left: string, left': string :: ReadFrom(t, s, left) == ReadFrom(t, s, left')) <==>
            !BareHash(s)
  {
    if BareHash(s) {
      var t: Table := map["A" := Slot(Boolean, None)];
      BareHashReads(t, s, "A");
      assert ReadFrom(t, s, "")["A"] != ReadFrom(t, s, UnsetText("A"))["A"];
    } else {
      forall t: Table, left: string, left': string ensures ReadFrom(t, s, left) == ReadFrom(t, s, left') {
        ReadDetermined(t, s, left, left');
      }
    }
  }

  /** What is left after all lines of `s`. */
  function LeftAfter(s: string, left: string): string
    decreases |s|
  {
    if s == "" then left else var n := LineLength(s); LeftAfter(s[n..], Left(s[..n], left))
  }

  /** Whole lines only. */
  predicate Ended(s: string) {
    s == "" || s[|s| - 1] == '\n'
  }

  lemma EndedNext(a: string, b: string)
    requires a != "" && Ended(a)
    ensures var n := LineLength(a);
            LineLength(a + b) == n && (a + b)[..n] == a[..n] && (a + b)[n..] == a[n..] + b && Ended(a[n..])
  {
    var n := LineLength(a);
    assert a[|a| - 1] == '\n';
    IndexOfFirst(a[..n - 1], '\n', a[n..] + b);
    assert a[..n - 1] + ['\n'] + (a[n..] + b) == a + b;
  }

  lemma {:induction false} ReadJoin(t: Table, a: string, b: string, left: string)
    requires Ended(a)
    ensures ReadFrom(t, a + b, left) == ReadFrom(ReadFrom(t, a, left), b, LeftAfter(a, left))
    ensures LeftAfter(a + b, left) == LeftAfter(b, LeftAfter(a, left))
    decreases |a|
  {
    if a == "" {
      assert a + b == b;
    } else {
      EndedNext(a, b);
      var n := LineLength(a);
      ReadJoin(ApplyLine(t, a[..n], left), a[n..], b, Left(a[..n], left));
    }
  }

  predicate EmptyLines(s: string) {
    forall i | 0 <= i < |s| :: s[i] == '\n'
  }

  lemma {:induction false} EmptyLinesLeave(s: string, left: string)
    requires EmptyLines(s)
    ensures LeftAfter(s, left) == left
    decreases |s|
  {
    if s != "" {
      assert LineLength(s) == 1 && s[..1] == "\n";
      EmptyLinesLeave(s[1..], left);
    }
  }

  /** A comment once read has no space behind its name any more. */
  lemma CutTailInert(t: Table, tail: string)
    ensures ApplyTail(t, CutTail(tail)) == t
  {
    if StartsWith(tail, PREFIX) {
      var rest := tail[|PREFIX|..];
      var cut := CutTail(tail);
      assert StartsWith(cut, PREFIX);
      assert cut[|PREFIX|..] == match IndexOf(rest, ' ') case None => rest case Some(i) => rest[..i];
    }
  }

  lemma LeftOfLine(line: string, left: string)
    requires |line| > 1 && LineLength(line) == |line|
    ensures LeftAfter(line, left) == Left(line, "")
  {
    assert line[..|line|] == line && line[|line|..] == "";
  }

  /**
   What a comment sign without a newline does at the end of a file: it takes the last line with
   more than one character for a comment, from the third character on, unless that is one already.
   */
  lemma HashEffect(t: Table, older: string, line: string, empty: string, left: string)
    requires Ended(older) && Ended(line) && |line| > 1 && LineLength(line) == |line| && EmptyLines(empty)
    ensures var s := older + line + empty;
            var r := ReadFrom(t, s, left);
            ReadFrom(t, s + "#", left) == if IsComment(line) then r else ApplyTail(r, CString(line[2..]))
  {
    var s := older + line + empty;
    ReadJoin(t, s, "#", left);
    ReadJoin(t, older + line, empty, left);
    ReadJoin(t, older, line, left);
    LeftOfLine(line, LeftAfter(older, left));
    EmptyLinesLeave(empty, Left(line, ""));
    var r := ReadFrom(t, s, left);
    LoneHash(r, Left(line, ""));
    CutTailInert(r, CString(line[2..]));
  }

  /** A line that unsets nothing, until a lone comment sign follows it. */
  lemma StrayComment(t: Table, name: string, left: string)
    requires Plain(name, " \n\0") && name in t && t[name].kind in {Boolean, Tristate}
    ensures var line := "xx" + (UnsetText(name) + "\n");
            ReadFrom(t, line, left) == t && ReadFrom(t, line + "#", left) == Set(t, name, Some(IsTri(NO)))
  {
    StrayLine(t, UnsetText(name), left);
    UnsetTail(t, name, "\n");
  }

  lemma ReadInert(t: Table, line: string, left: string)
    requires line != "" && LineLength(line) == |line| && !IsComment(line) && !StartsWith(line, PREFIX)
    ensures ReadFrom(t, line, left) == t
  {
    assert line[..|line|] == line && line[|line|..] == "";
  }

  lemma OneLine(body: string)
    requires '\n' !in body
    ensures LineLength(body + "\n") == |body| + 1
  {
    IndexOfFirst(body, '\n', "");
    assert body + ['\n'] + "" == body + "\n";
  }

  /** The same where the line is the only other one. */
  lemma OnlyLine(t: Table, line: string, left: string)
    requires Ended(line) && |line| > 1 && LineLength(line) == |line| && !IsComment(line)
    ensures ReadFrom(t, line + "#", left) == ApplyTail(ReadFrom(t, line, left), CString(line[2..]))
  {
    HashEffect(t, "", line, "", left);
    assert "" + line + "" == line;
  }

  lemma StrayShape(text: string)
    requires Plain(text, "\n\0")
    ensures var line := "xx" + (text + "\n");
            LineLength(line) == |line| && Ended(line) && line[2..] == text + "\n" && line[0] == 'x'
  {
    OneLine("xx" + text);
    assert "xx" + (text + "\n") == "xx" + text + "\n";
  }

  lemma StrayLine(t: Table, text: string, left: string)
    requires Plain(text, "\n\0")
    ensures var line := "xx" + (text + "\n");
            ReadFrom(t, line, left) == t && ReadFrom(t, line + "#", left) == ApplyTail(t, text + "\n")
  {
    var line := "xx" + (text + "\n");
    StrayShape(text);
    ReadInert(t, line, left);
    CStringPlain(text + "\n");
    OnlyLine(t, line, left);
  }

  /** The file "xxCONFIG_A is not set", newline, "#" unsets A. */
  lemma StrayCommentA(left: string)
    ensures ReadFrom(map["A" := Slot(Boolean, None)], "xx" + (UnsetText("A") + "\n") + "#", left) ==
            map["A" := Slot(Boolean, Some(IsTri(NO)))]
  {
    StrayComment(map["A" := Slot(Boolean, None)], "A", left);
  }

  // ----- the code -----

  method StringValid(kind: SymType, str: string) returns (ok: bool)
    ensures ok == ValidText(kind, str)
  {
    match kind
    case Text => return true;
    case Int =>
      var s := if str != "" && str[0] == '-' then str[1..] else str;
      if s == "" || !Digit(s[0]) || (s[0] == '0' && |s| > 1) { return false; }
      var i := 1;
      while i < |s|
        invariant i <= |s| && Digits(s[..i])
      {
        if !Digit(s[i]) { return false; }
        i := i + 1;
      }
      assert s[..|s|] == s;
      return true;
    case Hex =>
      var s := if HexPrefix(str) then str[2..] else str;
      var i := 0;
      while true
        invariant i <= |s| && HexDigits(s[..i]) && (i == |s| ==> i == 0)
        decreases |s| - i
      {
        if i == |s| || !HexDigit(s[i]) { return false; }
        i := i + 1;
        if i == |s| { break; }
      }
      assert s[..|s|] == s;
      return true;
    case Unknown => return false;
    case _ => return str != "" && str[0] in "yYmMnN";
  }

  /** Finds `c` in the text that starts at `from` and ends before the NUL at `end`. */
  method FindChar(line: array<char>, from: nat, end: nat, c: char) returns (i: nat)
    requires from <= end <= line.Length
    ensures from <= i <= end
    ensures IndexOf(line[from..end], c) == if i < end then Some(i - from) else None
  {
    i := from;
    while i < end && line[i] != c
      invariant from <= i <= end && c !in line[from..i]
    {
      i := i + 1;
    }
    if i < end {
      IndexOfFirst(line[from..i], c, line[i + 1..end]);
      assert line[from..i] + [c] + line[i + 1..end] == line[from..end];
    }
  }

  /** Cuts the text in `line[from..end]` in two at the first `c`, if there is one. */
  method CutAt(line: array<char>, from: nat, end: nat, c: char) returns (p: nat)
    requires from <= end <= line.Length
    modifies line
    ensures from <= p <= end
    ensures IndexOf(old(line[from..end]), c) == if p < end then Some(p - from) else None
    ensures line[..] == if p < end then old(line[..])[p := '\0'] else old(line[..])
    ensures p < end ==> line[from..p] == old(line[from..end])[..p - from]
    ensures p < end ==> line[p + 1..end] == old(line[from..end])[p - from + 1..]
  {
    p := FindChar(line, from, end, c);
    if p < end { line[p] := '\0'; }
  }

  const LINE_GROWTH := 16

  /** Stores `c` behind the first `slen` characters, in a larger buffer if there is no room for it. */
  method AddByte(c: char, line: array<char>, slen: nat) returns (r: array<char>)
    requires slen <= line.Length
    modifies line
    ensures if slen < line.Length then r == line else fresh(r) && r.Length == 2 * (slen + LINE_GROWTH)
    ensures r[..][..slen + 1] == old(line[..])[..slen] + [c]
    ensures slen < line.Length ==> r[..][slen + 1..] == old(line[..])[slen + 1..]
  {
    r := line;
    if slen + 1 > line.Length {
      r := new char[(slen + 1 + LINE_GROWTH - 1) * 2];
      var _ := Append(r, 0, line[..]);
      assert r[..slen] == line[..slen];
    }
    r[slen] := c;
  }

  /** `m` is the buffer `was` after the first `n` characters of `text` have been stored. */
  ghost predicate Filled(was: seq<char>, m: seq<char>, text: string, n: nat) {
    && n <= |m| && m[..n] == text
    && (n <= |was| ==> m[n..] == was[n..])
    && (|m| == 0 || |m| >= 2 * LINE_GROWTH)
  }

  lemma FilledNext(was: seq<char>, m: seq<char>, m': seq<char>, text: string, n: nat, c: char)
    requires Filled(was, m, text, n)
    requires if n < |m| then |m'| == |m| else |m'| == 2 * (n + LINE_GROWTH)
    requires m'[..n + 1] == m[..n] + [c] && (n < |m| ==> m'[n + 1..] == m[n + 1..])
    ensures Filled(was, m', text + [c], n + 1)
  {
    if n + 1 <= |was| { assert |m| == |was|; assert m[n + 1..] == m[n..][1..] == was[n..][1..] == was[n + 1..]; }
  }

  /** Stores one more character of the line. */
  method Store(c: char, line: array<char>, slen: nat, ghost was: seq<char>, ghost done: string)
    returns (r: array<char>)
    requires Filled(was, line[..], done, slen)
    modifies line
    ensures if slen < line.Length then r == line else fresh(r)
    ensures Filled(was, r[..], done + [c], slen + 1)
  {
    ghost var m := line[..];
    r := AddByte(c, line, slen);
    FilledNext(was, m, r[..], done, slen, c);
  }

  /** Reads one line into the buffer, with a NUL behind it; what lies behind stays. */
  method GetLine(line: array<char>, text: string) returns (r: array<char>, slen: nat)
    requires line.Length == 0 || line.Length >= 2 * LINE_GROWTH
    modifies line
    ensures slen == if text == "" then 0 else LineLength(text)
    ensures Filled(old(line[..]), r[..], text[..slen] + ['\0'], slen + 1)
    ensures if slen < line.Length then r == line else fresh(r)
  {
    r, slen := line, 0;
    ghost var was, done := line[..], "";
    while slen < |text|
      invariant slen <= |text| && done == text[..slen] && '\n' !in done && Filled(was, r[..], done, slen)
      invariant if slen <= line.Length then r == line else fresh(r)
    {
      r := Store(text[slen], r, slen, was, done);
      done := done + [text[slen]];
      slen := slen + 1;
      if text[slen - 1] == '\n' {
        LineFound(text, slen);
        break;
      }
    }
    r := Store('\0', r, slen, was, done);
  }

  lemma LineFound(text: string, n: nat)
    requires 0 < n <= |text| && '\n' !in text[..n - 1] && text[n - 1] == '\n'
    ensures LineLength(text) == n
  {
    IndexOfFirst(text[..n - 1], '\n', text[n..]);
    assert text[..n - 1] + ['\n'] + text[n..] == text;
  }

  /** Cutting a value at the newline at `nl`, or at the carriage return before it. */
  lemma ChompCut(s: string, from: nat, end: nat, nl: nat, stop: nat)
    requires 0 < from <= nl < end <= |s| && s[from - 1] == '\0' && IndexOf(s[from..end], '\n') == Some(nl - from)
    requires stop == if s[nl - 1] == '\r' then nl - 1 else nl
    ensures var s' := s[nl := '\0'][stop := '\0'];
            from <= stop && s'[from..stop] == Chomp(s[from..end]) && s'[..from] == s[..from]
  {
    if nl > from { assert s[from..end][nl - from - 1] == s[nl - 1]; }
  }

  // ----- the buffer -----

  lemma CStringAt(s: string, k: nat)
    requires k < |s| && s[k] == '\0' && '\0' !in s[..k]
    ensures CString(s) == s[..k]
  {
    IndexOfFirst(s[..k], '\0', s[k + 1..]);
    assert s[..k] + ['\0'] + s[k + 1..] == s;
  }

  /** Comparing bytes with the prefix is comparing strings. */
  lemma CStringBehind(s: string)
    ensures StartsWith(CString(s), PREFIX) <==> StartsWith(s, PREFIX)
    ensures StartsWith(s, PREFIX) ==> CString(s)[|PREFIX|..] == CString(s[|PREFIX|..])
  {
    if StartsWith(s, PREFIX) {
      var n := |PREFIX|;
      match IndexOf(s[n..], '\0')
      case None => assert s == PREFIX + s[n..]; CStringPlain(s);
      case Some(i) => assert s[..n + i] == PREFIX + s[n..][..i]; CStringAt(s, n + i);
    }
  }

  /** Equal as far as it matters to a comment sign. */
  predicate SameLeft(x: string, y: string) {
    x == y || (!StartsWith(x, PREFIX) && !StartsWith(y, PREFIX))
  }

  lemma SameEffect(t: Table, x: string, y: string)
    requires SameLeft(x, y)
    ensures ApplyTail(t, x) == ApplyTail(t, y) && SameLeft(CutTail(x), CutTail(y))
  {
  }

  /** The line that starts the buffer, and what lies behind its second character. */
  lemma LineInBuffer(m: seq<char>, line: string, left: string)
    requires 0 < |line| < |m| && m[..|line| + 1] == line + ['\0'] && |m| > 2
    requires |line| == 1 ==> SameLeft(CString(m[2..]), left)
    ensures CString(m) == CString(line) && SameLeft(CString(m[2..]), Tail(line, left)) && m[0] == line[0]
  {
    var n := |line|;
    assert m[0] == m[..n + 1][0];
    UpToEnd(m, line);
    if n > 1 {
      assert m[2..][..n - 1] == m[..n + 1][2..] == line[2..] + ['\0'];
      UpToEnd(m[2..], line[2..]);
    }
  }

  lemma UpToEnd(m: seq<char>, s: string)
    requires |s| < |m| && m[..|s| + 1] == s + ['\0']
    ensures CString(m) == CString(s)
  {
    assert m[..|s|] == m[..|s| + 1][..|s|] == s && m[|s|] == m[..|s| + 1][|s|] == '\0';
    match IndexOf(s, '\0')
    case None => CStringAt(m, |s|);
    case Some(i) => assert m[..i] == s[..i] && m[i] == s[i]; CStringAt(m, i);
  }

  /** The buffer after the space behind the name of a comment has become a NUL. */
  function CommentCut(m: seq<char>, from: nat, rest: string): seq<char>
    requires from + |rest| <= |m|
  {
    match IndexOf(rest, ' ') case None => m case Some(i) => m[from + i := '\0']
  }

  lemma CutLeft(m: seq<char>, rest: string)
    requires |m| > 2 && StartsWith(m[2..], PREFIX) && rest == CString(m[2 + |PREFIX|..])
    ensures CString(CommentCut(m, 2 + |PREFIX|, rest)[2..]) == CutTail(CString(m[2..]))
  {
    var tail, n := CString(m[2..]), |PREFIX|;
    CStringBehind(m[2..]);
    assert m[2..][n..] == m[2 + n..];
    assert tail[n..] == rest;
    match IndexOf(rest, ' ')
    case None =>
    case Some(i) =>
      var m' := m[2 + n + i := '\0'];
      assert m'[2..][..n + i] == m[2..][..n + i] == tail[..n + i];
      CStringAt(m'[2..], n + i);
  }

  /** A buffer that has been read into is `left` with what matters. */
  ghost predicate BufferOk(m: seq<char>, left: string) {
    m == [] || (|m| >= 2 * LINE_GROWTH && SameLeft(CString(m[2..]), left))
  }

  /** The buffer holds the line with a NUL behind it and, if the line is short, what is left. */
  ghost predicate InBuffer(m: seq<char>, line: string, left: string) {
    && |m| >= 2 * LINE_GROWTH && |line| < |m| && m[..|line| + 1] == line + ['\0']
    && (|line| == 1 ==> SameLeft(CString(m[2..]), left))
  }

  lemma FilledLine(was: seq<char>, m: seq<char>, line: string, left: string)
    requires Filled(was, m, line + ['\0'], |line| + 1) && line != "" && BufferOk(was, left)
    requires was == [] ==> left == CString(m[2..])
    ensures InBuffer(m, line, left)
  {
  }

  lemma NulBehind(m: seq<char>)
    requires StartsWith(m, PREFIX) && '\0' in m
    ensures '\0' in m[|PREFIX|..]
  {
    assert m == PREFIX + m[|PREFIX|..];
  }

  /** The third character of an assignment does not start a comment. */
  lemma NotComment(s: string)
    requires s != "" && s[0] == PREFIX[2]
    ensures !StartsWith(CString(s), PREFIX)
  {
    CStringBehind(s);
  }

  class Config {
    var table: Table

    constructor (table: Table)
      ensures this.table == table
    {
      this.table := table;
    }

    /** Sets symbol `name` from the text in `line` that starts at `p` and ends before the NUL at `end`. */
    method SetSymVal(name: string, line: array<char>, p: nat, end: nat)
      requires name in table && p <= end < line.Length && line[end] == '\0'
      modifies this, line
      ensures table == Set(old(table), name, ReadValue(old(table)[name].kind, old(line[p..end])))
      ensures Kept(old(line[..]), line[..], p)
    {
      var kind := table[name].kind;
      if kind == Tristate && line[p] == 'm' {
        table := Set(table, name, Some(IsTri(MOD)));
        return;
      }
      if kind == Tristate || kind == Boolean {
        if line[p] == 'y' {
          table := Set(table, name, Some(IsTri(YES)));
        } else if line[p] == 'n' {
          table := Set(table, name, Some(IsTri(NO)));
        }
        return;
      }
      var from, to := p, end;
      if kind == Text {
        if line[p] != '"' { return; }
        from := p + 1;
        assert line[p..end][1..] == line[from..end];
        ghost var was := line[..];
        var ok;
        ok, to := Unescape(line, from, end);
        KeptTwice(was, was, line[..], p, from);
        if !ok { return; }
      }
      var valid := StringValid(kind, line[from..to]);
      if valid { table := Set(table, name, Some(IsText(line[from..to]))); }
    }

    /** A comment whose text after the prefix is `line[from..end]`. */
    method ReadComment(line: array<char>, from: nat, end: nat)
      requires from <= end <= line.Length
      modifies this, line
      ensures table == ApplyComment(old(table), old(line[from..end]))
      ensures line[..] == CommentCut(old(line[..]), from, old(line[from..end]))
    {
      var p := CutAt(line, from, end, ' ');
      if p == end { return; }
      if !StartsWith(line[p + 1..end], NOT_SET) { return; }
      var name := line[from..p];
      if name !in table { return; }
      if table[name].kind == Boolean || table[name].kind == Tristate {
        table := Set(table, name, Some(IsTri(NO)));
      }
    }

    /** Cuts the value behind `p` at the end of the line. */
    method CutLine(line: array<char>, p: nat, end: nat) returns (stop: nat)
      requires p < end < line.Length && line[end] == '\0' && line[p] == '\0'
      modifies line
      ensures p < stop <= end && line[stop] == '\0'
      ensures line[p + 1..stop] == Chomp(old(line[p + 1..end]))
      ensures Kept(old(line[..]), line[..], p + 1)
    {
      var p2 := FindChar(line, p + 1, end, '\n');
      if p2 == end { return end; }
      stop := if line[p2 - 1] == '\r' then p2 - 1 else p2;
      ghost var was := line[..];
      ChompCut(was, p + 1, end, p2, stop);
      line[p2] := '\0';
      line[stop] := '\0';
      assert line[..] == was[p2 := '\0'][stop := '\0'];
    }

    /** An assignment whose text after the prefix is `line[from..end]`. */
    method ReadAssignment(line: array<char>, from: nat, end: nat)
      requires from <= end < line.Length && line[end] == '\0'
      modifies this, line
      ensures table == ApplyAssignment(old(table), old(line[from..end]))
      ensures Kept(old(line[..]), line[..], from)
    {
      ghost var was := line[..];
      var p := CutAt(line, from, end, '=');
      if p == end { return; }
      var name := line[from..p];
      ghost var cut := line[..];
      AssignValue(name, line, p, end);
      KeptTwice(was, cut, line[..], from, p + 1);
    }

    /** Sets symbol `name`, if there is one, from the value between the NULs at `p` and `end`. */
    method AssignValue(name: string, line: array<char>, p: nat, end: nat)
      requires p < end < line.Length && line[end] == '\0' && line[p] == '\0'
      modifies this, line
      ensures table == if name in old(table)
                       then Set(old(table), name, ReadValue(old(table)[name].kind, Chomp(old(line[p + 1..end]))))
                       else old(table)
      ensures Kept(old(line[..]), line[..], p + 1)
    {
      ghost var was := line[..];
      var stop := CutLine(line, p, end);
      if name in table {
        ghost var cut := line[..];
        SetSymVal(name, line, p + 1, stop);
        KeptTwice(was, cut, line[..], p + 1, p + 1);
      }
    }

    /** A line with a comment sign: looks behind its second character, however long the line is. */
    method ReadHash(line: array<char>)
      requires line.Length >= 2 * LINE_GROWTH
      modifies this, line
      ensures table == ApplyTail(old(table), CString(old(line[..])[2..]))
      ensures CString(line[..][2..]) == CutTail(CString(old(line[..])[2..]))
    {
      var n := |PREFIX|;
      ghost var m := line[..];
      CStringBehind(m[2..]);
      assert m[2..][..n] == line[2..2 + n];
      if line[2..2 + n] != PREFIX { return; }
      var end := FindChar(line, 2 + n, line.Length, '\0');
      assert m[2..][n..] == line[2 + n..line.Length] == m[2 + n..];
      ghost var rest := CString(m[2 + n..]);
      assert rest == line[2 + n..end];
      ReadComment(line, 2 + n, end);
      CutLeft(m, rest);
    }

    /** Any other line. */
    method ReadText(line: array<char>)
      requires line.Length >= 2 * LINE_GROWTH && '\0' in line[..]
      modifies this, line
      ensures table == ApplyText(old(table), CString(old(line[..])))
      ensures SameLeft(CString(line[..][2..]), CString(old(line[..])[2..]))
    {
      var n := |PREFIX|;
      ghost var m := line[..];
      CStringBehind(m);
      assert m[..n] == line[..n];
      if line[..n] != PREFIX { return; }
      var end := FindChar(line, n, line.Length, '\0');
      assert m[n..] == line[n..line.Length];
      NulBehind(m);
      assert CString(m[n..]) == line[n..end];
      ReadAssignment(line, n, end);
      assert line[2] == line[..n][2] == m[2] == PREFIX[2];
      NotComment(m[2..]);
      NotComment(line[..][2..]);
    }

    /** One line, at the start of the buffer; `left` is what older lines have left there. */
    method ReadLine(line: array<char>, ghost text: string, ghost left: string)
      requires text != "" && InBuffer(line[..], text, left)
      modifies this, line
      ensures table == ApplyLine(old(table), text, left) && SameLeft(CString(line[..][2..]), Left(text, left))
    {
      ghost var m := line[..];
      LineInBuffer(m, text, left);
      SameEffect(table, CString(m[2..]), Tail(text, left));
      if line[0] == '#' {
        ReadHash(line);
      } else {
        assert m[..|text| + 1][|text|] == '\0';
        ReadText(line);
      }
    }

    /**
     Forgets all values and reads the file line by line into one buffer; `first` is what that
     held, from the third character on, when it was allocated.
     */
    method Read(text: string) returns (ghost first: string)
      modifies this
      ensures table == ReadFrom(Reset(old(table)), text, first)
      ensures !BareHash(text) ==> table == ReadFrom(Reset(old(table)), text, "")
    {
      table := Reset(table);
      var line, rest := new char[0], text;
      ghost var left := "";
      first := "";
      while true
        invariant fresh(line) && BufferOk(line[..], left)
        invariant line.Length == 0 ==> rest == text && left == first && table == Reset(old(table))
        invariant ReadFrom(table, rest, left) == ReadFrom(Reset(old(table)), text, first)
        decreases |rest|
      {
        ghost var was := line[..];
        var slen;
        line, slen := GetLine(line, rest);
        if slen == 0 { break; }
        if was == [] {
          left := CString(line[..][2..]);
          first := left;
        }
        FilledLine(was, line[..], rest[..slen], left);
        ReadLine(line, rest[..slen], left);
        left := Left(rest[..slen], left);
        rest := rest[slen..];
      }
      if !BareHash(text) { ReadDetermined(Reset(old(table)), text, first, ""); }
    }
  }

  /** Writes one symbol with its text. */
  method WriteSymbol(w: Written) returns (out: string)
    ensures out == SymbolLine(w.name, w.kind, w.value)
  {
    if w.kind == Unknown { return ""; }
    var str := w.value;
    if w.kind == Text {
      var buf := EscapeString(str);
      str := buf[..buf.Length - 1];
      assert str == InQuotes(w.value);
    }
    if (w.kind == Boolean || w.kind == Tristate) && str != "" && str[0] == 'n' {
      return "# " + PREFIX + w.name + " " + NOT_SET + "\n";
    }
    out := PREFIX + w.name + "=" + str + "\n";
  }

  lemma WriteNext(ws: seq<Written>, i: nat, out: string)
    requires i < |ws|
    ensures out + WriteAll(ws[i..]) == out + SymbolLine(ws[i].name, ws[i].kind, ws[i].value) + WriteAll(ws[i + 1..])
  {
    assert ws[i..][1..] == ws[i + 1..];
    var line := SymbolLine(ws[i].name, ws[i].kind, ws[i].value);
    assert out + (line + WriteAll(ws[i + 1..])) == out + line + WriteAll(ws[i + 1..]);
  }

  method WriteConfig(ws: seq<Written>) returns (out: string)
    ensures out == WriteAll(ws)
  {
    out := "";
    assert ws[0..] == ws;
    for i := 0 to |ws|
      invariant out + WriteAll(ws[i..]) == WriteAll(ws)
    {
      WriteNext(ws, i, out);
      var line := WriteSymbol(ws[i]);
      out := out + line;
    }
  }
}
