/**
 Quoting of string values in configuration files: escaping into a buffer whose size is
 computed beforehand (symbol.c), and unescaping in place (confdata.c).
 */
module ConfText {
  import opened Tristate

  predicate Special(c: char) {
    c == '"' || c == '\\'
  }

  /** The text with a backslash before every quote and backslash. */
  function Escaped(s: string): string {
    if s == "" then "" else (if Special(s[0]) then ['\\', s[0]] else [s[0]]) + Escaped(s[1..])
  }

  function InQuotes(s: string): string {
    "\"" + Escaped(s) + "\""
  }

  /** The text up to the closing quote, if there is one; a backslash makes the next character literal. */
  function Unescaped(s: string): Option<string> {
    if s == "" then None
    else if s[0] == '"' then Some("")
    else if s[0] != '\\' then Prepend(s[0], Unescaped(s[1..]))
    else if |s| == 1 then None
    else Prepend(s[1], Unescaped(s[2..]))
  }

  function Prepend(c: char, r: Option<string>): Option<string> {
    if r.Some? then Some([c] + r.value) else None
  }

  /** Unescaping undoes escaping, whatever follows the closing quote. */
  lemma {:induction false} EscapeRoundTrip(s: string, rest: string)
    ensures Unescaped(Escaped(s) + "\"" + rest) == Some(s)
  {
    var t := Escaped(s) + "\"" + rest;
    if s != "" {
      EscapeRoundTrip(s[1..], rest);
      var u := Escaped(s[1..]) + "\"" + rest;
      if Special(s[0]) {
        assert t[0] == '\\' && t[1] == s[0] && t[2..] == u;
      } else {
        assert t[0] == s[0] && t[1..] == u;
      }
      assert s == [s[0]] + s[1..];
    } else {
      assert t[0] == '"';
    }
  }

  /** Escaping is injective, and no two values are written alike. */
  lemma EscapeInjective(s: string, t: string)
    requires InQuotes(s) == InQuotes(t)
    ensures s == t
  {
    EscapeRoundTrip(s, "");
    EscapeRoundTrip(t, "");
    assert InQuotes(s)[1..] == Escaped(s) + "\"" + "" && InQuotes(t)[1..] == Escaped(t) + "\"" + "";
  }

  /** Text without quotes and backslashes is written as it is. */
  lemma {:induction false} EscapedUnchanged(s: string)
    requires '"' !in s && '\\' !in s
    ensures Escaped(s) == s
  {
    if s != "" {
      EscapedUnchanged(s[1..]);
      assert s == [s[0]] + s[1..];
    }
  }

  // ----- escaping -----

  /** How many characters to skip to the next special one. */
  method Span(s: string, p: nat) returns (l: nat)
    requires p <= |s|
    ensures p + l <= |s| && (forall i | p <= i < p + l :: !Special(s[i])) && (p + l < |s| ==> Special(s[p + l]))
  {
    l := 0;
    while p + l < |s| && !Special(s[p + l])
      invariant p + l <= |s| && forall i | p <= i < p + l :: !Special(s[i])
    {
      l := l + 1;
    }
  }

  /** Plain text is its own escape. */
  lemma {:induction false} EscapedCat(u: string, v: string)
    requires forall i | 0 <= i < |u| :: !Special(u[i])
    ensures Escaped(u + v) == u + Escaped(v)
  {
    if u == "" {
      assert u + v == v;
    } else {
      assert (u + v)[1..] == u[1..] + v && (u + v)[0] == u[0];
      EscapedCat(u[1..], v);
      assert [u[0]] + (u[1..] + Escaped(v)) == u + Escaped(v);
    }
  }

  lemma EscapedPlain(s: string, p: nat, l: nat)
    requires p + l <= |s| && forall i | p <= i < p + l :: !Special(s[i])
    ensures Escaped(s[p..]) == s[p..p + l] + Escaped(s[p + l..])
  {
    EscapedCat(s[p..p + l], s[p + l..]);
    assert s[p..] == s[p..p + l] + s[p + l..];
  }

  lemma EscapedSpecial(s: string, p: nat)
    requires p < |s| && Special(s[p])
    ensures Escaped(s[p..]) == ['\\', s[p]] + Escaped(s[p + 1..])
  {
    assert s[p..][1..] == s[p + 1..];
  }

  /** First pass: the size of the buffer, with quotes and the final NUL. */
  method EscapedSize(s: string) returns (size: nat)
    ensures size == |InQuotes(s)| + 1
  {
    size := |s| + 3;
    var p := 0;
    assert s[0..] == s;
    while true
      invariant p <= |s| && size == |s| + 3 + (|Escaped(s)| - |Escaped(s[p..])| - p)
      decreases |s| - p
    {
      var l := Span(s, p);
      EscapedPlain(s, p, l);
      p := p + l;
      if p == |s| { break; }
      EscapedSpecial(s, p);
      size := size + 1;
      p := p + 1;
    }
    assert s[|s|..] == "";
  }

  /** Appends `t` at `at`; what was there before stays. */
  method Append(res: array<char>, at: nat, t: string) returns (end: nat)
    requires at + |t| <= res.Length
    modifies res
    ensures end == at + |t| && res[..end] == old(res[..at]) + t
  {
    for i := 0 to |t|
      invariant res[..at + i] == old(res[..at]) + t[..i]
    {
      res[at + i] := t[i];
    }
    end := at + |t|;
  }

  /** Appends a backslash and the character it stands before. */
  method AppendEscape(res: array<char>, at: nat, c: char) returns (end: nat)
    requires at + 2 <= res.Length
    modifies res
    ensures end == at + 2 && res[..end] == old(res[..at]) + ['\\', c]
  {
    end := Append(res, at, "\\");
    end := Append(res, end, [c]);
  }

  /** `done` is the output for the first `p` characters. */
  ghost predicate Escaping(s: string, p: nat, done: string) {
    p <= |s| && done + Escaped(s[p..]) == "\"" + Escaped(s)
  }

  lemma EscapingPlain(s: string, p: nat, l: nat, done: string)
    requires Escaping(s, p, done) && p + l <= |s| && forall i | p <= i < p + l :: !Special(s[i])
    ensures Escaping(s, p + l, done + s[p..p + l])
  {
    EscapedPlain(s, p, l);
    assert done + (s[p..p + l] + Escaped(s[p + l..])) == done + s[p..p + l] + Escaped(s[p + l..]);
  }

  lemma EscapingSpecial(s: string, p: nat, done: string)
    requires Escaping(s, p, done) && p < |s| && Special(s[p])
    ensures Escaping(s, p + 1, done + ['\\', s[p]])
  {
    EscapedSpecial(s, p);
    assert done + (['\\', s[p]] + Escaped(s[p + 1..])) == done + ['\\', s[p]] + Escaped(s[p + 1..]);
  }

  lemma EscapingFits(s: string, p: nat, done: string)
    requires Escaping(s, p, done)
    ensures |done| < |InQuotes(s)|
  {
  }

  /** Second pass: fills the buffer exactly. */
  method EscapeString(s: string) returns (res: array<char>)
    ensures fresh(res) && res[..] == InQuotes(s) + ['\0']
  {
    var size := EscapedSize(s);
    res := new char[size];
    var at := Append(res, 0, "\"");
    var p := 0;
    ghost var done := "\"";
    assert s[0..] == s;
    while true
      invariant fresh(res) && res.Length == |InQuotes(s)| + 1
      invariant Escaping(s, p, done) && at == |done| < |InQuotes(s)| && res[..at] == done
      decreases |s| - p
    {
      var l := Span(s, p);
      EscapingPlain(s, p, l, done);
      done := done + s[p..p + l];
      EscapingFits(s, p + l, done);
      at := Append(res, at, s[p..p + l]);
      p := p + l;
      if p == |s| { break; }
      EscapingSpecial(s, p, done);
      done := done + ['\\', s[p]];
      EscapingFits(s, p + 1, done);
      at := AppendEscape(res, at, s[p]);
      p := p + 1;
    }
    assert s[|s|..] == "" && done + "" == done;
    at := Append(res, at, "\"");
    at := Append(res, at, ['\0']);
  }

  // ----- unescaping in place -----

  /** `a'` is `a` with the text after `p` shifted to the left up to `end`. */
  ghost predicate Shifted(a: seq<char>, a': seq<char>, p: nat, end: nat) {
    && p < end < |a| == |a'|
    && a'[..p] == a[..p] && a'[p..end] == a[p + 1..end + 1] && a'[end..] == a[end..]
  }

  /** Shifts the text from `p + 1` on, with its final NUL at `end`, one place to the left. */
  method MoveDown(a: array<char>, p: nat, end: nat)
    requires p < end < a.Length
    modifies a
    ensures Shifted(old(a[..]), a[..], p, end)
  {
    for i := p to end
      invariant a[..p] == old(a[..p]) && a[p..i] == old(a[p + 1..i + 1]) && a[i..] == old(a[i..])
    {
      a[i] := a[i + 1];
    }
  }

  /** `t` is the text from `p` on, up to the NUL at `end`. */
  ghost predicate TextAt(a: seq<char>, p: nat, end: nat, t: string) {
    p <= end < |a| && a[p..end] == t && a[end] == '\0'
  }

  method FindSpecial(a: array<char>, p: nat, end: nat) returns (q: nat)
    requires p <= end < a.Length
    ensures p <= q <= end && (forall i | p <= i < q :: !Special(a[i])) && (q < end ==> Special(a[q]))
  {
    q := p;
    while q < end && !Special(a[q])
      invariant p <= q <= end && forall i | p <= i < q :: !Special(a[i])
    {
      q := q + 1;
    }
  }

  function After(done: string, r: Option<string>): Option<string> {
    if r.Some? then Some(done + r.value) else None
  }

  lemma {:induction false} UnescapedPlain(s: string, l: nat)
    requires l <= |s| && forall i | 0 <= i < l :: !Special(s[i])
    ensures Unescaped(s) == After(s[..l], Unescaped(s[l..]))
  {
    if l == 0 {
      assert s[0..] == s;
      if Unescaped(s).Some? { assert "" + Unescaped(s).value == Unescaped(s).value; }
    } else {
      UnescapedPlain(s[1..], l - 1);
      assert s[1..][l - 1..] == s[l..] && s[..l] == [s[0]] + s[1..][..l - 1];
      var r := Unescaped(s[l..]);
      if r.Some? { assert [s[0]] + (s[1..][..l - 1] + r.value) == s[..l] + r.value; }
    }
  }

  lemma AfterAfter(t: string, u: string, r: Option<string>)
    ensures After(t, After(u, r)) == After(t + u, r)
  {
    if r.Some? { assert t + (u + r.value) == t + u + r.value; }
  }

  /** Unescaping `s`: `done` is ready, and `t` is still to be read. */
  ghost predicate Unescaping(s: string, done: string, t: string) {
    Unescaped(s) == After(done, Unescaped(t))
  }

  lemma UnescapingPlain(s: string, done: string, t: string, l: nat)
    requires Unescaping(s, done, t) && l <= |t| && forall i | 0 <= i < l :: !Special(t[i])
    ensures Unescaping(s, done + t[..l], t[l..])
  {
    UnescapedPlain(t, l);
    AfterAfter(done, t[..l], Unescaped(t[l..]));
  }

  lemma UnescapingSpecial(s: string, done: string, t: string)
    requires Unescaping(s, done, t)
    ensures t == "" ==> Unescaped(s) == None
    ensures t != "" && t[0] == '"' ==> Unescaped(s) == Some(done)
    ensures t != "" && t[0] == '\\' && |t| == 1 ==> Unescaped(s) == None
    ensures |t| > 1 && t[0] == '\\' ==> Unescaping(s, done + [t[1]], t[2..])
  {
    if t != "" && t[0] == '"' {
      assert done + "" == done;
    } else if |t| > 1 && t[0] == '\\' {
      AfterAfter(done, [t[1]], Unescaped(t[2..]));
    }
  }

  /** Unescaping the text of `s` in `a`: between `p` and `q` it is done, up to `end` it is not. */
  ghost predicate UnescapingAt(s: string, a: seq<char>, p: nat, q: nat, end: nat) {
    p <= q <= end < |a| && a[end] == '\0' && Unescaping(s, a[p..q], a[q..end])
  }

  lemma UnescapeFirst(a: seq<char>, p: nat, end: nat)
    requires p <= end < |a| && a[end] == '\0'
    ensures UnescapingAt(a[p..end], a, p, p, end)
  {
    assert a[p..p] == "";
    var r := Unescaped(a[p..end]);
    if r.Some? { assert "" + r.value == r.value; }
  }

  lemma UnescapePlain(s: string, a: seq<char>, p: nat, q: nat, q': nat, end: nat)
    requires UnescapingAt(s, a, p, q, end) && q <= q' <= end && forall i | q <= i < q' :: !Special(a[i])
    ensures UnescapingAt(s, a, p, q', end)
  {
    UnescapingPlain(s, a[p..q], a[q..end], q' - q);
    SliceFurther(a, p, q, q', end);
  }

  lemma SliceFurther(a: seq<char>, p: nat, q: nat, q': nat, end: nat)
    requires p <= q <= q' <= end <= |a|
    ensures a[p..q] + a[q..end][..q' - q] == a[p..q'] && a[q..end][q' - q..] == a[q'..end]
  {
    assert a[q..end][..q' - q] == a[q..q'];
  }

  lemma UnescapeEnd(s: string, a: seq<char>, p: nat, q: nat, end: nat)
    requires UnescapingAt(s, a, p, q, end)
    ensures q == end ==> Unescaped(s) == None
    ensures q < end && a[q] == '"' ==> Unescaped(s) == Some(a[p..q])
    ensures q + 1 == end && a[q] == '\\' ==> Unescaped(s) == None
  {
    UnescapingSpecial(s, a[p..q], a[q..end]);
  }

  lemma ShiftedSlices(a: seq<char>, a': seq<char>, p: nat, q: nat, end: nat)
    requires Shifted(a, a', q, end) && p <= q && q + 1 < end
    ensures a'[p..q + 1] == a[p..q] + [a[q + 1]] && a'[q + 1..end - 1] == a[q + 2..end] && a'[end - 1] == a[end]
  {
    forall j | 0 <= j < q ensures a'[j] == a[j] { assert a'[..q][j] == a[..q][j]; }
    forall j | q <= j < end ensures a'[j] == a[j + 1] { assert a'[q..end][j - q] == a[q + 1..end + 1][j - q]; }
  }

  /** The first `k` characters have not changed. */
  ghost predicate Kept(s: string, s': string, k: nat) {
    k <= |s| == |s'| && s'[..k] == s[..k]
  }

  lemma KeptTwice(s: string, s': string, s'': string, k: nat, n: nat)
    requires k <= n && (Kept(s, s', k) || Kept(s, s', n)) && Kept(s', s'', n)
    ensures Kept(s, s'', k)
  {
    assert s''[..k] == s''[..n][..k] && s'[..k] == s'[..n][..k];
    if Kept(s, s', n) { assert s[..k] == s[..n][..k]; }
  }

  /** The backslash at `q` is dropped: the character behind it takes its place and counts as read. */
  lemma UnescapeDrop(s: string, a: seq<char>, a': seq<char>, p: nat, q: nat, end: nat)
    requires UnescapingAt(s, a, p, q, end) && q + 1 < end && a[q] == '\\' && Shifted(a, a', q, end)
    ensures UnescapingAt(s, a', p, q + 1, end - 1)
  {
    UnescapingSpecial(s, a[p..q], a[q..end]);
    ShiftedSlices(a, a', p, q, end);
    assert a[q..end][2..] == a[q + 2..end];
  }

  /** Drops the backslash at `q`. */
  method DropBackslash(a: array<char>, p: nat, q: nat, end: nat, ghost s: string)
    requires UnescapingAt(s, a[..], p, q, end) && q < end && a[q] == '\\'
    modifies a
    ensures Kept(old(a[..]), a[..], p) && (q + 1 < end ==> UnescapingAt(s, a[..], p, q + 1, end - 1))
  {
    ghost var was := a[..];
    MoveDown(a, q, end);
    KeptTwice(was, was, a[..], p, q);
    if q + 1 < end { UnescapeDrop(s, was, a[..], p, q, end); }
  }

  /** A NUL at `q` ends the text from `p` on. */
  lemma EndAt(a: seq<char>, p: nat, q: nat)
    requires p <= q < |a|
    ensures var a' := a[q := '\0']; TextAt(a', p, q, a[p..q]) && Kept(a, a', p)
  {
  }

  /** Unescapes the text from `p` to the NUL at `len`; the result ends at `stop`. */
  method Unescape(a: array<char>, p: nat, len: nat) returns (ok: bool, stop: nat)
    requires p <= len < a.Length && a[len] == '\0'
    modifies a
    ensures ok <==> Unescaped(old(a[p..len])).Some?
    ensures ok ==> TextAt(a[..], p, stop, Unescaped(old(a[p..len])).value)
    ensures Kept(old(a[..]), a[..], p)
  {
    ghost var s, first := a[p..len], a[..];
    var q: nat, end: nat := p, len;
    UnescapeFirst(a[..], p, len);
    while true
      invariant UnescapingAt(s, a[..], p, q, end) && Kept(first, a[..], p)
      decreases end - q
    {
      var q' := FindSpecial(a, q, end);
      UnescapePlain(s, a[..], p, q, q', end);
      q := q';
      UnescapeEnd(s, a[..], p, q, end);
      if q == end { return false, end; }
      ghost var was := a[..];
      if a[q] == '"' {
        a[q] := '\0';
        EndAt(was, p, q);
        return true, q;
      }
      DropBackslash(a, p, q, end, s);
      // a backslash at the very end is followed by the NUL only, where the search ends
      if q + 1 == end { return false, q; }
      q, end := q + 1, end - 1;
    }
  }
}
