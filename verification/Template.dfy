/** Parameter templates: placeholders such as `{{step.field}}` are replaced by what earlier steps returned. */
module Template {
  import opened Common
  import opened WorkflowModel

  predicate IsPathChar(c: char) {
    'a' <= c <= 'z' || 'A' <= c <= 'Z' || '0' <= c <= '9' || c == '_' || c == '.'
  }

  predicate IsPath(p: string) {
    p != "" && forall i :: 0 <= i < |p| ==> IsPathChar(p[i])
  }

  function Hole(p: string): string {
    "{{" + p + "}}"
  }

  /** A placeholder for `p` stands in `s` at position `i`. */
  predicate HoleAt(s: string, i: nat, p: string) {
    IsPath(p) && i + |p| + 4 <= |s| && s[i..i + |p| + 4] == Hole(p)
  }

  ghost predicate NoHole(s: string) {
    forall i, p :: !HoleAt(s, i, p)
  }

  // ---- What a placeholder stands for -----------------------------------------------------------

  /** The parts of a path between its dots. */
  function Split(p: string): (r: seq<string>)
    ensures r != []
  {
    if p == "" then [""]
    else
      var rest := Split(p[1..]);
      if p[0] == '.' then [""] + rest else [[p[0]] + rest[0]] + rest[1..]
  }

  /** A missing field or a step into something that is not an object yields null. */
  function Navigate(v: Value, path: seq<string>): Value
    decreases |path|
  {
    if path == [] then v
    else if !v.Obj? then Null
    else Navigate(if path[0] in v.fields then v.fields[path[0]] else Null, path[1..])
  }

  type Env = map<string, Value>

  /** The text a placeholder is replaced with; one that names an unknown step stays. */
  function Render(env: Env, marshal: Value -> string, p: string): string {
    var parts := Split(p);
    if parts[0] !in env then Hole(p)
    else
      var v := Navigate(env[parts[0]], parts[1..]);
      if v.Str? then v.s else marshal(v)
  }

  // ---- One pass from left to right -------------------------------------------------------------

  /** The longest run of path characters at the front. */
  function PathPrefix(s: string): (p: string)
    ensures p <= s && (forall i :: 0 <= i < |p| ==> IsPathChar(p[i]))
    ensures |p| < |s| ==> !IsPathChar(s[|p|])
  {
    if s != "" && IsPathChar(s[0]) then
      var rest := PathPrefix(s[1..]);
      [s[0]] + rest
    else ""
  }

  lemma HoleIndices(h: string, p: string)
    requires |h| == |p| + 4
    ensures h == Hole(p) <==> h[0] == '{' && h[1] == '{' && h[2..2 + |p|] == p && h[|p| + 2] == '}' && h[|p| + 3] == '}'
  {
    var n := |p|;
    assert Hole(p)[2..2 + n] == p;
    assert h == [h[0], h[1]] + h[2..2 + n] + [h[n + 2], h[n + 3]];
  }

  lemma SubSlice(s: string, i: nat, m: nat, a: nat, b: nat)
    requires i + m <= |s| && a <= b <= m
    ensures s[i..i + m][a..b] == s[i + a..i + b]
  {
    var l, r := s[i..i + m][a..b], s[i + a..i + b];
    forall k | 0 <= k < b - a ensures l[k] == r[k] {
      assert l[k] == s[i..i + m][a + k] && r[k] == s[i + a + k];
    }
  }

  /** A placeholder, character by character. */
  lemma HoleChars(s: string, i: nat, p: string)
    ensures HoleAt(s, i, p) <==>
      && IsPath(p) && i + |p| + 4 <= |s| && s[i] == '{' && s[i + 1] == '{' && s[i + 2..i + 2 + |p|] == p
      && s[i + |p| + 2] == '}' && s[i + |p| + 3] == '}'
  {
    if i + |p| + 4 <= |s| {
      var h, n := s[i..i + |p| + 4], |p|;
      HoleIndices(h, p);
      assert h[0] == s[i] && h[1] == s[i + 1];
      assert h[n + 2] == s[i + (n + 2)] && h[n + 3] == s[i + (n + 3)];
      SubSlice(s, i, n + 4, 2, 2 + n);
      assert i + 2 + n == i + (2 + n);
    }
  }

  lemma {:induction false} LongestPath(s: string, p: string)
    requires p <= s && |p| < |s| && !IsPathChar(s[|p|]) && forall i :: 0 <= i < |p| ==> IsPathChar(p[i])
    ensures PathPrefix(s) == p
  {
    if p == "" {
    } else {
      assert p[0] == s[0] && p == [p[0]] + p[1..];
      LongestPath(s[1..], p[1..]);
    }
  }

  lemma LeadingIsLongest(s: string, p: string)
    requires HoleAt(s, 0, p)
    ensures LeadingHole(s) == Some(p)
  {
    HoleChars(s, 0, p);
    assert s[2..][|p|] == s[|p| + 2];
    LongestPath(s[2..], p);
  }

  lemma LeadingIsHole(s: string)
    ensures LeadingHole(s).Some? ==> HoleAt(s, 0, LeadingHole(s).value)
  {
    if LeadingHole(s).Some? {
      HoleChars(s, 0, LeadingHole(s).value);
    }
  }

  /** The path of the placeholder that `s` begins with. */
  function LeadingHole(s: string): (r: Option<string>)
    ensures r.Some? ==> |r.value| + 4 <= |s|
  {
    if |s| < 5 || s[0] != '{' || s[1] != '{' then None
    else
      var p := PathPrefix(s[2..]);
      var n := |p| + 4;
      if p == "" || n > |s| || s[|p| + 2] != '}' || s[|p| + 3] != '}' then None else Some(p)
  }

  function Expand(env: Env, marshal: Value -> string, s: string): string
    decreases |s|
  {
    if s == "" then ""
    else
      match LeadingHole(s)
      case Some(p) => Render(env, marshal, p) + Expand(env, marshal, s[|p| + 4..])
      case None => [s[0]] + Expand(env, marshal, s[1..])
  }

  // ---- What the pass does ----------------------------------------------------------------------

  /** Text without placeholders is left alone. */
  lemma {:induction false} NoHoleIsKept(env: Env, marshal: Value -> string, s: string)
    requires NoHole(s)
    ensures Expand(env, marshal, s) == s
    decreases |s|
  {
    if s == "" {
    } else {
      LeadingIsHole(s);
      assert LeadingHole(s).None?;
      forall i, p | HoleAt(s[1..], i, p) ensures false { HoleShifts(s, 1, i, p); }
      NoHoleIsKept(env, marshal, s[1..]);
    }
  }

  lemma HoleShifts(s: string, k: nat, i: nat, p: string)
    requires k <= |s|
    ensures HoleAt(s[k..], i, p) <==> HoleAt(s, k + i, p)
  {
    if i + |p| + 4 <= |s| - k {
      assert s[k..][i..i + |p| + 4] == s[k + i..k + i + |p| + 4];
    }
  }

  /** A placeholder that begins inside `a` ends inside `a`, whatever well-formed placeholder and text follow. */
  lemma HolesDoNotOverlap(a: string, p: string, b: string)
    requires a != "" && IsPath(p)
    ensures LeadingHole(a + Hole(p) + b) == LeadingHole(a)
  {
    var s := a + Hole(p) + b;
    if LeadingHole(a).Some? {
      var q := LeadingHole(a).value;
      LeadingIsHole(a);
      assert s[..|q| + 4] == a[..|q| + 4];
      assert HoleAt(s, 0, q);
      LeadingIsLongest(s, q);
    } else if LeadingHole(s).Some? {
      var q := LeadingHole(s).value;
      LeadingIsHole(s);
      HoleChars(s, 0, q);
      StaysInside(a, p, b, q);
      assert HoleAt(a, 0, q);
      LeadingIsLongest(a, q);
    }
  }

  lemma NoBraceAfterTwo(s: string, q: string, j: nat)
    requires HoleAt(s, 0, q) && 2 <= j < |q| + 4
    ensures s[j] != '{'
  {
    HoleChars(s, 0, q);
    assert j < |q| + 2 ==> s[j] == s[2..2 + |q|][j - 2];
  }

  lemma StaysInside(a: string, p: string, b: string, q: string)
    requires a != "" && IsPath(p) && HoleAt(a + Hole(p) + b, 0, q)
    ensures |q| + 4 <= |a| && a[..|q| + 4] == Hole(q)
  {
    var s := a + Hole(p) + b;
    assert s[|a|] == '{' && s[|a| + 1] == '{';
    if 2 <= |a| < |q| + 4 {
      NoBraceAfterTwo(s, q, |a|);
    }
    if |a| == 1 {
      NoBraceAfterTwo(s, q, 2);
    }
    assert s[..|q| + 4] == a[..|q| + 4];
  }

  lemma ExpandHole(env: Env, marshal: Value -> string, s: string, p: string)
    requires LeadingHole(s) == Some(p)
    ensures Expand(env, marshal, s) == Render(env, marshal, p) + Expand(env, marshal, s[|p| + 4..])
  {}

  lemma LeadsItself(p: string, b: string)
    requires IsPath(p)
    ensures LeadingHole(Hole(p) + b) == Some(p) && (Hole(p) + b)[|p| + 4..] == b
  {
    var s := Hole(p) + b;
    assert s[..|p| + 4] == Hole(p);
    assert HoleAt(s, 0, p);
    LeadingIsLongest(s, p);
  }

  lemma ExpandLeading(env: Env, marshal: Value -> string, p: string, b: string)
    requires IsPath(p)
    ensures Expand(env, marshal, Hole(p) + b) == Render(env, marshal, p) + Expand(env, marshal, b)
  {
    var s := Hole(p) + b;
    LeadsItself(p, b);
    ExpandHole(env, marshal, s, p);
    assert s[|p| + 4..] == b;
  }

  lemma ExpandNothing(env: Env, marshal: Value -> string, r: string)
    ensures Expand(env, marshal, "") + r == r
  {}

  /** What the pass writes for the first placeholder or character of a text. */
  function First(env: Env, marshal: Value -> string, s: string): string
    requires s != ""
  {
    match LeadingHole(s)
    case Some(p) => Render(env, marshal, p)
    case None => [s[0]]
  }

  function FirstSize(s: string): (n: nat)
    requires s != ""
    ensures 0 < n <= |s|
  {
    match LeadingHole(s)
    case Some(p) => |p| + 4
    case None => 1
  }

  lemma ExpandOnce(env: Env, marshal: Value -> string, s: string)
    requires s != ""
    ensures Expand(env, marshal, s) == First(env, marshal, s) + Expand(env, marshal, s[FirstSize(s)..])
  {}

  lemma SameFirst(env: Env, marshal: Value -> string, a: string, p: string, b: string)
    requires a != "" && IsPath(p)
    ensures var s := a + Hole(p) + b;
      && First(env, marshal, s) == First(env, marshal, a) && FirstSize(s) == FirstSize(a)
      && s[FirstSize(a)..] == a[FirstSize(a)..] + Hole(p) + b
  {
    HolesDoNotOverlap(a, p, b);
  }

  lemma Regroup(f: string, d: string, r: string, e: string)
    ensures f + (d + r + e) == (f + d) + r + e
  {}

  lemma ExpandFirst(env: Env, marshal: Value -> string, a: string, p: string, b: string)
    requires a != "" && IsPath(p)
    requires var d := a[FirstSize(a)..];
      Expand(env, marshal, d + Hole(p) + b) == Expand(env, marshal, d) + Render(env, marshal, p) + Expand(env, marshal, b)
    ensures Expand(env, marshal, a + Hole(p) + b) == Expand(env, marshal, a) + Render(env, marshal, p) + Expand(env, marshal, b)
  {
    SameFirst(env, marshal, a, p, b);
    ExpandOnce(env, marshal, a);
    ExpandOnce(env, marshal, a + Hole(p) + b);
    Regroup(First(env, marshal, a), Expand(env, marshal, a[FirstSize(a)..]), Render(env, marshal, p), Expand(env, marshal, b));
  }

  /**
   * The pass replaces each placeholder independently of the text around it, and never looks at inserted text again.
   * With `NoHoleIsKept` this determines the result for every text, as `LawsDetermineExpand` says.
   */
  lemma {:induction false} ExpandAroundHole(env: Env, marshal: Value -> string, a: string, p: string, b: string)
    requires IsPath(p)
    ensures Expand(env, marshal, a + Hole(p) + b) == Expand(env, marshal, a) + Render(env, marshal, p) + Expand(env, marshal, b)
    decreases |a|
  {
    if a == "" {
      assert a + Hole(p) + b == Hole(p) + b;
      ExpandLeading(env, marshal, p, b);
      ExpandNothing(env, marshal, Render(env, marshal, p));
    } else {
      ExpandAroundHole(env, marshal, a[FirstSize(a)..], p, b);
      ExpandFirst(env, marshal, a, p, b);
    }
  }

  lemma NotLeading(s: string, i: nat, q: string)
    requires HoleAt(s, i, q) && LeadingHole(s).None?
    ensures i > 0 && s != ""
  {
    if i == 0 { LeadingIsLongest(s, q); }
  }

  /** Every text either has no placeholder, or splits at its first one. */
  lemma {:induction false} FirstHole(s: string) returns (a: string, p: string, b: string)
    requires !NoHole(s)
    ensures IsPath(p) && s == a + Hole(p) + b && NoHole(a)
    decreases |s|
  {
    if LeadingHole(s).Some? {
      LeadingIsHole(s);
      a, p := "", LeadingHole(s).value;
      b := s[|p| + 4..];
      assert s == s[..|p| + 4] + b;
    } else {
      var i: nat, q :| HoleAt(s, i, q);
      NotLeading(s, i, q);
      HoleShifts(s, 1, i - 1, q);
      var d;
      d, p, b := FirstHole(s[1..]);
      a := [s[0]] + d;
      assert s == [s[0]] + s[1..];
      forall j, r | HoleAt(a, j, r) ensures false { InFront(s, d, p, b, j, r); }
    }
  }

  lemma InFront(s: string, d: string, p: string, b: string, j: nat, r: string)
    requires s != "" && LeadingHole(s).None? && NoHole(d) && s[1..] == d + Hole(p) + b
    ensures !HoleAt([s[0]] + d, j, r)
  {
    var a := [s[0]] + d;
    assert a[1..] == d;
    if j > 0 {
      HoleShifts(a, 1, j - 1, r);
    } else if HoleAt(a, 0, r) {
      assert s == a + (Hole(p) + b);
      assert s[..|r| + 4] == a[..|r| + 4];
      assert HoleAt(s, 0, r);
      LeadingIsLongest(s, r);
    }
  }

  ghost predicate KeepsPlainText(f: string -> string) {
    forall s {:trigger NoHole(s)} :: NoHole(s) ==> f(s) == s
  }

  ghost predicate ReplacesApart(f: string -> string, env: Env, marshal: Value -> string) {
    forall a, p, b {:trigger SplitsAt(f, env, marshal, a, p, b)} :: IsPath(p) ==> SplitsAt(f, env, marshal, a, p, b)
  }

  predicate SplitsAt(f: string -> string, env: Env, marshal: Value -> string, a: string, p: string, b: string) {
    f(a + Hole(p) + b) == f(a) + Render(env, marshal, p) + f(b)
  }

  /** Any function that keeps text without placeholders, and replaces placeholders apart, is the expansion. */
  lemma {:induction false} LawsDetermineExpand(f: string -> string, env: Env, marshal: Value -> string, s: string)
    requires KeepsPlainText(f) && ReplacesApart(f, env, marshal)
    ensures f(s) == Expand(env, marshal, s)
    decreases |s|
  {
    if NoHole(s) {
      NoHoleIsKept(env, marshal, s);
    } else {
      var a, p, b := FirstHole(s);
      assert SplitsAt(f, env, marshal, a, p, b);
      LawsDetermineExpand(f, env, marshal, a);
      LawsDetermineExpand(f, env, marshal, b);
      ExpandAroundHole(env, marshal, a, p, b);
    }
  }

  // ---- What the result depends on --------------------------------------------------------------

  /** The steps that a text refers to. */
  ghost predicate Refers(s: string, step: string) {
    exists i, p :: HoleAt(s, i, p) && Split(p)[0] == step
  }

  lemma RefersShifts(s: string, k: nat, step: string)
    requires k <= |s| && Refers(s[k..], step)
    ensures Refers(s, step)
  {
    var i: nat, p :| HoleAt(s[k..], i, p) && Split(p)[0] == step;
    HoleShifts(s, k, i, p);
  }

  predicate AgreeOn(e: Env, f: Env, step: string) {
    (step in e <==> step in f) && (step in e ==> e[step] == f[step])
  }

  /** The result depends only on the entries of the steps that the text refers to. */
  lemma {:induction false} OnlyReferencedMatter(e: Env, f: Env, marshal: Value -> string, s: string)
    requires forall step :: Refers(s, step) ==> AgreeOn(e, f, step)
    ensures Expand(e, marshal, s) == Expand(f, marshal, s)
    decreases |s|
  {
    if s == "" {
    } else {
      LeadingIsHole(s);
      if LeadingHole(s).Some? {
        assert Refers(s, Split(LeadingHole(s).value)[0]);
      }
      var n := FirstSize(s);
      forall step | Refers(s[n..], step) ensures AgreeOn(e, f, step) { RefersShifts(s, n, step); }
      OnlyReferencedMatter(e, f, marshal, s[n..]);
    }
  }

  /** A text that refers to no known step is left alone. */
  lemma {:induction false} UnknownIsKept(env: Env, marshal: Value -> string, s: string)
    requires forall step :: Refers(s, step) ==> step !in env
    ensures Expand(env, marshal, s) == s
    decreases |s|
  {
    if NoHole(s) {
      NoHoleIsKept(env, marshal, s);
    } else {
      var a, p, b := FirstHole(s);
      var k := |a| + |p| + 4;
      assert s[|a|..k] == Hole(p) && s[k..] == b;
      assert HoleAt(s, |a|, p);
      assert Refers(s, Split(p)[0]);
      forall step | Refers(b, step) ensures step !in env { RefersShifts(s, k, step); }
      NoHoleIsKept(env, marshal, a);
      UnknownIsKept(env, marshal, b);
      ExpandAroundHole(env, marshal, a, p, b);
    }
  }
}
