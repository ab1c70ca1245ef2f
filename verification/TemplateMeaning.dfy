/** What placeholders mean, said of fields, values and characters alone. */
module TemplateMeaning {
  import opened Common
  import opened WorkflowModel
  import opened Template

  // ---- Paths -----------------------------------------------------------------------------------

  /** The parts with dots between them. */
  function Join(parts: seq<string>): string
    requires parts != []
  {
    if |parts| == 1 then parts[0] else parts[0] + "." + Join(parts[1..])
  }

  predicate NoDots(parts: seq<string>) {
    forall i :: 0 <= i < |parts| ==> '.' !in parts[i]
  }

  /** Letters, digits, underscores and dots, at least one. */
  predicate IsWord(p: string) {
    p != "" && forall i :: 0 <= i < |p| ==>
      'a' <= p[i] <= 'z' || 'A' <= p[i] <= 'Z' || '0' <= p[i] <= '9' || p[i] == '_' || p[i] == '.'
  }

  lemma {:induction false} SplitPart(part: string, rest: string)
    requires '.' !in part
    ensures Split(part) == [part]
    ensures Split(part + "." + rest) == [part] + Split(rest)
    decreases |part|
  {
    if part == "" {
      assert part + "." + rest == "." + rest && ("." + rest)[1..] == rest;
    } else {
      var tail := part[1..];
      SplitPart(tail, rest);
      assert part == [part[0]] + tail && part[0] in part;
      assert (part + "." + rest)[1..] == tail + "." + rest;
    }
  }

  lemma {:induction false} SplitJoined(parts: seq<string>)
    requires parts != [] && NoDots(parts)
    ensures Split(Join(parts)) == parts
    decreases |parts|
  {
    if |parts| == 1 {
      SplitPart(parts[0], "");
      assert parts == [parts[0]];
    } else {
      SplitPart(parts[0], Join(parts[1..]));
      SplitJoined(parts[1..]);
      assert parts == [parts[0]] + parts[1..];
    }
  }

  lemma JoinLonger(first: string, parts: seq<string>)
    requires parts != []
    ensures Join([first] + parts) == first + "." + Join(parts)
  {
    assert ([first] + parts)[1..] == parts;
  }

  /** Every path is made of parts in this way. */
  lemma {:induction false} EveryPathJoins(p: string) returns (parts: seq<string>)
    ensures parts != [] && NoDots(parts) && Join(parts) == p
    decreases |p|
  {
    if p == "" {
      parts := [""];
    } else {
      var rest := EveryPathJoins(p[1..]);
      if p[0] == '.' {
        parts := [""] + rest;
        JoinLonger("", rest);
        assert p == "." + p[1..];
      } else {
        parts := [[p[0]] + rest[0]] + rest[1..];
        assert p == [p[0]] + p[1..];
        JoinExtended(p[0], rest);
      }
    }
  }

  lemma InFront(c: char, first: string, rest: string)
    ensures ([c] + first) + "." + rest == [c] + (first + "." + rest)
  {}

  lemma JoinExtended(c: char, rest: seq<string>)
    requires rest != [] && NoDots(rest) && c != '.'
    ensures var parts := [[c] + rest[0]] + rest[1..];
      NoDots(parts) && Join(parts) == [c] + Join(rest)
  {
    var first := [c] + rest[0];
    if |rest| == 1 {
      assert [first] + rest[1..] == [first];
    } else {
      JoinLonger(first, rest[1..]);
      InFront(c, rest[0], Join(rest[1..]));
    }
    forall i | 0 <= i < |rest| ensures '.' !in ([first] + rest[1..])[i] {
      assert '.' !in rest[i];
    }
  }

  // ---- Walks -----------------------------------------------------------------------------------

  /** `values` are what one passes when following the fields from `v`: each is a field of the object before it. */
  predicate Walk(v: Value, fields: seq<string>, values: seq<Value>) {
    && 0 < |values| <= |fields| + 1 && values[0] == v
    && (forall i :: 0 <= i < |values| - 1 ==> StepsTo(values[i], fields[i], values[i + 1]))
  }

  predicate StepsTo(v: Value, field: string, w: Value) {
    v.Obj? && field in v.fields && v.fields[field] == w
  }

  /** The walk goes through all fields and ends in `w`. */
  ghost predicate Reaches(v: Value, fields: seq<string>, w: Value) {
    exists values :: Walk(v, fields, values) && |values| == |fields| + 1 && values[|fields|] == w
  }

  /** The walk comes to a value that is not an object, or is an object without the next field. */
  ghost predicate BreaksOff(v: Value, fields: seq<string>) {
    exists values :: Walk(v, fields, values) && |values| <= |fields| && Stuck(values[|values| - 1], fields[|values| - 1])
  }

  predicate Stuck(v: Value, field: string) {
    !v.Obj? || field !in v.fields
  }

  lemma {:induction false} NullStays(fields: seq<string>)
    ensures Navigate(Null, fields) == Null
  {}

  lemma {:induction false} WalkNavigates(v: Value, fields: seq<string>, values: seq<Value>)
    requires Walk(v, fields, values)
    ensures |values| == |fields| + 1 ==> Navigate(v, fields) == values[|fields|]
    ensures |values| <= |fields| && Stuck(values[|values| - 1], fields[|values| - 1]) ==> Navigate(v, fields) == Null
    decreases |fields|
  {
    if |values| == 1 {
      if fields != [] && Stuck(v, fields[0]) { NullStays(fields[1..]); }
    } else {
      assert StepsTo(values[0], fields[0], values[1]);
      forall i | 0 <= i < |values| - 2 ensures StepsTo(values[1..][i], fields[1..][i], values[1..][i + 1]) {
        assert StepsTo(values[i + 1], fields[i + 1], values[i + 2]);
      }
      WalkNavigates(values[1], fields[1..], values[1..]);
    }
  }

  /** Every walk either gets through or breaks off. */
  lemma {:induction false} EveryWalkEnds(v: Value, fields: seq<string>)
    ensures (exists w :: Reaches(v, fields, w)) <==> !BreaksOff(v, fields)
    decreases |fields|
  {
    var values := LongestWalk(v, fields);
    if |values| == |fields| + 1 {
      assert Reaches(v, fields, values[|fields|]);
      if BreaksOff(v, fields) {
        var other :| Walk(v, fields, other) && |other| <= |fields| && Stuck(other[|other| - 1], fields[|other| - 1]);
        LongerIsNotStuck(v, fields, values, other);
      }
    } else {
      assert BreaksOff(v, fields);
      if w :| Reaches(v, fields, w) {
        var other :| Walk(v, fields, other) && |other| == |fields| + 1;
        LongerIsNotStuck(v, fields, other, values);
      }
    }
  }

  lemma {:induction false} LongestWalk(v: Value, fields: seq<string>) returns (values: seq<Value>)
    ensures Walk(v, fields, values)
    ensures |values| <= |fields| ==> Stuck(values[|values| - 1], fields[|values| - 1])
    decreases |fields|
  {
    if fields == [] || Stuck(v, fields[0]) {
      values := [v];
    } else {
      var rest := LongestWalk(v.fields[fields[0]], fields[1..]);
      values := [v] + rest;
      forall i | 0 <= i < |values| - 1 ensures StepsTo(values[i], fields[i], values[i + 1]) {
        assert i > 0 ==> StepsTo(rest[i - 1], fields[1..][i - 1], rest[i]);
      }
    }
  }

  lemma {:induction false} SameWalk(v: Value, fields: seq<string>, a: seq<Value>, b: seq<Value>, i: nat)
    requires Walk(v, fields, a) && Walk(v, fields, b) && i < |a| && i < |b|
    ensures a[i] == b[i]
  {
    if i == 0 {
    } else {
      SameWalk(v, fields, a, b, i - 1);
      assert StepsTo(a[i - 1], fields[i - 1], a[i]) && StepsTo(b[i - 1], fields[i - 1], b[i]);
    }
  }

  lemma LongerIsNotStuck(v: Value, fields: seq<string>, a: seq<Value>, b: seq<Value>)
    requires Walk(v, fields, a) && Walk(v, fields, b) && |b| < |a|
    ensures !Stuck(b[|b| - 1], fields[|b| - 1])
  {
    SameWalk(v, fields, a, b, |b| - 1);
    assert StepsTo(a[|b| - 1], fields[|b| - 1], a[|b|]);
  }

  // ---- What a placeholder is replaced with -----------------------------------------------------

  lemma NothingExpands(env: Env, marshal: Value -> string)
    ensures Expand(env, marshal, "") == ""
  {}

  lemma WithNothing(s: string)
    ensures s + "" == s
  {}

  lemma HoleAlone(env: Env, marshal: Value -> string, p: string)
    requires IsPath(p)
    ensures Expand(env, marshal, "{{" + p + "}}") == Render(env, marshal, p)
  {
    ExpandLeading(env, marshal, p, "");
    NothingExpands(env, marshal);
    WithNothing(Hole(p));
    WithNothing(Render(env, marshal, p));
  }

  lemma WordIsPath(p: string)
    requires IsWord(p)
    ensures IsPath(p)
  {}

  /** A text is inserted as it is, without quotes. */
  lemma TextIsInserted(env: Env, marshal: Value -> string, parts: seq<string>, t: string)
    requires parts != [] && NoDots(parts) && IsWord(Join(parts)) && parts[0] in env
    requires Reaches(env[parts[0]], parts[1..], Str(t))
    ensures Expand(env, marshal, "{{" + Join(parts) + "}}") == t
  {
    HoleAlone(env, marshal, Join(parts));
    SplitJoined(parts);
    var values :| Walk(env[parts[0]], parts[1..], values) && |values| == |parts| && values[|parts| - 1] == Str(t);
    WalkNavigates(env[parts[0]], parts[1..], values);
  }

  /** Any other value is inserted as its JSON. */
  lemma OtherValueIsMarshalled(env: Env, marshal: Value -> string, parts: seq<string>, v: Value)
    requires parts != [] && NoDots(parts) && IsWord(Join(parts)) && parts[0] in env
    requires Reaches(env[parts[0]], parts[1..], v) && !v.Str?
    ensures Expand(env, marshal, "{{" + Join(parts) + "}}") == marshal(v)
  {
    HoleAlone(env, marshal, Join(parts));
    SplitJoined(parts);
    var values :| Walk(env[parts[0]], parts[1..], values) && |values| == |parts| && values[|parts| - 1] == v;
    WalkNavigates(env[parts[0]], parts[1..], values);
  }

  /** A path that leads nowhere in a known step is replaced with the JSON of null. */
  lemma NowhereIsNull(env: Env, marshal: Value -> string, parts: seq<string>)
    requires parts != [] && NoDots(parts) && IsWord(Join(parts)) && parts[0] in env
    requires BreaksOff(env[parts[0]], parts[1..])
    ensures Expand(env, marshal, "{{" + Join(parts) + "}}") == marshal(Null)
  {
    HoleAlone(env, marshal, Join(parts));
    SplitJoined(parts);
    var fields := parts[1..];
    var values :| Walk(env[parts[0]], fields, values) && |values| <= |fields| && Stuck(values[|values| - 1], fields[|values| - 1]);
    WalkNavigates(env[parts[0]], fields, values);
  }

  /** A placeholder of an unknown step stays. */
  lemma UnknownStepStays(env: Env, marshal: Value -> string, parts: seq<string>)
    requires parts != [] && NoDots(parts) && IsWord(Join(parts)) && parts[0] !in env
    ensures Expand(env, marshal, "{{" + Join(parts) + "}}") == "{{" + Join(parts) + "}}"
  {
    HoleAlone(env, marshal, Join(parts));
    SplitJoined(parts);
  }

  /** Braces around anything but a word are ordinary text. */
  lemma OtherBracesStay(env: Env, marshal: Value -> string, q: string)
    requires !IsWord(q) && '{' !in q && '}' !in q
    ensures Expand(env, marshal, "{{" + q + "}}") == "{{" + q + "}}"
  {
    var s := "{{" + q + "}}";
    forall i: nat, p ensures !HoleAt(s, i, p) {
      if HoleAt(s, i, p) { OtherBracesAreNoHole(s, q, i, p); }
    }
    NoHoleIsKept(env, marshal, s);
  }

  lemma OtherBracesAreNoHole(s: string, q: string, i: nat, p: string)
    requires s == "{{" + q + "}}" && '{' !in q && '}' !in q && HoleAt(s, i, p)
    ensures IsWord(q)
  {
    HoleChars(s, i, p);
    BraceAt(s, q, i);
    BraceAt(s, q, i + 1);
    ClosingAt(s, q, |p| + 2);
    assert s[2..2 + |q|] == q;
  }

  lemma Inside(s: string, q: string, k: nat)
    requires s == "{{" + q + "}}" && 2 <= k < |q| + 2
    ensures s[k] == q[k - 2]
  {}

  lemma BraceAt(s: string, q: string, k: nat)
    requires s == "{{" + q + "}}" && '{' !in q && k < |s| && s[k] == '{'
    ensures k < 2
  {
    if 2 <= k < |q| + 2 { Inside(s, q, k); }
  }

  lemma ClosingAt(s: string, q: string, k: nat)
    requires s == "{{" + q + "}}" && '}' !in q && k < |s| && s[k] == '}'
    ensures k >= |q| + 2
  {
    if 2 <= k < |q| + 2 { Inside(s, q, k); }
  }
}
