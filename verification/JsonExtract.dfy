/** Finding the JSON value in a generated answer: the first bracketed group, else the first braced one, else the whole. */
module JsonExtract {

  /** How much deeper one character takes the scan. */
  function Turn(c: char, open: char, close: char): int {
    if c == open then 1 else if c == close then -1 else 0
  }

  /** Openers less closers. */
  function Depth(s: string, open: char, close: char): int {
    if s == "" then 0 else Depth(s[..|s| - 1], open, close) + Turn(s[|s| - 1], open, close)
  }

  /** `s` begins with an opener and returns to depth zero at its last character and not before. */
  ghost predicate IsGroup(s: string, open: char, close: char) {
    && |s| >= 2 && s[0] == open && Depth(s, open, close) == 0
    && (forall k :: 0 < k < |s| ==> Depth(s[..k], open, close) > 0)
  }

  predicate NoneBefore(s: string, i: nat, open: char) {
    i <= |s| && forall k :: 0 <= k < i ==> s[k] != open
  }

  /** The group of `s` at the first opener. */
  ghost predicate FirstGroup(s: string, open: char, close: char, start: nat, end: nat) {
    && start < end <= |s| && NoneBefore(s, start, open) && IsGroup(s[start..end], open, close)
  }

  ghost predicate HasGroup(s: string, open: char, close: char) {
    exists start: nat, end: nat :: FirstGroup(s, open, close, start, end)
  }

  /** What the scan is specified to return, without saying how it looks. */
  ghost predicate IsExtract(s: string, r: string) {
    if HasGroup(s, '[', ']') then exists i: nat, j: nat :: FirstGroup(s, '[', ']', i, j) && r == s[i..j]
    else if HasGroup(s, '{', '}') then exists i: nat, j: nat :: FirstGroup(s, '{', '}', i, j) && r == s[i..j]
    else r == s
  }

  lemma DepthNext(s: string, i: nat, j: nat, open: char, close: char)
    requires i <= j < |s|
    ensures Depth(s[i..j + 1], open, close) == Depth(s[i..j], open, close) + Turn(s[j], open, close)
  {
    assert s[i..j + 1][..j - i] == s[i..j];
  }

  /** One scan, for one kind of bracket. */
  method FindGroup(s: string, open: char, close: char) returns (found: bool, start: nat, end: nat)
    requires open != close
    ensures found <==> HasGroup(s, open, close)
    ensures found ==> FirstGroup(s, open, close, start, end)
  {
    start, end := |s|, 0;
    var depth := 0;
    for i := 0 to |s|
      invariant start == |s| ==> NoneBefore(s, i, open)
      invariant start < |s| ==> start < i && NoneBefore(s, start, open) && s[start] == open && depth == Depth(s[start..i], open, close)
      invariant start < |s| ==> forall k :: start < k <= i ==> Depth(s[start..k], open, close) > 0
      invariant start <= |s|
    {
      if s[i] == open && start == |s| {
        start, depth := i, 1;
        DepthNext(s, i, i, open, close);
      } else if start < |s| {
        DepthNext(s, start, i, open, close);
        if s[i] == open {
          depth := depth + 1;
        }
        if s[i] == close {
          depth := depth - 1;
          if depth == 0 {
            end := i + 1;
            IsGroupFrom(s, open, close, start, end);
            assert FirstGroup(s, open, close, start, end);
            return true, start, end;
          }
        }
      }
    }
    found := false;
    if start == |s| {
      NoOpener(s, open, close);
    } else {
      NeverCloses(s, start, open, close);
    }
  }

  lemma SlicePrefix(s: string, start: nat, end: nat, k: nat)
    requires start <= k <= end <= |s|
    ensures s[start..end][..k - start] == s[start..k]
  {}

  lemma IsGroupFrom(s: string, open: char, close: char, start: nat, end: nat)
    requires start < end <= |s| && s[start] == open && open != close && Depth(s[start..end], open, close) == 0
    requires forall k :: start < k < end ==> Depth(s[start..k], open, close) > 0
    ensures IsGroup(s[start..end], open, close)
  {
    DepthNext(s, start, start, open, close);
    assert Depth(s[start..start], open, close) == 0;
    var g := s[start..end];
    forall k | 0 < k < |g| ensures Depth(g[..k], open, close) > 0 {
      SlicePrefix(s, start, end, start + k);
    }
  }

  lemma GroupStarts(s: string, open: char, close: char, start: nat, end: nat)
    requires FirstGroup(s, open, close, start, end)
    ensures s[start] == open && NoneBefore(s, start, open) && end - start >= 2
    ensures Depth(s[start..end], open, close) == 0
    ensures forall k :: start < k < end ==> Depth(s[start..k], open, close) > 0
  {
    var g := s[start..end];
    forall k | start < k < end ensures Depth(s[start..k], open, close) > 0 {
      SlicePrefix(s, start, end, k);
      assert Depth(g[..k - start], open, close) > 0;
    }
  }

  lemma NoOpener(s: string, open: char, close: char)
    requires NoneBefore(s, |s|, open)
    ensures !HasGroup(s, open, close)
  {
    forall i: nat, j: nat ensures !FirstGroup(s, open, close, i, j) {
      if FirstGroup(s, open, close, i, j) {
        GroupStarts(s, open, close, i, j);
      }
    }
  }

  /** The first opener is at one place only. */
  lemma SameStart(s: string, open: char, i: nat, j: nat)
    requires i < |s| && j < |s| && s[i] == open && s[j] == open && NoneBefore(s, i, open) && NoneBefore(s, j, open)
    ensures i == j
  {}

  lemma NeverCloses(s: string, start: nat, open: char, close: char)
    requires start < |s| && s[start] == open && NoneBefore(s, start, open)
    requires forall k :: start < k <= |s| ==> Depth(s[start..k], open, close) > 0
    ensures !HasGroup(s, open, close)
  {
    forall i: nat, j: nat ensures !FirstGroup(s, open, close, i, j) {
      if FirstGroup(s, open, close, i, j) {
        GroupStarts(s, open, close, i, j);
        SameStart(s, open, start, i);
      }
    }
  }

  /** The group at the first opener is unique. */
  lemma GroupIsUnique(s: string, open: char, close: char, i: nat, j: nat, k: nat, l: nat)
    requires FirstGroup(s, open, close, i, j) && FirstGroup(s, open, close, k, l)
    ensures i == k && j == l
  {
    GroupStarts(s, open, close, i, j);
    GroupStarts(s, open, close, k, l);
    SameStart(s, open, i, k);
  }

  method ExtractJSON(s: string) returns (r: string)
    ensures IsExtract(s, r)
  {
    var found, start, end := FindGroup(s, '[', ']');
    if found {
      return s[start..end];
    }
    found, start, end := FindGroup(s, '{', '}');
    r := if found then s[start..end] else s;
  }

  // ---- What the extract is ---------------------------------------------------------------------

  lemma ExtractIsUnique(s: string, q: string, r: string)
    requires IsExtract(s, q) && IsExtract(s, r)
    ensures q == r
  {
    if HasGroup(s, '[', ']') {
      var i: nat, j: nat :| FirstGroup(s, '[', ']', i, j) && q == s[i..j];
      var k: nat, l: nat :| FirstGroup(s, '[', ']', k, l) && r == s[k..l];
      GroupIsUnique(s, '[', ']', i, j, k, l);
    } else if HasGroup(s, '{', '}') {
      var i: nat, j: nat :| FirstGroup(s, '{', '}', i, j) && q == s[i..j];
      var k: nat, l: nat :| FirstGroup(s, '{', '}', k, l) && r == s[k..l];
      GroupIsUnique(s, '{', '}', i, j, k, l);
    }
  }

  /** Every result is a contiguous part of the answer. */
  lemma ExtractIsContiguous(s: string, r: string) returns (i: nat, j: nat)
    requires IsExtract(s, r)
    ensures i <= j <= |s| && r == s[i..j]
  {
    if HasGroup(s, '[', ']') {
      i, j :| FirstGroup(s, '[', ']', i, j) && r == s[i..j];
    } else if HasGroup(s, '{', '}') {
      i, j :| FirstGroup(s, '{', '}', i, j) && r == s[i..j];
    } else {
      i, j := 0, |s|;
    }
  }

  lemma GroupInside(pre: string, w: string, post: string, open: char, close: char)
    requires open !in pre && IsGroup(w, open, close)
    ensures FirstGroup(pre + w + post, open, close, |pre|, |pre| + |w|)
  {
    var s := pre + w + post;
    assert s[|pre|..|pre| + |w|] == w;
  }

  /** A bracketed group is found in any text around it, provided no bracket opens before it. */
  lemma RoundTrip(pre: string, w: string, post: string)
    requires '[' !in pre && IsGroup(w, '[', ']')
    ensures IsExtract(pre + w + post, w)
  {
    GroupInside(pre, w, post, '[', ']');
    var s, i, j := pre + w + post, |pre|, |pre| + |w|;
    assert FirstGroup(s, '[', ']', i, j) && s[i..j] == w;
  }

  /** A braced group is found likewise, provided the whole text has no bracketed group at its first bracket. */
  lemma BraceRoundTrip(pre: string, w: string, post: string)
    requires '{' !in pre && IsGroup(w, '{', '}') && !HasGroup(pre + w + post, '[', ']')
    ensures IsExtract(pre + w + post, w)
  {
    GroupInside(pre, w, post, '{', '}');
    var s, i, j := pre + w + post, |pre|, |pre| + |w|;
    assert FirstGroup(s, '{', '}', i, j) && s[i..j] == w;
  }

  /** A group is its own first group. */
  lemma GroupOfGroup(w: string, open: char, close: char)
    requires IsGroup(w, open, close)
    ensures FirstGroup(w, open, close, 0, |w|)
  {
    assert w[0..|w|] == w;
  }

  /**
   * For a text that starts with a bracket, the extract of the surrounding answer is that text exactly when it is a
   * group, or there is nothing around it and no group in it.
   */
  lemma RoundTripIff(pre: string, w: string, post: string)
    requires '[' !in pre && w != "" && w[0] == '['
    ensures IsExtract(pre + w + post, w) <==>
      IsGroup(w, '[', ']') || (pre == "" && post == "" && !HasGroup(w, '[', ']') && !HasGroup(w, '{', '}'))
  {
    var s := pre + w + post;
    if IsGroup(w, '[', ']') {
      RoundTrip(pre, w, post);
    } else if pre == "" && post == "" {
      assert s == w;
      ExtractNotGroup(s, w);
    } else {
      assert |s| > |w|;
      ExtractNotGroup(s, w);
    }
  }

  /** A text that starts with a bracket and is no group is only extracted as a whole. */
  lemma ExtractNotGroup(s: string, w: string)
    requires w != "" && w[0] == '[' && !IsGroup(w, '[', ']')
    ensures IsExtract(s, w) <==> s == w && !HasGroup(s, '[', ']') && !HasGroup(s, '{', '}')
  {
    forall i: nat, j: nat | FirstGroup(s, '{', '}', i, j) ensures s[i..j] != w {
      GroupStarts(s, '{', '}', i, j);
    }
  }

  // ---- Applying it twice -----------------------------------------------------------------------

  /** In the bracket case a second application changes nothing. */
  lemma BracketExtractIsFixed(s: string, r: string)
    requires HasGroup(s, '[', ']') && IsExtract(s, r)
    ensures IsExtract(r, r)
  {
    var i: nat, j: nat :| FirstGroup(s, '[', ']', i, j) && r == s[i..j];
    GroupOfGroup(r, '[', ']');
    assert FirstGroup(r, '[', ']', 0, |r|) && r == r[0..|r|];
  }

  /** The text has no bracketed group at its first bracket, but its first braced group has one. */
  ghost predicate HidesList(s: string) {
    !HasGroup(s, '[', ']') && exists i: nat, j: nat :: FirstGroup(s, '{', '}', i, j) && HasGroup(s[i..j], '[', ']')
  }

  /** A second application changes the text exactly when the first group of the input hides a bracketed one. */
  lemma ExtractIsFixedIff(s: string, r: string)
    requires IsExtract(s, r)
    ensures IsExtract(r, r) <==> !HidesList(s)
  {
    if HasGroup(s, '[', ']') {
      BracketExtractIsFixed(s, r);
    } else if HasGroup(s, '{', '}') {
      var i: nat, j: nat :| FirstGroup(s, '{', '}', i, j) && r == s[i..j];
      BracedIsFixedIff(r);
      forall k: nat, l: nat | FirstGroup(s, '{', '}', k, l) ensures s[k..l] == r {
        GroupIsUnique(s, '{', '}', i, j, k, l);
      }
    }
  }

  /** A braced group is left alone exactly when it has no bracketed group at its first bracket. */
  lemma BracedIsFixedIff(r: string)
    requires IsGroup(r, '{', '}')
    ensures IsExtract(r, r) <==> !HasGroup(r, '[', ']')
  {
    GroupOfGroup(r, '{', '}');
    assert FirstGroup(r, '{', '}', 0, |r|) && r == r[0..|r|];
    forall k: nat, l: nat | FirstGroup(r, '[', ']', k, l) ensures r[k..l] != r {
      GroupStarts(r, '[', ']', k, l);
    }
  }

  lemma SliceOfSlice(s: string, i: nat, j: nat, k: nat, l: nat)
    requires i <= j <= |s| && k <= l <= j - i
    ensures s[i..j][k..l] == s[i + k..i + l]
  {
    var p, q := s[i..j][k..l], s[i + k..i + l];
    forall m | 0 <= m < l - k ensures p[m] == q[m] {
      assert p[m] == s[i..j][k + m] && q[m] == s[i + k + m];
    }
  }

  /** If no bracket opens before the first brace, a second application changes nothing. */
  lemma NothingHiddenBehindBrace(s: string, i: nat, j: nat)
    requires FirstGroup(s, '{', '}', i, j) && NoneBefore(s, i, '[')
    ensures !HidesList(s)
  {
    forall k: nat, l: nat | FirstGroup(s[i..j], '[', ']', k, l) ensures HasGroup(s, '[', ']') {
      SliceOfSlice(s, i, j, k, l);
      forall m | 0 <= m < i + k ensures s[m] != '[' {
        assert m >= i ==> s[m] == s[i..j][m - i];
      }
      assert FirstGroup(s, '[', ']', i + k, i + l);
    }
    forall k: nat, l: nat | FirstGroup(s, '{', '}', k, l) ensures k == i && l == j {
      GroupIsUnique(s, '{', '}', i, j, k, l);
    }
  }

  /** A bracket that never closes hides one that does from the first pass, but not from the second. */
  lemma TwiceDiffersFromOnce()
    ensures IsExtract("[ {[]}", "{[]}") && IsExtract("{[]}", "[]")
  {
    UnclosedBracket();
    EmptyList();
    BracedList();
    assert "[ {[]}" == "[ " + "{[]}" + "" && "{[]}" == "{" + "[]" + "}";
    BraceRoundTrip("[ ", "{[]}", "");
    RoundTrip("{", "[]", "}");
  }

  lemma UnclosedBracket()
    ensures !HasGroup("[ {[]}", '[', ']')
  {
    var s := "[ {[]}";
    Depths(s, '[', ']', 6);
    assert Occurs(s, '[', 2) == 1 && Occurs(s, '[', 4) == 2 && Occurs(s, '[', 6) == 2;
    assert Occurs(s, ']', 2) == 0 && Occurs(s, ']', 4) == 0 && Occurs(s, ']', 6) == 1;
    NeverCloses(s, 0, '[', ']');
  }

  lemma EmptyList()
    ensures IsGroup("[]", '[', ']')
  {
    var s := "[]";
    Depths(s, '[', ']', 2);
    assert s[0..2] == s;
    IsGroupFrom(s, '[', ']', 0, 2);
  }

  lemma BracedList()
    ensures IsGroup("{[]}", '{', '}')
  {
    var s := "{[]}";
    Depths(s, '{', '}', 4);
    assert s[0..4] == s;
    IsGroupFrom(s, '{', '}', 0, 4);
  }

  /** How many of the first `n` characters of `s` are `c`. */
  function Occurs(s: string, c: char, n: nat): nat
    requires n <= |s|
  {
    if n == 0 then 0 else Occurs(s, c, n - 1) + if s[n - 1] == c then 1 else 0
  }

  lemma {:induction false} Depths(s: string, open: char, close: char, n: nat)
    requires n <= |s| && open != close
    ensures forall k :: 0 <= k <= n ==> Depth(s[0..k], open, close) == Occurs(s, open, k) - Occurs(s, close, k)
  {
    if n == 0 {
    } else {
      Depths(s, open, close, n - 1);
      DepthNext(s, 0, n - 1, open, close);
    }
  }

  /** Fewer closers than openers at every point before the end, and as many at the end. */
  ghost predicate ClosesAtEnd(w: string, open: char, close: char) {
    && |w| >= 2 && w[0] == open && Occurs(w, open, |w|) == Occurs(w, close, |w|)
    && (forall k :: 0 < k < |w| ==> Occurs(w, open, k) > Occurs(w, close, k))
  }

  /** A group, said by counting. */
  lemma GroupByCounts(w: string, open: char, close: char)
    requires open != close
    ensures IsGroup(w, open, close) <==> ClosesAtEnd(w, open, close)
  {
    Depths(w, open, close, |w|);
    assert w[0..|w|] == w;
    forall k | 0 <= k <= |w| ensures Depth(w[..k], open, close) == Occurs(w, open, k) - Occurs(w, close, k) {
      assert w[..k] == w[0..k];
    }
    assert w[..|w|] == w;
    if IsGroup(w, open, close) {
      forall k | 0 < k < |w| ensures Occurs(w, open, k) > Occurs(w, close, k) {
        assert Depth(w[..k], open, close) > 0;
      }
    }
    if ClosesAtEnd(w, open, close) {
      forall k | 0 < k < |w| ensures Depth(w[..k], open, close) > 0 {
        assert Occurs(w, open, k) > Occurs(w, close, k);
      }
    }
  }
}
