/** Topic patterns with wildcards anywhere, also inside a segment: what the compiled regular expression
    means on the segments of a key. */
module TopicGlobs {
  import opened DottedText
  import opened TopicRegex

  /** A piece of a pattern matches a piece of a key: `*` is one or more characters other than dots, `#`
      any characters, none and dots included, and every other character is itself. */
  ghost predicate Glob(p: string, s: string)
    decreases p
  {
    if p == "" then s == ""
    else if p[0] == '*' then exists i :: 0 < i <= |s| && '.' !in s[..i] && Glob(p[1..], s[i..])
    else if p[0] == '#' then exists i :: 0 <= i <= |s| && Glob(p[1..], s[i..])
    else s != "" && s[0] == p[0] && Glob(p[1..], s[1..])
  }

  /** A pattern matches a key when the segments of the key can be dealt out in order, one or more to each
      segment of the pattern, so that each pattern segment matches its share. */
  ghost predicate SpanMatch(ps: seq<string>, ks: seq<string>)
    decreases |ps|
  {
    if ps == [] then ks == []
    else exists n :: 1 <= n <= |ks| && Glob(ps[0], Join(ks[..n])) && SpanMatch(ps[1..], ks[n..])
  }

  // ----- the items match what the pattern globs -----

  lemma {:induction false} SegmentStars(rest: seq<Item>, s: string)
    ensures Matches([Item(Not('.'), Star)] + rest, s)
       <==> exists i :: 0 <= i <= |s| && '.' !in s[..i] && Matches(rest, s[i..])
    decreases s
  {
    var items := [Item(Not('.'), Star)] + rest;
    assert items[1..] == rest && s[0..] == s;
    if s != "" {
      var t := s[1..];
      SegmentStars(rest, t);
      if s[0] != '.' && (exists i :: 0 <= i <= |t| && '.' !in t[..i] && Matches(rest, t[i..])) {
        var i :| 0 <= i <= |t| && '.' !in t[..i] && Matches(rest, t[i..]);
        assert s[..i + 1] == [s[0]] + t[..i] && s[i + 1..] == t[i..];
      }
      if i :| 0 < i <= |s| && '.' !in s[..i] && Matches(rest, s[i..]) {
        assert s[0] in s[..i] && s[i..] == t[i - 1..];
        assert forall c | c in t[..i - 1] :: c in s[..i];
      }
    }
  }

  lemma {:induction false} AnyStars(rest: seq<Item>, s: string)
    ensures Matches([Item(Any, Star)] + rest, s) <==> exists i :: 0 <= i <= |s| && Matches(rest, s[i..])
    decreases s
  {
    var items := [Item(Any, Star)] + rest;
    assert items[1..] == rest && s[0..] == s;
    if s != "" {
      var t := s[1..];
      AnyStars(rest, t);
      if i :| 0 <= i <= |t| && Matches(rest, t[i..]) { assert s[i + 1..] == t[i..]; }
      if i :| 0 < i <= |s| && Matches(rest, s[i..]) { assert s[i..] == t[i - 1..]; }
    }
  }

  lemma SegmentPlus(rest: seq<Item>, s: string)
    ensures Matches([Item(Not('.'), Plus)] + rest, s)
       <==> exists i :: 0 < i <= |s| && '.' !in s[..i] && Matches(rest, s[i..])
  {
    var items := [Item(Not('.'), Plus)] + rest;
    assert items[1..] == rest;
    if s != "" {
      var t := s[1..];
      SegmentStars(rest, t);
      if s[0] != '.' && (exists i :: 0 <= i <= |t| && '.' !in t[..i] && Matches(rest, t[i..])) {
        var i :| 0 <= i <= |t| && '.' !in t[..i] && Matches(rest, t[i..]);
        assert s[..i + 1] == [s[0]] + t[..i] && s[i + 1..] == t[i..];
      }
      if i :| 0 < i <= |s| && '.' !in s[..i] && Matches(rest, s[i..]) {
        assert s[0] in s[..i] && s[i..] == t[i - 1..];
        assert forall c | c in t[..i - 1] :: c in s[..i];
      }
    }
  }

  lemma {:induction false} ItemsGlob(p: string, s: string)
    ensures Matches(Items(p), s) <==> Glob(p, s)
    decreases p
  {
    if p != "" {
      var rest := Items(p[1..]);
      assert Items(p)[1..] == rest;
      if p[0] == '*' {
        SegmentPlus(rest, s);
        forall i | 0 < i <= |s| ensures Matches(rest, s[i..]) <==> Glob(p[1..], s[i..]) { ItemsGlob(p[1..], s[i..]); }
      } else if p[0] == '#' {
        AnyStars(rest, s);
        forall i | 0 <= i <= |s| ensures Matches(rest, s[i..]) <==> Glob(p[1..], s[i..]) { ItemsGlob(p[1..], s[i..]); }
      } else if s != "" {
        ItemsGlob(p[1..], s[1..]);
      }
    }
  }

  // ----- a literal dot in the pattern is a dot of the key -----

  /** The text `s` has a cut at `i` with `a` before it and `b` after it. */
  ghost predicate CutAt(a: string, b: string, s: string, i: int) {
    0 <= i <= |s| && Glob(a, s[..i]) && Glob(b, s[i..])
  }

  lemma {:induction false} GlobConcat(a: string, b: string, s: string)
    ensures Glob(a + b, s) <==> exists i :: CutAt(a, b, s, i)
    decreases a
  {
    if a == "" {
      assert a + b == b && s[..0] == "" && s[0..] == s;
      if Glob(b, s) { assert CutAt(a, b, s, 0); }
    } else {
      var p := a + b;
      assert p[0] == a[0] && p[1..] == a[1..] + b;
      if Glob(p, s) { GlobSplits(a, b, s); }
      if i :| CutAt(a, b, s, i) { GlobJoins(a, b, s, i); }
    }
  }

  /** How many characters of `s` the first character of a pattern may stand for. */
  ghost predicate Stands(c: char, s: string, j: int) {
    0 <= j <= |s|
    && if c == '*' then 0 < j && '.' !in s[..j] else if c == '#' then true else j == 1 && s[0] == c
  }

  lemma GlobStands(p: string, s: string)
    requires p != ""
    ensures Glob(p, s) <==> exists j :: Stands(p[0], s, j) && Glob(p[1..], s[j..])
  {
    if p[0] != '*' && p[0] != '#' && Glob(p, s) { assert Stands(p[0], s, 1) && s[1..] == s[1..]; }
    if p[0] == '*' && Glob(p, s) {
      var j :| 0 < j <= |s| && '.' !in s[..j] && Glob(p[1..], s[j..]);
      assert Stands(p[0], s, j);
    }
    if p[0] == '#' && Glob(p, s) {
      var j :| 0 <= j <= |s| && Glob(p[1..], s[j..]);
      assert Stands(p[0], s, j);
    }
  }

  lemma {:induction false} GlobSplits(a: string, b: string, s: string)
    requires a != "" && Glob(a + b, s)
    ensures exists i :: CutAt(a, b, s, i)
    decreases a, 0
  {
    var p := a + b;
    assert p[0] == a[0] && p[1..] == a[1..] + b;
    GlobStands(p, s);
    var j :| Stands(a[0], s, j) && Glob(p[1..], s[j..]);
    var t := s[j..];
    GlobConcat(a[1..], b, t);
    var i :| CutAt(a[1..], b, t, i);
    assert s[..j + i][j..] == t[..i] && s[..j + i][..j] == s[..j] && s[j + i..] == t[i..];
    assert Stands(a[0], s[..j + i], j);
    GlobStands(a, s[..j + i]);
    assert CutAt(a, b, s, j + i);
  }

  lemma {:induction false} GlobJoins(a: string, b: string, s: string, i: int)
    requires a != "" && CutAt(a, b, s, i)
    ensures Glob(a + b, s)
    decreases a, 0
  {
    var p, u := a + b, s[..i];
    assert p[0] == a[0] && p[1..] == a[1..] + b;
    GlobStands(a, u);
    var j :| Stands(a[0], u, j) && Glob(a[1..], u[j..]);
    var t := s[j..];
    assert t[..i - j] == u[j..] && t[i - j..] == s[i..] && u[..j] == s[..j];
    assert CutAt(a[1..], b, t, i - j);
    GlobConcat(a[1..], b, t);
    assert Stands(p[0], s, j);
    GlobStands(p, s);
  }

  /** Before and after a dot of the key. */
  ghost predicate DotAt(a: string, b: string, s: string, i: int) {
    0 <= i < |s| && s[i] == '.' && Glob(a, s[..i]) && Glob(b, s[i + 1..])
  }

  lemma GlobDot(b: string, t: string)
    ensures Glob("." + b, t) <==> t != "" && t[0] == '.' && Glob(b, t[1..])
  {
    assert ("." + b)[1..] == b;
  }

  lemma GlobAroundDot(a: string, b: string, s: string)
    ensures Glob(a + "." + b, s) <==> exists i :: DotAt(a, b, s, i)
  {
    assert a + "." + b == a + ("." + b);
    GlobConcat(a, "." + b, s);
    if i :| CutAt(a, "." + b, s, i) {
      GlobDot(b, s[i..]);
      assert s[i..][1..] == s[i + 1..];
      assert DotAt(a, b, s, i);
    }
    if i :| DotAt(a, b, s, i) {
      GlobDot(b, s[i..]);
      assert s[i..][1..] == s[i + 1..];
      assert CutAt(a, "." + b, s, i);
    }
  }

  // ----- the dots of a key are between its segments -----

  ghost predicate Dotless(ks: seq<string>) {
    forall seg | seg in ks :: '.' !in seg
  }

  lemma {:induction false} JoinedAt(ks: seq<string>, n: nat)
    requires 1 <= n < |ks|
    ensures var s, i := Join(ks), |Join(ks[..n])|;
            i < |s| && s[i] == '.' && s[..i] == Join(ks[..n]) && s[i + 1..] == Join(ks[n..])
    decreases n
  {
    assert ks[..n][0] == ks[0];
    if n > 1 {
      JoinedAt(ks[1..], n - 1);
      assert ks[1..][..n - 1] == ks[..n][1..] && ks[1..][n - 1..] == ks[n..];
      var s, t := Join(ks), Join(ks[1..]);
      assert s == ks[0] + "." + t && Join(ks[..n]) == ks[0] + "." + Join(ks[1..][..n - 1]);
      var k := |Join(ks[1..][..n - 1])|;
      assert s[|ks[0]| + 1..] == t && s[|ks[0]| + 1 + k] == t[k];
      assert s[..|ks[0]| + 1 + k] == ks[0] + "." + t[..k] && s[|ks[0]| + 1 + k + 1..] == t[k + 1..];
    } else {
      assert ks[..1] == [ks[0]];
    }
  }

  lemma {:induction false} DotIsBetween(ks: seq<string>, i: nat) returns (n: nat)
    requires ks != [] && Dotless(ks) && i < |Join(ks)| && Join(ks)[i] == '.'
    ensures 1 <= n < |ks| && Join(ks)[..i] == Join(ks[..n]) && Join(ks)[i + 1..] == Join(ks[n..])
    decreases ks
  {
    assert ks[0] in ks;
    var s, first := Join(ks), |ks[0]|;
    n := 1;
    if |ks| > 1 {
      var t := Join(ks[1..]);
      assert s == ks[0] + "." + t;
      assert forall k | 0 <= k < first :: s[k] == ks[0][k] && ks[0][k] in ks[0];
      if i <= first {
        assert ks[..1] == [ks[0]] && s[..first] == ks[0] && s[first + 1..] == t;
      } else {
        assert forall seg | seg in ks[1..] :: seg in ks;
        var k: nat := i - first - 1;
        assert t[k] == s[i];
        var m := DotIsBetween(ks[1..], k);
        n := m + 1;
        assert s[..i] == ks[0] + "." + t[..k] && s[i + 1..] == t[k + 1..];
        assert ks[..n][0] == ks[0] && ks[..n][1..] == ks[1..][..m] && ks[n..] == ks[1..][m..];
      }
    } else {
      assert false;
    }
  }

  // ----- the pattern against the key, segment by segment -----

  lemma {:induction false} SegmentsSpan(ps: seq<string>, ks: seq<string>)
    requires ps != [] && ks != [] && Dotless(ks)
    ensures Glob(Join(ps), Join(ks)) <==> SpanMatch(ps, ks)
    decreases |ps|, 0
  {
    if |ps| == 1 {
      LastSegment(ps, ks);
    } else {
      assert Join(ps) == ps[0] + "." + Join(ps[1..]);
      GlobAroundDot(ps[0], Join(ps[1..]), Join(ks));
      if i :| DotAt(ps[0], Join(ps[1..]), Join(ks), i) {
        var n := DotIsBetween(ks, i);
        RestSpans(ps, ks, n);
      }
      if SpanMatch(ps, ks) {
        var n :| 1 <= n <= |ks| && Glob(ps[0], Join(ks[..n])) && SpanMatch(ps[1..], ks[n..]);
        assert n < |ks| by { assert ps[1..] != []; }
        RestSpans(ps, ks, n);
        JoinedAt(ks, n);
        assert DotAt(ps[0], Join(ps[1..]), Join(ks), |Join(ks[..n])|);
      }
    }
  }

  lemma {:induction false} RestSpans(ps: seq<string>, ks: seq<string>, n: nat)
    requires |ps| > 1 && 1 <= n < |ks| && Dotless(ks)
    ensures Glob(Join(ps[1..]), Join(ks[n..])) <==> SpanMatch(ps[1..], ks[n..])
    decreases |ps| - 1, 1
  {
    assert forall seg | seg in ks[n..] :: seg in ks;
    SegmentsSpan(ps[1..], ks[n..]);
  }

  lemma LastSegment(ps: seq<string>, ks: seq<string>)
    requires |ps| == 1 && ks != []
    ensures Glob(Join(ps), Join(ks)) <==> SpanMatch(ps, ks)
  {
    assert ps[1..] == [] && ks[..|ks|] == ks && ks[|ks|..] == [];
    if SpanMatch(ps, ks) {
      var n :| 1 <= n <= |ks| && Glob(ps[0], Join(ks[..n])) && SpanMatch(ps[1..], ks[n..]);
      assert n == |ks|;
    }
  }

  /** For every pattern, with wildcards anywhere, and every key, the compiled regular expression matches
      the key exactly when its segments can be dealt out to the segments of the pattern. */
  lemma CompiledMatchesSpans(p: string, key: string)
    ensures RegexMatches(Compile(p), key) <==> SpanMatch(Split(p), Split(key))
  {
    CompiledTextParses(p);
    ItemsGlob(p, key);
    JoinSplit(p);
    JoinSplit(key);
    SegmentsSpan(Split(p), Split(key));
  }

  // ----- how many segments a pattern segment takes -----

  lemma {:induction false} GlobWithoutHash(p: string, s: string)
    requires '#' !in p && '.' !in p && Glob(p, s)
    ensures '.' !in s
    decreases p
  {
    if p != "" {
      GlobStands(p, s);
      var j :| Stands(p[0], s, j) && Glob(p[1..], s[j..]);
      assert p[0] in p && forall c | c in p[1..] :: c in p;
      GlobWithoutHash(p[1..], s[j..]);
      assert s == s[..j] + s[j..];
    }
  }

  /** A pattern segment without `#` takes exactly one segment of the key. */
  lemma OneSegmentEach(seg: string, ks: seq<string>, n: nat)
    requires '#' !in seg && '.' !in seg && 1 <= n <= |ks| && Glob(seg, Join(ks[..n]))
    ensures n == 1
  {
    if n > 1 { JoinHasDot(ks[..n]); }
    GlobWithoutHash(seg, Join(ks[..n]));
  }

  lemma JoinHasDot(ks: seq<string>)
    requires |ks| > 1
    ensures '.' in Join(ks)
  {
    assert Join(ks)[|ks[0]|] == '.';
  }
}
