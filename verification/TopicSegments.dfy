/** Topic matching by dot-separated segments, the validators, and what the compiled regular
    expression means at that level. */
module TopicSegments {
  import opened Rows
  import opened DottedText
  import opened TopicRegex

  // ----- the validators -----

  datatype TopicError =
    | EmptyText | TooLong | InvalidCharacters | LeadingDot | TrailingDot | ConsecutiveDots
    | ConsecutiveStars | ConsecutiveHashes | AdjacentWildcards

  predicate KeyChar(c: char) { Alphanumeric(c) || c in {'.', '_', '-'} }

  predicate Contains(s: string, a: char, b: char) {
    exists i | 0 <= i < |s| - 1 :: s[i] == a && s[i + 1] == b
  }

  /** `validate_routing_key`: the first check that fails, in the order of the source. */
  function ValidateKey(s: string): Option<TopicError> {
    if s == "" then Some(EmptyText)
    else if |s| > 255 then Some(TooLong)
    else if exists c | c in s :: !KeyChar(c) then Some(InvalidCharacters)
    else if s[0] == '.' then Some(LeadingDot)
    else if s[|s| - 1] == '.' then Some(TrailingDot)
    else if Contains(s, '.', '.') then Some(ConsecutiveDots)
    else None
  }

  /** `validate_topic_pattern`. */
  function ValidatePattern(s: string): Option<TopicError> {
    if s == "" then Some(EmptyText)
    else if |s| > 255 then Some(TooLong)
    else if exists c | c in s :: !KeyChar(c) && c != '*' && c != '#' then Some(InvalidCharacters)
    else if s[0] == '.' then Some(LeadingDot)
    else if s[|s| - 1] == '.' then Some(TrailingDot)
    else if Contains(s, '.', '.') then Some(ConsecutiveDots)
    else if Contains(s, '*', '*') then Some(ConsecutiveStars)
    else if Contains(s, '#', '#') then Some(ConsecutiveHashes)
    else if Contains(s, '*', '#') || Contains(s, '#', '*') then Some(AdjacentWildcards)
    else None
  }

  lemma {:induction false} LaterSegmentsNonEmpty(s: string)
    requires s != ""
    ensures s[|s| - 1] != '.' && !Contains(s, '.', '.') <==> "" !in Split(s)[1..]
    decreases s
  {
    var t := s[1..];
    if t == "" {
      assert Split(t) == [""];
    } else {
      LaterSegmentsNonEmpty(t);
      ContainsTail(s, '.', '.');
      FirstSegment(t);
      assert "" in Split(t) <==> Split(t)[0] == "" || "" in Split(t)[1..];
      if s[0] == '.' {
        assert Split(s)[1..] == Split(t);
      } else {
        assert Split(s)[1..] == Split(t)[1..];
      }
    }
  }

  /** Segments are not empty exactly when dots neither lead, trail nor touch. */
  lemma SegmentsNonEmpty(s: string)
    requires s != ""
    ensures s[0] != '.' && s[|s| - 1] != '.' && !Contains(s, '.', '.') <==> "" !in Split(s)
  {
    LaterSegmentsNonEmpty(s);
    FirstSegment(s);
    assert "" in Split(s) <==> Split(s)[0] == "" || "" in Split(s)[1..];
  }

  lemma FirstSegment(s: string)
    requires s != ""
    ensures Split(s)[0] == "" <==> s[0] == '.'
  {
  }

  lemma ContainsTail(s: string, a: char, b: char)
    requires |s| > 1
    ensures Contains(s, a, b) <==> (s[0] == a && s[1] == b) || Contains(s[1..], a, b)
  {
    var t := s[1..];
    if Contains(s, a, b) {
      var i :| 0 <= i < |s| - 1 && s[i] == a && s[i + 1] == b;
      if i > 0 { assert t[i - 1] == a && t[i - 1 + 1] == b; }
    }
    if Contains(t, a, b) {
      var i :| 0 <= i < |t| - 1 && t[i] == a && t[i + 1] == b;
      assert s[i + 1] == a && s[i + 1 + 1] == b;
    }
  }

  /** A segment of a routing key: one or more letters, digits, hyphens or underscores. */
  ghost predicate KeySegment(seg: string) {
    seg != "" && forall c | c in seg :: WordChar(c)
  }

  ghost predicate WordChar(c: char) {
    'a' <= c <= 'z' || 'A' <= c <= 'Z' || '0' <= c <= '9' || c == '_' || c == '-'
  }

  /** Characters other than the dots are those of the segments. */
  lemma {:induction false} SplitCharacters(s: string, ok: char -> bool)
    requires ok('.')
    ensures (forall c | c in s :: ok(c)) <==> (forall seg, c | seg in Split(s) && c in seg :: ok(c))
    decreases s
  {
    if s != "" {
      var rest := Split(s[1..]);
      SplitCharacters(s[1..], ok);
      assert forall c :: c in s <==> c == s[0] || c in s[1..];
      assert forall seg :: seg in rest <==> seg == rest[0] || seg in rest[1..];
      if s[0] == '.' {
        assert forall seg :: seg in Split(s) <==> seg == "" || seg in rest;
      } else {
        var first := [s[0]] + rest[0];
        assert first in Split(s) && s[0] in first;
        assert forall c :: c in first <==> c == s[0] || c in rest[0];
        assert forall seg :: seg in Split(s) <==> seg == first || seg in rest[1..];
      }
    }
  }

  lemma KeySegmentParts(seg: string)
    requires '.' !in seg
    ensures KeySegment(seg) <==> seg != "" && KeyCharacters(seg)
  {
  }

  ghost predicate KeyCharacters(s: string) {
    forall c | c in s :: KeyChar(c)
  }

  lemma KeyAccepted(s: string)
    ensures ValidateKey(s) == None <==> s != "" && |s| <= 255 && KeyCharacters(s) && "" !in Split(s)
  {
    if s != "" { SegmentsNonEmpty(s); }
  }

  lemma KeyCharactersBySegment(s: string)
    ensures KeyCharacters(s) <==> forall seg | seg in Split(s) :: KeyCharacters(seg)
  {
    SplitCharacters(s, c => KeyChar(c));
  }

  /** The routing keys accepted are those of at most 255 characters whose segments are all proper. */
  lemma ValidKeyIffSegments(s: string)
    ensures ValidateKey(s) == None <==> |s| <= 255 && forall seg | seg in Split(s) :: KeySegment(seg)
  {
    JoinSplit(s);
    KeyAccepted(s);
    KeyCharactersBySegment(s);
    forall seg | seg in Split(s) ensures KeySegment(seg) <==> seg != "" && KeyCharacters(seg) {
      KeySegmentParts(seg);
    }
    assert s == "" ==> Split(s)[0] == "" && Split(s)[0] in Split(s);
  }

  predicate Wild(c: char) { c == '*' || c == '#' }

  /** A segment of a pattern: not empty, proper characters or wildcards, no two wildcards in a row. */
  ghost predicate PatternSegment(seg: string) {
    && seg != "" && (forall c | c in seg :: WordChar(c) || c == '*' || c == '#')
    && forall i | 0 <= i < |seg| - 1 :: seg[i] !in {'*', '#'} || seg[i + 1] !in {'*', '#'}
  }

  lemma FirstCharacter(s: string, b: char)
    requires b != '.'
    ensures s != "" && s[0] == b <==> Split(s)[0] != "" && Split(s)[0][0] == b
  {
  }

  /** Two neighbours other than dots are neighbours within a segment. */
  lemma {:induction false} NeighboursBySegment(s: string, a: char, b: char)
    requires a != '.' && b != '.'
    ensures Contains(s, a, b) <==> exists seg :: seg in Split(s) && Contains(seg, a, b)
    decreases s
  {
    if |s| > 1 {
      var t := s[1..];
      var rest := Split(t);
      NeighboursBySegment(t, a, b);
      ContainsTail(s, a, b);
      assert forall seg :: seg in rest <==> seg == rest[0] || seg in rest[1..];
      if s[0] == '.' {
        assert forall seg :: seg in Split(s) <==> seg == "" || seg in rest;
      } else {
        var first := [s[0]] + rest[0];
        assert forall seg :: seg in Split(s) <==> seg == first || seg in rest[1..];
        FirstCharacter(t, b);
        if |first| > 1 { ContainsTail(first, a, b); }
      }
    } else if s != "" {
      assert Split(s[1..]) == [""];
      assert forall seg | seg in Split(s) :: |seg| <= 1;
    }
  }

  ghost predicate WildPair(s: string) {
    exists i | 0 <= i < |s| - 1 :: Wild(s[i]) && Wild(s[i + 1])
  }

  lemma WildPairKinds(s: string)
    ensures WildPair(s) <==>
              Contains(s, '*', '*') || Contains(s, '#', '#') || Contains(s, '*', '#') || Contains(s, '#', '*')
  {
    if i :| 0 <= i < |s| - 1 && Wild(s[i]) && Wild(s[i + 1]) {
      assert Contains(s, s[i], s[i + 1]);
    }
  }

  lemma WildPairBySegment(s: string)
    ensures WildPair(s) <==> exists seg :: seg in Split(s) && WildPair(seg)
  {
    WildPairKinds(s);
    NeighboursBySegment(s, '*', '*');
    NeighboursBySegment(s, '#', '#');
    NeighboursBySegment(s, '*', '#');
    NeighboursBySegment(s, '#', '*');
    forall seg ensures WildPair(seg) <==>
      Contains(seg, '*', '*') || Contains(seg, '#', '#') || Contains(seg, '*', '#') || Contains(seg, '#', '*')
    {
      WildPairKinds(seg);
    }
  }

  ghost predicate PatternCharacters(s: string) {
    forall c | c in s :: KeyChar(c) || Wild(c)
  }

  lemma PatternAccepted(s: string)
    ensures ValidatePattern(s) == None
       <==> s != "" && |s| <= 255 && PatternCharacters(s) && !WildPair(s) && "" !in Split(s)
  {
    WildPairKinds(s);
    if s != "" { SegmentsNonEmpty(s); }
  }

  lemma PatternCharactersBySegment(s: string)
    ensures PatternCharacters(s) <==> forall seg | seg in Split(s) :: PatternCharacters(seg)
  {
    SplitCharacters(s, c => KeyChar(c) || Wild(c));
  }

  lemma {:induction false} PatternSegmentParts(seg: string)
    requires '.' !in seg
    ensures PatternSegment(seg) <==> seg != "" && PatternCharacters(seg) && !WildPair(seg)
  {
  }

  /** The patterns accepted are those of at most 255 characters whose segments are all proper. */
  lemma ValidPatternIffSegments(s: string)
    ensures ValidatePattern(s) == None <==> |s| <= 255 && forall seg | seg in Split(s) :: PatternSegment(seg)
  {
    JoinSplit(s);
    PatternAccepted(s);
    PatternCharactersBySegment(s);
    WildPairBySegment(s);
    forall seg | seg in Split(s)
      ensures PatternSegment(seg) <==> seg != "" && PatternCharacters(seg) && !WildPair(seg)
    {
      PatternSegmentParts(seg);
    }
    assert s == "" ==> Split(s)[0] == "" && Split(s)[0] in Split(s);
  }

  // ----- which check fails -----

  /** The error of a key tells its first fault: a leading, trailing or double dot is an empty segment in
      front, at the end or in between. */
  lemma KeyErrors(s: string)
    ensures match ValidateKey(s)
            case Some(EmptyText) => s == ""
            case Some(TooLong) => |s| > 255
            case Some(InvalidCharacters) => 0 < |s| <= 255 && !SegmentsOf(s, false)
            case Some(LeadingDot) => 0 < |s| <= 255 && SegmentsOf(s, false) && Split(s)[0] == ""
            case Some(TrailingDot) => |s| <= 255 && SegmentsOf(s, false) && Split(s)[0] != "" && s[|s| - 1] == '.'
            case Some(ConsecutiveDots) =>
              |s| <= 255 && SegmentsOf(s, false) && s[0] != '.' && s[|s| - 1] != '.' && "" in Split(s)
            case Some(_) => false
            case None => |s| <= 255 && forall seg | seg in Split(s) :: KeySegment(seg)
  {
    ValidKeyIffSegments(s);
    CharactersOf(s, false);
    if s != "" {
      FirstSegment(s);
      SegmentsNonEmpty(s);
    }
  }

  /** The same for patterns, with two wildcards in a row as further faults. */
  lemma PatternErrors(s: string)
    ensures match ValidatePattern(s)
            case Some(EmptyText) => s == ""
            case Some(TooLong) => |s| > 255
            case Some(InvalidCharacters) => 0 < |s| <= 255 && !SegmentsOf(s, true)
            case Some(LeadingDot) => 0 < |s| <= 255 && SegmentsOf(s, true) && Split(s)[0] == ""
            case Some(TrailingDot) => |s| <= 255 && SegmentsOf(s, true) && Split(s)[0] != "" && s[|s| - 1] == '.'
            case Some(ConsecutiveDots) =>
              |s| <= 255 && SegmentsOf(s, true) && s[0] != '.' && s[|s| - 1] != '.' && "" in Split(s)
            case Some(ConsecutiveStars) => Plain(s) && Contains(s, '*', '*')
            case Some(ConsecutiveHashes) => Plain(s) && !Contains(s, '*', '*') && Contains(s, '#', '#')
            case Some(AdjacentWildcards) =>
              Plain(s) && !Contains(s, '*', '*') && !Contains(s, '#', '#')
              && (Contains(s, '*', '#') || Contains(s, '#', '*'))
            case None => |s| <= 255 && forall seg | seg in Split(s) :: PatternSegment(seg)
  {
    ValidPatternIffSegments(s);
    CharactersOf(s, true);
    if s != "" {
      FirstSegment(s);
      SegmentsNonEmpty(s);
    }
  }

  /** Characters, length and dots are as they should be. */
  ghost predicate Plain(s: string) {
    |s| <= 255 && SegmentsOf(s, true) && "" !in Split(s)
  }

  /** The segments have no other characters than they may have. */
  ghost predicate SegmentsOf(s: string, wildcards: bool) {
    forall seg, c | seg in Split(s) && c in seg :: WordChar(c) || (wildcards && (c == '*' || c == '#'))
  }

  lemma CharactersOf(s: string, wildcards: bool)
    ensures SegmentsOf(s, wildcards)
       <==> forall c | c in s :: KeyChar(c) || (wildcards && (c == '*' || c == '#'))
  {
    JoinSplit(s);
    var ok := (c: char) => KeyChar(c) || (wildcards && (c == '*' || c == '#'));
    SplitCharacters(s, ok);
    assert forall seg, c | seg in Split(s) && c in seg :: c != '.';
  }

  // ----- matching segment by segment -----

  datatype SegmentPattern = Word(text: string) | One | Many

  function Classify(seg: string): SegmentPattern {
    if seg == "*" then One else if seg == "#" then Many else Word(seg)
  }

  function PatternSegments(segments: seq<string>): seq<SegmentPattern> {
    if segments == [] then [] else [Classify(segments[0])] + PatternSegments(segments[1..])
  }

  /** Wildcards fill whole segments. */
  ghost predicate WholeSegment(seg: string) {
    seg == "*" || seg == "#" || ('*' !in seg && '#' !in seg)
  }

  /** `*` is one segment, `#` is one or more. */
  predicate SegmentMatch(ps: seq<SegmentPattern>, ks: seq<string>)
    decreases |ps| + |ks|
  {
    if ps == [] then ks == []
    else ks != [] && match ps[0]
      case Word(w) => w == ks[0] && SegmentMatch(ps[1..], ks[1..])
      case One => SegmentMatch(ps[1..], ks[1..])
      case Many => SegmentMatch(ps[1..], ks[1..]) || SegmentMatch(ps, ks[1..])
  }

  // ----- the items against one segment and what follows it -----

  const DOT: Item := Item(Char('.'), Once)

  /** The items after a segment: nothing, or a literal dot first. */
  ghost predicate AtBoundary(rest: seq<Item>) { rest == [] || rest[0] == DOT }

  /** The text after a segment: nothing, or a dot first. */
  ghost predicate TextBoundary(s: string) { s == "" || s[0] == '.' }

  lemma {:induction false} ItemsConcat(a: string, b: string)
    ensures Items(a + b) == Items(a) + Items(b)
    decreases a
  {
    if a == "" {
      assert a + b == b;
    } else {
      ItemsConcat(a[1..], b);
      assert (a + b)[1..] == a[1..] + b && (a + b)[0] == a[0];
      assert Items(a) + Items(b) == [ItemOf(a[0])] + (Items(a[1..]) + Items(b));
    }
  }

  lemma {:induction false} WordMatch(w: string, rest: seq<Item>, v: string, s: string)
    requires '*' !in w && '#' !in w && '.' !in w && '.' !in v && AtBoundary(rest) && TextBoundary(s)
    ensures Matches(Items(w) + rest, v + s) <==> w == v && Matches(rest, s)
    decreases w
  {
    if w == "" {
      assert Items(w) + rest == rest;
      if v == "" { assert v + s == s; }
    } else {
      assert (Items(w) + rest)[1..] == Items(w[1..]) + rest;
      if v != "" {
        assert (v + s)[1..] == v[1..] + s;
        WordMatch(w[1..], rest, v[1..], s);
        assert w == v <==> w[0] == v[0] && w[1..] == v[1..];
      } else {
        assert v + s == s;
      }
    }
  }

  lemma {:induction false} SegmentStarMatch(rest: seq<Item>, v: string, s: string)
    requires '.' !in v && AtBoundary(rest) && TextBoundary(s)
    ensures Matches([Item(Not('.'), Star)] + rest, v + s) <==> Matches(rest, s)
    decreases v
  {
    assert ([Item(Not('.'), Star)] + rest)[1..] == rest;
    if v == "" {
      assert v + s == s;
    } else {
      assert (v + s)[1..] == v[1..] + s;
      SegmentStarMatch(rest, v[1..], s);
    }
  }

  lemma OneMatch(rest: seq<Item>, v: string, s: string)
    requires v != "" && '.' !in v && AtBoundary(rest) && TextBoundary(s)
    ensures Matches(Items("*") + rest, v + s) <==> Matches(rest, s)
  {
    assert Items("*") == [Item(Not('.'), Plus)];
    assert (Items("*") + rest)[1..] == rest;
    assert (v + s)[1..] == v[1..] + s;
    SegmentStarMatch(rest, v[1..], s);
  }

  lemma {:induction false} AnyStarSkips(rest: seq<Item>, v: string, s: string)
    requires '.' !in v && rest != [] && rest[0] == DOT
    ensures Matches([Item(Any, Star)] + rest, v + s) <==> Matches([Item(Any, Star)] + rest, s)
    decreases v
  {
    assert ([Item(Any, Star)] + rest)[1..] == rest;
    if v == "" {
      assert v + s == s;
    } else {
      assert (v + s)[1..] == v[1..] + s;
      AnyStarSkips(rest, v[1..], s);
    }
  }

  lemma {:induction false} AnyStarMatchesAll(s: string)
    ensures Matches([Item(Any, Star)], s)
    decreases s
  {
    if s != "" { AnyStarMatchesAll(s[1..]); }
  }

  lemma {:induction false} ManyMatchesAll(ks: seq<string>)
    requires ks != []
    ensures SegmentMatch([Many], ks)
    decreases ks
  {
    if |ks| > 1 { ManyMatchesAll(ks[1..]); }
  }

  // ----- the compiled pattern against the key -----

  ghost predicate PatternShape(ps: seq<string>) {
    ps != [] && forall seg | seg in ps :: seg != "" && '.' !in seg && WholeSegment(seg)
  }

  ghost predicate KeyShape(ks: seq<string>) {
    ks != [] && forall seg | seg in ks :: seg != "" && '.' !in seg
  }

  function AfterItems(ps: seq<string>): seq<Item>
    requires ps != []
  {
    if |ps| == 1 then [] else [DOT] + Items(Join(ps[1..]))
  }

  function AfterText(ks: seq<string>): string
    requires ks != []
  {
    if |ks| == 1 then "" else "." + Join(ks[1..])
  }

  lemma FrontOfPattern(ps: seq<string>)
    requires ps != []
    ensures Items(Join(ps)) == Items(ps[0]) + AfterItems(ps)
  {
    if |ps| > 1 {
      ItemsConcat(ps[0] + ".", Join(ps[1..]));
      ItemsConcat(ps[0], ".");
      assert Items(".") == [DOT];
      assert Items(ps[0]) + [DOT] + Items(Join(ps[1..])) == Items(ps[0]) + ([DOT] + Items(Join(ps[1..])));
    }
  }

  lemma ShapeOfTail(ps: seq<string>, ks: seq<string>)
    requires PatternShape(ps) && KeyShape(ks) && |ps| > 1 && |ks| > 1
    ensures PatternShape(ps[1..]) && KeyShape(ks[1..])
  {
    assert forall seg | seg in ps[1..] :: seg in ps;
    assert forall seg | seg in ks[1..] :: seg in ks;
  }

  lemma {:induction false} SegmentsMatch(ps: seq<string>, ks: seq<string>)
    requires PatternShape(ps) && KeyShape(ks)
    ensures Matches(Items(Join(ps)), Join(ks)) <==> SegmentMatch(PatternSegments(ps), ks)
    decreases |ps| + |ks|, 1
  {
    var rest, v, s := AfterItems(ps), ks[0], AfterText(ks);
    FrontOfPattern(ps);
    assert Join(ks) == v + s;
    assert PatternSegments(ps)[1..] == PatternSegments(ps[1..]);
    assert Matches(rest, s) <==> SegmentMatch(PatternSegments(ps[1..]), ks[1..]) by {
      if |ps| > 1 && |ks| > 1 {
        ShapeOfTail(ps, ks);
        SegmentsMatch(ps[1..], ks[1..]);
        assert rest[1..] == Items(Join(ps[1..])) && s[1..] == Join(ks[1..]);
      }
    }
    assert ps[0] in ps && v in ks;
    if ps[0] == "*" {
      OneMatch(rest, v, s);
    } else if ps[0] == "#" {
      assert Items("#") == [Item(Any, Star)];
      ManyAgainst(ps, ks);
    } else {
      WordMatch(ps[0], rest, v, s);
    }
  }

  /** A whole-segment `#` in front. */
  lemma {:induction false} ManyAgainst(ps: seq<string>, ks: seq<string>)
    requires PatternShape(ps) && KeyShape(ks) && ps[0] == "#"
    ensures Matches([Item(Any, Star)] + AfterItems(ps), Join(ks)) <==> SegmentMatch(PatternSegments(ps), ks)
    decreases |ps| + |ks|, 0
  {
    var any, rest, v, s := [Item(Any, Star)], AfterItems(ps), ks[0], AfterText(ks);
    assert PatternSegments(ps)[1..] == PatternSegments(ps[1..]);
    assert v in ks && Join(ks) == v + s;
    if |ps| == 1 {
      assert any + rest == any && PatternSegments(ps) == [Many];
      AnyStarMatchesAll(Join(ks));
      ManyMatchesAll(ks);
    } else {
      AnyStarSkips(rest, v, s);
      assert (any + rest)[1..] == rest;
      if |ks| > 1 {
        ShapeOfTail(ps, ks);
        assert rest[1..] == Items(Join(ps[1..])) && s[1..] == Join(ks[1..]);
        SegmentsMatch(ps[1..], ks[1..]);
        ManyAgainst(ps, ks[1..]);
      }
    }
  }

  /** For every valid pattern whose wildcards fill whole segments and every valid routing key, the
      compiled regular expression matches the key exactly when the segments match. */
  lemma CompiledMatchesSegments(p: string, key: string)
    requires ValidatePattern(p) == None && ValidateKey(key) == None
    requires forall seg | seg in Split(p) :: WholeSegment(seg)
    ensures RegexMatches(Compile(p), key) <==> SegmentMatch(PatternSegments(Split(p)), Split(key))
  {
    CompiledTextParses(p);
    SegmentsNonEmpty(p);
    SegmentsNonEmpty(key);
    JoinSplit(p);
    JoinSplit(key);
    SegmentsMatch(Split(p), Split(key));
  }

  // ----- the documented meaning: `#` as zero or more segments -----

  predicate DocumentedMatch(ps: seq<SegmentPattern>, ks: seq<string>)
    decreases |ps| + |ks|
  {
    if ps == [] then ks == []
    else match ps[0]
      case Word(w) => ks != [] && w == ks[0] && DocumentedMatch(ps[1..], ks[1..])
      case One => ks != [] && DocumentedMatch(ps[1..], ks[1..])
      case Many => DocumentedMatch(ps[1..], ks) || (ks != [] && DocumentedMatch(ps, ks[1..]))
  }

  lemma {:induction false} SameWithoutMany(ps: seq<SegmentPattern>, ks: seq<string>)
    requires Many !in ps
    ensures SegmentMatch(ps, ks) <==> DocumentedMatch(ps, ks)
    decreases ps
  {
    if ps != [] && ks != [] {
      assert ps[0] in ps;
      SameWithoutMany(ps[1..], ks[1..]);
    }
  }

  lemma {:induction false} DocumentedManyMatchesAll(ks: seq<string>)
    ensures DocumentedMatch([Many], ks)
    decreases ks
  {
    if ks != [] { DocumentedManyMatchesAll(ks[1..]); }
  }

  lemma {:induction false} MatchNeedsSegments(ps: seq<SegmentPattern>, ks: seq<string>)
    requires SegmentMatch(ps, ks)
    ensures |ps| <= |ks|
    decreases |ps| + |ks|
  {
    if ps != [] {
      if SegmentMatch(ps[1..], ks[1..]) {
        MatchNeedsSegments(ps[1..], ks[1..]);
      } else {
        MatchNeedsSegments(ps, ks[1..]);
      }
    }
  }

  /** The shortest key segments that the documented meaning lets a pattern match. */
  function Shrink(segments: seq<string>): seq<string> {
    if segments == [] then []
    else (if segments[0] == "#" then [] else if segments[0] == "*" then ["a"] else [segments[0]])
         + Shrink(segments[1..])
  }

  lemma {:induction false} ShrinkMatches(segments: seq<string>)
    ensures DocumentedMatch(PatternSegments(segments), Shrink(segments))
    ensures |Shrink(segments)| <= |segments|
    ensures "#" in segments ==> |Shrink(segments)| < |segments|
    decreases segments
  {
    if segments != [] {
      ShrinkMatches(segments[1..]);
      assert PatternSegments(segments)[1..] == PatternSegments(segments[1..]);
      if segments[0] == "#" {
        assert Shrink(segments) == Shrink(segments[1..]);
      } else {
        assert Shrink(segments)[1..] == Shrink(segments[1..]);
      }
    }
  }

  lemma {:induction false} ShrinkFits(segments: seq<string>)
    requires Shrink(segments) != []
    ensures segments != [] && |Join(Shrink(segments))| <= |Join(segments)|
    decreases segments
  {
    var rest := segments[1..];
    if Shrink(rest) != [] {
      ShrinkFits(rest);
      if segments[0] == "#" {
        assert Shrink(segments) == Shrink(rest);
      } else {
        assert Shrink(segments)[1..] == Shrink(rest);
      }
    }
  }

  lemma {:induction false} ShrinkKeepsShape(segments: seq<string>)
    requires PatternShape(segments)
    requires forall seg, c | seg in segments && c in seg && !KeyChar(c) :: c == '*' || c == '#'
    ensures forall seg | seg in Shrink(segments) :: KeySegment(seg)
    decreases segments
  {
    assert segments[0] in segments;
    if |segments| > 1 {
      assert forall seg | seg in segments[1..] :: seg in segments;
      ShrinkKeepsShape(segments[1..]);
    }
  }

  /** The segments of a key that tells the two meanings apart. */
  function Telling(ps: seq<string>): (ks: seq<string>)
    ensures ks != []
  {
    if Shrink(ps) == [] then ["a"] else Shrink(ps)
  }

  lemma TellingIsDocumented(ps: seq<string>)
    requires ps != []
    ensures DocumentedMatch(PatternSegments(ps), Telling(ps))
  {
    ShrinkMatches(ps);
    if Shrink(ps) == [] { AllManyMatchesOne(ps); }
  }

  lemma TellingIsShorter(ps: seq<string>)
    requires "#" in ps && |ps| > 1
    ensures !SegmentMatch(PatternSegments(ps), Telling(ps))
  {
    ShrinkMatches(ps);
    PatternSegmentsLength(ps);
    if SegmentMatch(PatternSegments(ps), Telling(ps)) { MatchNeedsSegments(PatternSegments(ps), Telling(ps)); }
  }

  lemma PatternSegmentsShaped(p: string)
    requires ValidatePattern(p) == None && forall seg | seg in Split(p) :: WholeSegment(seg)
    ensures PatternShape(Split(p))
    ensures forall seg, c | seg in Split(p) && c in seg && !KeyChar(c) :: c == '*' || c == '#'
  {
    JoinSplit(p);
    SegmentsNonEmpty(p);
    SplitCharacters(p, c => KeyChar(c) || c == '*' || c == '#');
  }

  lemma TellingIsValid(p: string)
    requires ValidatePattern(p) == None && forall seg | seg in Split(p) :: WholeSegment(seg)
    ensures var ks := Telling(Split(p)); ValidateKey(Join(ks)) == None && Split(Join(ks)) == ks
  {
    var ps := Split(p);
    PatternSegmentsShaped(p);
    ShrinkKeepsShape(ps);
    JoinSplit(p);
    if Shrink(ps) != [] { ShrinkFits(ps); }
    SplitJoin(Telling(ps));
    ValidKeyIffSegments(Join(Telling(ps)));
  }

  /** A key that the documented meaning matches and the compiled regular expression does not. */
  lemma OptionalHashDiffers(p: string) returns (key: string)
    requires ValidatePattern(p) == None && forall seg | seg in Split(p) :: WholeSegment(seg)
    requires "#" in Split(p) && |Split(p)| > 1
    ensures ValidateKey(key) == None
    ensures DocumentedMatch(PatternSegments(Split(p)), Split(key)) && !RegexMatches(Compile(p), key)
  {
    key := Join(Telling(Split(p)));
    TellingIsValid(p);
    TellingIsDocumented(Split(p));
    TellingIsShorter(Split(p));
    CompiledMatchesSegments(p, key);
  }

  lemma {:induction false} PatternSegmentsLength(segments: seq<string>)
    ensures |PatternSegments(segments)| == |segments|
    ensures Many in PatternSegments(segments) <==> "#" in segments
    decreases segments
  {
    if segments != [] { PatternSegmentsLength(segments[1..]); }
  }

  lemma {:induction false} AllManyMatchesOne(segments: seq<string>)
    requires Shrink(segments) == [] && segments != []
    ensures DocumentedMatch(PatternSegments(segments), ["a"])
    decreases segments
  {
    assert PatternSegments(segments)[1..] == PatternSegments(segments[1..]);
    if |segments| > 1 {
      AllManyMatchesOne(segments[1..]);
    } else {
      assert PatternSegments(segments) == [Many];
      DocumentedManyMatchesAll(["a"]);
    }
  }

  /** The documentation says `#` is zero or more segments. A pattern keeps that promise for every
      valid key exactly when it has no `#` segment or is just `#`. */
  lemma DocumentedMeaningIff(p: string)
    requires ValidatePattern(p) == None && forall seg | seg in Split(p) :: WholeSegment(seg)
    ensures (forall key | ValidateKey(key) == None ::
               RegexMatches(Compile(p), key) <==> DocumentedMatch(PatternSegments(Split(p)), Split(key)))
       <==> "#" !in Split(p) || Split(p) == ["#"]
  {
    var ps := Split(p);
    PatternSegmentsLength(ps);
    if "#" !in ps || ps == ["#"] {
      forall key | ValidateKey(key) == None
        ensures RegexMatches(Compile(p), key) <==> DocumentedMatch(PatternSegments(ps), Split(key))
      {
        CompiledMatchesSegments(p, key);
        if "#" !in ps {
          SameWithoutMany(PatternSegments(ps), Split(key));
        } else {
          assert PatternSegments(ps) == [Many];
          ManyMatchesAll(Split(key));
          DocumentedManyMatchesAll(Split(key));
        }
      }
    } else {
      assert |ps| > 1;
      var key := OptionalHashDiffers(p);
    }
  }
}
