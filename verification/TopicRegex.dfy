/** `topic_bindings.compiled_regex`: the compiler from wildcard patterns to regular expression text,
    and the meaning of the text it emits. */
module TopicRegex {
  import opened Rows

  // ----- the compiler: three nested replaces -----

  /** The characters of the class in `regexp_replace(pattern, '([.+?{}()|\[\]\\^$])', '\\\1', 'g')`. */
  predicate Special(c: char) {
    c in {'.', '+', '?', '{', '}', '(', ')', '|', '[', ']', '\\', '^', '$'}
  }

  function Escape(p: string): string {
    if p == "" then "" else (if Special(p[0]) then ['\\', p[0]] else [p[0]]) + Escape(p[1..])
  }

  /** `replace(s, c, with)` for a one-character `c`. */
  function Replace(s: string, c: char, with: string): string {
    if s == "" then "" else (if s[0] == c then with else [s[0]]) + Replace(s[1..], c, with)
  }

  function Compile(pattern: string): string {
    "^" + Replace(Replace(Escape(pattern), '*', "[^.]+"), '#', ".*") + "$"
  }

  // ----- the staged rewrite is one substitution per character -----

  function Substitute(c: char): string {
    if c == '*' then "[^.]+" else if c == '#' then ".*" else if Special(c) then ['\\', c] else [c]
  }

  function SubstituteAll(p: string): string {
    if p == "" then "" else Substitute(p[0]) + SubstituteAll(p[1..])
  }

  lemma {:induction false} ReplaceConcat(a: string, b: string, c: char, with: string)
    ensures Replace(a + b, c, with) == Replace(a, c, with) + Replace(b, c, with)
    decreases a
  {
    if a == "" {
      assert a + b == b;
    } else {
      ReplaceConcat(a[1..], b, c, with);
      assert (a + b)[1..] == a[1..] + b;
    }
  }

  lemma {:induction false} ReplaceAbsent(s: string, c: char, with: string)
    requires c !in s
    ensures Replace(s, c, with) == s
    decreases s
  {
    if s != "" { ReplaceAbsent(s[1..], c, with); }
  }

  lemma ReplaceOne(c: char, d: char, with: string)
    ensures Replace([c], d, with) == if c == d then with else [c]
  {
    assert [c][1..] == "";
  }

  lemma CharRewrite(c: char)
    ensures Replace(Replace(if Special(c) then ['\\', c] else [c], '*', "[^.]+"), '#', ".*") == Substitute(c)
  {
    ReplaceOne(c, '*', "[^.]+");
    ReplaceOne(c, '#', ".*");
    if Special(c) {
      ReplaceAbsent(['\\', c], '*', "[^.]+");
      ReplaceAbsent(['\\', c], '#', ".*");
    } else {
      ReplaceAbsent("[^.]+", '#', ".*");
    }
  }

  lemma {:induction false} StagesAreOneSubstitution(p: string)
    ensures Replace(Replace(Escape(p), '*', "[^.]+"), '#', ".*") == SubstituteAll(p)
    decreases p
  {
    if p != "" {
      var first := if Special(p[0]) then ['\\', p[0]] else [p[0]];
      ReplaceConcat(first, Escape(p[1..]), '*', "[^.]+");
      ReplaceConcat(Replace(first, '*', "[^.]+"), Replace(Escape(p[1..]), '*', "[^.]+"), '#', ".*");
      CharRewrite(p[0]);
      StagesAreOneSubstitution(p[1..]);
    }
  }

  /** Compiling a pattern is substituting each of its characters, for every text at all. */
  lemma CompileIsSubstitution(p: string)
    ensures Compile(p) == "^" + SubstituteAll(p) + "$"
  {
    StagesAreOneSubstitution(p);
  }

  // ----- reading the text as a regular expression -----

  datatype Atom = Char(c: char) | Any | Not(c: char)
  datatype Quantifier = Once | Star | Plus
  datatype Item = Item(atom: Atom, quantifier: Quantifier)

  predicate Alphanumeric(c: char) { 'a' <= c <= 'z' || 'A' <= c <= 'Z' || '0' <= c <= '9' }

  /** One atom at the front of `t` and its length: an escape, `[^c]`, `.` or an ordinary character. */
  function ParseAtom(t: string): Option<(Atom, nat)> {
    if t == "" then None
    else if t[0] == '\\' then
      if |t| > 1 && !Alphanumeric(t[1]) then Some((Char(t[1]), 2)) else None
    else if t[0] == '[' then
      if |t| > 3 && t[1] == '^' && t[2] != ']' && t[2] != '\\' && t[3] == ']' then Some((Not(t[2]), 4)) else None
    else if t[0] == '.' then Some((Any, 1))
    else if Special(t[0]) || t[0] == '*' then None
    else Some((Char(t[0]), 1))
  }

  function ParseQuantifier(t: string): (Quantifier, nat) {
    if t != "" && t[0] == '*' then (Star, 1) else if t != "" && t[0] == '+' then (Plus, 1) else (Once, 0)
  }

  /** Quantified atoms up to the closing `$`. */
  function ParseItems(t: string): Option<seq<Item>>
    decreases |t|
  {
    if t == "$" then Some([])
    else match ParseAtom(t)
      case None => None
      case Some((atom, n)) =>
        if n > |t| || n == 0 then None else
        var (q, m) := ParseQuantifier(t[n..]);
        if n + m > |t| then None else
        match ParseItems(t[n + m..])
        case None => None
        case Some(rest) => Some([Item(atom, q)] + rest)
  }

  function Parse(t: string): Option<seq<Item>> {
    if t != "" && t[0] == '^' then ParseItems(t[1..]) else None
  }

  function ItemOf(c: char): Item {
    if c == '*' then Item(Not('.'), Plus) else if c == '#' then Item(Any, Star) else Item(Char(c), Once)
  }

  /** What a pattern is meant to say, one item per character. */
  function Items(p: string): seq<Item> {
    if p == "" then [] else [ItemOf(p[0])] + Items(p[1..])
  }

  lemma SubstituteParses(c: char, rest: string)
    requires rest != "" && rest[0] != '*' && rest[0] != '+'
    ensures ParseItems(rest).Some? ==>
              ParseItems(Substitute(c) + rest) == Some([ItemOf(c)] + ParseItems(rest).value)
  {
    var t := Substitute(c) + rest;
    if c == '*' {
      assert t[..5] == "[^.]+" && t[0] == '[' && t[1] == '^' && t[2] == '.' && t[3] == ']' && t[4] == '+';
      assert t[4..][0] == '+' && t[5..] == rest;
    } else if c == '#' {
      assert t[0] == '.' && t[1..][0] == '*' && t[2..] == rest;
    } else if Special(c) {
      assert t[0] == '\\' && t[1] == c && t[2..] == rest;
    } else {
      assert t[0] == c && t[1..] == rest;
    }
  }

  lemma {:induction false} SubstitutedParses(p: string)
    ensures var t := SubstituteAll(p) + "$";
            t[0] != '*' && t[0] != '+' && ParseItems(t) == Some(Items(p))
    decreases p
  {
    if p != "" {
      SubstitutedParses(p[1..]);
      SubstituteParses(p[0], SubstituteAll(p[1..]) + "$");
      assert SubstituteAll(p) + "$" == Substitute(p[0]) + (SubstituteAll(p[1..]) + "$");
    }
  }

  /** The compiled text of every pattern reads back as the items the pattern means. */
  lemma CompiledTextParses(p: string)
    ensures Parse(Compile(p)) == Some(Items(p))
  {
    CompileIsSubstitution(p);
    SubstitutedParses(p);
    assert Compile(p)[1..] == SubstituteAll(p) + "$";
  }

  // ----- what the items match -----

  predicate AtomMatches(a: Atom, c: char) {
    match a
    case Char(d) => c == d
    case Any => true
    case Not(d) => c != d
  }

  /** The items match all of `s`. */
  predicate Matches(items: seq<Item>, s: string)
    decreases |s|, |items|
  {
    if items == [] then s == ""
    else
      var item, rest := items[0], items[1..];
      match item.quantifier
      case Once => s != "" && AtomMatches(item.atom, s[0]) && Matches(rest, s[1..])
      case Star => Matches(rest, s) || (s != "" && AtomMatches(item.atom, s[0]) && Matches(items, s[1..]))
      case Plus => s != "" && AtomMatches(item.atom, s[0]) && Matches([Item(item.atom, Star)] + rest, s[1..])
  }

  /** `routing_key ~ compiled_regex`. */
  predicate RegexMatches(text: string, key: string) {
    match Parse(text)
    case Some(items) => Matches(items, key)
    case None => false
  }
}
