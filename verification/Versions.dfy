/** Semantic versions of the extension, and the names of its migration scripts. */
module Versions {
  import opened Rows
  import opened DottedText

  type U32 = n: nat | n < 0x1_0000_0000

  datatype Version = Version(major: U32, minor: U32, patch: U32)

  // ----- numbers -----

  predicate Digit(c: char) { '0' <= c <= '9' }

  function DigitOf(n: nat): char
    requires n < 10
  {
    '0' + n as char
  }

  function PrintNumber(n: nat): (s: string)
    ensures s != "" && forall c | c in s :: Digit(c)
  {
    if n < 10 then [DigitOf(n)] else PrintNumber(n / 10) + [DigitOf(n % 10)]
  }

  /** `\d+` and then `u32::from_str`: digits only, and the value must fit. */
  function ParseNumber(s: string): Option<U32> {
    if s != "" && (forall c | c in s :: Digit(c)) && NumberValue(s) < 0x1_0000_0000
    then Some(NumberValue(s)) else None
  }

  function NumberValue(s: string): nat
    requires forall c | c in s :: Digit(c)
  {
    if s == "" then 0
    else
      var last := |s| - 1;
      assert s[last] in s && Digit(s[last]);
      10 * NumberValue(s[..last]) + (s[last] as nat - '0' as nat)
  }

  lemma {:induction false} NumberRoundTrip(n: nat)
    ensures NumberValue(PrintNumber(n)) == n
  {
    var s := PrintNumber(n);
    if n < 10 {
      assert s[..0] == "";
    } else {
      NumberRoundTrip(n / 10);
      assert s[..|s| - 1] == PrintNumber(n / 10);
    }
  }

  ghost predicate Digits(s: string) {
    s != "" && forall c | c in s :: '0' <= c <= '9'
  }

  /** Digits are read in base ten, and numbers are printed without leading zeros. */
  lemma DecimalNotation(s: string, d: char, n: nat)
    requires Digits(s) && '0' <= d <= '9'
    ensures NumberValue([d]) == d as nat - '0' as nat
    ensures NumberValue(s + [d]) == 10 * NumberValue(s) + NumberValue([d])
    ensures PrintNumber(n)[0] == '0' ==> PrintNumber(n) == "0"
  {
    assert (s + [d])[..|s|] == s && [d][..0] == "";
    NoLeadingZero(n);
  }

  lemma {:induction false} NoLeadingZero(n: nat)
    ensures PrintNumber(n)[0] == '0' <==> n == 0
    ensures n == 0 ==> PrintNumber(n) == "0"
  {
    if n >= 10 { NoLeadingZero(n / 10); }
  }

  // ----- versions -----

  function PrintVersion(v: Version): string {
    Join([PrintNumber(v.major), PrintNumber(v.minor), PrintNumber(v.patch)])
  }

  /** `^v?(\d+)\.(\d+)\.(\d+)$`, each part a `u32`. */
  function ParseVersion(s: string): Option<Version> {
    var parts := Split(if s != "" && s[0] == 'v' then s[1..] else s);
    if |parts| != 3 then None
    else match (ParseNumber(parts[0]), ParseNumber(parts[1]), ParseNumber(parts[2]))
      case (Some(a), Some(b), Some(c)) => Some(Version(a, b, c))
      case _ => None
  }

  lemma PrintedVersion(v: Version)
    ensures Split(PrintVersion(v)) == [PrintNumber(v.major), PrintNumber(v.minor), PrintNumber(v.patch)]
    ensures PrintVersion(v) != "" && Digit(PrintVersion(v)[0])
  {
    var parts := [PrintNumber(v.major), PrintNumber(v.minor), PrintNumber(v.patch)];
    SplitJoin(parts);
    assert parts[0][0] in parts[0];
  }

  /** Printing and parsing gives every version back, with and without the leading `v`. */
  lemma VersionRoundTrip(v: Version)
    ensures ParseVersion(PrintVersion(v)) == Some(v) == ParseVersion("v" + PrintVersion(v))
  {
    PrintedVersion(v);
    NumberRoundTrip(v.major);
    NumberRoundTrip(v.minor);
    NumberRoundTrip(v.patch);
    assert ("v" + PrintVersion(v))[1..] == PrintVersion(v);
  }

  /** Text in the form of a version, with its three numbers. */
  ghost predicate Dotted(s: string, a: string, b: string, c: string) {
    Digits(a) && Digits(b) && Digits(c) && s == a + "." + b + "." + c
  }

  lemma {:induction false} ThreeParts(s: string, a: string, b: string, c: string)
    requires '.' !in a && '.' !in b && '.' !in c
    ensures Split(s) == [a, b, c] <==> s == a + "." + b + "." + c
  {
    var parts := [a, b, c];
    assert parts[1..] == [b, c] && [b, c][1..] == [c];
    assert Join([c]) == c && Join([b, c]) == b + "." + c && Join(parts) == a + "." + (b + "." + c);
    assert a + "." + b + "." + c == Join(parts);
    SplitJoin(parts);
    JoinSplit(s);
  }

  lemma DottedParts(s: string)
    ensures forall a, b, c :: Dotted(s, a, b, c) ==> Split(s) == [a, b, c]
    ensures |Split(s)| == 3 && Digits(Split(s)[0]) && Digits(Split(s)[1]) && Digits(Split(s)[2])
            ==> Dotted(s, Split(s)[0], Split(s)[1], Split(s)[2])
  {
    forall a, b, c | Dotted(s, a, b, c) ensures Split(s) == [a, b, c] { ThreeParts(s, a, b, c); }
    if |Split(s)| == 3 && Digits(Split(s)[0]) && Digits(Split(s)[1]) && Digits(Split(s)[2]) {
      var l := Split(s);
      assert l == [l[0], l[1], l[2]];
      ThreeParts(s, l[0], l[1], l[2]);
    }
  }

  /** The numbers of version `v` are written `a`, `b` and `c`. */
  ghost predicate Writes(v: Version, a: string, b: string, c: string) {
    && Digits(a) && Digits(b) && Digits(c)
    && NumberValue(a) == v.major && NumberValue(b) == v.minor && NumberValue(c) == v.patch
  }

  /** The texts that are read as version `v` are three numbers with dots in between, each of 32 bits, with
      or without a leading `v`, and no others. */
  lemma ParseVersionExactly(s: string, v: Version)
    ensures ParseVersion(s) == Some(v)
       <==> exists a, b, c ::
              Writes(v, a, b, c) && (Dotted(s, a, b, c) || (s != "" && s[0] == 'v' && Dotted(s[1..], a, b, c)))
  {
    var t := if s != "" && s[0] == 'v' then s[1..] else s;
    DottedParts(t);
    if ParseVersion(s) == Some(v) {
      var l := Split(t);
      assert Writes(v, l[0], l[1], l[2]) && Dotted(t, l[0], l[1], l[2]);
    }
    forall a, b, c | Dotted(s, a, b, c) ensures t == s { assert s[0] == a[0] && a[0] in a; }
  }

  lemma VersionHasNoDash(s: string)
    requires ParseVersion(s).Some?
    ensures '-' !in s
  {
    var v := ParseVersion(s).value;
    ParseVersionExactly(s, v);
    var a, b, c :| Writes(v, a, b, c) && (Dotted(s, a, b, c) || (s != "" && s[0] == 'v' && Dotted(s[1..], a, b, c)));
    assert forall d | d in s :: d == s[0] || d in s[1..];
  }

  /** `Ord::cmp`: by major, then minor, then patch. */
  function Compare(a: Version, b: Version): int {
    if a.major != b.major then (if a.major < b.major then -1 else 1)
    else if a.minor != b.minor then (if a.minor < b.minor then -1 else 1)
    else if a.patch != b.patch then (if a.patch < b.patch then -1 else 1)
    else 0
  }

  predicate AtMost(a: Version, b: Version) { Compare(a, b) <= 0 }

  /** A total order that agrees with equality. */
  lemma VersionOrderTotal(a: Version, b: Version, c: Version)
    ensures Compare(a, b) == 0 <==> a == b
    ensures Compare(a, b) == -Compare(b, a)
    ensures AtMost(a, b) && AtMost(b, c) ==> AtMost(a, c)
  {
  }

  /** A version as one number, 32 bits for each part. */
  function Weight(v: Version): nat {
    (v.major * 0x1_0000_0000 + v.minor) * 0x1_0000_0000 + v.patch
  }

  /** The order is the numeric one on the three parts side by side. */
  lemma VersionOrderIsNumeric(a: Version, b: Version)
    ensures Compare(a, b) < 0 <==> Weight(a) < Weight(b)
    ensures Compare(a, b) == 0 <==> Weight(a) == Weight(b)
  {
  }

  // ----- script names -----

  datatype ScriptName = ScriptName(original: string, from: Version, to: Version)

  const INIT_NAME := "pgmq.sql"
  const PREFIX := "pgmq--"
  const SUFFIX := ".sql"

  /** Where the greedy first group of `^pgmq--(.*)--(.*)\.sql$` ends: the last `--`. */
  function LastDashes(m: string): (at: Option<nat>)
    ensures at.Some? ==> at.value + 2 <= |m| && m[at.value..at.value + 2] == "--"
  {
    if |m| < 2 then None
    else if m[|m| - 2..] == "--" then Some(|m| - 2)
    else LastDashes(m[..|m| - 1])
  }

  function ParseName(s: string): Option<ScriptName> {
    if |s| < |PREFIX| + |SUFFIX| || s[..|PREFIX|] != PREFIX || s[|s| - |SUFFIX|..] != SUFFIX then None
    else
      var m := s[|PREFIX|..|s| - |SUFFIX|];
      match LastDashes(m)
      case None => None
      case Some(at) =>
        match (ParseVersion(m[..at]), ParseVersion(m[at + 2..]))
        case (Some(from), Some(to)) => Some(ScriptName(s, from, to))
        case _ => None
  }

  lemma {:induction false} LastDashesFound(a: string, b: string)
    requires '-' !in b
    ensures LastDashes(a + "--" + b) == Some(|a|)
    decreases b
  {
    var m := a + "--" + b;
    if b == "" {
      assert m[|m| - 2..] == "--";
    } else {
      var last := |b| - 1;
      assert m[|m| - 1] == b[last] && b[last] in b;
      assert m[|m| - 2..][1] == m[|m| - 1];
      assert m[..|m| - 1] == a + "--" + b[..last];
      LastDashesFound(a, b[..last]);
    }
  }

  lemma {:induction false} PrintHasNoDash(v: Version)
    ensures '-' !in PrintVersion(v)
  {
    var a, b, c := PrintNumber(v.major), PrintNumber(v.minor), PrintNumber(v.patch);
    assert [a, b, c][1..] == [b, c] && [b, c][1..] == [c];
    assert Join([c]) == c && Join([b, c]) == b + "." + Join([c]);
    assert PrintVersion(v) == a + "." + Join([b, c]);
  }

  function NameOf(from: Version, to: Version): string {
    PREFIX + (PrintVersion(from) + "--" + PrintVersion(to)) + SUFFIX
  }

  lemma NamedMiddle(m: string)
    ensures var s := PREFIX + m + SUFFIX;
            && |s| == |PREFIX| + |m| + |SUFFIX| && s[..|PREFIX|] == PREFIX && s[|s| - |SUFFIX|..] == SUFFIX
            && s[|PREFIX|..|s| - |SUFFIX|] == m
  {
    var s := PREFIX + m + SUFFIX;
    assert s[..|PREFIX|] == PREFIX && s[|s| - |SUFFIX|..] == SUFFIX && s[|PREFIX|..|s| - |SUFFIX|] == m;
  }

  lemma MiddleParses(m: string, at: nat, from: Version, to: Version)
    requires LastDashes(m) == Some(at) && ParseVersion(m[..at]) == Some(from) && ParseVersion(m[at + 2..]) == Some(to)
    ensures ParseName(PREFIX + m + SUFFIX) == Some(ScriptName(PREFIX + m + SUFFIX, from, to))
  {
    NamedMiddle(m);
  }

  /** The greedy pattern recovers both versions from every name built from two versions. */
  lemma ScriptNameRoundTrip(from: Version, to: Version)
    ensures ParseName(NameOf(from, to)) == Some(ScriptName(NameOf(from, to), from, to))
  {
    var a, b := PrintVersion(from), PrintVersion(to);
    var m := a + "--" + b;
    PrintHasNoDash(to);
    LastDashesFound(a, b);
    VersionRoundTrip(from);
    VersionRoundTrip(to);
    assert m[..|a|] == a && m[|a| + 2..] == b;
    MiddleParses(m, |a|, from, to);
  }

  /** A name is built from the versions of its script. */
  ghost predicate Named(s: string, a: string, b: string, from: Version, to: Version) {
    s == "pgmq--" + a + "--" + b + ".sql" && ParseVersion(a) == Some(from) && ParseVersion(b) == Some(to)
  }

  lemma Middle(s: string)
    requires |s| >= |PREFIX| + |SUFFIX| && s[..|PREFIX|] == PREFIX && s[|s| - |SUFFIX|..] == SUFFIX
    ensures s == PREFIX + s[|PREFIX|..|s| - |SUFFIX|] + SUFFIX
  {
    var n := |s| - |SUFFIX|;
    assert s == s[..n] + s[n..] && s[..n] == s[..|PREFIX|] + s[|PREFIX|..n];
  }

  lemma ParsedIsNamed(s: string, from: Version, to: Version) returns (a: string, b: string)
    requires ParseName(s) == Some(ScriptName(s, from, to))
    ensures Named(s, a, b, from, to)
  {
    var m := s[|PREFIX|..|s| - |SUFFIX|];
    var at := LastDashes(m).value;
    a, b := m[..at], m[at + 2..];
    assert m == a + "--" + b;
    Middle(s);
    NameOfParts(a, b);
  }

  /** A file name is read as a migration script exactly when it has two versions in the places for them. */
  lemma ParseNameExactly(s: string, from: Version, to: Version)
    ensures ParseName(s) == Some(ScriptName(s, from, to)) <==> exists a, b :: Named(s, a, b, from, to)
    ensures ParseName(s).Some? ==> ParseName(s).value.original == s
  {
    if ParseName(s) == Some(ScriptName(s, from, to)) {
      var a, b := ParsedIsNamed(s, from, to);
    }
    forall a, b | Named(s, a, b, from, to) ensures ParseName(s) == Some(ScriptName(s, from, to)) {
      NamedParses(s, a, b, from, to);
    }
  }

  lemma NamedParses(s: string, a: string, b: string, from: Version, to: Version)
    requires Named(s, a, b, from, to)
    ensures ParseName(s) == Some(ScriptName(s, from, to))
  {
    var m := a + "--" + b;
    VersionHasNoDash(b);
    LastDashesFound(a, b);
    assert m[..|a|] == a && m[|a| + 2..] == b;
    MiddleParses(m, |a|, from, to);
    NameOfParts(a, b);
  }

  lemma NameOfParts(a: string, b: string)
    ensures "pgmq--" + a + "--" + b + ".sql" == PREFIX + (a + "--" + b) + SUFFIX
  {
  }

  /** The initialization script is never taken for a migration script. */
  lemma InitNameIsNotParsed()
    ensures ParseName(INIT_NAME) == None
  {
  }
}
