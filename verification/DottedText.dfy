/** Text made of segments separated by dots. */
module DottedText {
  function Split(s: string): (r: seq<string>)
    ensures |r| >= 1
  {
    if s == "" then [""]
    else
      var rest := Split(s[1..]);
      if s[0] == '.' then [""] + rest else [[s[0]] + rest[0]] + rest[1..]
  }

  function Join(segments: seq<string>): string
    requires segments != []
  {
    if |segments| == 1 then segments[0] else segments[0] + "." + Join(segments[1..])
  }

  lemma {:induction false} JoinSplit(s: string)
    ensures Join(Split(s)) == s && forall seg | seg in Split(s) :: '.' !in seg
    decreases s
  {
    if s != "" {
      JoinSplit(s[1..]);
      var rest := Split(s[1..]);
      if s[0] == '.' {
        assert ([""] + rest)[1..] == rest;
      } else {
        assert Split(s)[1..] == rest[1..];
      }
    }
  }

  lemma {:induction false} SplitJoin(ks: seq<string>)
    requires ks != [] && forall seg | seg in ks :: '.' !in seg
    ensures Split(Join(ks)) == ks
    decreases |ks|, |ks[0]|
  {
    assert ks[0] in ks;
    if ks[0] == "" {
      if |ks| > 1 {
        assert forall seg | seg in ks[1..] :: seg in ks;
        SplitJoin(ks[1..]);
        assert Join(ks)[1..] == Join(ks[1..]);
      }
    } else {
      var shorter := [ks[0][1..]] + ks[1..];
      assert forall seg | seg in shorter :: seg == ks[0][1..] || seg in ks;
      SplitJoin(shorter);
      assert shorter[1..] == ks[1..];
      assert Join(ks) == [ks[0][0]] + Join(shorter);
      assert ks[0][0] in ks[0] && [ks[0][0]] + ks[0][1..] == ks[0];
      assert [ks[0]] + ks[1..] == ks;
    }
  }
}
