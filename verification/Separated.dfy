/** Text in pieces between single-character separators. */
module Separated {
  import opened HttpText

  /** The pieces between separators, empty ones included. */
  function Split(s: string, c: char): (r: seq<string>)
    ensures r != []
  {
    if s == "" then [""]
    else if s[0] == c then [""] + Split(s[1..], c)
    else
      var r := Split(s[1..], c);
      [[s[0]] + r[0]] + r[1..]
  }

  /** split_tabs: from one separator to the next. */
  method SplitLoop(s: string, c: char) returns (r: seq<string>)
    ensures r == Split(s, c)
  {
    r := [];
    var start := 0;
    assert s[0..] == s;
    ghost var goal := Split(s, c);
    while true
      invariant 0 <= start <= |s| && r + Split(s[start..], c) == goal
      decreases |s| - start
    {
      var sep := Find(s, [c], start);
      SplitNext(s, c, start, sep);
      if sep < 0 { return r + [s[start..]]; }
      Regroup(r, s[start..sep], Split(s[sep + 1..], c));
      r := r + [s[start..sep]];
      start := sep + 1;
    }
  }

  lemma Regroup(r: seq<string>, p: string, rest: seq<string>)
    ensures r + ([p] + rest) == r + [p] + rest
  {}

  lemma SplitNext(s: string, c: char, start: nat, sep: int)
    requires start <= |s| && sep == Find(s, [c], start)
    ensures Split(s[start..], c) == if sep < 0 then [s[start..]] else [s[start..sep]] + Split(s[sep + 1..], c)
  {
    FindInSuffix(s, [c], start);
    SplitAtFirst(s[start..], c);
    if sep >= 0 { assert s[start..][..sep - start] == s[start..sep] && s[start..][sep - start + 1..] == s[sep + 1..]; }
  }

  lemma {:induction false} SplitAtFirst(s: string, c: char)
    ensures var e := Find(s, [c], 0);
            Split(s, c) == if e < 0 then [s] else [s[..e]] + Split(s[e + 1..], c)
    decreases |s|
  {
    if s != "" {
      var t := s[1..];
      SplitAtFirst(t, c);
      assert s[0..1] == [s[0]];
      FindInSuffix(s, [c], 1);
      if s[0] == c {
        assert MatchAt(s, [c], 0);
      } else {
        assert !MatchAt(s, [c], 0);
        var e := Find(s, [c], 0);
        assert e == Find(s, [c], 1);
        if e >= 0 {
          assert t[..e - 1] == s[1..e] && t[e..] == s[e + 1..];
          assert [s[0]] + s[1..e] == s[..e];
          assert ([s[1..e]] + Split(s[e + 1..], c))[1..] == Split(s[e + 1..], c);
        } else {
          assert [s[0]] + t == s && [t][1..] == [];
        }
      }
    }
  }

  function Join(parts: seq<string>, c: char): string
    requires parts != []
  {
    if |parts| == 1 then parts[0] else parts[0] + [c] + Join(parts[1..], c)
  }

  predicate Free(parts: seq<string>, c: char) { forall i :: 0 <= i < |parts| ==> c !in parts[i] }

  lemma {:induction false} SplitJoin(parts: seq<string>, c: char)
    requires parts != [] && Free(parts, c)
    ensures Split(Join(parts, c), c) == parts
  {
    if |parts| == 1 {
      SplitWhole(parts[0], c);
    } else {
      SplitJoin(parts[1..], c);
      SplitOff(parts[0], c, Join(parts[1..], c));
      assert parts[0] + [c] + Join(parts[1..], c) == parts[0] + ([c] + Join(parts[1..], c));
    }
  }

  lemma {:induction false} SplitWhole(p: string, c: char)
    requires c !in p
    ensures Split(p, c) == [p]
  {
    if p != "" {
      SplitWhole(p[1..], c);
      assert [p[0]] + p[1..] == p;
    }
  }

  lemma {:induction false} SplitOff(p: string, c: char, rest: string)
    requires c !in p
    ensures Split(p + ([c] + rest), c) == [p] + Split(rest, c)
  {
    var s := p + ([c] + rest);
    if p == "" {
      assert s == [c] + rest && s[1..] == rest;
    } else {
      SplitOff(p[1..], c, rest);
      FirstOff(p, [c] + rest);
      assert [p[0]] + p[1..] == p;
      assert ([p[1..]] + Split(rest, c))[1..] == Split(rest, c);
    }
  }

  lemma FirstOff(p: string, q: string)
    requires p != ""
    ensures (p + q)[0] == p[0] && (p + q)[1..] == p[1..] + q
  {}

  lemma {:induction false} PiecesAreFree(s: string, c: char)
    ensures Free(Split(s, c), c)
  {
    if s != "" { PiecesAreFree(s[1..], c); }
  }

  lemma {:induction false} FirstPieceIsPrefix(s: string, c: char)
    ensures Split(s, c)[0] <= s
  {
    if s != "" && s[0] != c { FirstPieceIsPrefix(s[1..], c); }
  }

  lemma {:induction false} JoinIsPlain(parts: seq<string>, c: char, d: char)
    requires parts != [] && Free(parts, d) && c != d
    ensures d !in Join(parts, c)
  {
    if |parts| > 1 { JoinIsPlain(parts[1..], c, d); }
  }
}
