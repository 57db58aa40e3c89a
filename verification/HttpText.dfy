/** Characters, searching and trimming shared by the HTTP request writer and the
    receipt reader (common/raw_http.hpp).  An octet is a char; everything below
    holds for any char. */
module HttpText {

  const CRLF := "\r\n"
  const HEAD_END := "\r\n\r\n"

  /** Characters that fit one byte. */
  predicate Octets(s: string) { forall i :: 0 <= i < |s| ==> s[i] as int < 256 }

  predicate IsAlnum(c: char) { 'A' <= c <= 'Z' || 'a' <= c <= 'z' || '0' <= c <= '9' }

  /** Field-name characters. */
  predicate IsTchar(c: char) { IsAlnum(c) || c in "!#$%&'*+-.^_`|~" }

  /** Bytes an origin-form request target may carry. */
  predicate IsTargetChar(c: char) { IsAlnum(c) || c in "-._~%!$&'()*+,;=:@/?" }

  /** No control character except the tab. */
  predicate IsValueChar(c: char) { !(c < ' ' && c != '\t') && c != 0x7f as char }

  predicate ValidValue(v: string) { forall i :: 0 <= i < |v| ==> IsValueChar(v[i]) }

  predicate IsBlank(c: char) { c == ' ' || c == '\t' }

  function LowerChar(c: char): char { if 'A' <= c <= 'Z' then c - 'A' + 'a' else c }

  function Lower(s: string): (r: string)
    ensures |r| == |s|
    ensures forall i :: 0 <= i < |s| ==> r[i] == LowerChar(s[i])
  {
    if s == "" then "" else [LowerChar(s[0])] + Lower(s[1..])
  }

  /** `s` without blanks at either edge. */
  function TrimLeft(s: string): string { if s != "" && IsBlank(s[0]) then TrimLeft(s[1..]) else s }

  function TrimRight(s: string): string {
    if s != "" && IsBlank(s[|s| - 1]) then TrimRight(s[..|s| - 1]) else s
  }

  function Trim(s: string): string { TrimRight(TrimLeft(s)) }

  lemma {:induction false} TrimLeftIsSuffix(s: string)
    ensures |TrimLeft(s)| <= |s| && TrimLeft(s) == s[|s| - |TrimLeft(s)|..]
    ensures TrimLeft(s) != "" ==> !IsBlank(TrimLeft(s)[0])
  {
    if s != "" && IsBlank(s[0]) { TrimLeftIsSuffix(s[1..]); }
  }

  lemma {:induction false} TrimRightIsPrefix(s: string)
    ensures |TrimRight(s)| <= |s| && TrimRight(s) == s[..|TrimRight(s)|]
    ensures TrimRight(s) != "" ==> !IsBlank(TrimRight(s)[|TrimRight(s)| - 1])
  {
    if s != "" && IsBlank(s[|s| - 1]) { TrimRightIsPrefix(s[..|s| - 1]); }
  }

  lemma TrimKeepsValid(s: string)
    requires ValidValue(s)
    ensures ValidValue(Trim(s))
  {
    TrimLeftIsSuffix(s);
    TrimRightIsPrefix(TrimLeft(s));
  }

  // --- std::string::find ---------------------------------------------------------

  predicate MatchAt(h: string, pat: string, i: nat) { i + |pat| <= |h| && h[i..i + |pat|] == pat }

  /** The match at `k` is the first at or after `from`. */
  predicate FirstAt(h: string, pat: string, from: nat, k: nat) {
    from <= k && MatchAt(h, pat, k) && forall j: nat :: from <= j < k ==> !MatchAt(h, pat, j)
  }

  lemma {:induction false} SomeIsFirst(h: string, pat: string, from: nat, k: nat) returns (m: nat)
    requires from <= k && MatchAt(h, pat, k)
    ensures m <= k && FirstAt(h, pat, from, m)
    decreases k - from
  {
    m := from;
    if !MatchAt(h, pat, from) { m := SomeIsFirst(h, pat, from + 1, k); }
  }

  lemma FirstExists(h: string, pat: string, from: nat)
    requires exists k: nat :: from <= k <= |h| && MatchAt(h, pat, k)
    ensures exists k: nat :: k <= |h| && FirstAt(h, pat, from, k)
  {
    var k: nat :| from <= k <= |h| && MatchAt(h, pat, k);
    var m := SomeIsFirst(h, pat, from, k);
  }

  /** The first match at or after `from`, or -1. */
  function Find(h: string, pat: string, from: nat): (r: int)
    ensures r == -1 || (from <= r && MatchAt(h, pat, r))
    ensures forall k: nat :: from <= k && (r == -1 || k < r) ==> !MatchAt(h, pat, k)
  {
    if exists k: nat :: from <= k <= |h| && MatchAt(h, pat, k) then
      FirstExists(h, pat, from);
      var k: nat :| k <= |h| && FirstAt(h, pat, from, k);
      k
    else -1
  }

  /** A match found in a prefix is the first match of the whole. */
  lemma FindInPrefix(h: string, more: string, pat: string, from: nat)
    ensures Find(h, pat, from) >= 0 ==> Find(h + more, pat, from) == Find(h, pat, from)
    ensures Find(h, pat, from) == -1 && Find(h + more, pat, from) >= 0 ==> Find(h + more, pat, from) + |pat| > |h|
  {
    forall k: nat | k + |pat| <= |h| ensures MatchAt(h, pat, k) == MatchAt(h + more, pat, k) {
      assert (h + more)[k..k + |pat|] == h[k..k + |pat|];
    }
  }

  /** Searching from `from` is searching the suffix. */
  lemma FindInSuffix(h: string, pat: string, from: nat)
    requires from <= |h|
    ensures Find(h[from..], pat, 0) == if Find(h, pat, from) < 0 then -1 else Find(h, pat, from) - from
  {
    forall k: nat | from <= k && k + |pat| <= |h| ensures MatchAt(h, pat, k) == MatchAt(h[from..], pat, k - from) {
      assert h[from..][k - from..k - from + |pat|] == h[k..k + |pat|];
    }
    var r, q := Find(h, pat, from), Find(h[from..], pat, 0);
    if r >= 0 { assert MatchAt(h[from..], pat, r - from); }
    if q >= 0 { assert MatchAt(h, pat, q + from); }
  }

  /** A line free of CR ends where its CRLF stands. */
  lemma LineEnds(line: string, rest: string)
    requires '\r' !in line
    ensures Find(line + CRLF + rest, CRLF, 0) == |line|
    ensures (line + CRLF + rest)[..|line|] == line && (line + CRLF + rest)[|line| + 2..] == rest
  {
    var t := line + CRLF + rest;
    assert t[|line|..|line| + 2] == CRLF;
    assert MatchAt(t, CRLF, |line|);
    forall k: nat | k < |line| ensures !MatchAt(t, CRLF, k) {
      assert t[k] == line[k] && line[k] in line;
    }
  }
}
