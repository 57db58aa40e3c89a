/** Canonical header values and percent-encoded paths of SigV4 (common/sigv4.hpp;
    unreserved characters as in section 2.3 of RFC 3986). */
module Canonical {
  import opened HttpText
  import opened Request
  import opened Sequences

  // --- header values -----------------------------------------------------------------

  /** The blank-separated words of a string. */
  function Words(v: string): seq<string> {
    if v == "" then []
    else
      var before, c := v[..|v| - 1], v[|v| - 1];
      var ws := Words(before);
      if IsBlank(c) then ws
      else if before == "" || IsBlank(before[|before| - 1]) || ws == [] then ws + [[c]]
      else ws[..|ws| - 1] + [ws[|ws| - 1] + [c]]
  }

  /** Words joined by single spaces. */
  function Spaced(ws: seq<string>): string {
    if ws == [] then "" else if |ws| == 1 then ws[0] else Spaced(ws[..|ws| - 1]) + " " + ws[|ws| - 1]
  }

  function CanonicalValue(v: string): string { Spaced(Words(v)) }

  lemma {:induction false} WordsAreWords(v: string)
    ensures forall i :: 0 <= i < |Words(v)| ==> Words(v)[i] != "" && forall j :: 0 <= j < |Words(v)[i]| ==> !IsBlank(Words(v)[i][j])
    ensures v != "" && !IsBlank(v[|v| - 1]) ==> Words(v) != []
  {
    if v != "" { WordsAreWords(v[..|v| - 1]); }
  }

  lemma SpacedNext(ws: seq<string>, w: string)
    ensures Spaced(ws + [w]) == if ws == [] then w else Spaced(ws) + " " + w
  {
    assert (ws + [w])[..|ws|] == ws;
  }

  lemma SpacedGrows(ws: seq<string>, c: char)
    requires ws != []
    ensures Spaced(ws[..|ws| - 1] + [ws[|ws| - 1] + [c]]) == Spaced(ws) + [c]
  {
    var before, last := ws[..|ws| - 1], ws[|ws| - 1];
    SpacedNext(before, last + [c]);
    assert Spaced(before) + " " + (last + [c]) == Spaced(before) + " " + last + [c];
  }

  lemma SpacedEmpty(ws: seq<string>)
    requires forall i :: 0 <= i < |ws| ==> ws[i] != ""
    ensures Spaced(ws) == "" <==> ws == []
  {
    if |ws| > 1 { assert ws[|ws| - 1] != ""; }
  }

  /** canonical_value as it runs: an output and a pending space. */
  method CanonicalLoop(v: string) returns (out: string)
    ensures out == CanonicalValue(v)
  {
    out := "";
    var pending := false;
    for i := 0 to |v|
      invariant out == Spaced(Words(v[..i]))
      invariant pending <==> out != "" && IsBlank(v[i - 1])
    {
      var c := v[i];
      var ws := Words(v[..i]);
      assert v[..i + 1][..i] == v[..i];
      WordsAreWords(v[..i]);
      SpacedEmpty(ws);
      if IsBlank(c) {
        pending := out != "";
      } else {
        if i > 0 && !IsBlank(v[i - 1]) { SpacedGrows(ws, c); } else { SpacedNext(ws, [c]); }
        if pending { out := out + " "; }
        pending := false;
        out := out + [c];
      }
    }
    assert v[..|v|] == v;
  }

  // --- edge blanks do not matter --------------------------------------------------------

  lemma {:induction false} LeadingBlank(b: char, v: string)
    requires IsBlank(b)
    ensures Words([b] + v) == Words(v)
    decreases |v|
  {
    var u := [b] + v;
    if v == "" {
      assert u[..0] == "";
    } else {
      var n := |v| - 1;
      assert u[..|u| - 1] == [b] + v[..n];
      LeadingBlank(b, v[..n]);
      WordsAreWords(v[..n]);
      if n > 0 { assert ([b] + v[..n])[n] == v[n - 1]; }
    }
  }

  lemma {:induction false} TrimLeftKeepsWords(v: string)
    ensures Words(TrimLeft(v)) == Words(v)
  {
    if v != "" && IsBlank(v[0]) {
      TrimLeftKeepsWords(v[1..]);
      LeadingBlank(v[0], v[1..]);
      assert [v[0]] + v[1..] == v;
    }
  }

  lemma {:induction false} TrimRightKeepsWords(v: string)
    ensures Words(TrimRight(v)) == Words(v)
  {
    if v != "" && IsBlank(v[|v| - 1]) { TrimRightKeepsWords(v[..|v| - 1]); }
  }

  lemma TrimKeepsCanonical(v: string)
    ensures CanonicalValue(Trim(v)) == CanonicalValue(v)
  {
    TrimLeftKeepsWords(v);
    TrimRightKeepsWords(TrimLeft(v));
  }

  lemma {:induction false} NoBlankIsCanonical(v: string)
    requires forall i :: 0 <= i < |v| ==> !IsBlank(v[i])
    ensures CanonicalValue(v) == v && (v != "" ==> Words(v) == [v])
  {
    if v != "" {
      var before := v[..|v| - 1];
      NoBlankIsCanonical(before);
      if before != "" { assert before[|before| - 1] == v[|v| - 2]; }
      assert v == before + [v[|v| - 1]];
    }
  }

  /** A canonical value is its own canonical value. */
  lemma {:induction false} SpacedWords(ws: seq<string>)
    requires forall i :: 0 <= i < |ws| ==> ws[i] != "" && forall j :: 0 <= j < |ws[i]| ==> !IsBlank(ws[i][j])
    ensures Words(Spaced(ws)) == ws
  {
    if |ws| == 1 {
      NoBlankIsCanonical(ws[0]);
    } else if |ws| > 1 {
      var before, last := ws[..|ws| - 1], ws[|ws| - 1];
      SpacedWords(before);
      SpacedNext(before, last);
      assert before + [last] == ws;
      NextWord(Spaced(before), last);
    }
  }

  lemma NextWord(s: string, w: string)
    requires w != "" && forall j :: 0 <= j < |w| ==> !IsBlank(w[j])
    ensures Words(s + " " + w) == Words(s) + [w]
  {
    WordAppends(s + " ", w);
    assert (s + " ")[..|s|] == s;
  }

  /** A word typed after a blank becomes the next word. */
  lemma {:induction false} WordAppends(u: string, w: string)
    requires w != "" && (u == "" || IsBlank(u[|u| - 1])) && forall j :: 0 <= j < |w| ==> !IsBlank(w[j])
    ensures Words(u + w) == Words(u) + [w]
    decreases |w|
  {
    var v, c := w[..|w| - 1], w[|w| - 1];
    Unsnoc(w);
    if v == "" {
      WordStarts(u, c);
    } else {
      WordAppends(u, v);
      LastOfBoth(u, v);
      WordGrows(u + v, c, Words(u), v);
      Associate(u, v, [c]);
    }
  }

  lemma LastOfBoth(u: string, v: string)
    requires v != ""
    ensures (u + v)[|u + v| - 1] == v[|v| - 1]
  {}

  lemma WordStarts(u: string, c: char)
    requires (u == "" || IsBlank(u[|u| - 1])) && !IsBlank(c)
    ensures Words(u + [c]) == Words(u) + [[c]]
  {
    assert (u + [c])[..|u|] == u;
  }

  lemma WordGrows(t: string, c: char, ws: seq<string>, w: string)
    requires t != "" && !IsBlank(t[|t| - 1]) && !IsBlank(c) && Words(t) == ws + [w]
    ensures Words(t + [c]) == ws + [w + [c]]
  {
    assert (t + [c])[..|t|] == t;
    assert (ws + [w])[..|ws|] == ws;
  }

  lemma CanonicalIsStable(v: string)
    ensures CanonicalValue(CanonicalValue(v)) == CanonicalValue(v)
  {
    WordsAreWords(v);
    SpacedWords(Words(v));
  }

  // --- percent encoding --------------------------------------------------------------

  predicate Passes(c: char, keepSlash: bool) {
    IsAlnum(c) || c == '-' || c == '_' || c == '.' || c == '~' || (keepSlash && c == '/')
  }

  function HexDigit(d: nat): char
    requires d < 16
  { if d < 10 then '0' + d as char else 'A' + (d - 10) as char }

  function EncodeChar(c: char, keepSlash: bool): string
    requires c as int < 256
  {
    if Passes(c, keepSlash) then [c] else ['%', HexDigit(c as int / 16), HexDigit(c as int % 16)]
  }

  function UriEncode(s: string, keepSlash: bool): string
    requires Octets(s)
  {
    if s == "" then "" else UriEncode(s[..|s| - 1], keepSlash) + EncodeChar(s[|s| - 1], keepSlash)
  }

  /** uri_encode as it runs. */
  method UriEncodeLoop(s: string, keepSlash: bool) returns (out: string)
    requires Octets(s)
    ensures out == UriEncode(s, keepSlash)
  {
    out := "";
    for i := 0 to |s|
      invariant out == UriEncode(s[..i], keepSlash)
    {
      assert s[..i + 1][..i] == s[..i];
      if Passes(s[i], keepSlash) { out := out + [s[i]]; }
      else { out := out + ['%', HexDigit(s[i] as int / 16), HexDigit(s[i] as int % 16)]; }
    }
    assert s[..|s|] == s;
  }

  function HexValue(c: char): (d: nat)
    ensures d < 16
  {
    if '0' <= c <= '9' then c as int - '0' as int else if 'A' <= c <= 'F' then c as int - 'A' as int + 10 else 0
  }

  /** Reads an encoded string backwards: a hex pair behind '%' is one octet. */
  function UriDecode(t: string): string {
    if t == "" then ""
    else if |t| >= 3 && t[|t| - 3] == '%' then
      UriDecode(t[..|t| - 3]) + [(HexValue(t[|t| - 2]) * 16 + HexValue(t[|t| - 1])) as char]
    else UriDecode(t[..|t| - 1]) + [t[|t| - 1]]
  }

  lemma HexRoundTrip(c: char)
    requires c as int < 256
    ensures HexValue(HexDigit(c as int / 16)) * 16 + HexValue(HexDigit(c as int % 16)) == c as int
  {}

  /** No '%' stands where the backward reader would mistake it for an escape. */
  lemma {:induction false} NoStrayPercent(s: string, keepSlash: bool)
    requires Octets(s)
    ensures var t := UriEncode(s, keepSlash);
            && (forall i :: 0 <= i < |t| && t[i] == '%' ==> i + 2 < |t|)
            && (|t| >= 1 ==> t[|t| - 1] != '%') && (|t| >= 2 ==> t[|t| - 2] != '%')
  {
    if s != "" { NoStrayPercent(s[..|s| - 1], keepSlash); }
  }

  lemma {:induction false} UriRoundTrip(s: string, keepSlash: bool)
    requires Octets(s)
    ensures UriDecode(UriEncode(s, keepSlash)) == s
  {
    if s != "" {
      var before, c := s[..|s| - 1], s[|s| - 1];
      var t := UriEncode(before, keepSlash);
      UriRoundTrip(before, keepSlash);
      NoStrayPercent(before, keepSlash);
      if Passes(c, keepSlash) { DecodePlain(t, c); } else { DecodeEscape(t, c); }
      assert before + [c] == s;
    }
  }

  lemma DecodePlain(t: string, c: char)
    requires |t| >= 2 ==> t[|t| - 2] != '%'
    ensures UriDecode(t + [c]) == UriDecode(t) + [c]
  {
    EndsOf(t, c);
    LastIsPlain(t + [c]);
  }

  lemma EndsOf(t: string, c: char)
    ensures var u := t + [c];
            u[|u| - 1] == c && u[..|u| - 1] == t && (|t| >= 2 ==> u[|u| - 3] == t[|t| - 2])
  {}

  lemma LastIsPlain(u: string)
    requires u != "" && (|u| >= 3 ==> u[|u| - 3] != '%')
    ensures UriDecode(u) == UriDecode(u[..|u| - 1]) + [u[|u| - 1]]
  {}

  lemma DecodeEscape(t: string, c: char)
    requires c as int < 256
    ensures UriDecode(t + ['%', HexDigit(c as int / 16), HexDigit(c as int % 16)]) == UriDecode(t) + [c]
  {
    HexRoundTrip(c);
    assert (t + ['%', HexDigit(c as int / 16), HexDigit(c as int % 16)])[..|t|] == t;
  }

  lemma {:induction false} EncodedIsTarget(s: string, keepSlash: bool)
    requires Octets(s)
    ensures forall i :: 0 <= i < |UriEncode(s, keepSlash)| ==> IsTargetChar(UriEncode(s, keepSlash)[i])
    ensures keepSlash && s != "" && s[0] == '/' ==> UriEncode(s, keepSlash) != "" && UriEncode(s, keepSlash)[0] == '/'
  {
    if s != "" {
      EncodedIsTarget(s[..|s| - 1], keepSlash);
      EscapeIsTarget(s[|s| - 1], keepSlash);
    }
  }

  lemma EscapeIsTarget(c: char, keepSlash: bool)
    requires c as int < 256
    ensures forall i :: 0 <= i < |EncodeChar(c, keepSlash)| ==> IsTargetChar(EncodeChar(c, keepSlash)[i])
  {}

  /** Every path that starts with '/' encodes to a target the request writer takes. */
  lemma EncodedPathIsGood(path: string)
    requires Octets(path) && path != "" && path[0] == '/'
    ensures GoodTarget(UriEncode(path, true))
  {
    EncodedIsTarget(path, true);
  }
}
