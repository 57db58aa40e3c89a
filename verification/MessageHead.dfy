/** The strict response-head grammar of the receipt reader, and the request
    writer held to the same grammar (common/raw_http.hpp; section 5 of RFC 9112). */
module MessageHead {
  import opened Decimal
  import opened HttpText
  import opened Options
  import opened Sequences

  datatype Field = Field(name: string, lowerName: string, value: string, line: string)

  // --- field lines ---------------------------------------------------------------

  predicate IsName(s: string) { s != "" && forall i :: 0 <= i < |s| ==> IsTchar(s[i]) }

  /** name ":" value, no folding; the value is kept without edge blanks. */
  function ParseLine(line: string): Option<Field>
    requires line != ""
  {
    var colon := Find(line, ":", 0);
    if IsBlank(line[0]) || colon <= 0 || !IsName(line[..colon]) || !ValidValue(Trim(line[colon + 1..])) then None
    else Some(Field(line[..colon], Lower(line[..colon]), Trim(line[colon + 1..]), line))
  }

  /** A field section: complete at its empty line, bad at a line outside the
      grammar, or out of lines. */
  datatype Section = Complete(fields: seq<Field>) | Bad(fields: seq<Field>) | Unended(fields: seq<Field>)

  function ParseFields(t: string, acc: seq<Field>): Section
    decreases |t|
  {
    var e := Find(t, CRLF, 0);
    if e < 0 then Unended(acc)
    else if e == 0 then Complete(acc)
    else match ParseLine(t[..e])
      case None => Bad(acc)
      case Some(f) => ParseFields(t[e + 2..], acc + [f])
  }

  // --- the whole head --------------------------------------------------------------

  datatype Head = Head(malformed: bool, version: string, status: nat, reason: string, fields: seq<Field>)

  const NO_HEAD := Head(true, "", 0, "", [])

  predicate IsStatusLine(line: string) {
    && |line| >= 13 && line[..7] == "HTTP/1." && IsDigit(line[7]) && line[8] == ' ' && line[12] == ' '
    && IsDigit(line[9]) && IsDigit(line[10]) && IsDigit(line[11])
  }

  function StatusOf(line: string): nat
    requires IsStatusLine(line)
  { Digit(line[9]) * 100 + Digit(line[10]) * 10 + Digit(line[11]) }

  function ParseHead(h: string): Head {
    var e := Find(h, CRLF, 0);
    if e < 0 || !IsStatusLine(h[..e]) then NO_HEAD
    else
      var line := h[..e];
      var reason := line[13..];
      if !ValidValue(reason) then Head(true, line[..8], StatusOf(line), reason, [])
      else
        var s := ParseFields(h[e + 2..], []);
        Head(!s.Complete?, line[..8], StatusOf(line), reason, s.fields)
  }

  /** The field loop as it runs: a cursor and a growing list of fields. */
  method ReadFields(h: string, start: nat) returns (s: Section)
    requires start <= |h|
    ensures s == ParseFields(h[start..], [])
  {
    var pos, fields, end := start, [], None;
    ghost var goal := ParseFields(h[start..], []);
    while end.None?
      invariant pos <= |h| && goal == if end.Some? then end.value else ParseFields(h[pos..], fields)
      decreases if end.None? then |h| - pos + 1 else 0
    {
      end, pos, fields := ReadField(h, pos, fields);
    }
    s := end.value;
  }

  /** One turn of the loop: the section ends here, or one field is read. */
  method ReadField(h: string, pos: nat, fields: seq<Field>) returns (end: Option<Section>, pos': nat, fields': seq<Field>)
    requires pos <= |h|
    ensures pos' <= |h| && (end.None? ==> pos < pos')
    ensures ParseFields(h[pos..], fields) == if end.Some? then end.value else ParseFields(h[pos'..], fields')
  {
    var e := Find(h, CRLF, pos);
    FieldStep(h, pos, e, fields);
    if e < 0 { return Some(Unended(fields)), pos, fields; }
    var line := h[pos..e];
    if line == "" { return Some(Complete(fields)), pos, fields; }
    var f := ParseLine(line);
    if f.None? { return Some(Bad(fields)), pos, fields; }
    return None, e + 2, fields + [f.value];
  }

  lemma FieldStep(h: string, pos: nat, e: int, fields: seq<Field>)
    requires pos <= |h| && e == Find(h, CRLF, pos)
    ensures e < 0 || pos <= e <= |h| - 2
    ensures ParseFields(h[pos..], fields) ==
            if e < 0 then Unended(fields)
            else if h[pos..e] == "" then Complete(fields)
            else if ParseLine(h[pos..e]).None? then Bad(fields)
            else ParseFields(h[e + 2..], fields + [ParseLine(h[pos..e]).value])
  {
    SuffixFind(h, pos, e);
    if e < 0 {
      SectionStep(h[pos..], -1, "", "", fields);
    } else {
      SectionStep(h[pos..], e - pos, h[pos..e], h[e + 2..], fields);
    }
  }

  lemma SectionStep(t: string, e: int, line: string, rest: string, fields: seq<Field>)
    requires e == Find(t, CRLF, 0) && (e >= 0 ==> e + 2 <= |t| && t[..e] == line && t[e + 2..] == rest)
    ensures ParseFields(t, fields) ==
            if e < 0 then Unended(fields)
            else if line == "" then Complete(fields)
            else if ParseLine(line).None? then Bad(fields)
            else ParseFields(rest, fields + [ParseLine(line).value])
  {}

  /** The suffix's first line, in terms of the whole. */
  lemma SuffixFind(h: string, pos: nat, e: int)
    requires pos <= |h| && e == Find(h, CRLF, pos)
    ensures var t := h[pos..];
            && Find(t, CRLF, 0) == (if e < 0 then -1 else e - pos)
            && (e >= 0 ==> pos <= e && e + 2 <= |h| && t[..e - pos] == h[pos..e] && t[e - pos + 2..] == h[e + 2..])
  {
    FindInSuffix(h, CRLF, pos);
  }

  method ReadHead(h: string) returns (r: Head)
    ensures r == ParseHead(h)
  {
    var e := Find(h, CRLF, 0);
    if e < 0 || !IsStatusLine(h[..e]) { return NO_HEAD; }
    var line := h[..e];
    r := Head(true, line[..8], StatusOf(line), line[13..], []);
    if !ValidValue(r.reason) { return; }
    var s := ReadFields(h, e + 2);
    r := r.(malformed := !s.Complete?, fields := s.fields);
  }

  // --- printing a parsed head gives back its bytes ------------------------------------

  function PrintLines(fields: seq<Field>): string {
    if fields == [] then "" else fields[0].line + CRLF + PrintLines(fields[1..])
  }

  function PrintStatus(n: nat): string
    requires n < 1000
  { [DigitChar(n / 100), DigitChar(n / 10 % 10), DigitChar(n % 10)] }

  function PrintHead(h: Head): string
    requires h.status < 1000
  {
    h.version + " " + PrintStatus(h.status) + " " + h.reason + CRLF + PrintLines(h.fields) + CRLF
  }

  /** The bytes end exactly at their first blank line. */
  predicate EndsAtBlank(h: string) { |h| >= 4 && Find(h, HEAD_END, 0) == |h| - 4 }

  /** The rest of such bytes, from the start of one of their lines. */
  predicate Lines(t: string) { |t| >= 2 && EndsAtBlank(CRLF + t) }

  /** Cutting the first line off leaves lines; an empty first line is the last. */
  lemma CutLine(u: string)
    requires EndsAtBlank(u)
    ensures var e := Find(u, CRLF, 0); e >= 0 && u == u[..e] + CRLF + u[e + 2..] && Lines(u[e + 2..])
  {
    BlankIsCrLf(u, |u| - 4);
    var e := Find(u, CRLF, 0);
    CutAt(u, e);
    SearchLater(u, e);
    FindInSuffix(u, HEAD_END, e);
  }

  lemma BlankIsCrLf(u: string, k: nat)
    requires MatchAt(u, HEAD_END, k)
    ensures MatchAt(u, CRLF, k)
  {
    assert u[k..k + 4][..2] == u[k..k + 2];
  }

  lemma CutAt(u: string, e: nat)
    requires MatchAt(u, CRLF, e)
    ensures u == u[..e] + CRLF + u[e + 2..] && u[e..] == CRLF + u[e + 2..]
  {
    assert u == u[..e] + u[e..e + 2] + u[e + 2..];
    assert u[e..] == u[e..e + 2] + u[e + 2..];
  }

  /** Nothing before the first CRLF can start a blank line. */
  lemma SearchLater(u: string, e: nat)
    requires EndsAtBlank(u) && e == Find(u, CRLF, 0)
    ensures Find(u, HEAD_END, e) == |u| - 4
  {
    forall k: nat | k < e ensures !MatchAt(u, HEAD_END, k) {
      if MatchAt(u, HEAD_END, k) { BlankIsCrLf(u, k); }
    }
    BlankIsCrLf(u, |u| - 4);
  }

  lemma CutSection(t: string)
    requires Lines(t)
    ensures var e := Find(t, CRLF, 0);
            e >= 0 && t == t[..e] + CRLF + t[e + 2..] && (if e == 0 then t == CRLF else Lines(t[e + 2..]))
  {
    var u := CRLF + t;
    FindInSuffix(u, CRLF, 2);
    assert u[2..] == t;
    if MatchAt(t, CRLF, 0) {
      assert u[..4] == CRLF + t[..2];
      assert MatchAt(u, HEAD_END, 0);
      assert t[..2] == CRLF && t == CRLF;
    } else {
      SectionEnds(t);
      CutLine(t);
    }
  }

  lemma SectionEnds(t: string)
    requires Lines(t) && !MatchAt(t, CRLF, 0)
    ensures EndsAtBlank(t)
  {
    LongEnough(t);
    forall k: nat | k < |t| - 4 ensures !MatchAt(t, HEAD_END, k) { Shifted(t, k); }
    Shifted(t, |t| - 4);
  }

  lemma LongEnough(t: string)
    requires Lines(t) && !MatchAt(t, CRLF, 0)
    ensures |t| >= 4
  {
    CrLfChars(t);
    NotShort(t, CRLF + t);
  }

  lemma NotShort(t: string, u: string)
    requires |t| >= 2 && u == CRLF + t && MatchAt(u, HEAD_END, |t| - 2) && !(t[0] == '\r' && t[1] == '\n')
    ensures |t| >= 4
  {
    assert u[1] == '\n' && u[2] == t[0] && u[3] == t[1];
    BlankChars(u, |t| - 2);
  }

  lemma BlankChars(u: string, k: nat)
    ensures MatchAt(u, HEAD_END, k) ==>
              k + 4 <= |u| && u[k] == '\r' && u[k + 1] == '\n' && u[k + 2] == '\r' && u[k + 3] == '\n'
  {
    if k + 4 <= |u| {
      var w := u[k..k + 4];
      assert w[0] == u[k] && w[1] == u[k + 1] && w[2] == u[k + 2] && w[3] == u[k + 3];
    }
  }

  lemma CrLfChars(t: string)
    requires |t| >= 2
    ensures MatchAt(t, CRLF, 0) <==> t[0] == '\r' && t[1] == '\n'
  {
    assert t[0..2] == [t[0], t[1]];
  }

  lemma Shifted(t: string, k: nat)
    requires k + 4 <= |t|
    ensures MatchAt(t, HEAD_END, k) <==> MatchAt(CRLF + t, HEAD_END, k + 2)
  {
    assert t[k..k + 4] == (CRLF + t)[k + 2..k + 6];
  }

  lemma {:induction false} FieldsReprint(t: string, acc: seq<Field>)
    requires Lines(t)
    ensures Reprints(t, acc, ParseFields(t, acc))
    decreases |t|
  {
    CutSection(t);
    var e := Find(t, CRLF, 0);
    if e == 0 {
      assert acc[|acc|..] == [];
    } else if ParseLine(t[..e]).Some? {
      var f := ParseLine(t[..e]).value;
      FieldsReprint(t[e + 2..], acc + [f]);
      var s := ParseFields(t[e + 2..], acc + [f]);
      OneLineMore(t, e, acc, f, s);
    }
  }

  /** The section has its end, and if it is complete, its new fields print back to it. */
  predicate Reprints(t: string, acc: seq<Field>, s: Section) {
    !s.Unended? && (s.Complete? ==> acc <= s.fields && t == PrintLines(s.fields[|acc|..]) + CRLF)
  }

  lemma OneLineMore(t: string, e: nat, acc: seq<Field>, f: Field, s: Section)
    requires e + 2 <= |t| && t == t[..e] + CRLF + t[e + 2..] && f.line == t[..e]
    requires Reprints(t[e + 2..], acc + [f], s)
    ensures Reprints(t, acc, s)
  {
    if s.Complete? { OneFieldMore(t, e, acc, f, s.fields); }
  }

  lemma OneFieldMore(t: string, e: nat, acc: seq<Field>, f: Field, fields: seq<Field>)
    requires e + 2 <= |t| && t == t[..e] + CRLF + t[e + 2..] && f.line == t[..e]
    requires acc + [f] <= fields && t[e + 2..] == PrintLines(fields[|acc| + 1..]) + CRLF
    ensures acc <= fields && t == PrintLines(fields[|acc|..]) + CRLF
  {
    assert fields[|acc|] == (acc + [f])[|acc|] == f;
    assert fields[|acc|..][1..] == fields[|acc| + 1..];
    assert t == f.line + CRLF + (PrintLines(fields[|acc| + 1..]) + CRLF);
  }

  lemma StatusDigits(line: string)
    requires IsStatusLine(line)
    ensures StatusOf(line) < 1000 && PrintStatus(StatusOf(line)) == line[9..12]
  {
    var a, b, c := Digit(line[9]), Digit(line[10]), Digit(line[11]);
    ThreeDigits(a, b, c);
    assert DigitChar(a) == line[9] && DigitChar(b) == line[10] && DigitChar(c) == line[11];
    assert line[9..12] == [line[9], line[10], line[11]];
  }

  lemma ThreeDigits(a: nat, b: nat, c: nat)
    requires a < 10 && b < 10 && c < 10
    ensures var n := a * 100 + b * 10 + c; n / 100 == a && n / 10 % 10 == b && n % 10 == c
  {}

  lemma StatusReprints(line: string)
    requires IsStatusLine(line)
    ensures StatusOf(line) < 1000
    ensures line == line[..8] + " " + PrintStatus(StatusOf(line)) + " " + line[13..]
  {
    StatusDigits(line);
    assert line == line[..8] + [line[8]] + line[9..12] + [line[12]] + line[13..];
  }

  /** A head that ends at its first blank line never runs out of lines; if it is
      not malformed, its status line and stored field lines reproduce its bytes. */
  lemma HeadReprints(h: string)
    requires EndsAtBlank(h)
    ensures Find(h, CRLF, 0) >= 0 && !ParseFields(h[Find(h, CRLF, 0) + 2..], []).Unended?
    ensures !ParseHead(h).malformed ==> ParseHead(h).status < 1000 && PrintHead(ParseHead(h)) == h
  {
    CutLine(h);
    var e := Find(h, CRLF, 0);
    FieldsReprint(h[e + 2..], []);
    if !ParseHead(h).malformed {
      var s := ParseFields(h[e + 2..], []);
      assert s.fields[0..] == s.fields;
      StatusReprints(h[..e]);
      Reassembled(h, e, s.fields, ParseHead(h));
    }
  }

  lemma Reassembled(h: string, e: nat, fields: seq<Field>, r: Head)
    requires e + 2 <= |h| && h == h[..e] + CRLF + h[e + 2..] && h[e + 2..] == PrintLines(fields) + CRLF
    requires r.status < 1000 && r.fields == fields
    requires h[..e] == r.version + " " + PrintStatus(r.status) + " " + r.reason
    ensures PrintHead(r) == h
  {
    Associate(h[..e] + CRLF, PrintLines(fields), CRLF);
  }
}
