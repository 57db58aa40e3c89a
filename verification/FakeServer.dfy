/** The fake-S3 server's answer to a successful GET, as bytes on the wire, judged by the
    probe's completion authority (server/s3_server.cpp). */
module FakeServer {
  import opened HttpText
  import opened MessageHead
  import opened Request
  import opened Receipt
  import opened Segmentation
  import opened Authority
  import opened ProtocolOptions
  import opened Options
  import opened Sequences
  import Decimal

  const BODY := "OK\n"

  function StatusLine(status: nat, reason: string): string
    requires status < 1000
  {
    "HTTP/1.1 " + PrintStatus(status) + " " + reason
  }

  function HeadText(status: nat, reason: string, hs: seq<Header>): string
    requires status < 1000
  {
    StatusLine(status, reason) + CRLF + (FieldTexts(hs) + CRLF)
  }

  predicate AllPlain(hs: seq<Header>) { forall i :: 0 <= i < |hs| ==> Plain(hs[i]) }

  /** Exactly one field has this name, and this value. */
  predicate Sole(hs: seq<Header>, lname: string, value: string) {
    |Named(StoredAll(hs), lname)| == 1 && Named(StoredAll(hs), lname)[0].value == value
  }

  /** What the server sets, wherever the HTTP library puts it among its own fields: the
      reply echoes the status only to a verbatim token, the count is printed, and the
      library declares the three octets of the body. */
  predicate Answers(hs: seq<Header>, status: nat, bytes: nat, mode: TokenEncoding) {
    && AllPlain(hs) && Named(StoredAll(hs), TE) == []
    && Sole(hs, CL, "3") && Sole(hs, COUNT, Decimal.Print(bytes))
    && Sole(hs, REPLY, Decimal.Print(if mode.Verbatim? then status else 200))
  }

  // --- the head ends at its first blank line --------------------------------------------------

  /** Nothing in a line, or at its edges, looks like a blank line. */
  lemma NoBlankInLine(line: string, t: string, k: nat)
    requires line != "" && '\r' !in line && k < 2 + |line|
    ensures !MatchAt(CRLF + line + (CRLF + t), HEAD_END, k)
  {
    var u := CRLF + line + (CRLF + t);
    assert u[1] == '\n' && u[2] == line[0] && line[0] in line;
    assert k >= 2 ==> u[k] == line[k - 2] && line[k - 2] in line;
    BlankChars(u, k);
  }

  lemma PrependLine(line: string, t: string)
    requires line != "" && '\r' !in line && Lines(t)
    ensures Lines(line + CRLF + t)
  {
    var u, n := CRLF + line + (CRLF + t), 2 + |line|;
    assert u[n..] == CRLF + t && CRLF + (line + CRLF + t) == u;
    FindInSuffix(u, HEAD_END, n);
    forall k: nat | k < n ensures !MatchAt(u, HEAD_END, k) { NoBlankInLine(line, t, k); }
    FindLater(u, HEAD_END, n);
  }

  lemma FindLater(u: string, pat: string, n: nat)
    requires forall k: nat :: k < n ==> !MatchAt(u, pat, k)
    ensures Find(u, pat, 0) == Find(u, pat, n)
  {}

  lemma BlankAlone()
    ensures Lines(CRLF)
  {
    assert CRLF + CRLF == HEAD_END;
    assert HEAD_END[0..4] == HEAD_END;
    assert MatchAt(HEAD_END, HEAD_END, 0);
  }

  lemma {:induction false} FieldLines(hs: seq<Header>)
    requires AllPlain(hs)
    ensures Lines(FieldTexts(hs) + CRLF)
  {
    if hs == [] {
      BlankAlone();
      assert FieldTexts(hs) + CRLF == CRLF;
    } else {
      FieldLines(hs[1..]);
      var line, rest := hs[0].name + ": " + hs[0].value, FieldTexts(hs[1..]) + CRLF;
      LineHasNoCr(hs[0]);
      PrependLine(line, rest);
      TextOneByOne(hs, CRLF);
    }
  }

  /** The status line stands where every line of the section would. */
  lemma HeadEnds(line: string, t: string)
    requires line != "" && '\r' !in line && Lines(t)
    ensures EndsAtBlank(line + CRLF + t)
  {
    PrependLine(line, t);
    var h := line + CRLF + t;
    var u := CRLF + h;
    assert u[2..] == h;
    FindInSuffix(u, HEAD_END, 2);
    assert u[0] == '\r' && u[1] == '\n' && u[2] == line[0] && line[0] in line;
    BlankChars(u, 0);
    BlankChars(u, 1);
    FindLater(u, HEAD_END, 2);
  }

  // --- the head parses back ----------------------------------------------------------------------

  lemma StatusLineIsPlain(status: nat, reason: string)
    requires status < 1000 && ValidValue(reason)
    ensures '\r' !in StatusLine(status, reason) && StatusLine(status, reason) != ""
  {
    var line := StatusLine(status, reason);
    forall i | 0 <= i < |line| ensures line[i] != '\r' {
      if i < 9 { assert line[i] == "HTTP/1.1 "[i]; }
      else if i < 12 { assert line[i] == PrintStatus(status)[i - 9]; }
      else if i > 12 { assert line[i] == reason[i - 13] && IsValueChar(reason[i - 13]); }
    }
  }

  lemma StatusLineParses(status: nat, reason: string)
    requires status < 1000
    ensures var line := StatusLine(status, reason);
            IsStatusLine(line) && StatusOf(line) == status && line[13..] == reason
  {
    var line, digits := StatusLine(status, reason), PrintStatus(status);
    assert line[..7] == "HTTP/1." && line[7] == '1' && line[8] == ' ' && line[12] == ' ';
    assert line[9] == digits[0] && line[10] == digits[1] && line[11] == digits[2];
    assert line[13..] == reason;
  }

  lemma HeadParses(status: nat, reason: string, hs: seq<Header>)
    requires status < 1000 && ValidValue(reason) && AllPlain(hs)
    ensures var h := ParseHead(HeadText(status, reason, hs));
            !h.malformed && h.status == status && h.fields == StoredAll(hs)
  {
    var line, t := StatusLine(status, reason), FieldTexts(hs) + CRLF;
    StatusLineIsPlain(status, reason);
    StatusLineParses(status, reason);
    LineEnds(line, t);
    SectionParses(hs);
  }

  lemma SectionParses(hs: seq<Header>)
    requires AllPlain(hs)
    ensures ParseFields(FieldTexts(hs) + CRLF, []) == Complete(StoredAll(hs))
  {
    FieldsParse(hs, CRLF, []);
    assert [] + StoredAll(hs) == StoredAll(hs);
    assert MatchAt(CRLF, CRLF, 0);
  }

  // --- the verdict -----------------------------------------------------------------------------------

  lemma ThreeIsDeclared(hs: seq<Header>)
    requires Named(StoredAll(hs), TE) == [] && Sole(hs, CL, "3")
    ensures Classify(StoredAll(hs)) == ContentLength(3)
  {
    ThreeParses();
    SoleLengthDeclares(StoredAll(hs), 3);
  }

  lemma SoleLengthDeclares(fields: seq<Field>, n: nat)
    requires Named(fields, TE) == [] && |Named(fields, CL)| == 1 && ParseDecimal(Named(fields, CL)[0].value) == Some(n)
    ensures Classify(fields) == ContentLength(n)
  {}

  lemma ThreeParses()
    ensures ParseDecimal("3") == Some(3)
  {
    assert "3"[..0] == "";
  }

  /** The receipt of the whole answer, in one piece. */
  lemma AnswerInOnePiece(hs: seq<Header>, status: nat, reason: string, bytes: nat, mode: TokenEncoding, caps: Caps)
    requires status < 1000 && ValidValue(reason) && Answers(hs, status, bytes, mode)
    requires |HeadText(status, reason, hs)| <= caps.head && |BODY| <= caps.body
    ensures var text := HeadText(status, reason, hs) + BODY;
            && !Surplus(text, caps)
            && var r := OneShot(text, caps);
            && r.headComplete && !r.head.malformed && r.head.status == status && r.head.fields == StoredAll(hs)
            && r.messageComplete && !r.transportError && !r.bodyTruncated && r.bodyContent == 3
  {
    var head := HeadText(status, reason, hs);
    StatusLineIsPlain(status, reason);
    FieldLines(hs);
    HeadEnds(StatusLine(status, reason), FieldTexts(hs) + CRLF);
    FindInPrefix(head, BODY, HEAD_END, 0);
    CutPrefix(head, BODY, |head|);
    assert head[..|head|] == head && head[|head|..] + BODY == BODY;
    HeadParses(status, reason, hs);
    ThreeIsDeclared(hs);
  }

  lemma AnswerIsViewed(hs: seq<Header>, status: nat, bytes: nat, mode: TokenEncoding, size: nat, r: Response)
    requires Answers(hs, status, bytes, mode)
    requires r.headComplete && !r.head.malformed && r.head.status == status && r.head.fields == StoredAll(hs)
    requires r.messageComplete && !r.transportError && !r.bodyTruncated && r.bodyContent == 3
    ensures ViewReceipt(r, size) == FakeView(status, bytes, mode, size)
  {}

  /** However the server's answer is cut into receives: in Base64 mode it qualifies exactly
      when it reports the expected length and that length is the whole request; in verbatim
      mode its body always disqualifies it. */
  lemma FakeServerQualifies(hs: seq<Header>, status: nat, reason: string, bytes: nat, mode: TokenEncoding,
                            expected: nat, size: nat, caps: Caps, script: seq<Recv>)
    requires (status == 200 || status == 206) && bytes <= LONG_MAX
    requires ValidValue(reason) && Answers(hs, status, bytes, mode)
    requires |HeadText(status, reason, hs)| <= caps.head && |BODY| <= caps.body
    requires NoFailure(script) && Join(script) == HeadText(status, reason, hs) + BODY
    ensures CompletionAuthority(ViewReceipt(Receive(script, caps), size), mode, expected, size)
       <==> mode.Base64? && bytes == expected == size
  {
    AnswerInOnePiece(hs, status, reason, bytes, mode, caps);
    CutsDoNotMatter(script, caps);
    AnswerIsViewed(hs, status, bytes, mode, size, Receive(script, caps));
    FakeViewQualifies(status, bytes, mode, expected, size);
  }
}
