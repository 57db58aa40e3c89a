/** How a peer's bytes are cut into receives does not change the receipt, as long
    as no octets follow the declared length; and that condition is exact. */
module Segmentation {
  import opened HttpText
  import opened MessageHead
  import opened Receipt
  import opened Sequences

  /** The receipt as a function of the whole stream before an orderly close. */
  function OneShot(stream: string, caps: Caps): Response {
    var end := Find(stream, HEAD_END, 0);
    if end < 0 || end + 4 > caps.head then
      NoHead(Take(stream, caps.head), if |stream| >= caps.head then HeadTooLong else ClosedEarly)
    else OneShotAfter(stream[..end + 4], stream[end + 4..], caps)
  }

  function OneShotAfter(headBytes: string, body: string, caps: Caps): Response {
    var head := ParseHead(headBytes);
    if head.malformed then Response(true, headBytes, head, Unset, 0, 0, false, false, false, Nothing)
    else Conclude(headBytes, head, Classify(head.fields), BodyRead(Take(body, caps.body), |body| > caps.body, true, false))
  }

  predicate NoFailure(script: seq<Recv>) { Failed !in script }

  /** The octets after the head exceed a declared length that fits the cap. */
  predicate Excess(framing: Framing, body: string, caps: Caps) {
    framing.ContentLength? && framing.n <= caps.body && |body| > framing.n
  }

  /** The stream has a well-formed head and surplus octets behind its message. */
  predicate Surplus(stream: string, caps: Caps) {
    var end := Find(stream, HEAD_END, 0);
    && 0 <= end && end + 4 <= caps.head && !ParseHead(stream[..end + 4]).malformed
    && Excess(Classify(ParseHead(stream[..end + 4]).fields), stream[end + 4..], caps)
  }

  lemma NoFailureNext(script: seq<Recv>)
    requires NoFailure(script) && script != []
    ensures NoFailure(script[1..]) && script[0] != Failed
  {
    assert script[0] in script && forall r :: r in script[1..] ==> r in script;
  }

  // --- the head loop -------------------------------------------------------------

  /** Nothing is lost or reordered, and the loop stops only for a reason. */
  lemma {:induction false} HeadLoopConserves(script: seq<Recv>, buf: string, caps: Caps)
    requires NoFailure(script)
    ensures var h := ReadToHead(script, buf, caps);
            && h.buf + Join(h.rest) == buf + Join(script) && NoFailure(h.rest) && !h.failed
            && (h.eof ==> h.rest == [])
            && (h.eof || Find(h.buf, HEAD_END, 0) >= 0 || |h.buf| >= caps.head)
    decreases |script|
  {
    if !(Find(buf, HEAD_END, 0) >= 0 || |buf| >= caps.head) && script != [] {
      NoFailureNext(script);
      var b := if script[0].Data? then script[0].bytes else "";
      assert buf + "" == buf;
      HeadLoopConserves(script[1..], buf + b, caps);
      Associate(buf, b, Join(script[1..]));
    }
  }

  // --- the body loop -------------------------------------------------------------

  /** The body loop ends with the bounded body, whatever the cuts. */
  lemma {:induction false} BodyLoopConserves(script: seq<Recv>, body: string, eof: bool, framing: Framing, caps: Caps)
    requires NoFailure(script) && (eof ==> script == [])
    requires !Excess(framing, body + Join(script), caps)
    ensures var b, all := ReadBody(script, body, eof, framing, caps), body + Join(script);
            && b.body == Take(all, caps.body) && b.truncated == (|all| > caps.body) && !b.failed
            && (b.eof || b.truncated || (framing.ContentLength? && |b.body| == framing.n))
    decreases |script|
  {
    if |body| > caps.body {
      assert Take(body + Join(script), caps.body) == Take(body, caps.body);
    } else if eof || Satisfied(framing, body) || script == [] {
      assert Join(script) == "" ==> body + Join(script) == body;
    } else {
      NoFailureNext(script);
      var b := if script[0].Data? then script[0].bytes else "";
      assert body + "" == body;
      Associate(body, b, Join(script[1..]));
      BodyLoopConserves(script[1..], body + b, eof, framing, caps);
    }
  }

  // --- the receipt ---------------------------------------------------------------

  /** The head search in a prefix decides the search in the whole stream. */
  lemma PrefixDecides(buf: string, more: string, caps: Caps)
    ensures var p, q := Find(buf, HEAD_END, 0), Find(buf + more, HEAD_END, 0);
            && (p >= 0 ==> q == p)
            && (p < 0 && |buf| >= caps.head ==> q < 0 || q + 4 > caps.head)
  {
    FindInPrefix(buf, more, HEAD_END, 0);
  }

  predicate InCap(end: int, caps: Caps) { 0 <= end && end + 4 <= caps.head }

  /** No complete head within the cap: the refusal, its evidence and its reason. */
  lemma RefusalAgrees(buf: string, more: string, eof: bool, caps: Caps)
    requires eof ==> more == ""
    requires eof || Find(buf, HEAD_END, 0) >= 0 || |buf| >= caps.head
    requires !InCap(Find(buf, HEAD_END, 0), caps)
    ensures !InCap(Find(buf + more, HEAD_END, 0), caps)
    ensures Take(buf, caps.head) == Take(buf + more, caps.head)
    ensures Find(buf, HEAD_END, 0) >= 0 || |buf| >= caps.head <==> |buf + more| >= caps.head
  {
    PrefixDecides(buf, more, caps);
    if eof { assert buf + more == buf; }
    else { assert |buf| >= caps.head; }
  }

  /** Every cutting of the stream, before an orderly close, gives the one-shot
      receipt, provided no surplus octets follow the message. */
  lemma CutsDoNotMatter(script: seq<Recv>, caps: Caps)
    requires NoFailure(script) && !Surplus(Join(script), caps)
    ensures Receive(script, caps) == OneShot(Join(script), caps)
  {
    HeadLoopConserves(script, "", caps);
    assert "" + Join(script) == Join(script);
    OutcomeAgrees(ReadToHead(script, "", caps), Join(script), caps);
  }

  /** The head loop stopped for a reason, with the stream in its hands and ahead of it. */
  predicate Stopped(h: HeadRead, stream: string, caps: Caps) {
    && h.buf + Join(h.rest) == stream && NoFailure(h.rest) && !h.failed && (h.eof ==> h.rest == [])
    && (h.eof || Find(h.buf, HEAD_END, 0) >= 0 || |h.buf| >= caps.head)
  }

  lemma OutcomeAgrees(h: HeadRead, stream: string, caps: Caps)
    requires Stopped(h, stream, caps) && !Surplus(stream, caps)
    ensures AfterHeadLoop(h, caps) == OneShot(stream, caps)
  {
    var end := Find(h.buf, HEAD_END, 0);
    if InCap(end, caps) { BodiesAgree(h, stream, caps, end); } else { RefusalAgrees(h.buf, Join(h.rest), h.eof, caps); }
  }

  lemma BodiesAgree(h: HeadRead, stream: string, caps: Caps, end: nat)
    requires Stopped(h, stream, caps) && !Surplus(stream, caps) && end == Find(h.buf, HEAD_END, 0) && InCap(end, caps)
    ensures AfterHeadLoop(h, caps) == OneShot(stream, caps)
  {
    PrefixDecides(h.buf, Join(h.rest), caps);
    CutPrefix(h.buf, Join(h.rest), end + 4);
    BodyAgrees(h.buf[..end + 4], h.buf[end + 4..], h.rest, h.eof, caps);
  }

  lemma CutPrefix(a: string, b: string, k: nat)
    requires k <= |a|
    ensures (a + b)[..k] == a[..k] && (a + b)[k..] == a[k..] + b
  {}

  lemma BodyAgrees(headBytes: string, more: string, rest: seq<Recv>, eof: bool, caps: Caps)
    requires NoFailure(rest) && (eof ==> rest == [])
    requires ParseHead(headBytes).malformed || !Excess(Classify(ParseHead(headBytes).fields), more + Join(rest), caps)
    ensures AfterHead(headBytes, more, rest, eof, caps) == OneShotAfter(headBytes, more + Join(rest), caps)
  {
    var head := ParseHead(headBytes);
    if !head.malformed {
      var framing, all := Classify(head.fields), more + Join(rest);
      BodyLoopConserves(rest, more, eof, framing, caps);
      ConcludeAgrees(headBytes, head, framing, ReadBody(rest, more, eof, framing, caps),
                     BodyRead(Take(all, caps.body), |all| > caps.body, true, false));
    }
  }

  /** Only the body, the truncation and, for a close-delimited body, the end of the
      stream matter to the conclusion. */
  lemma ConcludeAgrees(headBytes: string, head: Head, framing: Framing, a: BodyRead, b: BodyRead)
    requires a.body == b.body && a.truncated == b.truncated && !a.failed && !b.failed
    requires a.eof || a.truncated || framing.ContentLength?
    requires b.eof
    ensures Conclude(headBytes, head, framing, a) == Conclude(headBytes, head, framing, b)
  {}
}
