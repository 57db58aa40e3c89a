/** The receipt reader: socket receives of any size are assembled into a response
    head and a bounded body (common/raw_http.hpp; framing as in section 6.3 of
    RFC 9112). */
module Receipt {
  import opened HttpText
  import opened Options
  import opened MessageHead
  import Decimal

  // --- framing -------------------------------------------------------------------

  datatype Framing = Unset | ContentLength(n: nat) | ChunkedUnqualified | CloseDelimited | Invalid

  const CL := "content-length"
  const TE := "transfer-encoding"

  function Named(fields: seq<Field>, lname: string): seq<Field> {
    if fields == [] then []
    else Named(fields[..|fields| - 1], lname) +
         if fields[|fields| - 1].lowerName == lname then [fields[|fields| - 1]] else []
  }

  /** At most eighteen digits, so the 64-bit accumulator cannot overflow. */
  function ParseDecimal(s: string): Option<nat> {
    if s != "" && |s| <= 18 && Decimal.AllDigits(s) then Some(Decimal.Value(s)) else None
  }

  /** Transfer-Encoding never qualifies; repeated Content-Length values must all be
      valid and equal. */
  function Classify(fields: seq<Field>): Framing {
    var te, cl := Named(fields, TE), Named(fields, CL);
    if te != [] then
      if |te| == 1 && Lower(te[0].value) == "chunked" && cl == [] then ChunkedUnqualified else Invalid
    else if cl == [] then CloseDelimited
    else
      var v := ParseDecimal(cl[0].value);
      if v.Some? && forall i :: 0 <= i < |cl| ==> ParseDecimal(cl[i].value) == v then ContentLength(v.value) else Invalid
  }

  /** classify_framing as it runs: one pass with the value seen so far. */
  method ClassifyFraming(fields: seq<Field>) returns (r: Framing)
    ensures r == Classify(fields)
  {
    var te, cl := Named(fields, TE), Named(fields, CL);
    if te != [] {
      return if |te| == 1 && Lower(te[0].value) == "chunked" && cl == [] then ChunkedUnqualified else Invalid;
    }
    if cl == [] { return CloseDelimited; }
    var v: int := -1;
    for i := 0 to |cl|
      invariant i == 0 <==> v == -1
      invariant v >= -1 && forall j :: 0 <= j < i ==> ParseDecimal(cl[j].value) == Some(v)
    {
      var x := ParseDecimal(cl[i].value);
      if x.None? || (v >= 0 && x.value != v) { return Invalid; }
      v := x.value;
    }
    r := ContentLength(v);
  }

  // --- receiving -----------------------------------------------------------------

  /** One recv call; the end of a script is an orderly close. */
  datatype Recv = Data(bytes: string) | Interrupted | Failed

  const CHUNK: nat := 8192

  predicate Legal(script: seq<Recv>) {
    forall i :: 0 <= i < |script| && script[i].Data? ==> 1 <= |script[i].bytes| <= CHUNK
  }

  function Join(script: seq<Recv>): string {
    if script == [] then ""
    else (if script[0].Data? then script[0].bytes else "") + Join(script[1..])
  }

  datatype Why = Nothing | HeadTooLong | ClosedEarly | RecvError

  datatype Response = Response(
    headComplete: bool, headBytes: string, head: Head, framing: Framing,
    bodyOctets: nat, bodyContent: nat, bodyTruncated: bool,
    messageComplete: bool, transportError: bool, why: Why)

  function NoHead(bytes: string, why: Why): Response {
    Response(false, bytes, NO_HEAD, Unset, 0, 0, false, false, true, why)
  }

  /** Limits on retained head and body bytes. */
  datatype Caps = Caps(head: nat, body: nat)

  function Take(s: string, n: nat): string { if |s| <= n then s else s[..n] }

  /** Where the head loop stops, and what it has not consumed. */
  datatype HeadRead = HeadRead(buf: string, rest: seq<Recv>, eof: bool, failed: bool)

  function ReadToHead(script: seq<Recv>, buf: string, caps: Caps): HeadRead
    decreases |script|
  {
    if Find(buf, HEAD_END, 0) >= 0 || |buf| >= caps.head then HeadRead(buf, script, false, false)
    else if script == [] then HeadRead(buf, [], true, false)
    else match script[0]
      case Interrupted => ReadToHead(script[1..], buf, caps)
      case Failed => HeadRead(buf, script[1..], false, true)
      case Data(b) => ReadToHead(script[1..], buf + b, caps)
  }

  datatype BodyRead = BodyRead(body: string, truncated: bool, eof: bool, failed: bool)

  predicate Satisfied(framing: Framing, body: string) { framing.ContentLength? && |body| >= framing.n }

  function ReadBody(script: seq<Recv>, body: string, eof: bool, framing: Framing, caps: Caps): BodyRead
    decreases |script|
  {
    if |body| > caps.body then BodyRead(Take(body, caps.body), true, eof, false)
    else if eof || Satisfied(framing, body) then BodyRead(body, false, eof, false)
    else if script == [] then BodyRead(body, false, true, false)
    else match script[0]
      case Interrupted => ReadBody(script[1..], body, eof, framing, caps)
      case Failed => BodyRead(body, false, false, true)
      case Data(b) => ReadBody(script[1..], body + b, eof, framing, caps)
  }

  /** The final flags, from what the body loop left. */
  function Conclude(headBytes: string, head: Head, framing: Framing, b: BodyRead): Response {
    var complete :=
      match framing
      case ContentLength(n) => !b.failed && !b.truncated && |b.body| == n
      case CloseDelimited => b.eof && !b.failed && !b.truncated
      case _ => false;
    var content := if framing.ContentLength? || framing.CloseDelimited? then |b.body| else 0;
    Response(true, headBytes, head, framing, |b.body|, content, b.truncated, complete, b.failed,
             if b.failed then RecvError else Nothing)
  }

  function AfterHead(headBytes: string, more: string, rest: seq<Recv>, eof: bool, caps: Caps): Response {
    var head := ParseHead(headBytes);
    if head.malformed then Response(true, headBytes, head, Unset, 0, 0, false, false, false, Nothing)
    else Conclude(headBytes, head, Classify(head.fields), ReadBody(rest, more, eof, Classify(head.fields), caps))
  }

  function Receive(script: seq<Recv>, caps: Caps): Response { AfterHeadLoop(ReadToHead(script, "", caps), caps) }

  /** A head within its cap is parsed and followed by its body; anything else is refused. */
  function AfterHeadLoop(h: HeadRead, caps: Caps): Response {
    var end := Find(h.buf, HEAD_END, 0);
    if end < 0 || end + 4 > caps.head then
      NoHead(Take(h.buf, caps.head),
             if h.failed then RecvError else if end >= 0 || |h.buf| >= caps.head then HeadTooLong else ClosedEarly)
    else AfterHead(h.buf[..end + 4], h.buf[end + 4..], h.rest, h.eof, caps)
  }

  /** The receive loops as they run. */
  method ReceiveLoop(script: seq<Recv>, caps: Caps) returns (r: Response)
    ensures r == Receive(script, caps)
  {
    var buf, k, end, eof, failed := "", 0, -1, false, false;
    ghost var goal := ReadToHead(script, "", caps);
    assert script[0..] == script;
    while end < 0 && |buf| < caps.head && !eof && !failed
      invariant 0 <= k <= |script| && end == Find(buf, HEAD_END, 0)
      invariant eof || failed ==> end < 0
      invariant if eof || failed then goal == HeadRead(buf, script[k..], eof, failed) && !(eof && failed)
                else goal == ReadToHead(script[k..], buf, caps)
      decreases |script| - k, !eof, !failed
    {
      if k == |script| { eof := true; break; }
      assert script[k..][1..] == script[k + 1..];
      k := k + 1;
      match script[k - 1]
      case Interrupted =>
      case Failed => failed := true;
      case Data(b) =>
        buf := buf + b;
        end := Find(buf, HEAD_END, 0);
    }
    if end < 0 || end + 4 > caps.head {
      var why := if failed then RecvError else if end >= 0 || |buf| >= caps.head then HeadTooLong else ClosedEarly;
      return NoHead(Take(buf, caps.head), why);
    }
    var headBytes := buf[..end + 4];
    var head := ReadHead(headBytes);
    if head.malformed { return Response(true, headBytes, head, Unset, 0, 0, false, false, false, Nothing); }
    var framing := ClassifyFraming(head.fields);
    var b := BodyLoop(script[k..], buf[end + 4..], eof, framing, caps);
    r := Conclude(headBytes, head, framing, b);
  }

  method BodyLoop(script: seq<Recv>, start: string, atEof: bool, framing: Framing, caps: Caps) returns (b: BodyRead)
    ensures b == ReadBody(script, start, atEof, framing, caps)
  {
    var body, k, eof, failed := start, 0, atEof, false;
    var truncated := |body| > caps.body;
    if truncated { body := body[..caps.body]; }
    assert script[0..] == script;
    ghost var goal := ReadBody(script, start, atEof, framing, caps);
    while !eof && !truncated
      invariant 0 <= k <= |script|
      invariant if truncated then goal == BodyRead(body, true, eof, false)
                else |body| <= caps.body && goal == ReadBody(script[k..], body, eof, framing, caps)
      decreases |script| - k, !eof
    {
      if Satisfied(framing, body) { break; }
      if k == |script| { eof := true; break; }
      assert script[k..][1..] == script[k + 1..];
      k := k + 1;
      match script[k - 1]
      case Interrupted =>
      case Failed => return BodyRead(body, false, false, true);
      case Data(bytes) =>
        body := body + bytes;
        if |body| > caps.body { body, truncated := body[..caps.body], true; }
    }
    b := BodyRead(body, truncated, eof, false);
  }
}
