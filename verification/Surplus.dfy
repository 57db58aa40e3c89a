/** With surplus octets behind the declared length, two legal cuttings of the same
    stream give different receipts: the condition of CutsDoNotMatter is exact. */
module SurplusOctets {
  import opened HttpText
  import opened MessageHead
  import opened Receipt
  import opened Segmentation

  /** Octet by octet. */
  function Singles(u: string): seq<Recv> {
    if u == "" then [] else [Data([u[0]])] + Singles(u[1..])
  }

  predicate Proper(script: seq<Recv>) { Legal(script) && NoFailure(script) }

  lemma {:induction false} SinglesProper(u: string)
    ensures Proper(Singles(u))
  {
    if u != "" { SinglesProper(u[1..]); }
  }

  lemma {:induction false} JoinAppend(a: seq<Recv>, b: seq<Recv>)
    ensures Join(a + b) == Join(a) + Join(b)
  {
    if a == [] {
      assert a + b == b;
    } else {
      assert (a + b)[1..] == a[1..] + b;
      JoinAppend(a[1..], b);
    }
  }

  lemma {:induction false} JoinSingles(u: string)
    ensures Join(Singles(u)) == u
  {
    if u != "" {
      assert Singles(u)[1..] == Singles(u[1..]);
      JoinSingles(u[1..]);
    }
  }

  /** A proper prefix of a head has no head end. */
  lemma PrefixIsOpen(h: string, k: nat)
    requires EndsAtBlank(h) && k < |h|
    ensures Find(h[..k], HEAD_END, 0) == -1
  {
    FindInPrefix(h[..k], h[k..], HEAD_END, 0);
    assert h[..k] + h[k..] == h;
  }

  /** Fed octet by octet, the head loop goes on to the next script item. */
  lemma {:induction false} HeadStep(h: string, k: nat, m: nat, tail: seq<Recv>, caps: Caps)
    requires EndsAtBlank(h) && k <= m <= |h| <= caps.head
    ensures ReadToHead(Singles(h[k..m]) + tail, h[..k], caps) == ReadToHead(tail, h[..m], caps)
    decreases m - k
  {
    if k < m {
      PrefixIsOpen(h, k);
      SinglesNext(h, k, m, tail);
      GoesOn(Singles(h[k..m]) + tail, h[..k], [h[k]], caps);
      assert h[..k] + [h[k]] == h[..k + 1];
      HeadStep(h, k + 1, m, tail, caps);
    } else {
      assert Singles(h[k..m]) + tail == tail;
    }
  }

  lemma SinglesNext(h: string, k: nat, m: nat, tail: seq<Recv>)
    requires k < m <= |h|
    ensures var script := Singles(h[k..m]) + tail;
            script != [] && script[0] == Data([h[k]]) && script[1..] == Singles(h[k + 1..m]) + tail
  {
    assert h[k..m][1..] == h[k + 1..m];
  }

  /** One receive of the head loop. */
  lemma GoesOn(script: seq<Recv>, buf: string, b: string, caps: Caps)
    requires script != [] && script[0] == Data(b) && Find(buf, HEAD_END, 0) < 0 && |buf| < caps.head
    ensures ReadToHead(script, buf, caps) == ReadToHead(script[1..], buf + b, caps)
  {}

  /** Likewise the body loop, as long as the declared length is not reached. */
  lemma {:induction false} BodyStep(r: string, k: nat, m: nat, tail: seq<Recv>, n: nat, caps: Caps)
    requires k <= m <= |r| && m <= n <= caps.body
    ensures ReadBody(Singles(r[k..m]) + tail, r[..k], false, ContentLength(n), caps)
         == ReadBody(tail, r[..m], false, ContentLength(n), caps)
    decreases m - k
  {
    if k < m {
      var script := Singles(r[k..m]) + tail;
      assert r[k..m][1..] == r[k + 1..m];
      assert script[0] == Data([r[k]]) && script[1..] == Singles(r[k + 1..m]) + tail;
      assert r[..k] + [r[k]] == r[..k + 1];
      BodyStep(r, k + 1, m, tail, n, caps);
    } else {
      assert Singles(r[k..m]) + tail == tail;
    }
  }

  /** A head within its cap, declaring `n` octets, followed by more than `n`. */
  predicate Case(h: string, r: string, n: nat, caps: Caps) {
    && EndsAtBlank(h) && |h| <= caps.head && n <= caps.body && n < |r|
    && !ParseHead(h).malformed && Classify(ParseHead(h).fields) == ContentLength(n)
  }

  lemma {:induction false} SinglesAppend(u: string, v: string)
    ensures Singles(u + v) == Singles(u) + Singles(v)
  {
    if u == "" {
      assert u + v == v;
    } else {
      assert (u + v)[1..] == u[1..] + v;
      SinglesAppend(u[1..], v);
    }
  }

  /** A head fed octet by octet is followed by what comes next. */
  lemma HeadThen(h: string, tail: seq<Recv>, caps: Caps)
    requires EndsAtBlank(h) && |h| <= caps.head
    ensures Receive(Singles(h) + tail, caps) == AfterHead(h, "", tail, false, caps)
  {
    HeadIsRead(h, tail, caps);
    WholeHead(h, tail, caps);
  }

  lemma WholeHead(h: string, tail: seq<Recv>, caps: Caps)
    requires EndsAtBlank(h) && |h| <= caps.head
    ensures AfterHeadLoop(HeadRead(h, tail, false, false), caps) == AfterHead(h, "", tail, false, caps)
  {
    var end := Find(h, HEAD_END, 0);
    WholeText(h);
    HeadInCap(HeadRead(h, tail, false, false), caps, end);
  }

  lemma HeadInCap(h: HeadRead, caps: Caps, end: nat)
    requires end == Find(h.buf, HEAD_END, 0) && end + 4 <= |h.buf| && end + 4 <= caps.head
    ensures AfterHeadLoop(h, caps) == AfterHead(h.buf[..end + 4], h.buf[end + 4..], h.rest, h.eof, caps)
  {}

  lemma WholeText(h: string)
    ensures h[..|h|] == h && h[|h|..] == ""
  {}

  lemma HeadIsRead(h: string, tail: seq<Recv>, caps: Caps)
    requires EndsAtBlank(h) && |h| <= caps.head
    ensures ReadToHead(Singles(h) + tail, "", caps) == HeadRead(h, tail, false, false)
  {
    HeadStep(h, 0, |h|, tail, caps);
    assert h[0..|h|] == h && h[..0] == "" && h[..|h|] == h;
  }

  // --- octet by octet the message is complete --------------------------------------

  lemma FineBody(r: string, n: nat, caps: Caps)
    requires n <= |r| && n <= caps.body
    ensures ReadBody(Singles(r), "", false, ContentLength(n), caps) == BodyRead(r[..n], false, false, false)
  {
    assert r[..n] + r[n..] == r && r[0..n] == r[..n] && r[..0] == "";
    SinglesAppend(r[..n], r[n..]);
    BodyStep(r, 0, n, Singles(r[n..]), n, caps);
  }

  lemma FineCompletes(h: string, r: string, n: nat, caps: Caps)
    requires Case(h, r, n, caps)
    ensures Receive(Singles(h) + Singles(r), caps).messageComplete
  {
    HeadThen(h, Singles(r), caps);
    FineBody(r, n, caps);
    RightLengthCompletes(h, r, Singles(r), n, caps);
  }

  lemma RightLengthCompletes(h: string, r: string, rest: seq<Recv>, n: nat, caps: Caps)
    requires !ParseHead(h).malformed && Classify(ParseHead(h).fields) == ContentLength(n) && n <= |r|
    requires ReadBody(rest, "", false, ContentLength(n), caps) == BodyRead(r[..n], false, false, false)
    ensures AfterHead(h, "", rest, false, caps).messageComplete
  {}

  // --- one receive brings the last octet of the message and a surplus one -------------

  function Twin(c: char, d: char, after: string): seq<Recv> { [Data([c, d])] + Singles(after) }

  lemma TwinProper(u: string, c: char, d: char, after: string)
    ensures Proper(Singles(u) + Twin(c, d, after))
    ensures Join(Singles(u) + Twin(c, d, after)) == u + ([c, d] + after)
  {
    SinglesProper(u);
    SinglesProper(after);
    JoinAppend(Singles(u), Twin(c, d, after));
    JoinSingles(u);
    JoinSingles(after);
    assert Twin(c, d, after)[1..] == Singles(after);
  }

  /** Nothing declared: the receive that completes the head brings an octet. */
  lemma TwinAtHead(h: string, d: char, after: string, caps: Caps)
    requires EndsAtBlank(h) && |h| <= caps.head
    ensures var k := |h| - 1;
            ReadToHead(Singles(h[..k]) + Twin(h[k], d, after), "", caps) == HeadRead(h + [d], Singles(after), false, false)
    ensures Find(h + [d], HEAD_END, 0) == |h| - 4
  {
    var k := |h| - 1;
    assert h[..k] == h[0..k] && h[..0] == "";
    HeadStep(h, 0, k, Twin(h[k], d, after), caps);
    PrefixIsOpen(h, k);
    assert Twin(h[k], d, after)[1..] == Singles(after);
    assert h[..k] + [h[k], d] == h + [d];
    FindInPrefix(h, [d], HEAD_END, 0);
  }

  lemma EarlyOctetSpoils(h: string, d: char, rest: seq<Recv>, caps: Caps)
    requires !ParseHead(h).malformed && Classify(ParseHead(h).fields) == ContentLength(0)
    ensures !AfterHead(h, [d], rest, false, caps).messageComplete
  {}

  lemma CoarseAtHead(h: string, d: char, after: string, caps: Caps)
    requires Case(h, [d] + after, 0, caps)
    ensures !Receive(Singles(h[..|h| - 1]) + Twin(h[|h| - 1], d, after), caps).messageComplete
  {
    TwinAtHead(h, d, after, caps);
    assert (h + [d])[..|h|] == h && (h + [d])[|h|..] == [d];
    EarlyOctetSpoils(h, d, Singles(after), caps);
  }

  /** The receive that reaches the declared length brings one octet too many. */
  lemma TwinInBody(u: string, c: char, d: char, after: string, caps: Caps)
    requires |u| + 1 <= caps.body
    ensures var b := ReadBody(Singles(u) + Twin(c, d, after), "", false, ContentLength(|u| + 1), caps);
            b.truncated || |b.body| == |u| + 2
  {
    assert u[0..|u|] == u && u[..|u|] == u && u[..0] == "";
    BodyStep(u, 0, |u|, Twin(c, d, after), |u| + 1, caps);
  }

  lemma WrongLengthSpoils(h: string, rest: seq<Recv>, n: nat, caps: Caps)
    requires !ParseHead(h).malformed && Classify(ParseHead(h).fields) == ContentLength(n)
    requires var b := ReadBody(rest, "", false, ContentLength(n), caps); b.truncated || |b.body| == n + 1
    ensures !AfterHead(h, "", rest, false, caps).messageComplete
  {}

  lemma CoarseInBody(h: string, u: string, c: char, d: char, after: string, caps: Caps)
    requires Case(h, u + [c, d] + after, |u| + 1, caps)
    ensures !Receive(Singles(h) + (Singles(u) + Twin(c, d, after)), caps).messageComplete
  {
    HeadThen(h, Singles(u) + Twin(c, d, after), caps);
    TwinInBody(u, c, d, after, caps);
    WrongLengthSpoils(h, Singles(u) + Twin(c, d, after), |u| + 1, caps);
  }

  // --- the condition is exact --------------------------------------------------------

  /** A legal cutting of `stream`, and whether it completes the message. */
  predicate Cut(stream: string, script: seq<Recv>, caps: Caps, complete: bool) {
    Proper(script) && Join(script) == stream && Receive(script, caps).messageComplete == complete
  }

  lemma FineJoins(h: string, r: string)
    ensures Proper(Singles(h) + Singles(r)) && Join(Singles(h) + Singles(r)) == h + r
  {
    SinglesProper(h);
    SinglesProper(r);
    JoinAppend(Singles(h), Singles(r));
    JoinSingles(h);
    JoinSingles(r);
  }

  lemma FineCut(h: string, r: string, n: nat, caps: Caps)
    requires Case(h, r, n, caps)
    ensures Cut(h + r, Singles(h) + Singles(r), caps, true)
  {
    FineCompletes(h, r, n, caps);
    FineJoins(h, r);
  }

  lemma HeadJoins(h: string, d: char, after: string)
    requires h != ""
    ensures var k := |h| - 1;
            var script := Singles(h[..k]) + Twin(h[k], d, after);
            Proper(script) && Join(script) == h + ([d] + after)
  {
    var k := |h| - 1;
    TwinProper(h[..k], h[k], d, after);
    assert h[..k] + ([h[k], d] + after) == h + ([d] + after);
  }

  lemma HeadCut(h: string, d: char, after: string, caps: Caps)
    requires Case(h, [d] + after, 0, caps)
    ensures Cut(h + ([d] + after), Singles(h[..|h| - 1]) + Twin(h[|h| - 1], d, after), caps, false)
  {
    CoarseAtHead(h, d, after, caps);
    HeadJoins(h, d, after);
  }

  lemma CoarseJoins(h: string, u: string, c: char, d: char, after: string)
    ensures var script := Singles(h) + (Singles(u) + Twin(c, d, after));
            Proper(script) && Join(script) == h + (u + [c, d] + after)
  {
    SinglesProper(h);
    JoinSingles(h);
    TwinProper(u, c, d, after);
    JoinAppend(Singles(h), Singles(u) + Twin(c, d, after));
    assert u + ([c, d] + after) == u + [c, d] + after;
  }

  lemma BodyCut(h: string, u: string, c: char, d: char, after: string, caps: Caps)
    requires Case(h, u + [c, d] + after, |u| + 1, caps)
    ensures Cut(h + (u + [c, d] + after), Singles(h) + (Singles(u) + Twin(c, d, after)), caps, false)
  {
    CoarseInBody(h, u, c, d, after, caps);
    CoarseJoins(h, u, c, d, after);
  }

  lemma CoarseCut(h: string, r: string, n: nat, caps: Caps) returns (script: seq<Recv>)
    requires Case(h, r, n, caps)
    ensures Cut(h + r, script, caps, false)
  {
    if n == 0 {
      assert r == [r[0]] + r[1..];
      HeadCut(h, r[0], r[1..], caps);
      script := Singles(h[..|h| - 1]) + Twin(h[|h| - 1], r[0], r[1..]);
    } else {
      var u, c, d, after := r[..n - 1], r[n - 1], r[n], r[n + 1..];
      assert r == u + [c, d] + after;
      BodyCut(h, u, c, d, after, caps);
      script := Singles(h) + (Singles(u) + Twin(c, d, after));
    }
  }

  lemma HeadPart(stream: string, end: nat)
    requires end == Find(stream, HEAD_END, 0)
    ensures EndsAtBlank(stream[..end + 4]) && stream[..end + 4] + stream[end + 4..] == stream
  {
    var h, r := stream[..end + 4], stream[end + 4..];
    assert h + r == stream;
    assert stream[end..end + 4] == h[end..end + 4];
    assert MatchAt(h, HEAD_END, end);
    FindInPrefix(h, r, HEAD_END, 0);
  }

  /** The receipt depends on the cuts if and only if there are surplus octets. */
  lemma SurplusIsExact(stream: string, caps: Caps)
    ensures Surplus(stream, caps) <==> exists a, b :: Cut(stream, a, caps, true) && Cut(stream, b, caps, false)
  {
    if Surplus(stream, caps) {
      var end := Find(stream, HEAD_END, 0);
      var h, r := stream[..end + 4], stream[end + 4..];
      var n := Classify(ParseHead(h).fields).n;
      HeadPart(stream, end);
      FineCut(h, r, n, caps);
      var b := CoarseCut(h, r, n, caps);
    } else {
      forall a, b | Cut(stream, a, caps, true) && Cut(stream, b, caps, false) ensures false {
        CutsDoNotMatter(a, caps);
        CutsDoNotMatter(b, caps);
      }
    }
  }
}
