/** The request writer of the receipt reader (common/raw_http.hpp): what it
    accepts, what it writes, and that the strict field grammar reads it back. */
module Request {
  import opened HttpText
  import opened Options
  import opened MessageHead

  datatype Header = Header(name: string, value: string)

  const TOKEN := "x-amz-rdma-token"

  predicate IsReserved(lname: string) {
    lname == "host" || lname == "connection" || lname == "content-length" || lname == "transfer-encoding"
  }

  predicate GoodTarget(target: string) {
    target != "" && target[0] == '/' && forall i :: 0 <= i < |target| ==> IsTargetChar(target[i])
  }

  predicate GoodHost(host: string) { host != "" && ValidValue(host) && ' ' !in host }

  predicate GoodHeader(h: Header) { IsName(h.name) && !IsReserved(Lower(h.name)) && ValidValue(h.value) }

  predicate BearsToken(h: Header) { Lower(h.name) == TOKEN && h.value != "" }

  function FieldText(h: Header): string { h.name + ": " + h.value + CRLF }

  function FieldTexts(hs: seq<Header>): string {
    if hs == [] then "" else FieldText(hs[0]) + FieldTexts(hs[1..])
  }

  function RequestLine(target: string): string { "GET " + target + " HTTP/1.1" + CRLF }

  datatype Build = Refused | Built(text: string, tokenBearing: bool)

  lemma {:induction false} FieldTextsAppend(a: seq<Header>, h: Header)
    ensures FieldTexts(a + [h]) == FieldTexts(a) + FieldText(h)
  {
    if a == [] {
      assert ([] + [h])[1..] == [];
    } else {
      assert (a + [h])[1..] == a[1..] + [h];
      FieldTextsAppend(a[1..], h);
    }
  }

  predicate AllGood(headers: seq<Header>) { forall i :: 0 <= i < |headers| ==> GoodHeader(headers[i]) }

  function RequestText(host: string, target: string, headers: seq<Header>): string {
    RequestLine(target) + (FieldTexts(WireFields(host, headers)) + CRLF)
  }

  predicate SomeToken(headers: seq<Header>) { exists i :: 0 <= i < |headers| && BearsToken(headers[i]) }

  /** The caller's fields, validated and written in order after `start`. */
  method WriteHeaders(start: Header, headers: seq<Header>) returns (ok: bool, token: bool, fields: string)
    ensures ok <==> AllGood(headers)
    ensures ok ==> fields == FieldTexts([start] + headers)
    ensures ok ==> (token <==> SomeToken(headers))
  {
    token := false;
    FieldTextsAppend([], start);
    fields := FieldText(start);
    var i := 0;
    assert [start] + headers[..0] == [start];
    while i < |headers|
      invariant i <= |headers| && AllGood(headers[..i])
      invariant token <==> SomeToken(headers[..i])
      invariant fields == FieldTexts([start] + headers[..i])
    {
      if !GoodHeader(headers[i]) { return false, token, fields; }
      OneMore(headers, i);
      FieldTextsNext(start, headers, i);
      token := token || BearsToken(headers[i]);
      fields := fields + FieldText(headers[i]);
      i := i + 1;
    }
    ok := true;
    assert headers[..i] == headers;
  }

  lemma OneMore(headers: seq<Header>, i: nat)
    requires i < |headers|
    ensures AllGood(headers[..i + 1]) <==> AllGood(headers[..i]) && GoodHeader(headers[i])
    ensures SomeToken(headers[..i + 1]) <==> SomeToken(headers[..i]) || BearsToken(headers[i])
  {
    AllGoodAppend(headers[..i], headers[i]);
    SomeTokenAppend(headers[..i], headers[i]);
    assert headers[..i] + [headers[i]] == headers[..i + 1];
  }

  lemma AllGoodAppend(hs: seq<Header>, h: Header)
    ensures AllGood(hs + [h]) <==> AllGood(hs) && GoodHeader(h)
  {
    assert forall i :: 0 <= i < |hs| ==> (hs + [h])[i] == hs[i];
    assert (hs + [h])[|hs|] == h;
  }

  lemma SomeTokenAppend(hs: seq<Header>, h: Header)
    ensures SomeToken(hs + [h]) <==> SomeToken(hs) || BearsToken(h)
  {
    assert forall i :: 0 <= i < |hs| ==> (hs + [h])[i] == hs[i];
    assert (hs + [h])[|hs|] == h;
  }

  lemma FieldTextsNext(start: Header, headers: seq<Header>, i: nat)
    requires i < |headers|
    ensures FieldTexts([start] + headers[..i + 1]) == FieldTexts([start] + headers[..i]) + FieldText(headers[i])
  {
    FieldTextsAppend([start] + headers[..i], headers[i]);
    assert [start] + headers[..i] + [headers[i]] == [start] + headers[..i + 1];
  }

  /** build_request: exactly one Host, the caller's fields in order, Connection. */
  method BuildRequest(host: string, target: string, headers: seq<Header>) returns (r: Build)
    ensures r.Built? <==> GoodTarget(target) && GoodHost(host) && AllGood(headers)
    ensures r.Built? ==> r.text == RequestText(host, target, headers)
    ensures r.Built? ==> (r.tokenBearing <==> SomeToken(headers))
  {
    if !GoodTarget(target) || !GoodHost(host) { return Refused; }
    var ok, token, fields := WriteHeaders(Header("Host", host), headers);
    if !ok { return Refused; }
    FieldTextsAppend([Header("Host", host)] + headers, Header("Connection", "close"));
    return Built(RequestLine(target) + (fields + FieldText(Header("Connection", "close")) + CRLF), token);
  }

  function WireFields(host: string, headers: seq<Header>): seq<Header> {
    [Header("Host", host)] + headers + [Header("Connection", "close")]
  }

  // --- the strict grammar reads the written fields back ---------------------------

  /** What the reader stores for a written field: the value up to edge blanks. */
  function Stored(h: Header): Field {
    Field(h.name, Lower(h.name), Trim(h.value), h.name + ": " + h.value)
  }

  function StoredAll(hs: seq<Header>): (r: seq<Field>)
    ensures |r| == |hs| && forall i :: 0 <= i < |hs| ==> r[i] == Stored(hs[i])
  {
    if hs == [] then [] else [Stored(hs[0])] + StoredAll(hs[1..])
  }

  predicate Plain(h: Header) { IsName(h.name) && ValidValue(h.value) }

  lemma LineHasNoCr(h: Header)
    requires Plain(h)
    ensures '\r' !in h.name + ": " + h.value
  {
    var line := h.name + ": " + h.value;
    forall i | 0 <= i < |line| ensures line[i] != '\r' {
      if i < |h.name| { assert IsTchar(h.name[i]); }
      else if i >= |h.name| + 2 { assert IsValueChar(h.value[i - |h.name| - 2]); }
    }
  }

  lemma ColonFound(name: string, rest: string)
    requires IsName(name)
    ensures Find(name + ": " + rest, ":", 0) == |name|
  {
    var line := name + ": " + rest;
    forall k: nat | k < |name| ensures !MatchAt(line, ":", k) {
      assert IsTchar(name[k]) && line[k..k + 1] == [name[k]];
    }
    assert line[|name|..|name| + 1] == ":";
    assert MatchAt(line, ":", |name|);
  }

  lemma NameIsNotBlank(c: char)
    requires IsTchar(c)
    ensures !IsBlank(c)
  {}

  lemma ValueIsTrimmed(v: string)
    ensures Trim(" " + v) == Trim(v)
  {
    assert (" " + v)[1..] == v;
  }

  lemma LineParses(h: Header)
    requires Plain(h)
    ensures ParseLine(h.name + ": " + h.value) == Some(Stored(h))
  {
    var line, n := h.name + ": " + h.value, |h.name|;
    ColonFound(h.name, h.value);
    NameIsNotBlank(h.name[0]);
    ValueIsTrimmed(h.value);
    TrimKeepsValid(h.value);
    PartsOf(line, h.name, " " + h.value);
  }

  lemma PartsOf(line: string, name: string, value: string)
    requires name != "" && line == name + ":" + value
    ensures line[..|name|] == name && line[|name| + 1..] == value && line[0] == name[0]
  {}

  /** Fields written before `tail` are read one by one, then parsing goes on there. */
  lemma {:induction false} FieldsParse(hs: seq<Header>, tail: string, acc: seq<Field>)
    requires forall i :: 0 <= i < |hs| ==> Plain(hs[i])
    ensures ParseFields(FieldTexts(hs) + tail, acc) == ParseFields(tail, acc + StoredAll(hs))
    decreases |hs|
  {
    if hs == [] {
      assert FieldTexts(hs) + tail == tail && acc + [] == acc;
    } else {
      var rest := FieldTexts(hs[1..]) + tail;
      TextOneByOne(hs, tail);
      FieldParses(hs[0], rest, acc);
      FieldsParse(hs[1..], tail, acc + [Stored(hs[0])]);
      StoredOneByOne(hs, acc);
    }
  }

  lemma TextOneByOne(hs: seq<Header>, tail: string)
    requires hs != []
    ensures FieldTexts(hs) + tail == FieldText(hs[0]) + (FieldTexts(hs[1..]) + tail)
  {}

  lemma StoredOneByOne(hs: seq<Header>, acc: seq<Field>)
    requires hs != []
    ensures acc + [Stored(hs[0])] + StoredAll(hs[1..]) == acc + StoredAll(hs)
  {}

  lemma FieldParses(h: Header, rest: string, acc: seq<Field>)
    requires Plain(h)
    ensures ParseFields(FieldText(h) + rest, acc) == ParseFields(rest, acc + [Stored(h)])
  {
    var line := h.name + ": " + h.value;
    assert FieldText(h) + rest == line + CRLF + rest;
    LineHasNoCr(h);
    LineEnds(line, rest);
    LineParses(h);
  }

  /** The field section of every accepted request is, to the strict reader, Host,
      the caller's fields in order, and Connection. */
  lemma RequestReadsBack(host: string, target: string, headers: seq<Header>)
    requires GoodHost(host) && AllGood(headers)
    ensures var text := RequestText(host, target, headers);
            ParseFields(text[|RequestLine(target)|..], []) == Complete(StoredAll(WireFields(host, headers)))
  {
    var hs := WireFields(host, headers);
    forall i | 0 <= i < |hs| ensures Plain(hs[i]) { PlainField(host, headers, i); }
    FieldsParse(hs, CRLF, []);
    assert [] + StoredAll(hs) == StoredAll(hs);
    assert MatchAt(CRLF, CRLF, 0);
    assert RequestText(host, target, headers)[|RequestLine(target)|..] == FieldTexts(hs) + CRLF;
  }

  lemma PlainField(host: string, headers: seq<Header>, i: nat)
    requires GoodHost(host) && AllGood(headers) && i < |WireFields(host, headers)|
    ensures Plain(WireFields(host, headers)[i])
  {
    if 0 < i <= |headers| { assert GoodHeader(headers[i - 1]); }
  }
}
