/** The canonical request that SigV4 signs, and the one a verifier recomputes from
    the wire (common/sigv4.hpp, common/s3_protocol.hpp). */
module SigV4 {
  import opened HttpText
  import opened Sequences
  import opened Options
  import opened MessageHead
  import opened Request
  import opened Canonical

  // --- std::map<string, string> --------------------------------------------------------

  /** Byte order of names. */
  predicate Less(a: string, b: string) {
    b != "" && (a == "" || a[0] < b[0] || (a[0] == b[0] && Less(a[1..], b[1..])))
  }

  lemma {:induction false} LessIsTotal(a: string, b: string)
    ensures Less(a, b) || Less(b, a) || a == b
    ensures !(Less(a, b) && Less(b, a)) && !Less(a, a)
  {
    if a != "" && b != "" && a[0] == b[0] {
      LessIsTotal(a[1..], b[1..]);
      assert a[1..] == b[1..] ==> [a[0]] + a[1..] == [b[0]] + b[1..];
      assert [a[0]] + a[1..] == a && [b[0]] + b[1..] == b;
    } else if a != "" {
      LessIsTotal(a[1..], a[1..]);
    }
  }

  lemma {:induction false} LessIsTransitive(a: string, b: string, c: string)
    requires Less(a, b) && Less(b, c)
    ensures Less(a, c)
  {
    if a != "" && a[0] == b[0] == c[0] { LessIsTransitive(a[1..], b[1..], c[1..]); }
  }

  datatype Entry = Entry(name: string, value: string)

  predicate Sorted(m: seq<Entry>) { forall i, j :: 0 <= i < j < |m| ==> Less(m[i].name, m[j].name) }

  /** emplace, and on a repeated name append "," and the value. */
  function Put(m: seq<Entry>, name: string, value: string): seq<Entry> {
    if m == [] then [Entry(name, value)]
    else if m[0].name == name then [Entry(name, m[0].value + "," + value)] + m[1..]
    else if Less(name, m[0].name) then [Entry(name, value)] + m
    else [m[0]] + Put(m[1..], name, value)
  }

  function Lookup(m: seq<Entry>, name: string): Option<string> {
    if m == [] then None else if m[0].name == name then Some(m[0].value) else Lookup(m[1..], name)
  }

  lemma {:induction false} PutKeepsSorted(m: seq<Entry>, name: string, value: string)
    requires Sorted(m)
    ensures Sorted(Put(m, name, value))
    ensures forall e :: e in Put(m, name, value) ==> e.name == name || exists d :: d in m && d.name == e.name
  {
    if m != [] {
      var rest := Put(m[1..], name, value);
      assert Sorted(m[1..]);
      PutKeepsSorted(m[1..], name, value);
      LessIsTotal(name, m[0].name);
      if m[0].name != name && Less(name, m[0].name) {
        forall j | 0 <= j < |m| ensures Less(name, m[j].name) {
          if j > 0 { LessIsTransitive(name, m[0].name, m[j].name); }
        }
      } else if m[0].name != name {
        forall j | 0 <= j < |rest| ensures Less(m[0].name, rest[j].name) {
          assert rest[j] in rest;
        }
      }
    }
  }

  lemma {:induction false} LookupAfterPut(m: seq<Entry>, name: string, value: string, k: string)
    requires Sorted(m)
    ensures Lookup(Put(m, name, value), k) ==
            if k != name then Lookup(m, k)
            else if Lookup(m, k).None? then Some(value) else Some(Lookup(m, k).value + "," + value)
  {
    if m != [] {
      assert Sorted(m[1..]);
      LookupAfterPut(m[1..], name, value, k);
      if m[0].name == name {
        assert ([Entry(name, m[0].value + "," + value)] + m[1..])[1..] == m[1..];
      } else if Less(name, m[0].name) {
        assert ([Entry(name, value)] + m)[1..] == m;
        AbsentBelow(m, name);
      } else {
        assert ([m[0]] + Put(m[1..], name, value))[1..] == Put(m[1..], name, value);
      }
    }
  }

  lemma {:induction false} AbsentBelow(m: seq<Entry>, name: string)
    requires Sorted(m) && (m != [] ==> Less(name, m[0].name))
    ensures Lookup(m, name).None?
  {
    if m != [] {
      LessIsTotal(name, m[0].name);
      if |m| > 1 { LessIsTransitive(name, m[0].name, m[1].name); }
      AbsentBelow(m[1..], name);
    }
  }

  lemma {:induction false} LookupIsEntry(m: seq<Entry>, i: nat)
    requires Sorted(m) && i < |m|
    ensures Lookup(m, m[i].name) == Some(m[i].value)
  {
    if i > 0 {
      LessIsTotal(m[0].name, m[i].name);
      LookupIsEntry(m[1..], i - 1);
    }
  }

  // --- what is signed --------------------------------------------------------------------

  const SHA := "x-amz-content-sha256"
  const DATE := "x-amz-date"
  const SESSION := "x-amz-security-token"
  const UNSIGNED := "UNSIGNED-PAYLOAD"

  /** Names the signer manages itself. */
  predicate IsManaged(lname: string) {
    lname == "host" || lname == DATE || lname == SHA || lname == SESSION || lname == "authorization"
  }

  /** One request to sign: `session` is empty without a session token. */
  datatype Signing = Signing(verb: string, host: string, path: string, query: string,
                             headers: seq<Header>, date: string, session: string)

  predicate NoManaged(hs: seq<Header>) { forall i :: 0 <= i < |hs| ==> !IsManaged(Lower(hs[i].name)) }

  function ManagedEntries(x: Signing): seq<Entry> {
    var m := Put(Put(Put([], "host", CanonicalValue(x.host)), SHA, UNSIGNED), DATE, x.date);
    if x.session == "" then m else Put(m, SESSION, x.session)
  }

  function WithHeaders(m: seq<Entry>, hs: seq<Header>): seq<Entry> {
    if hs == [] then m
    else Put(WithHeaders(m, hs[..|hs| - 1]), Lower(hs[|hs| - 1].name), CanonicalValue(hs[|hs| - 1].value))
  }

  function SignedEntries(x: Signing): seq<Entry> { WithHeaders(ManagedEntries(x), x.headers) }

  function Block(m: seq<Entry>): string {
    if m == [] then "" else Block(m[..|m| - 1]) + Line(m[|m| - 1])
  }

  function Line(e: Entry): string { e.name + ":" + e.value + "\n" }

  /** One more name: a separator goes in front of it unless nothing was written yet. */
  function Listed(names: string, name: string): string { (if names == "" then "" else names + ";") + name }

  function NameList(m: seq<Entry>): string {
    if m == [] then "" else Listed(NameList(m[..|m| - 1]), m[|m| - 1].name)
  }

  function RequestWith(verb: string, target: string, query: string, m: seq<Entry>, hash: string): string {
    verb + "\n" + target + "\n" + query + "\n" + (Block(m) + ("\n" + NameList(m) + "\n" + hash))
  }

  function RequestOf(verb: string, target: string, query: string, m: seq<Entry>): string {
    RequestWith(verb, target, query, m, UNSIGNED)
  }

  function CanonicalRequest(x: Signing): string
    requires Octets(x.path)
  {
    RequestOf(x.verb, UriEncode(x.path, true), x.query, SignedEntries(x))
  }

  /** The caller's headers added to the map `start`, or a managed one among them. */
  method CollectHeaders(start: seq<Entry>, headers: seq<Header>) returns (ok: bool, m: seq<Entry>)
    ensures ok <==> NoManaged(headers)
    ensures ok ==> m == WithHeaders(start, headers)
  {
    m := start;
    for i := 0 to |headers|
      invariant m == WithHeaders(start, headers[..i]) && NoManaged(headers[..i])
    {
      CollectNext(start, headers, i);
      if IsManaged(Lower(headers[i].name)) { return false, m; }
      var v := CanonicalLoop(headers[i].value);
      m := Put(m, Lower(headers[i].name), v);
    }
    ok := true;
    assert headers[..|headers|] == headers;
  }

  lemma CollectNext(start: seq<Entry>, headers: seq<Header>, i: nat)
    requires i < |headers|
    ensures WithHeaders(start, headers[..i + 1]) ==
            Put(WithHeaders(start, headers[..i]), Lower(headers[i].name), CanonicalValue(headers[i].value))
    ensures NoManaged(headers[..i + 1]) <==> NoManaged(headers[..i]) && !IsManaged(Lower(headers[i].name))
    ensures NoManaged(headers) ==> !IsManaged(Lower(headers[i].name))
  {
    assert headers[..i + 1][..i] == headers[..i];
    NoManagedAppend(headers[..i], headers[i]);
    assert headers[..i] + [headers[i]] == headers[..i + 1];
  }

  lemma NoManagedAppend(hs: seq<Header>, h: Header)
    ensures NoManaged(hs + [h]) <==> NoManaged(hs) && !IsManaged(Lower(h.name))
  {
    assert forall i :: 0 <= i < |hs| ==> (hs + [h])[i] == hs[i];
    assert (hs + [h])[|hs|] == h;
  }

  method PrintEntries(m: seq<Entry>) returns (block: string, names: string)
    ensures block == Block(m) && names == NameList(m)
  {
    block, names := "", "";
    for i := 0 to |m|
      invariant block == Block(m[..i]) && names == NameList(m[..i])
    {
      assert m[..i + 1][..i] == m[..i];
      block := block + Line(m[i]);
      if names != "" { names := names + ";"; }
      names := names + m[i].name;
    }
    assert m[..|m|] == m;
  }

  method BuildCanonicalRequest(x: Signing) returns (r: Option<string>)
    requires Octets(x.path)
    ensures r.Some? <==> NoManaged(x.headers)
    ensures r.Some? ==> r.value == CanonicalRequest(x)
  {
    var ok, m := CollectHeaders(ManagedEntries(x), x.headers);
    if !ok { return None; }
    var block, names := PrintEntries(m);
    var path := UriEncodeLoop(x.path, true);
    r := Some(x.verb + "\n" + path + "\n" + x.query + "\n" + (block + ("\n" + names + "\n" + UNSIGNED)));
  }

  lemma {:induction false} WithHeadersSorted(m: seq<Entry>, hs: seq<Header>)
    requires Sorted(m)
    ensures Sorted(WithHeaders(m, hs))
  {
    if hs != [] {
      WithHeadersSorted(m, hs[..|hs| - 1]);
      PutKeepsSorted(WithHeaders(m, hs[..|hs| - 1]), Lower(hs[|hs| - 1].name), CanonicalValue(hs[|hs| - 1].value));
    }
  }

  /** Signed names are strictly sorted, hence unique. */
  lemma SignedNamesSorted(x: Signing)
    ensures Sorted(ManagedEntries(x)) && Sorted(SignedEntries(x))
  {
    var m1 := Put([], "host", CanonicalValue(x.host));
    var m2 := Put(m1, SHA, UNSIGNED);
    var m3 := Put(m2, DATE, x.date);
    PutKeepsSorted(m1, SHA, UNSIGNED);
    PutKeepsSorted(m2, DATE, x.date);
    PutKeepsSorted(m3, SESSION, x.session);
    WithHeadersSorted(ManagedEntries(x), x.headers);
  }

  // --- values by name ------------------------------------------------------------------

  /** Two optional values of one name, first `a`, then `b`. */
  function Combine(a: Option<string>, b: Option<string>): Option<string> {
    if b.None? then a else if a.None? then b else Some(a.value + "," + b.value)
  }

  lemma CombineAssociates(a: Option<string>, b: Option<string>, c: Option<string>)
    ensures Combine(Combine(a, b), c) == Combine(a, Combine(b, c))
  {
    if a.Some? && b.Some? && c.Some? {
      assert a.value + "," + b.value + "," + c.value == a.value + "," + (b.value + "," + c.value);
    }
  }

  /** The canonical value a header list gives one name. */
  function ByName(hs: seq<Header>, name: string): Option<string> {
    if hs == [] then None
    else Combine(ByName(hs[..|hs| - 1], name),
                 if Lower(hs[|hs| - 1].name) == name then Some(CanonicalValue(hs[|hs| - 1].value)) else None)
  }

  lemma {:induction false} ByNameConcat(a: seq<Header>, b: seq<Header>, name: string)
    ensures ByName(a + b, name) == Combine(ByName(a, name), ByName(b, name))
    decreases |b|
  {
    if b == [] {
      assert a + b == a;
    } else {
      var n := |b| - 1;
      assert (a + b)[..|a| + n] == a + b[..n];
      ByNameConcat(a, b[..n], name);
      CombineAssociates(ByName(a, name), ByName(b[..n], name),
                        if Lower(b[n].name) == name then Some(CanonicalValue(b[n].value)) else None);
    }
  }

  lemma {:induction false} ByNameAbsent(hs: seq<Header>, name: string)
    requires forall i :: 0 <= i < |hs| ==> Lower(hs[i].name) != name
    ensures ByName(hs, name) == None
  {
    if hs != [] { ByNameAbsent(hs[..|hs| - 1], name); }
  }

  lemma {:induction false} SignerByName(m: seq<Entry>, hs: seq<Header>, name: string)
    requires Sorted(m)
    ensures Lookup(WithHeaders(m, hs), name) == Combine(Lookup(m, name), ByName(hs, name))
  {
    if hs != [] {
      var before, h := hs[..|hs| - 1], hs[|hs| - 1];
      SignerByName(m, before, name);
      WithHeadersSorted(m, before);
      LookupAfterPut(WithHeaders(m, before), Lower(h.name), CanonicalValue(h.value), name);
      CombineAssociates(Lookup(m, name), ByName(before, name),
                        if Lower(h.name) == name then Some(CanonicalValue(h.value)) else None);
    }
  }

  // --- what a verifier recomputes ---------------------------------------------------------

  /** The fields the signer adds to the wire, besides the caller's own. */
  function AuthHeaders(x: Signing, authorization: string): seq<Header> {
    [Header(SHA, UNSIGNED), Header(DATE, x.date)] +
    (if x.session == "" then [] else [Header(SESSION, x.session)]) + [Header("Authorization", authorization)]
  }

  /** control_plane_headers with SigV4: the caller's fields, then the signer's. */
  function SentHeaders(x: Signing, authorization: string): seq<Header> { x.headers + AuthHeaders(x, authorization) }

  /** The canonical value that received fields give one name. */
  function Received(fields: seq<Field>, name: string): Option<string> {
    if fields == [] then None
    else Combine(Received(fields[..|fields| - 1], name),
                 if fields[|fields| - 1].lowerName == name then Some(CanonicalValue(fields[|fields| - 1].value)) else None)
  }

  lemma {:induction false} ReceivedIsByName(hs: seq<Header>, name: string)
    ensures Received(StoredAll(hs), name) == ByName(hs, name)
  {
    if hs != [] {
      var n := |hs| - 1;
      ReceivedIsByName(hs[..n], name);
      assert StoredAll(hs)[..n] == StoredAll(hs[..n]);
      TrimKeepsCanonical(hs[n].value);
    }
  }

  /** For each signed name, in order, the value taken from the wire. */
  function VerifierEntries(fields: seq<Field>, names: seq<string>): (m: seq<Entry>)
    ensures |m| == |names|
    ensures forall i :: 0 <= i < |names| ==>
              m[i] == Entry(names[i], if Received(fields, names[i]).Some? then Received(fields, names[i]).value else "")
  {
    if names == [] then []
    else VerifierEntries(fields, names[..|names| - 1]) +
         [Entry(names[|names| - 1], if Received(fields, names[|names| - 1]).Some? then Received(fields, names[|names| - 1]).value else "")]
  }

  function NamesOf(m: seq<Entry>): (r: seq<string>)
    ensures |r| == |m| && forall i :: 0 <= i < |m| ==> r[i] == m[i].name
  {
    if m == [] then [] else NamesOf(m[..|m| - 1]) + [m[|m| - 1].name]
  }

  /** The canonical value one header gives one name. */
  function One(h: Header, name: string): Option<string> {
    if Lower(h.name) == name then Some(CanonicalValue(h.value)) else None
  }

  lemma OneHeader(h: Header, name: string)
    ensures ByName([h], name) == One(h, name)
  {
    assert [h][..0] == [];
  }

  lemma HeadersByName(a: Header, b: Header, token: seq<Header>, c: Header, name: string)
    ensures ByName([a, b] + token + [c], name) ==
            Combine(Combine(Combine(One(a, name), One(b, name)), ByName(token, name)), One(c, name))
  {
    assert [a] + [b] == [a, b];
    ByNameConcat([a], [b], name);
    ByNameConcat([a, b], token, name);
    ByNameConcat([a, b] + token, [c], name);
    OneHeader(a, name);
    OneHeader(b, name);
    OneHeader(c, name);
  }

  predicate NoBlanks(s: string) { ' ' !in s && '\t' !in s }

  lemma UnsignedHasNoBlanks()
    ensures NoBlanks(UNSIGNED)
  {}

  lemma LowerIs(s: string, t: string)
    requires |s| == |t| && forall i :: 0 <= i < |s| ==> LowerChar(s[i]) == t[i]
    ensures Lower(s) == t
  {}

  lemma LowerSha()
    ensures Lower(SHA) == SHA
  { LowerIs(SHA, SHA); }

  lemma LowerDate()
    ensures Lower(DATE) == DATE
  { LowerIs(DATE, DATE); }

  lemma LowerSession()
    ensures Lower(SESSION) == SESSION
  { LowerIs(SESSION, SESSION); }

  lemma LowerHost()
    ensures Lower("Host") == "host"
  { LowerIs("Host", "host"); }

  lemma LowerAuthorization()
    ensures Lower("Authorization") == "authorization"
  { LowerIs("Authorization", "authorization"); }

  lemma LowerConnection()
    ensures Lower("Connection") == "connection"
  { LowerIs("Connection", "connection"); }

  lemma OneBlankless(h: Header, lname: string, name: string)
    requires Lower(h.name) == lname && NoBlanks(h.value)
    ensures One(h, name) == if name == lname then Some(h.value) else None
  {
    assert forall i :: 0 <= i < |h.value| ==> h.value[i] in h.value;
    NoBlankIsCanonical(h.value);
  }

  /** What the signer's own fields give one name. */
  lemma AuthByName(x: Signing, authorization: string, name: string)
    requires NoBlanks(x.date)
    ensures ByName(AuthHeaders(x, authorization), name) ==
            if name == SHA then Some(UNSIGNED) else if name == DATE then Some(x.date)
            else if name == SESSION && x.session != "" then Some(CanonicalValue(x.session))
            else if name == "authorization" then Some(CanonicalValue(authorization)) else None
  {
    var token := if x.session == "" then [] else [Header(SESSION, x.session)];
    HeadersByName(Header(SHA, UNSIGNED), Header(DATE, x.date), token, Header("Authorization", authorization), name);
    ShaByName(name);
    DateByName(x.date, name);
    TokenByName(x.session, name);
    AuthorizationByName(authorization, name);
    NamesDiffer();
  }

  lemma ShaByName(name: string)
    ensures One(Header(SHA, UNSIGNED), name) == if name == SHA then Some(UNSIGNED) else None
  {
    LowerSha();
    UnsignedHasNoBlanks();
    OneBlankless(Header(SHA, UNSIGNED), SHA, name);
  }

  lemma DateByName(date: string, name: string)
    requires NoBlanks(date)
    ensures One(Header(DATE, date), name) == if name == DATE then Some(date) else None
  {
    LowerDate();
    OneBlankless(Header(DATE, date), DATE, name);
  }

  lemma TokenByName(session: string, name: string)
    ensures ByName(if session == "" then [] else [Header(SESSION, session)], name) ==
            if session != "" && name == SESSION then Some(CanonicalValue(session)) else None
  {
    LowerSession();
    OneHeader(Header(SESSION, session), name);
  }

  lemma AuthorizationByName(authorization: string, name: string)
    ensures One(Header("Authorization", authorization), name) ==
            if name == "authorization" then Some(CanonicalValue(authorization)) else None
  {
    LowerAuthorization();
  }

  lemma NamesDiffer()
    ensures "host" != SHA && "host" != DATE && "host" != SESSION && "host" != "authorization" && "host" != "connection"
    ensures SHA != DATE && SHA != SESSION && SHA != "authorization" && SHA != "connection"
    ensures DATE != SESSION && DATE != "authorization" && DATE != "connection"
    ensures SESSION != "authorization" && SESSION != "connection"
  {
    assert SHA[6] != SESSION[6] && DATE[0] != "connection"[0];
  }

  /** What the managed part of the map gives one name. */
  lemma ManagedLookup(x: Signing, name: string)
    ensures Lookup(ManagedEntries(x), name) ==
            if name == "host" then Some(CanonicalValue(x.host)) else if name == SHA then Some(UNSIGNED)
            else if name == DATE then Some(x.date)
            else if name == SESSION && x.session != "" then Some(x.session) else None
  {
    NamesDiffer();
    var m1 := Put([], "host", CanonicalValue(x.host));
    var m2 := Put(m1, SHA, UNSIGNED);
    var m3 := Put(m2, DATE, x.date);
    PutKeepsSorted(m1, SHA, UNSIGNED);
    PutKeepsSorted(m2, DATE, x.date);
    LookupAfterPut([], "host", CanonicalValue(x.host), name);
    LookupAfterPut(m1, SHA, UNSIGNED, name);
    LookupAfterPut(m2, DATE, x.date, name);
    LookupAfterPut(m3, SESSION, x.session, name);
  }

  /** What the whole request gives one name on the wire. */
  lemma WireByName(x: Signing, authorization: string, name: string)
    ensures ByName(WireFields(x.host, SentHeaders(x, authorization)), name) ==
            Combine(Combine(One(Header("Host", x.host), name),
                            Combine(ByName(x.headers, name), ByName(AuthHeaders(x, authorization), name))),
                    One(Header("Connection", "close"), name))
  {
    var host, sent, close := Header("Host", x.host), SentHeaders(x, authorization), Header("Connection", "close");
    ByNameConcat(x.headers, AuthHeaders(x, authorization), name);
    ByNameConcat([host], sent, name);
    ByNameConcat([host] + sent, [close], name);
    OneHeader(host, name);
    OneHeader(close, name);
  }

  /** The caller's headers never carry a managed or reserved name. */
  lemma CallerLacks(hs: seq<Header>, name: string)
    requires NoManaged(hs) && AllGood(hs) && (IsManaged(name) || IsReserved(name))
    ensures ByName(hs, name) == None
  {
    forall i | 0 <= i < |hs| ensures Lower(hs[i].name) != name { assert GoodHeader(hs[i]); }
    ByNameAbsent(hs, name);
  }

  /** What is signed under one name. */
  lemma SignedValue(x: Signing, name: string)
    requires NoManaged(x.headers) && AllGood(x.headers)
    ensures Lookup(SignedEntries(x), name) ==
            if name == "host" then Some(CanonicalValue(x.host)) else if name == SHA then Some(UNSIGNED)
            else if name == DATE then Some(x.date)
            else if name == SESSION then (if x.session == "" then None else Some(x.session))
            else if name == "authorization" || name == "connection" then None else ByName(x.headers, name)
  {
    SignedNamesSorted(x);
    SignerByName(ManagedEntries(x), x.headers, name);
    ManagedLookup(x, name);
    if IsManaged(name) || IsReserved(name) { CallerLacks(x.headers, name); }
  }

  /** What arrives under one name. */
  lemma WireValue(x: Signing, authorization: string, name: string)
    requires NoManaged(x.headers) && AllGood(x.headers) && NoBlanks(x.date)
    ensures ByName(WireFields(x.host, SentHeaders(x, authorization)), name) ==
            if name == "host" then Some(CanonicalValue(x.host)) else if name == SHA then Some(UNSIGNED)
            else if name == DATE then Some(x.date)
            else if name == SESSION && x.session != "" then Some(CanonicalValue(x.session))
            else if name == "authorization" then Some(CanonicalValue(authorization))
            else if name == "connection" then One(Header("Connection", "close"), name) else ByName(x.headers, name)
  {
    WireByName(x, authorization, name);
    AuthByName(x, authorization, name);
    LowerHost();
    LowerConnection();
    NamesDiffer();
    if IsManaged(name) || IsReserved(name) { CallerLacks(x.headers, name); }
  }

  /** For a signed name other than the session token, signer and wire agree. */
  lemma SignerMeetsWire(x: Signing, authorization: string, name: string)
    requires NoManaged(x.headers) && AllGood(x.headers) && NoBlanks(x.date)
    requires Lookup(SignedEntries(x), name).Some?
    ensures ByName(WireFields(x.host, SentHeaders(x, authorization)), name) ==
            if name == SESSION then Some(CanonicalValue(x.session)) else Lookup(SignedEntries(x), name)
  {
    SignedValue(x, name);
    WireValue(x, authorization, name);
  }

  // --- the verifier's request is the signed one ---------------------------------------------

  lemma {:induction false} BlockConcat(a: seq<Entry>, b: seq<Entry>)
    ensures Block(a + b) == Block(a) + Block(b)
    decreases |b|
  {
    if b == [] {
      assert a + b == a;
    } else {
      var before, last := b[..|b| - 1], b[|b| - 1];
      BlockConcat(a, before);
      BlockNext(a + before, last);
      BlockNext(before, last);
      Unsnoc(b);
      Associate(a, before, [last]);
      Associate(Block(a), Block(before), Line(last));
    }
  }

  lemma BlockNext(m: seq<Entry>, e: Entry)
    ensures Block(m + [e]) == Block(m) + Line(e)
  {
    assert (m + [e])[..|m|] == m;
  }

  lemma Cancel(p: string, a: string, b: string, q: string)
    ensures p + (a + q) == p + (b + q) ==> a == b
  {
    if p + (a + q) == p + (b + q) {
      assert (p + (a + q))[|p|..] == a + q && (p + (b + q))[|p|..] == b + q;
      assert |a| == |b| && (a + q)[..|a|] == a && (b + q)[..|b|] == b;
    }
  }

  lemma BlockAround(a: seq<Entry>, e: Entry, b: seq<Entry>)
    ensures Block(a + ([e] + b)) == Block(a) + (Line(e) + Block(b))
  {
    BlockConcat(a, [e] + b);
    BlockConcat([e], b);
    BlockOne(e);
  }

  lemma BlockOne(e: Entry)
    ensures Block([e]) == Line(e)
  {
    BlockNext([], e);
    assert [] + [e] == [e] && Block([]) + Line(e) == Line(e);
  }

  lemma LinesDiffer(name: string, v: string, w: string)
    requires v != w
    ensures Line(Entry(name, v)) != Line(Entry(name, w))
  {
    Cancel(name + ":", v, w, "\n");
    assert Line(Entry(name, v)) == name + ":" + (v + "\n") && Line(Entry(name, w)) == name + ":" + (w + "\n");
  }

  /** Changing one value changes the block. */
  lemma BlockSeparates(m: seq<Entry>, k: nat, v: string)
    requires k < |m| && v != m[k].value
    ensures Block(m[k := Entry(m[k].name, v)]) != Block(m)
  {
    var a, b, e := m[..k], m[k + 1..], Entry(m[k].name, v);
    assert m == a + ([m[k]] + b) && m[k := e] == a + ([e] + b);
    BlockAround(a, m[k], b);
    BlockAround(a, e, b);
    LinesDiffer(m[k].name, m[k].value, v);
    Cancel(Block(a), Line(m[k]), Line(e), Block(b));
  }

  lemma {:induction false} NameListOfNames(m: seq<Entry>, m': seq<Entry>)
    requires |m| == |m'| && forall i :: 0 <= i < |m| ==> m[i].name == m'[i].name
    ensures NameList(m) == NameList(m')
    decreases |m|
  {
    if m != [] { NameListOfNames(m[..|m| - 1], m'[..|m'| - 1]); }
  }

  lemma RequestsDiffer(verb: string, target: string, query: string, m: seq<Entry>, m': seq<Entry>)
    requires NameList(m) == NameList(m') && Block(m) != Block(m')
    ensures RequestOf(verb, target, query, m) != RequestOf(verb, target, query, m')
  {
    Cancel(verb + "\n" + target + "\n" + query + "\n", Block(m), Block(m'), "\n" + NameList(m) + "\n" + UNSIGNED);
  }

  /** What the verifier collects, entry by entry. */
  lemma VerifierCollects(x: Signing, authorization: string, i: nat)
    requires NoManaged(x.headers) && AllGood(x.headers) && NoBlanks(x.date)
    requires i < |SignedEntries(x)|
    ensures var m := SignedEntries(x);
            var fields := StoredAll(WireFields(x.host, SentHeaders(x, authorization)));
            VerifierEntries(fields, NamesOf(m))[i] ==
              Entry(m[i].name, if m[i].name == SESSION then CanonicalValue(x.session) else m[i].value)
  {
    var m := SignedEntries(x);
    SignedNamesSorted(x);
    LookupIsEntry(m, i);
    SignerMeetsWire(x, authorization, m[i].name);
    ReceivedIsByName(WireFields(x.host, SentHeaders(x, authorization)), m[i].name);
  }

  /** The session token's entry, when there is one, holds it as it is. */
  lemma SessionEntry(x: Signing, i: nat)
    requires NoManaged(x.headers) && AllGood(x.headers) && i < |SignedEntries(x)| && SignedEntries(x)[i].name == SESSION
    ensures SignedEntries(x)[i].value == x.session && x.session != ""
  {
    SignedNamesSorted(x);
    LookupIsEntry(SignedEntries(x), i);
    SignerByName(ManagedEntries(x), x.headers, SESSION);
    ManagedLookup(x, SESSION);
    CallerLacks(x.headers, SESSION);
    NamesDiffer();
  }

  lemma {:induction false} LookupFinds(m: seq<Entry>, name: string) returns (i: nat)
    requires Lookup(m, name).Some?
    ensures i < |m| && m[i].name == name
  {
    if m[0].name == name { i := 0; }
    else {
      i := LookupFinds(m[1..], name);
      i := i + 1;
    }
  }

  lemma SessionIsSigned(x: Signing) returns (i: nat)
    requires NoManaged(x.headers) && AllGood(x.headers) && x.session != ""
    ensures i < |SignedEntries(x)| && SignedEntries(x)[i].name == SESSION
  {
    SignedNamesSorted(x);
    SignerByName(ManagedEntries(x), x.headers, SESSION);
    ManagedLookup(x, SESSION);
    NamesDiffer();
    i := LookupFinds(SignedEntries(x), SESSION);
  }

  /** `seen` is the signed map, with the session token's value made canonical. */
  predicate SeenOf(m: seq<Entry>, session: string, seen: seq<Entry>) {
    && |seen| == |m|
    && (forall i :: 0 <= i < |m| ==> m[i].name == SESSION ==> m[i].value == session)
    && (forall i :: 0 <= i < |m| ==>
          seen[i] == Entry(m[i].name, if m[i].name == SESSION then CanonicalValue(session) else m[i].value))
  }

  lemma Collected(x: Signing, authorization: string)
    requires NoManaged(x.headers) && AllGood(x.headers) && NoBlanks(x.date)
    ensures var fields := StoredAll(WireFields(x.host, SentHeaders(x, authorization)));
            SeenOf(SignedEntries(x), x.session, VerifierEntries(fields, NamesOf(SignedEntries(x))))
  {
    var m := SignedEntries(x);
    forall i | 0 <= i < |m|
      ensures m[i].name == SESSION ==> m[i].value == x.session
    {
      if m[i].name == SESSION { SessionEntry(x, i); }
    }
    var seen := VerifierEntries(StoredAll(WireFields(x.host, SentHeaders(x, authorization))), NamesOf(m));
    forall i | 0 <= i < |m|
      ensures seen[i] == Entry(m[i].name, if m[i].name == SESSION then CanonicalValue(x.session) else m[i].value)
    {
      VerifierCollects(x, authorization, i);
    }
  }

  lemma OnlySession(m: seq<Entry>, session: string, seen: seq<Entry>, k: nat)
    requires Sorted(m) && SeenOf(m, session, seen) && k < |m| && m[k].name == SESSION
    ensures seen == m[k := Entry(m[k].name, CanonicalValue(session))]
  {
    forall i | 0 <= i < |m| && i != k ensures m[i].name != SESSION {
      LessIsTotal(m[i].name, m[k].name);
    }
  }

  lemma SeenDiffers(m: seq<Entry>, session: string, seen: seq<Entry>, k: nat, verb: string, target: string, query: string)
    requires Sorted(m) && SeenOf(m, session, seen) && k < |m| && m[k].name == SESSION && CanonicalValue(session) != session
    ensures RequestOf(verb, target, query, seen) != RequestOf(verb, target, query, m)
  {
    OnlySession(m, session, seen, k);
    BlockSeparates(m, k, CanonicalValue(session));
    NameListOfNames(m, seen);
    RequestsDiffer(verb, target, query, m, seen);
  }

  lemma SeenDecides(m: seq<Entry>, session: string, seen: seq<Entry>, k: nat, verb: string, target: string, query: string)
    requires Sorted(m) && SeenOf(m, session, seen) && (session != "" ==> k < |m| && m[k].name == SESSION)
    ensures (RequestOf(verb, target, query, seen) == RequestOf(verb, target, query, m)) <==> (CanonicalValue(session) == session)
  {
    if CanonicalValue(session) == session {
      assert seen == m;
    } else {
      SeenDiffers(m, session, seen, k, verb, target, query);
    }
  }

  /** Recomputed from the stored fields, the canonical request is the signed one
      if and only if the session token is whitespace-canonical. */
  lemma VerifierAgrees(x: Signing, authorization: string)
    requires NoManaged(x.headers) && AllGood(x.headers) && NoBlanks(x.date) && Octets(x.path)
    ensures var fields := StoredAll(WireFields(x.host, SentHeaders(x, authorization)));
            var seen := VerifierEntries(fields, NamesOf(SignedEntries(x)));
            (RequestOf(x.verb, UriEncode(x.path, true), x.query, seen) == CanonicalRequest(x)) <==>
            (CanonicalValue(x.session) == x.session)
  {
    var m := SignedEntries(x);
    var seen := VerifierEntries(StoredAll(WireFields(x.host, SentHeaders(x, authorization))), NamesOf(m));
    Collected(x, authorization);
    SignedNamesSorted(x);
    var k := 0;
    if x.session != "" { k := SessionIsSigned(x); }
    SeenDecides(m, x.session, seen, k, x.verb, UriEncode(x.path, true), x.query);
  }
}
