/** A SigV4 verifier that has only the bytes of the request: verb, target, query, signed
    names and payload hash are all read from them (common/sigv4.hpp,
    common/s3_protocol.hpp, common/raw_http.hpp). */
module WireVerifier {
  import opened HttpText
  import opened Options
  import opened MessageHead
  import opened Request
  import opened Canonical
  import opened Separated
  import opened Sequences
  import opened SigV4

  // --- what the verifier reads ---------------------------------------------------------------

  function LineOf(text: string): string { var e := Find(text, CRLF, 0); if e < 0 then text else text[..e] }

  function FieldsOf(text: string): seq<Field> {
    var e := Find(text, CRLF, 0);
    if e < 0 then [] else ParseFields(text[e + 2..], []).fields
  }

  function Verb(text: string): string { Split(LineOf(text), ' ')[0] }

  function Target(text: string): string { var ps := Split(LineOf(text), ' '); if |ps| < 2 then "" else ps[1] }

  function PathOf(target: string): string { Split(target, '?')[0] }

  function QueryOf(target: string): string { var ps := Split(target, '?'); if |ps| < 2 then "" else ps[1] }

  function Value(fields: seq<Field>, name: string): string {
    if Received(fields, name).Some? then Received(fields, name).value else ""
  }

  const NAMES := " SignedHeaders="

  /** The names listed in an Authorization value. */
  function SignedNames(authorization: string): seq<string> {
    var ps := Split(authorization, ',');
    if |ps| < 2 || |ps[1]| < |NAMES| then [] else Split(ps[1][|NAMES|..], ';')
  }

  /** The canonical request, recomputed from the request's bytes. */
  function Recomputed(text: string): string {
    var fields := FieldsOf(text);
    var entries := VerifierEntries(fields, SignedNames(Value(fields, "authorization")));
    RequestWith(Verb(text), PathOf(Target(text)), QueryOf(Target(text)), entries, Value(fields, SHA))
  }

  // --- what the signer writes -------------------------------------------------------------------

  const SCHEME := "AWS4-HMAC-SHA256"
  const CREDENTIAL := "AWS4-HMAC-SHA256 Credential="
  const SIGNATURE := " Signature="

  function Authorization(credential: string, names: string, signature: string): string {
    CREDENTIAL + credential + "," + (NAMES + names) + "," + (SIGNATURE + signature)
  }

  /** Neither blanks nor commas, like an access key with its scope, or a hex signature. */
  predicate Solid(s: string) { NoBlanks(s) && ',' !in s }

  function Signed(x: Signing, credential: string, signature: string): seq<Header> {
    SentHeaders(x, Authorization(credential, NameList(SignedEntries(x)), signature))
  }

  // --- the request line ----------------------------------------------------------------------------

  lemma {:induction false} NoQuestionMark(path: string)
    requires Octets(path)
    ensures '?' !in UriEncode(path, true)
  {
    if path != "" {
      NoQuestionMark(path[..|path| - 1]);
      EscapeHasNone(path[|path| - 1]);
    }
  }

  lemma EscapeHasNone(c: char)
    requires c as int < 256
    ensures '?' !in EncodeChar(c, true)
  {}

  lemma TargetCharIsPlain(c: char)
    requires IsTargetChar(c)
    ensures c != ' ' && c != '\r'
  {}

  lemma TargetIsPlain(target: string)
    requires GoodTarget(target)
    ensures ' ' !in target && '\r' !in target
  {
    forall i | 0 <= i < |target| ensures target[i] != ' ' && target[i] != '\r' { TargetCharIsPlain(target[i]); }
  }

  lemma ThreePieces(a: string, b: string, d: string, c: char)
    requires c !in a && c !in b && c !in d
    ensures Split(a + [c] + b + [c] + d, c) == [a, b, d]
  {
    SplitJoin([a, b, d], c);
    assert [a, b, d][1..] == [b, d] && [b, d][1..] == [d];
    assert Join([b, d], c) == b + [c] + d;
    assert a + [c] + (b + [c] + d) == a + [c] + b + [c] + d;
  }

  lemma LineWords()
    ensures "GET " == "GET" + [' '] && " HTTP/1.1" == [' '] + "HTTP/1.1"
    ensures ' ' !in "GET" && ' ' !in "HTTP/1.1"
  {}

  lemma LineSplits(target: string)
    requires ' ' !in target
    ensures Split("GET " + target + " HTTP/1.1", ' ') == ["GET", target, "HTTP/1.1"]
  {
    LineWords();
    ThreePieces("GET", target, "HTTP/1.1", ' ');
    Associate("GET" + [' '] + target, [' '], "HTTP/1.1");
  }

  lemma LineReadsBack(target: string, rest: string)
    requires GoodTarget(target)
    ensures var text := RequestLine(target) + rest;
            && Verb(text) == "GET" && Target(text) == target
            && FieldsOf(text) == ParseFields(rest, []).fields
  {
    var line := "GET " + target + " HTTP/1.1";
    var text := RequestLine(target) + rest;
    TargetIsPlain(target);
    LineEnds(line, rest);
    LineSplits(target);
    assert text == line + CRLF + rest;
  }

  // --- the signed names -------------------------------------------------------------------------------

  predicate NamePlain(name: string) { name != "" && forall i :: 0 <= i < |name| ==> IsTchar(name[i]) }

  lemma NameHasNoSeparators(name: string)
    requires NamePlain(name)
    ensures ';' !in name && ',' !in name && ' ' !in name && '\t' !in name
  {}

  lemma LowerIsPlain(name: string)
    requires NamePlain(name)
    ensures NamePlain(Lower(name))
  {
    forall i | 0 <= i < |name| ensures IsTchar(Lower(name)[i]) { assert IsTchar(name[i]); }
  }

  predicate NamesPlain(m: seq<Entry>) { forall i :: 0 <= i < |m| ==> NamePlain(m[i].name) }

  lemma {:induction false} PutKeepsPlain(m: seq<Entry>, name: string, value: string)
    requires NamesPlain(m) && NamePlain(name)
    ensures NamesPlain(Put(m, name, value)) && Put(m, name, value) != []
  {
    if m != [] { PutKeepsPlain(m[1..], name, value); }
  }

  lemma {:induction false} WithHeadersPlain(m: seq<Entry>, hs: seq<Header>)
    requires NamesPlain(m) && m != [] && AllGood(hs)
    ensures NamesPlain(WithHeaders(m, hs)) && WithHeaders(m, hs) != []
  {
    if hs != [] {
      var n := |hs| - 1;
      assert GoodHeader(hs[n]);
      LowerIsPlain(hs[n].name);
      WithHeadersPlain(m, hs[..n]);
      PutKeepsPlain(WithHeaders(m, hs[..n]), Lower(hs[n].name), CanonicalValue(hs[n].value));
    }
  }

  lemma HostPlain() ensures NamePlain("host") {}

  lemma ShaPlain() ensures NamePlain(SHA) {}

  lemma DatePlain() ensures NamePlain(DATE) {}

  lemma SessionPlain() ensures NamePlain(SESSION) {}

  lemma SignedNamesPlain(x: Signing)
    requires AllGood(x.headers)
    ensures NamesPlain(SignedEntries(x)) && SignedEntries(x) != []
  {
    HostPlain();
    ShaPlain();
    DatePlain();
    SessionPlain();
    var one := Put([], "host", CanonicalValue(x.host));
    var two := Put(one, SHA, UNSIGNED);
    var three := Put(two, DATE, x.date);
    PutKeepsPlain([], "host", CanonicalValue(x.host));
    PutKeepsPlain(one, SHA, UNSIGNED);
    PutKeepsPlain(two, DATE, x.date);
    PutKeepsPlain(three, SESSION, x.session);
    WithHeadersPlain(ManagedEntries(x), x.headers);
  }

  lemma {:induction false} JoinLast(parts: seq<string>, p: string, c: char)
    requires parts != []
    ensures Join(parts + [p], c) == Join(parts, c) + [c] + p
  {
    if |parts| == 1 {
      assert (parts + [p])[1..] == [p];
    } else {
      JoinLast(parts[1..], p, c);
      assert (parts + [p])[1..] == parts[1..] + [p];
    }
  }

  lemma {:induction false} NameListIsJoin(m: seq<Entry>)
    requires m != [] && NamesPlain(m)
    ensures NameList(m) == Join(NamesOf(m), ';') && NameList(m) != ""
  {
    var before := m[..|m| - 1];
    if before != [] {
      NameListIsJoin(before);
      JoinLast(NamesOf(before), m[|m| - 1].name, ';');
    } else {
      assert NamesOf(m) == [m[0].name];
    }
  }

  lemma NamesReadBack(m: seq<Entry>)
    requires m != [] && NamesPlain(m)
    ensures Split(NameList(m), ';') == NamesOf(m)
    ensures ',' !in NameList(m) && ' ' !in NameList(m) && '\t' !in NameList(m)
  {
    var names := NamesOf(m);
    forall i | 0 <= i < |m| ensures ';' !in names[i] && ',' !in names[i] && ' ' !in names[i] && '\t' !in names[i] {
      NameHasNoSeparators(m[i].name);
    }
    NameListIsJoin(m);
    SplitJoin(names, ';');
    JoinIsPlain(names, ';', ',');
    JoinIsPlain(names, ';', ' ');
    JoinIsPlain(names, ';', '\t');
  }

  // --- the Authorization value ---------------------------------------------------------------------------

  lemma AuthorizationSplits(credential: string, names: string, signature: string)
    requires Solid(credential) && Solid(names) && Solid(signature)
    ensures SignedNames(Authorization(credential, names, signature)) == Split(names, ';')
  {
    var first, second, third := CREDENTIAL + credential, NAMES + names, SIGNATURE + signature;
    LabelsHaveNoComma();
    ThreePieces(first, second, third, ',');
    assert second[|NAMES|..] == names;
  }

  lemma LabelsHaveNoComma()
    ensures ',' !in CREDENTIAL && ',' !in NAMES && ',' !in SIGNATURE && [','] == ","
  {}

  lemma LabelWords()
    ensures CREDENTIAL == SCHEME + " " + "Credential=" && NAMES == " " + "SignedHeaders=" && SIGNATURE == " " + "Signature="
  {}

  lemma SchemeIsWord() ensures IsWord(SCHEME) {}

  lemma CredentialIsWord() ensures IsWord("Credential=") {}

  lemma NamesIsWord() ensures IsWord("SignedHeaders=") {}

  lemma SignatureIsWord() ensures IsWord("Signature=") && NoBlanks(",") {}

  predicate IsWord(w: string) { w != "" && NoBlanks(w) }

  lemma WordsGlue(a: string, b: string, c: string)
    requires IsWord(a) && NoBlanks(b) && NoBlanks(c)
    ensures IsWord(a + b + c)
  {}

  lemma FourSpaced(a: string, b: string, c: string, d: string)
    ensures Spaced([a, b, c, d]) == a + " " + b + " " + c + " " + d
  {
    SpacedNext([], a);
    SpacedNext([a], b);
    SpacedNext([a, b], c);
    SpacedNext([a, b, c], d);
    assert [] + [a] == [a] && [a] + [b] == [a, b] && [a, b] + [c] == [a, b, c] && [a, b, c] + [d] == [a, b, c, d];
  }

  lemma FourWords(a: string, b: string, c: string, d: string)
    requires IsWord(a) && IsWord(b) && IsWord(c) && IsWord(d)
    ensures CanonicalValue(a + " " + b + " " + c + " " + d) == a + " " + b + " " + c + " " + d
  {
    var ws := [a, b, c, d];
    FourSpaced(a, b, c, d);
    forall i | 0 <= i < 4 ensures ws[i] != "" && forall j :: 0 <= j < |ws[i]| ==> !IsBlank(ws[i][j]) { WordHasNoBlanks(ws[i]); }
    SpacedWords(ws);
  }

  lemma WordHasNoBlanks(w: string)
    requires IsWord(w)
    ensures forall j :: 0 <= j < |w| ==> !IsBlank(w[j])
  {
    forall j | 0 <= j < |w| ensures !IsBlank(w[j]) { assert w[j] in w; }
  }

  lemma Regrouped(a: string, b: string, x: string, c: string, y: string, d: string, z: string)
    ensures (a + " " + b) + x + "," + (" " + c + y) + "," + (" " + d + z) ==
            a + " " + (b + x + ",") + " " + (c + y + ",") + " " + (d + z + "")
  {}

  /** The value has four words, so canonicalising it changes nothing. */
  lemma AuthorizationIsCanonical(credential: string, names: string, signature: string)
    requires Solid(credential) && Solid(names) && Solid(signature)
    ensures CanonicalValue(Authorization(credential, names, signature)) == Authorization(credential, names, signature)
  {
    SchemeIsWord();
    CredentialIsWord();
    NamesIsWord();
    SignatureIsWord();
    LabelWords();
    WordsGlue("Credential=", credential, ",");
    WordsGlue("SignedHeaders=", names, ",");
    WordsGlue("Signature=", signature, "");
    FourWords(SCHEME, "Credential=" + credential + ",", "SignedHeaders=" + names + ",", "Signature=" + signature + "");
    Regrouped(SCHEME, "Credential=", credential, "SignedHeaders=", names, "Signature=", signature);
  }

  // --- the verifier agrees ----------------------------------------------------------------------------------

  /** The signer's own fields arrive as they were sent. */
  lemma OwnFieldArrives(x: Signing, authorization: string, name: string)
    requires NoManaged(x.headers) && AllGood(x.headers) && NoBlanks(x.date) && (name == SHA || name == "authorization")
    ensures Received(StoredAll(WireFields(x.host, SentHeaders(x, authorization))), name) ==
            Some(if name == SHA then UNSIGNED else CanonicalValue(authorization))
  {
    ReceivedIsByName(WireFields(x.host, SentHeaders(x, authorization)), name);
    WireByName(x, authorization, name);
    AuthByName(x, authorization, name);
    LowerHost();
    LowerConnection();
    NamesDiffer();
    CallerLacks(x.headers, name);
  }

  /** End to end: the request writer accepts the encoded path, and whoever holds only the
      bytes it wrote recomputes the signed canonical request exactly when the session
      token is whitespace-canonical. */
  lemma WireVerifies(x: Signing, credential: string, signature: string)
    requires x.verb == "GET" && x.query == ""
    requires x.path != "" && x.path[0] == '/' && Octets(x.path) && GoodHost(x.host) && NoBlanks(x.date)
    requires NoManaged(x.headers) && AllGood(Signed(x, credential, signature)) && Solid(credential) && Solid(signature)
    ensures GoodTarget(UriEncode(x.path, true))
    ensures var text := RequestText(x.host, UriEncode(x.path, true), Signed(x, credential, signature));
            Recomputed(text) == CanonicalRequest(x) <==> CanonicalValue(x.session) == x.session
  {
    var target, sent := UriEncode(x.path, true), Signed(x, credential, signature);
    var m := SignedEntries(x);
    var authorization := Authorization(credential, NameList(m), signature);
    var text := RequestText(x.host, target, sent);
    var fields := StoredAll(WireFields(x.host, sent));
    forall i | 0 <= i < |x.headers| ensures GoodHeader(x.headers[i]) { assert sent[i] == x.headers[i]; }
    TextReadsBack(x, sent);
    SignedNamesPlain(x);
    NamesReadBack(m);
    AuthorizationSplits(credential, NameList(m), signature);
    AuthorizationIsCanonical(credential, NameList(m), signature);
    OwnFieldArrives(x, authorization, SHA);
    OwnFieldArrives(x, authorization, "authorization");
    VerifierAgrees(x, authorization);
  }

  lemma TextReadsBack(x: Signing, sent: seq<Header>)
    requires x.path != "" && x.path[0] == '/' && Octets(x.path) && GoodHost(x.host) && AllGood(sent)
    ensures var target := UriEncode(x.path, true);
            var text := RequestText(x.host, target, sent);
            && GoodTarget(target) && Verb(text) == "GET" && PathOf(Target(text)) == target && QueryOf(Target(text)) == ""
            && FieldsOf(text) == StoredAll(WireFields(x.host, sent))
  {
    var target := UriEncode(x.path, true);
    var rest := FieldTexts(WireFields(x.host, sent)) + CRLF;
    EncodedPathIsGood(x.path);
    LineReadsBack(target, rest);
    RequestReadsBack(x.host, target, sent);
    assert RequestText(x.host, target, sent)[|RequestLine(target)|..] == rest;
    NoQuestionMark(x.path);
    SplitWhole(target, '?');
  }
}
