/** The preflight closure over requested spans (common/verify/manifest.cpp). */
module Closure {
  import opened Manifest
  import opened Options

  datatype Span = Span(key: string, offset: nat, size: nat)

  /** The digest a span would be compared with: the full one for size 0, else the
      one recorded for exactly that prefix length. */
  function Reference(m: Manifest, span: Span): Option<string> {
    if span.key !in m || span.offset != 0 || span.size > m[span.key].size then None
    else if span.size == 0 then Some(m[span.key].full)
    else if span.size in m[span.key].prefixes then Some(m[span.key].prefixes[span.size])
    else None
  }

  /** The HEAD request saw the object, with the size the manifest records. */
  predicate SizeConfirmed(m: Manifest, heads: map<string, nat>, key: string) {
    key in m && key in heads && m[key].size == heads[key]
  }

  predicate Resolves(m: Manifest, heads: map<string, nat>, span: Span) {
    SizeConfirmed(m, heads, span.key) && Reference(m, span).Some?
  }

  /** validate_closure, for any manifest, however it was built. */
  method ValidateClosure(m: Manifest, spans: seq<Span>, heads: map<string, nat>) returns (ok: bool)
    ensures ok <==> spans != [] && forall i :: 0 <= i < |spans| ==>
              Resolves(m, heads, spans[i]) && IsDigest(Reference(m, spans[i]).value)
  {
    if spans == [] { return false; }
    for i := 0 to |spans|
      invariant forall j :: 0 <= j < i ==> Resolves(m, heads, spans[j]) && IsDigest(Reference(m, spans[j]).value)
    {
      var span := spans[i];
      if span.key !in m || span.key !in heads { return false; }
      var entry := m[span.key];
      if entry.size != heads[span.key] || span.offset != 0 || span.size > entry.size { return false; }
      if span.size == 0 {
        if !IsDigest(entry.full) { return false; }
        continue;
      }
      if span.size !in entry.prefixes || !IsDigest(entry.prefixes[span.size]) { return false; }
    }
    return true;
  }

  /** On a manifest that came out of the parser the digest-format checks never decide:
      the closure then holds exactly when there is a span and every span resolves. */
  lemma ParsedReferencesAreDigests(text: string, span: Span)
    requires Parse(text, false).1.Ok? && Reference(Parse(text, false).0, span).Some?
    ensures IsDigest(Reference(Parse(text, false).0, span).value)
  {
    FirstBadLine(text);
  }

  /** Parse, then close: the gate in front of a verified run. */
  method Preflight(text: string, bad: bool, spans: seq<Span>, heads: map<string, nat>) returns (ok: bool)
    ensures ok <==>
            && !bad && Acceptable(Readings(text)) && spans != []
            && forall i :: 0 <= i < |spans| ==> Resolves(Parse(text, false).0, heads, spans[i])
  {
    var m, s := ParseManifest(text, bad);
    FirstBadLine(text);
    if s.Failed? { return false; }
    ok := ValidateClosure(m, spans, heads);
    forall i | 0 <= i < |spans| && Reference(m, spans[i]).Some? { ParsedReferencesAreDigests(text, spans[i]); }
  }
}
