/** The strict integrity-manifest parser and its preflight closure
    (common/verify/manifest.cpp, common/verify/manifest.hpp). */
module Manifest {
  import opened HttpText
  import opened Options
  import opened Separated
  import Decimal

  // --- lexical pieces ------------------------------------------------------------------

  predicate IsLowerHex(c: char) { '0' <= c <= '9' || 'a' <= c <= 'f' }

  predicate IsDigest(s: string) { |s| == 64 && forall i :: 0 <= i < |s| ==> IsLowerHex(s[i]) }

  const U64_MAX: nat := 0xFFFF_FFFF_FFFF_FFFF

  function U64(s: string): Option<nat> {
    if s != "" && Decimal.AllDigits(s) && Decimal.Value(s) <= U64_MAX then Some(Decimal.Value(s)) else None
  }

  /** parse_u64_strict: digit by digit, checked before each step. */
  method ParseU64(s: string) returns (r: Option<nat>)
    ensures r == U64(s)
  {
    if s == "" { return None; }
    var value := 0;
    for i := 0 to |s|
      invariant Decimal.AllDigits(s[..i]) && value == Decimal.Value(s[..i]) <= U64_MAX
    {
      if !Decimal.IsDigit(s[i]) { return None; }
      var digit := Decimal.Digit(s[i]);
      assert s[..i + 1][..i] == s[..i];
      if value > (U64_MAX - digit) / 10 {
        if Decimal.AllDigits(s) { Decimal.ValueGrows(s, i + 1); }
        return None;
      }
      value := value * 10 + digit;
    }
    assert s[..|s|] == s;
    return Some(value);
  }

  // --- records ---------------------------------------------------------------------------

  /** One object: its size, its digest, and digests of some of its prefixes. */
  datatype Entry = Entry(key: string, size: nat, full: string, prefixes: map<nat, string>)

  predicate GoodPrefixes(prefixes: map<nat, string>, size: nat) {
    forall n :: n in prefixes ==> 0 < n <= size && IsDigest(prefixes[n])
  }

  predicate GoodEntry(e: Entry) {
    e.key != "" && 0 < e.size <= U64_MAX && IsDigest(e.full) && GoodPrefixes(e.prefixes, e.size)
  }

  const TAG := "prefix:"

  /** prefix:<len>=<digest> */
  function ParseToken(token: string, size: nat): Option<(nat, string)> {
    if !(|token| >= 7 && token[..7] == TAG) then None
    else
      var eq := Find(token, "=", 7);
      if eq < 0 then None
      else
        var n := U64(token[7..eq]);
        if n.None? || n.value == 0 || n.value > size || !IsDigest(token[eq + 1..]) then None
        else Some((n.value, token[eq + 1..]))
  }

  function ParsePrefixes(tokens: seq<string>, size: nat, acc: map<nat, string>): Option<map<nat, string>> {
    if tokens == [] then Some(acc)
    else match ParseToken(tokens[0], size)
      case None => None
      case Some((n, d)) => if n in acc then None else ParsePrefixes(tokens[1..], size, acc[n := d])
  }

  datatype Why = TooFewFields | EmptyKey | BadSize | ZeroSize | BadDigest | BadPrefix | DuplicateKey | IoError

  datatype Parsed = Record(entry: Entry) | Rejected(why: Why)

  function ParseRecord(line: string): Parsed {
    var fields := Split(line, '\t');
    if |fields| < 3 then Rejected(TooFewFields)
    else if fields[0] == "" then Rejected(EmptyKey)
    else
      var size := U64(fields[1]);
      if size.None? then Rejected(BadSize)
      else if size.value == 0 then Rejected(ZeroSize)
      else if !IsDigest(fields[2]) then Rejected(BadDigest)
      else
        var prefixes := ParsePrefixes(fields[3..], size.value, map[]);
        if prefixes.None? then Rejected(BadPrefix) else Record(Entry(fields[0], size.value, fields[2], prefixes.value))
  }

  method ReadRecord(line: string) returns (r: Parsed)
    ensures r == ParseRecord(line)
  {
    var fields := SplitLoop(line, '\t');
    if |fields| < 3 { return Rejected(TooFewFields); }
    if fields[0] == "" { return Rejected(EmptyKey); }
    var size := ParseU64(fields[1]);
    if size.None? { return Rejected(BadSize); }
    if size.value == 0 { return Rejected(ZeroSize); }
    if !IsDigest(fields[2]) { return Rejected(BadDigest); }
    var prefixes: map<nat, string> := map[];
    ghost var goal := ParsePrefixes(fields[3..], size.value, map[]);
    for i := 3 to |fields|
      invariant goal == ParsePrefixes(fields[i..], size.value, prefixes)
    {
      assert fields[i..][1..] == fields[i + 1..];
      var t := ParseToken(fields[i], size.value);
      if t.None? || t.value.0 in prefixes { return Rejected(BadPrefix); }
      prefixes := prefixes[t.value.0 := t.value.1];
    }
    return Record(Entry(fields[0], size.value, fields[2], prefixes));
  }

  lemma {:induction false} PrefixesAreGood(tokens: seq<string>, size: nat, acc: map<nat, string>)
    requires GoodPrefixes(acc, size) && ParsePrefixes(tokens, size, acc).Some?
    ensures GoodPrefixes(ParsePrefixes(tokens, size, acc).value, size)
  {
    if tokens != [] {
      var (n, d) := ParseToken(tokens[0], size).value;
      PrefixesAreGood(tokens[1..], size, acc[n := d]);
    }
  }

  lemma RecordIsGood(line: string)
    requires ParseRecord(line).Record?
    ensures GoodEntry(ParseRecord(line).entry)
  {
    var fields := Split(line, '\t');
    PrefixesAreGood(fields[3..], U64(fields[1]).value, map[]);
  }

  // --- lines -------------------------------------------------------------------------------

  /** What getline yields: a final newline ends the last line, it does not start one. */
  function Lines(text: string): seq<string> {
    if text == "" then []
    else if text[|text| - 1] == '\n' then Split(text[..|text| - 1], '\n')
    else Split(text, '\n')
  }

  /** What getline gets hold of before the stream fails: the lines that were ended.
      Without a failure, everything. */
  function Gotten(text: string, bad: bool): string {
    if !bad || text == "" || text[|text| - 1] == '\n' then text else Gotten(text[..|text| - 1], bad)
  }

  /** The first character that is not a space, if any. */
  function FirstInk(line: string): Option<char> {
    if line == "" then None else if line[0] != ' ' then Some(line[0]) else FirstInk(line[1..])
  }

  /** Blank lines and comments. */
  predicate Skipped(line: string) { FirstInk(line).None? || FirstInk(line).value == '#' }

  /** One line of the file: nothing to do, a record, or why it is not one. */
  datatype Reading = Blank | Bad(why: Why) | Good(entry: Entry)

  function Read(line: string): Reading {
    if Skipped(line) then Blank
    else match ParseRecord(line)
      case Rejected(why) => Bad(why)
      case Record(e) => Good(e)
  }

  function Readings(text: string): seq<Reading> {
    var lines := Lines(text);
    seq(|lines|, i requires 0 <= i < |lines| => Read(lines[i]))
  }

  type Manifest = map<string, Entry>

  datatype Status = Ok | Failed(line: nat, why: Why)

  /** The manifest and status after the first `k` lines. */
  function ParseUpTo(rs: seq<Reading>, k: nat): (Manifest, Status)
    requires k <= |rs|
  {
    if k == 0 then (map[], Ok)
    else
      var (m, s) := ParseUpTo(rs, k - 1);
      if s.Failed? then (m, s)
      else match rs[k - 1]
        case Blank => (m, s)
        case Bad(why) => (m, Failed(k, why))
        case Good(e) => if e.key in m then (m, Failed(k, DuplicateKey)) else (m[e.key := e], Ok)
  }

  /** parse_manifest: `bad` says that the stream failed after these bytes; a line it
      cut short is neither read nor counted. */
  function Parse(text: string, bad: bool): (Manifest, Status) {
    var rs := Readings(Gotten(text, bad));
    var (m, s) := ParseUpTo(rs, |rs|);
    if s.Ok? && bad then (m, Failed(|rs|, IoError)) else (m, s)
  }

  method ParseManifest(text: string, bad: bool) returns (m: Manifest, s: Status)
    ensures (m, s) == Parse(text, bad)
  {
    var lines := Lines(Gotten(text, bad));
    ghost var rs := Readings(Gotten(text, bad));
    m := map[];
    var k := 0;
    while k < |lines|
      invariant 0 <= k <= |lines| && (m, Ok) == ParseUpTo(rs, k)
    {
      LineStep(rs, k, m);
      ReadingAt(Gotten(text, bad), k);
      k := k + 1;
      if Skipped(lines[k - 1]) { continue; }
      var r := ReadRecord(lines[k - 1]);
      if r.Rejected? || r.entry.key in m {
        FailureStays(rs, k, |rs|);
        return m, Failed(k, if r.Rejected? then r.why else DuplicateKey);
      }
      m := m[r.entry.key := r.entry];
    }
    s := if bad then Failed(|lines|, IoError) else Ok;
  }

  lemma ReadingAt(text: string, k: nat)
    requires k < |Lines(text)|
    ensures |Readings(text)| == |Lines(text)| && Readings(text)[k] == Read(Lines(text)[k])
  {}

  /** One more line, after only good ones. */
  lemma LineStep(rs: seq<Reading>, k: nat, m: Manifest)
    requires k < |rs| && ParseUpTo(rs, k) == (m, Ok)
    ensures ParseUpTo(rs, k + 1) == match rs[k]
              case Blank => (m, Ok)
              case Bad(why) => (m, Failed(k + 1, why))
              case Good(e) => if e.key in m then (m, Failed(k + 1, DuplicateKey)) else (m[e.key := e], Ok)
  {}

  lemma {:induction false} FailureStays(rs: seq<Reading>, k: nat, n: nat)
    requires k <= n <= |rs| && ParseUpTo(rs, k).1.Failed?
    ensures ParseUpTo(rs, n) == ParseUpTo(rs, k)
    decreases n
  {
    if k < n { FailureStays(rs, k, n - 1); }
  }

  // --- what is accepted, and where a bad manifest fails ------------------------------------------

  /** Every line that counts is a record, and no two records share a key. */
  predicate Acceptable(rs: seq<Reading>) {
    && (forall i :: 0 <= i < |rs| ==> !rs[i].Bad?)
    && (forall i, j :: 0 <= i < j < |rs| && rs[i].Good? && rs[j].Good? ==> rs[i].entry.key != rs[j].entry.key)
  }

  /** `m` holds exactly the records among the first `k` lines, under their own keys. */
  ghost predicate Holds(rs: seq<Reading>, k: nat, m: Manifest)
    requires k <= |rs|
  {
    && (forall key :: key in m ==> exists i :: 0 <= i < k && rs[i] == Good(m[key]) && m[key].key == key)
    && (forall i :: 0 <= i < k && rs[i].Good? ==> rs[i].entry.key in m && m[rs[i].entry.key] == rs[i].entry)
  }

  /** The parser accepts a prefix of the lines exactly when it is acceptable. */
  lemma {:induction false} ParserDecides(rs: seq<Reading>, k: nat)
    requires k <= |rs|
    ensures ParseUpTo(rs, k).1.Ok? <==> Acceptable(rs[..k])
    ensures ParseUpTo(rs, k).1.Ok? ==> Holds(rs, k, ParseUpTo(rs, k).0)
  {
    if k > 0 {
      ParserDecides(rs, k - 1);
      AcceptableStep(rs[..k - 1], rs[k - 1]);
      assert rs[..k - 1] + [rs[k - 1]] == rs[..k];
      if ParseUpTo(rs, k - 1).1.Ok? { KeyTaken(rs, k, ParseUpTo(rs, k - 1).0); }
    }
  }

  /** A key is in the manifest exactly when an earlier record has it, and a new record joins. */
  lemma KeyTaken(rs: seq<Reading>, k: nat, m: Manifest)
    requires 0 < k <= |rs| && Holds(rs, k - 1, m)
    ensures !rs[k - 1].Good? ==> Holds(rs, k, m)
    ensures rs[k - 1].Good? ==> (rs[k - 1].entry.key in m <==> Clashes(rs[..k - 1], rs[k - 1]))
    ensures rs[k - 1].Good? && rs[k - 1].entry.key !in m ==> Holds(rs, k, m[rs[k - 1].entry.key := rs[k - 1].entry])
  {
    if rs[k - 1].Good? && rs[k - 1].entry.key in m {
      var i :| 0 <= i < k - 1 && rs[i] == Good(m[rs[k - 1].entry.key]) && rs[i].entry.key == rs[k - 1].entry.key;
      assert rs[..k - 1][i] == rs[i];
    }
  }

  /** Some earlier record has the key of `r`. */
  predicate Clashes(before: seq<Reading>, r: Reading)
    requires r.Good?
  {
    exists i :: 0 <= i < |before| && before[i].Good? && before[i].entry.key == r.entry.key
  }

  lemma AcceptableStep(before: seq<Reading>, r: Reading)
    ensures Acceptable(before + [r]) <==> Acceptable(before) && !r.Bad? && (r.Good? ==> !Clashes(before, r))
  {
    var all := before + [r];
    assert forall i :: 0 <= i < |before| ==> all[i] == before[i];
    assert all[|before|] == r;
  }

  lemma {:induction false} FailureIsFirst(rs: seq<Reading>, k: nat)
    requires k <= |rs|
    ensures var s := ParseUpTo(rs, k).1;
            s.Failed? ==> 0 < s.line <= k && Acceptable(rs[..s.line - 1]) && !Acceptable(rs[..s.line])
  {
    if k > 0 {
      FailureIsFirst(rs, k - 1);
      ParserDecides(rs, k);
      ParserDecides(rs, k - 1);
    }
  }

  /** Without an I/O error: success means every line is acceptable and the manifest
      holds exactly their records, all well formed; failure reports the first physical
      line whose prefix is not acceptable. */
  lemma FirstBadLine(text: string)
    ensures var rs, (m, s) := Readings(text), Parse(text, false);
            && (s.Ok? <==> Acceptable(rs))
            && (s.Ok? ==> Holds(rs, |rs|, m) && WellFormed(m))
            && (s.Failed? ==> 0 < s.line <= |rs| && Acceptable(rs[..s.line - 1]) && !Acceptable(rs[..s.line]))
  {
    var rs := Readings(text);
    assert rs[..|rs|] == rs;
    ParserDecides(rs, |rs|);
    FailureIsFirst(rs, |rs|);
    if ParseUpTo(rs, |rs|).1.Ok? { HeldAreGood(text, ParseUpTo(rs, |rs|).0); }
  }

  /** Every entry is well formed and stored under its own key. */
  ghost predicate WellFormed(m: Manifest) {
    forall key :: key in m ==> m[key].key == key && GoodEntry(m[key])
  }

  lemma HeldAreGood(text: string, m: Manifest)
    requires Holds(Readings(text), |Readings(text)|, m)
    ensures WellFormed(m)
  {
    forall i | 0 <= i < |Lines(text)| { ReadIsGood(Lines(text)[i]); }
  }

  lemma ReadIsGood(line: string)
    ensures Read(line).Good? ==> GoodEntry(Read(line).entry)
  {
    if ParseRecord(line).Record? { RecordIsGood(line); }
  }
}
