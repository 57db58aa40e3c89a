/** Manifests as text: printing records and reading them back. */
module ManifestText {
  import opened HttpText
  import opened Manifest
  import opened Options
  import opened Separated
  import Decimal

  // --- records ------------------------------------------------------------------------------

  /** A record in the order it is written. */
  datatype Row = Row(key: string, size: nat, full: string, prefixes: seq<(nat, string)>)

  /** A key the format can carry: not empty, no separator in it, and its line is not a comment. */
  predicate GoodKey(key: string) {
    key != "" && '\t' !in key && '\n' !in key && (FirstInk(key).Some? ==> FirstInk(key).value != '#')
  }

  predicate GoodPrefix(p: (nat, string), size: nat) { 0 < p.0 <= size && IsDigest(p.1) }

  predicate GoodRow(r: Row) { GoodKey(r.key) && GoodBody(r) }

  /** Everything about a row but its key. */
  predicate GoodBody(r: Row) {
    && 0 < r.size <= U64_MAX && IsDigest(r.full)
    && (forall i :: 0 <= i < |r.prefixes| ==> GoodPrefix(r.prefixes[i], r.size))
    && (forall i, j :: 0 <= i < j < |r.prefixes| ==> r.prefixes[i].0 != r.prefixes[j].0)
  }

  function Token(p: (nat, string)): string { TAG + Decimal.Print(p.0) + "=" + p.1 }

  function Tokens(ps: seq<(nat, string)>): seq<string> {
    if ps == [] then [] else [Token(ps[0])] + Tokens(ps[1..])
  }

  function PrefixMap(ps: seq<(nat, string)>, acc: map<nat, string>): map<nat, string> {
    if ps == [] then acc else PrefixMap(ps[1..], acc[ps[0].0 := ps[0].1])
  }

  function Fields(r: Row): seq<string> { [r.key, Decimal.Print(r.size), r.full] + Tokens(r.prefixes) }

  function PrintRow(r: Row): string { Join(Fields(r), '\t') }

  function EntryOf(r: Row): Entry { Entry(r.key, r.size, r.full, PrefixMap(r.prefixes, map[])) }

  lemma DigestIsPlain(d: string, c: char)
    requires IsDigest(d) && !IsLowerHex(c)
    ensures c !in d
  {}

  lemma NumberIsPlain(n: nat, c: char)
    requires !Decimal.IsDigit(c)
    ensures c !in Decimal.Print(n)
  {}

  lemma NumberReadsBack(n: nat)
    requires n <= U64_MAX
    ensures U64(Decimal.Print(n)) == Some(n)
  {
    Decimal.ValueOfPrint(n);
  }

  /** The '=' of a token is the first one after its tag. */
  lemma EqualsIsFirst(number: string, digest: string)
    requires '=' !in number
    ensures var t := TAG + number + "=" + digest;
            && Find(t, "=", 7) == 7 + |number| && t[..7] == TAG
            && t[7..7 + |number|] == number && t[8 + |number|..] == digest
  {
    var t := TAG + number + "=" + digest;
    var e := 7 + |number|;
    assert t[e] == '=' && t[e..e + 1] == "=" && MatchAt(t, "=", e);
    forall k: nat | 7 <= k < e ensures !MatchAt(t, "=", k) {
      assert t[k] == number[k - 7] && number[k - 7] in number;
    }
  }

  lemma TokenReadsBack(p: (nat, string), size: nat)
    requires GoodPrefix(p, size) && size <= U64_MAX
    ensures ParseToken(Token(p), size) == Some(p)
  {
    NumberIsPlain(p.0, '=');
    NumberReadsBack(p.0);
    EqualsIsFirst(Decimal.Print(p.0), p.1);
  }

  lemma {:induction false} TokensReadBack(ps: seq<(nat, string)>, size: nat, acc: map<nat, string>)
    requires size <= U64_MAX
    requires forall i :: 0 <= i < |ps| ==> GoodPrefix(ps[i], size) && ps[i].0 !in acc
    requires forall i, j :: 0 <= i < j < |ps| ==> ps[i].0 != ps[j].0
    ensures ParsePrefixes(Tokens(ps), size, acc) == Some(PrefixMap(ps, acc))
  {
    if ps != [] {
      TokenReadsBack(ps[0], size);
      TokensReadBack(ps[1..], size, acc[ps[0].0 := ps[0].1]);
      assert ([Token(ps[0])] + Tokens(ps[1..]))[1..] == Tokens(ps[1..]);
    }
  }

  lemma TokenIsPlain(p: (nat, string), c: char)
    requires IsDigest(p.1) && !Decimal.IsDigit(c) && !IsLowerHex(c) && c !in TAG && c != '='
    ensures c !in Token(p)
  {
    NumberIsPlain(p.0, c);
    DigestIsPlain(p.1, c);
  }

  lemma {:induction false} TokensArePlain(ps: seq<(nat, string)>, c: char)
    requires forall i :: 0 <= i < |ps| ==> IsDigest(ps[i].1)
    requires !Decimal.IsDigit(c) && !IsLowerHex(c) && c !in TAG && c != '='
    ensures Free(Tokens(ps), c)
  {
    if ps != [] {
      TokenIsPlain(ps[0], c);
      TokensArePlain(ps[1..], c);
    }
  }

  lemma FieldsArePlain(r: Row, c: char)
    requires GoodRow(r) && c in "\t\n"
    ensures Free(Fields(r), c)
  {
    NumberIsPlain(r.size, c);
    DigestIsPlain(r.full, c);
    TokensArePlain(r.prefixes, c);
  }

  lemma RowReadsBack(r: Row)
    requires GoodRow(r)
    ensures ParseRecord(PrintRow(r)) == Record(EntryOf(r))
  {
    FieldsArePlain(r, '\t');
    SplitJoin(Fields(r), '\t');
    NumberReadsBack(r.size);
    TokensReadBack(r.prefixes, r.size, map[]);
    assert Fields(r)[3..] == Tokens(r.prefixes);
  }

  /** A key of spaces only leaves the tab behind it as the first ink of the line. */
  lemma {:induction false} InkComesFirst(key: string, rest: string)
    ensures FirstInk(key + rest) == if FirstInk(key).Some? then FirstInk(key) else FirstInk(rest)
  {
    if key == "" {
      assert key + rest == rest;
    } else if key[0] == ' ' {
      InkComesFirst(key[1..], rest);
      assert (key + rest)[1..] == key[1..] + rest;
    }
  }

  lemma RowReads(r: Row)
    requires GoodRow(r)
    ensures Read(PrintRow(r)) == Good(EntryOf(r)) && '\n' !in PrintRow(r)
  {
    RowReadsBack(r);
    FieldsArePlain(r, '\n');
    JoinIsPlain(Fields(r), '\t', '\n');
    var rest := "\t" + Join(Fields(r)[1..], '\t');
    assert PrintRow(r) == r.key + rest;
    InkComesFirst(r.key, rest);
  }

  // --- whole manifests ------------------------------------------------------------------------

  function PrintRows(rs: seq<Row>): seq<string> {
    seq(|rs|, i requires 0 <= i < |rs| => PrintRow(rs[i]))
  }

  /** Every row on its own line. */
  function PrintAll(rs: seq<Row>): string {
    if rs == [] then "" else Join(PrintRows(rs), '\n') + "\n"
  }

  predicate GoodRows(rs: seq<Row>) {
    && (forall i :: 0 <= i < |rs| ==> GoodRow(rs[i]))
    && (forall i, j :: 0 <= i < j < |rs| ==> rs[i].key != rs[j].key)
  }

  lemma PrintedLines(rs: seq<Row>)
    requires GoodRows(rs)
    ensures Lines(PrintAll(rs)) == PrintRows(rs)
  {
    forall i | 0 <= i < |rs| ensures '\n' !in PrintRows(rs)[i] { RowReads(rs[i]); }
    if rs != [] {
      SplitJoin(PrintRows(rs), '\n');
      var t := PrintAll(rs);
      assert t[..|t| - 1] == Join(PrintRows(rs), '\n');
    } else {
      assert PrintRows(rs) == [];
    }
  }

  lemma PrintedReadings(rs: seq<Row>)
    requires GoodRows(rs)
    ensures |Readings(PrintAll(rs))| == |rs|
    ensures forall i :: 0 <= i < |rs| ==> Readings(PrintAll(rs))[i] == Good(EntryOf(rs[i]))
  {
    PrintedLines(rs);
    forall i | 0 <= i < |rs| ensures Readings(PrintAll(rs))[i] == Good(EntryOf(rs[i])) { RowReads(rs[i]); }
  }

  /** Any list of well-formed rows with distinct keys, in any order, reads back as
      exactly its entries. */
  lemma ManifestReadsBack(rs: seq<Row>)
    requires GoodRows(rs)
    ensures Parse(PrintAll(rs), false).1.Ok?
    ensures forall i :: 0 <= i < |rs| ==>
              rs[i].key in Parse(PrintAll(rs), false).0 && Parse(PrintAll(rs), false).0[rs[i].key] == EntryOf(rs[i])
    ensures forall key :: key in Parse(PrintAll(rs), false).0 ==> exists i :: 0 <= i < |rs| && rs[i].key == key
  {
    var text := PrintAll(rs);
    PrintedReadings(rs);
    FirstBadLine(text);
    var readings := Readings(text);
    assert Acceptable(readings);
    forall i | 0 <= i < |rs| ensures readings[i].Good? && readings[i].entry.key == rs[i].key {}
  }

  // --- exactly the keys the format can carry -----------------------------------------------------

  /** Whatever the parser reads from a line has a key the format can carry. */
  lemma ReadKeyIsGood(line: string)
    requires '\n' !in line && Read(line).Good?
    ensures GoodKey(Read(line).entry.key)
  {
    var key := Split(line, '\t')[0];
    PiecesAreFree(line, '\t');
    FirstPieceIsPrefix(line, '\t');
    assert line == key + line[|key|..];
    InkComesFirst(key, line[|key|..]);
  }

  lemma LinesAreFree(text: string)
    ensures Free(Lines(text), '\n')
  {
    if text != "" {
      PiecesAreFree(text[..|text| - 1], '\n');
      PiecesAreFree(text, '\n');
    }
  }

  /** Every key of a parsed manifest is one the format can carry. */
  lemma ParsedKeysAreGood(text: string, key: string)
    requires Parse(text, false).1.Ok? && key in Parse(text, false).0
    ensures GoodKey(key)
  {
    FirstBadLine(text);
    LinesAreFree(text);
    var m := Parse(text, false).0;
    var i :| 0 <= i < |Readings(text)| && Readings(text)[i] == Good(m[key]) && m[key].key == key;
    ReadKeyIsGood(Lines(text)[i]);
  }

  /** A row alone in a file reads back exactly when the format can carry its key. */
  lemma RowReadsBackIff(r: Row)
    requires GoodBody(r)
    ensures Parse(PrintAll([r]), false) == (map[r.key := EntryOf(r)], Ok) <==> GoodKey(r.key)
  {
    var text := PrintAll([r]);
    if GoodKey(r.key) {
      ManifestReadsBack([r]);
      var m := Parse(text, false).0;
      assert [r][0] == r && r.key in m && m[r.key] == EntryOf(r);
      assert m == map[r.key := EntryOf(r)];
    }
    if Parse(text, false) == (map[r.key := EntryOf(r)], Ok) { ParsedKeysAreGood(text, r.key); }
  }
}
