/** The completion authority: which receipts prove that a GET landed
    (common/completion_authority.hpp, common/s3_protocol.hpp, and the callback's
    use of them in probe/rig_probe_main.cpp). */
module Authority {
  import opened HttpText
  import opened MessageHead
  import opened Receipt
  import opened Segmentation
  import opened ProtocolOptions
  import Decimal

  const REPLY := "x-amz-rdma-reply"
  const COUNT := "x-amz-rdma-bytes-transferred"
  const LONG_MAX: nat := 0x7FFF_FFFF_FFFF_FFFF
  const ENOTSUP: int := 95

  // --- the two protocol fields -----------------------------------------------------

  datatype Reply = Declined | Code(code: nat) | Malformed

  /** Absent, empty or 501: RDMA was not used; 100..599 otherwise. */
  function ReplyOf(present: bool, value: string): Reply {
    if !present || value == "" then Declined
    else if !Decimal.AllDigits(value) || !(100 <= Decimal.Value(value) <= 599) then Malformed
    else if Decimal.Value(value) == 501 then Declined
    else Code(Decimal.Value(value))
  }

  method ParseReply(present: bool, value: string) returns (r: Reply)
    ensures r == ReplyOf(present, value)
  {
    if !present || value == "" { return Declined; }
    if !Decimal.AllDigits(value) { return Malformed; }
    var code := 0;
    for i := 0 to |value|
      invariant code == Decimal.Value(value[..i]) <= 599
    {
      var digit := Decimal.Digit(value[i]);
      Decimal.ValueNext(value, i);
      if code > (599 - digit) / 10 {
        Decimal.ValueGrows(value, i + 1);
        return Malformed;
      }
      code := code * 10 + digit;
    }
    assert value[..|value|] == value;
    if code < 100 { return Malformed; }
    if code == 501 { return Declined; }
    return Code(code);
  }

  /** Absent or empty is zero; a plain number up to the callback size and LONG_MAX
      is itself; anything else is -1. */
  function DeclaredOf(present: bool, value: string, size: nat): int {
    var limit := if size < LONG_MAX then size else LONG_MAX;
    if !present || value == "" then 0
    else if Decimal.AllDigits(value) && Decimal.Value(value) <= limit then Decimal.Value(value)
    else -1
  }

  method ParseBytesTransferred(present: bool, value: string, size: nat) returns (n: int)
    ensures n == DeclaredOf(present, value, size)
  {
    if !present || value == "" { return 0; }
    if !Decimal.AllDigits(value) { return -1; }
    var ok, v := Decimal.ParseCapped(value, if size < LONG_MAX then size else LONG_MAX);
    n := if ok then v else -1;
  }

  // --- the view of a receipt ---------------------------------------------------------

  predicate PlainDigits(s: string, least: nat, most: nat) { least <= |s| <= most && Decimal.AllDigits(s) }

  datatype View = View(
    present: bool, complete: bool, status: nat, replyCount: nat, countCount: nat,
    replyRaw: string, countRaw: string, replyPlain: bool, countPlain: bool,
    declared: int, bodyContent: nat)

  function FirstValue(fields: seq<Field>): string { if fields == [] then "" else fields[0].value }

  function ViewReceipt(r: Response, size: nat): View {
    var replies, counts := Named(r.head.fields, REPLY), Named(r.head.fields, COUNT);
    var present := r.headComplete && !r.head.malformed;
    var replyRaw, countRaw := FirstValue(replies), FirstValue(counts);
    View(present, present && r.messageComplete && !r.transportError && !r.bodyTruncated, r.head.status,
         |replies|, |counts|, replyRaw, countRaw,
         |replies| == 1 && PlainDigits(replyRaw, 3, 3), |counts| == 1 && PlainDigits(countRaw, 1, 20),
         DeclaredOf(counts != [], countRaw, size), r.bodyContent)
  }

  /** The three digits of a plain reply. */
  function ReplyNumber(v: View): nat
    requires PlainDigits(v.replyRaw, 3, 3)
  {
    Decimal.Digit(v.replyRaw[0]) * 100 + Decimal.Digit(v.replyRaw[1]) * 10 + Decimal.Digit(v.replyRaw[2])
  }

  predicate CompletionAuthority(v: View, mode: TokenEncoding, expected: nat, requested: nat) {
    && v.complete && (v.status == 200 || v.status == 206)
    && v.replyPlain && v.countPlain && PlainDigits(v.replyRaw, 3, 3)
    && v.declared >= 0 && v.declared == expected
    && if mode.Base64? then ReplyNumber(v) == 200 && expected == requested
       else ReplyNumber(v) == v.status && v.bodyContent == 0
  }

  /** completion_candidate: the parsed fields alone, for diagnosis. */
  predicate CompletionCandidate(v: View, mode: TokenEncoding, expected: nat, requested: nat) {
    var reply := ReplyOf(v.replyCount > 0, v.replyRaw);
    && v.present && (v.status == 200 || v.status == 206)
    && reply.Code? && v.countCount > 0 && v.declared >= 0 && v.declared == expected
    && if mode.Base64? then reply.code == 200 && expected == requested else reply.code == v.status
  }

  /** A size_t returned as ssize_t. */
  function Signed(n: nat): int { if n <= LONG_MAX then n else n - 2 * (LONG_MAX + 1) }

  /** What the callback would return without guard or lost evidence. */
  function NaturalReturn(v: View, mode: TokenEncoding, size: nat): int {
    var reply := ReplyOf(v.replyCount > 0, v.replyRaw);
    if !v.present || !(v.status == 200 || v.status == 206) then -ENOTSUP
    else if mode.Base64? then Signed(size)
    else if reply == Code(v.status) && v.declared >= 0 then v.declared
    else -ENOTSUP
  }

  // --- what acceptance means -----------------------------------------------------------

  lemma ThreeDigits(s: string)
    requires PlainDigits(s, 3, 3)
    ensures Decimal.Value(s) == Decimal.Digit(s[0]) * 100 + Decimal.Digit(s[1]) * 10 + Decimal.Digit(s[2])
  {
    assert s[..3] == s && s[..0] == "";
    Decimal.ValueNext(s, 2);
    Decimal.ValueNext(s, 1);
    Decimal.ValueNext(s, 0);
  }

  /** The one field of that name, and the number it spells. */
  predicate Spells(fields: seq<Field>, lname: string, n: nat) {
    && |Named(fields, lname)| == 1
    && Decimal.AllDigits(Named(fields, lname)[0].value) && Named(fields, lname)[0].value != ""
    && Decimal.Value(Named(fields, lname)[0].value) == n
  }

  /** An accepted receipt is a whole message whose single count field spells the
      expected length, which fits the callback; the diagnosis agrees, and the
      callback's natural return is the expected length in both token modes. */
  lemma AcceptanceMeans(r: Response, mode: TokenEncoding, expected: nat, size: nat)
    requires CompletionAuthority(ViewReceipt(r, size), mode, expected, size)
    ensures r.headComplete && !r.head.malformed && r.messageComplete && !r.transportError && !r.bodyTruncated
    ensures Spells(r.head.fields, COUNT, expected) && expected <= size && expected <= LONG_MAX
    ensures Spells(r.head.fields, REPLY, if mode.Base64? then 200 else r.head.status)
    ensures CompletionCandidate(ViewReceipt(r, size), mode, expected, size)
    ensures NaturalReturn(ViewReceipt(r, size), mode, size) == expected
  {
    ThreeDigits(ViewReceipt(r, size).replyRaw);
  }

  /** The verdict does not depend on how the peer's bytes were cut into receives. */
  lemma VerdictIgnoresCuts(a: seq<Recv>, b: seq<Recv>, caps: Caps, mode: TokenEncoding, expected: nat, size: nat)
    requires NoFailure(a) && NoFailure(b) && Join(a) == Join(b) && !Surplus(Join(a), caps)
    ensures CompletionAuthority(ViewReceipt(Receive(a, caps), size), mode, expected, size)
       <==> CompletionAuthority(ViewReceipt(Receive(b, caps), size), mode, expected, size)
  {
    CutsDoNotMatter(a, caps);
    CutsDoNotMatter(b, caps);
  }

  // --- against the fake-S3 server -------------------------------------------------------

  /** The view of a whole message with these two fields and a three-octet body. */
  function FakeView(status: nat, bytes: nat, mode: TokenEncoding, size: nat): View {
    var reply, count := Decimal.Print(if mode.Verbatim? then status else 200), Decimal.Print(bytes);
    View(true, true, status, 1, 1, reply, count, PlainDigits(reply, 3, 3), PlainDigits(count, 1, 20),
         DeclaredOf(true, count, size), 3)
  }

  lemma Prints200()
    ensures PlainDigits(Decimal.Print(200), 3, 3)
  {
    assert Decimal.Print(200) == Decimal.Print(20) + [Decimal.DigitChar(0)];
    assert Decimal.Print(20) == Decimal.Print(2) + [Decimal.DigitChar(0)];
  }

  lemma {:induction false} PrintIsShort(n: nat, k: nat)
    requires k > 0 && n < Pow10(k)
    ensures |Decimal.Print(n)| <= k
    decreases k
  {
    if n >= 10 { PrintIsShort(n / 10, k - 1); }
  }

  function Pow10(k: nat): nat { if k == 0 then 1 else 10 * Pow10(k - 1) }

  lemma FakeViewQualifies(status: nat, bytes: nat, mode: TokenEncoding, expected: nat, size: nat)
    requires status == 200 || status == 206
    requires bytes <= LONG_MAX
    ensures CompletionAuthority(FakeView(status, bytes, mode, size), mode, expected, size)
       <==> mode.Base64? && bytes == expected == size
  {
    Decimal.ValueOfPrint(bytes);
    if mode.Base64? {
      Prints200();
      Decimal.ValueOfPrint(200);
      ThreeDigits(Decimal.Print(200));
      CountFits(bytes);
    }
  }

  lemma CountFits(bytes: nat)
    requires bytes <= LONG_MAX
    ensures |Decimal.Print(bytes)| <= 20
  {
    TwentyDigits();
    PrintIsShort(bytes, 20);
  }

  lemma TwentyDigits()
    ensures Pow10(20) > LONG_MAX
  {
    FiveMore(15);
    FiveMore(10);
    FiveMore(5);
    FiveMore(0);
  }

  lemma FiveMore(k: nat)
    ensures Pow10(k + 5) == 100000 * Pow10(k)
  {
    assert Pow10(k + 5) == 10 * Pow10(k + 4);
    assert Pow10(k + 4) == 10 * Pow10(k + 3);
    assert Pow10(k + 3) == 10 * Pow10(k + 2);
    assert Pow10(k + 2) == 10 * Pow10(k + 1);
  }
}
