/** Base64 as the control path carries descriptors (common/base64.hpp; section 4 of
    RFC 4648), with the decoder's 32-bit accumulator, and the token both ends agree
    on (common/s3_protocol.hpp, server/s3_server.cpp). */
module Base64Codec {
  import opened Arithmetic
  import opened ProtocolOptions
  import opened HttpText

  function Octet(n: nat): char
    requires n < 256
  { n as char }

  // --- the alphabet -----------------------------------------------------------------

  function Letter(v: nat): (c: char)
    requires v < 64
  {
    if v < 26 then 'A' + v as char
    else if v < 52 then 'a' + (v - 26) as char
    else if v < 62 then '0' + (v - 52) as char
    else if v == 62 then '+' else '/'
  }

  /** The decoder's table: padding and everything else is -1 and skipped. */
  function Sextet(c: char): (v: int)
    ensures -1 <= v < 64
  {
    if 'A' <= c <= 'Z' then c as int - 'A' as int
    else if 'a' <= c <= 'z' then c as int - 'a' as int + 26
    else if '0' <= c <= '9' then c as int - '0' as int + 52
    else if c == '+' then 62 else if c == '/' then 63 else -1
  }

  lemma SextetOfLetter(v: nat)
    requires v < 64
    ensures Sextet(Letter(v)) == v && Letter(v) != ':'
  {}

  // --- encoding ---------------------------------------------------------------------

  /** The 24-bit group starting a non-empty input; missing octets are zero. */
  function Group(d: string): nat
    requires d != ""
  {
    d[0] as int * 65536 + (if |d| > 1 then d[1] as int * 256 else 0) + (if |d| > 2 then d[2] as int else 0)
  }

  function EncodeGroup(d: string): string
    requires d != ""
  {
    var n := Group(d);
    [Letter(n / 262144 % 64), Letter(n / 4096 % 64),
     if |d| > 1 then Letter(n / 64 % 64) else '=', if |d| > 2 then Letter(n % 64) else '=']
  }

  function Encode(d: string): string
    decreases |d|
  {
    if d == "" then "" else EncodeGroup(d) + if |d| <= 3 then "" else Encode(d[3..])
  }

  /** base64_encode as it runs. */
  method EncodeLoop(d: string) returns (out: string)
    ensures out == Encode(d)
  {
    out := "";
    var i := 0;
    while i < |d|
      invariant 0 <= i && (i <= |d| ==> out + Encode(d[i..]) == Encode(d)) && (i > |d| ==> out == Encode(d))
    {
      assert d[i..] != "" && (|d[i..]| > 3 ==> d[i..][3..] == d[i + 3..]);
      out := out + EncodeGroup(d[i..]);
      i := i + 3;
    }
    if i == |d| { assert d[i..] == "" && out + "" == out; }
  }

  // --- decoding ---------------------------------------------------------------------

  function Pow2(k: nat): (r: nat)
    ensures r > 0
  { if k == 0 then 1 else 2 * Pow2(k - 1) }

  /** Decoding with an accumulator that never loses a bit. */
  function DecodeFrom(s: string, acc: nat, bits: nat): string
    decreases |s|
  {
    if s == "" then ""
    else
      var v := Sextet(s[0]);
      if v < 0 then DecodeFrom(s[1..], acc, bits)
      else if bits + 6 < 8 then DecodeFrom(s[1..], acc * 64 + v, bits + 6)
      else [Octet((acc * 64 + v) / Pow2(bits - 2) % 256)] + DecodeFrom(s[1..], acc * 64 + v, bits - 2)
  }

  function Decode(s: string): string { DecodeFrom(s, 0, 0) }

  /** A 32-bit two's-complement register. */
  function Wrap(x: int): int { (x + 0x8000_0000) % 0x1_0000_0000 - 0x8000_0000 }

  /** A multiple of 256 divisors added to a number leaves its shifted octet alone. */
  lemma LowBits(y: int, m: int, d: int)
    requires d > 0
    ensures (y + m * (256 * d)) / d % 256 == y / d % 256
  {
    assert y + m * (256 * d) == y + (m * 256) * d;
    QuotientShifts(y, m * 256, d);
  }

  /** Shifting the register and shifting the exact number give the same octet. */
  lemma WrapKeepsLowBits(x: int, k: nat)
    requires k == 0 || k == 2 || k == 4
    ensures Wrap(x) / Pow2(k) % 256 == x / Pow2(k) % 256
  {
    var q := (x + 0x8000_0000) / 0x1_0000_0000;
    assert x == Wrap(x) + q * 0x1_0000_0000;
    assert Pow2(1) == 2 && Pow2(2) == 4 && Pow2(3) == 8 && Pow2(4) == 16;
    var m := if k == 0 then 0x100_0000 else if k == 2 then 0x40_0000 else 0x10_0000;
    assert q * 0x1_0000_0000 == (q * m) * (256 * Pow2(k));
    LowBits(Wrap(x), q * m, Pow2(k));
  }

  /** One step of the register follows one step of the exact accumulator. */
  lemma WrapSteps(acc: int, v: int)
    ensures Wrap(Wrap(acc) * 64 + v) == Wrap(acc * 64 + v)
  {
    var q := (acc + 0x8000_0000) / 0x1_0000_0000;
    assert Wrap(acc) * 64 + v == acc * 64 + v - (64 * q) * 0x1_0000_0000;
    WrapShift(acc * 64 + v, 64 * q);
  }

  lemma WrapShift(x: int, q: int)
    ensures Wrap(x - q * 0x1_0000_0000) == Wrap(x)
  {}

  /** base64_decode as it runs, on the 32-bit register. */
  method DecodeLoop(s: string) returns (out: string)
    ensures out == Decode(s)
  {
    out := "";
    var buf, bits := 0, 0;
    ghost var acc: nat := 0;
    assert s[0..] == s;
    for i := 0 to |s|
      invariant bits == 0 || bits == 2 || bits == 4 || bits == 6
      invariant buf == Wrap(acc)
      invariant out + DecodeFrom(s[i..], acc, bits) == Decode(s)
    {
      assert s[i..][0] == s[i] && s[i..][1..] == s[i + 1..];
      var v := Sextet(s[i]);
      if v >= 0 {
        WrapSteps(acc, v);
        buf := Wrap(buf * 64 + v);
        acc := acc * 64 + v;
        bits := bits + 6;
        if bits >= 8 {
          bits := bits - 8;
          WrapKeepsLowBits(acc, bits);
          out := out + [Octet(buf / Pow2(bits) % 256)];
        }
      }
    }
    assert s[|s|..] == "" && out + "" == out;
  }

  // --- the round trip ------------------------------------------------------------------

  /** What one more sextet does to the exact decoder. */
  lemma DecodeLetter(v: nat, rest: string, acc: nat, bits: nat)
    requires v < 64
    ensures DecodeFrom([Letter(v)] + rest, acc, bits) ==
            if bits + 6 < 8 then DecodeFrom(rest, acc * 64 + v, bits + 6)
            else [Octet((acc * 64 + v) / Pow2(bits - 2) % 256)] + DecodeFrom(rest, acc * 64 + v, bits - 2)
  {
    SextetOfLetter(v);
    assert ([Letter(v)] + rest)[1..] == rest;
  }

  lemma DecodePadding(rest: string, acc: nat, bits: nat)
    ensures DecodeFrom("=" + rest, acc, bits) == DecodeFrom(rest, acc, bits)
  {
    assert ("=" + rest)[1..] == rest;
  }

  /** The sextets of a group, from its octets. */
  lemma GroupSextets(x: nat, y: nat, z: nat)
    requires x < 256 && y < 256 && z < 256
    ensures var n := x * 65536 + y * 256 + z;
            && n / 262144 % 64 == x / 4 && n / 4096 % 64 == x % 4 * 16 + y / 16
            && n / 64 % 64 == y % 16 * 4 + z / 64 && n % 64 == z % 64
  {
    FirstSextet(x, y, z);
    SecondSextet(x, y, z);
    ThirdSextet(x, y, z);
    FourthSextet(x, y, z);
  }

  lemma Div64(q: nat, r: nat)
    requires r < 64
    ensures (q * 64 + r) / 64 == q && (q * 64 + r) % 64 == r
  {}

  lemma FirstSextet(x: nat, y: nat, z: nat)
    requires x < 256 && y < 256 && z < 256
    ensures (x * 65536 + y * 256 + z) / 262144 % 64 == x / 4
  {
    var n, q, r := x * 65536 + y * 256 + z, x / 4, x % 4;
    assert n == q * 262144 + (r * 65536 + y * 256 + z);
    assert n / 262144 == q;
  }

  lemma SecondSextet(x: nat, y: nat, z: nat)
    requires x < 256 && y < 256 && z < 256
    ensures (x * 65536 + y * 256 + z) / 4096 % 64 == x % 4 * 16 + y / 16
  {
    var q, r, yh, yl := x / 4, x % 4, y / 16, y % 16;
    assert x == q * 4 + r && y == yh * 16 + yl;
    var n, m := x * 65536 + y * 256 + z, q * 64 + (r * 16 + yh);
    assert n == m * 4096 + (yl * 256 + z);
    assert n / 4096 == m;
    Div64(q, r * 16 + yh);
  }

  lemma ThirdSextet(x: nat, y: nat, z: nat)
    requires x < 256 && y < 256 && z < 256
    ensures (x * 65536 + y * 256 + z) / 64 % 64 == y % 16 * 4 + z / 64
  {
    var yh, yl, zh, zl := y / 16, y % 16, z / 64, z % 64;
    assert y == yh * 16 + yl && z == zh * 64 + zl;
    var m := (x * 16 + yh) * 64 + (yl * 4 + zh);
    assert x * 65536 + y * 256 + z == m * 64 + zl;
    Div64(m, zl);
    Div64(x * 16 + yh, yl * 4 + zh);
  }

  lemma FourthSextet(x: nat, y: nat, z: nat)
    requires z < 256
    ensures (x * 65536 + y * 256 + z) % 64 == z % 64
  {
    var zh, zl := z / 64, z % 64;
    assert z == zh * 64 + zl;
    assert x * 65536 + y * 256 + z == (x * 1024 + y * 4 + zh) * 64 + zl;
    Div64(x * 1024 + y * 4 + zh, zl);
  }

  /** Two sextets complete the first octet. */
  lemma FirstOctet(acc: nat, x: nat, y: nat)
    requires x < 256 && y < 256
    ensures var acc2 := (acc * 64 + x / 4) * 64 + (x % 4 * 16 + y / 16);
            acc2 == acc * 4096 + x * 16 + y / 16 && acc2 / 16 % 256 == x
  {
    var acc2 := acc * 4096 + x * 16 + y / 16;
    assert acc2 / 16 == acc * 256 + x;
  }

  lemma SecondOctet(acc: nat, x: nat, y: nat, z: nat)
    requires x < 256 && y < 256 && z < 256
    ensures var acc3 := (acc * 4096 + x * 16 + y / 16) * 64 + (y % 16 * 4 + z / 64);
            acc3 == acc * 262144 + x * 1024 + y * 4 + z / 64 && acc3 / 4 % 256 == y
  {
    var acc3 := acc * 262144 + x * 1024 + y * 4 + z / 64;
    assert acc3 / 4 == (acc * 256 + x) * 256 + y;
  }

  lemma ThirdOctet(acc: nat, x: nat, y: nat, z: nat)
    requires x < 256 && y < 256 && z < 256
    ensures ((acc * 262144 + x * 1024 + y * 4 + z / 64) * 64 + z % 64) % 256 == z
  {
    var zh, zl := z / 64, z % 64;
    assert z == zh * 64 + zl;
    Mod256((acc * 256 + x) * 256 + y, z);
  }

  lemma Mod256(m: nat, z: nat)
    requires z < 256
    ensures (m * 256 + z) % 256 == z
  {}

  lemma DecodeFirst(x: nat, y: nat, rest: string, acc: nat)
    requires x < 256 && y < 256
    ensures DecodeFrom([Letter(x / 4), Letter(x % 4 * 16 + y / 16)] + rest, acc, 0)
         == [Octet(x)] + DecodeFrom(rest, acc * 4096 + x * 16 + y / 16, 4)
  {
    var tail := [Letter(x % 4 * 16 + y / 16)] + rest;
    assert [Letter(x / 4), Letter(x % 4 * 16 + y / 16)] + rest == [Letter(x / 4)] + tail;
    DecodeLetter(x / 4, tail, acc, 0);
    DecodeLetter(x % 4 * 16 + y / 16, rest, acc * 64 + x / 4, 6);
    FirstOctet(acc, x, y);
    SmallPowers();
  }

  lemma SmallPowers()
    ensures Pow2(0) == 1 && Pow2(1) == 2 && Pow2(2) == 4 && Pow2(4) == 16
  {
    assert Pow2(3) == 8;
  }

  lemma DecodeSecond(x: nat, y: nat, z: nat, rest: string, acc: nat)
    requires x < 256 && y < 256 && z < 256
    ensures DecodeFrom([Letter(y % 16 * 4 + z / 64)] + rest, acc * 4096 + x * 16 + y / 16, 4)
         == [Octet(y)] + DecodeFrom(rest, acc * 262144 + x * 1024 + y * 4 + z / 64, 2)
  {
    DecodeLetter(y % 16 * 4 + z / 64, rest, acc * 4096 + x * 16 + y / 16, 4);
    SecondOctet(acc, x, y, z);
    SmallPowers();
  }

  lemma DecodeThird(x: nat, y: nat, z: nat, rest: string, acc: nat) returns (acc': nat)
    requires x < 256 && y < 256 && z < 256
    ensures DecodeFrom([Letter(z % 64)] + rest, acc * 262144 + x * 1024 + y * 4 + z / 64, 2)
         == [Octet(z)] + DecodeFrom(rest, acc', 0)
  {
    acc' := (acc * 262144 + x * 1024 + y * 4 + z / 64) * 64 + z % 64;
    DecodeLetter(z % 64, rest, acc * 262144 + x * 1024 + y * 4 + z / 64, 2);
    ThirdOctet(acc, x, y, z);
  }

  lemma WholeGroup(x: nat, y: nat, z: nat, d: string, rest: string)
    requires x < 256 && y < 256 && z < 256 && |d| >= 3 && Group(d) == x * 65536 + y * 256 + z
    ensures EncodeGroup(d) + rest == [Letter(x / 4), Letter(x % 4 * 16 + y / 16)] +
                                     ([Letter(y % 16 * 4 + z / 64)] + ([Letter(z % 64)] + rest))
  {
    GroupSextets(x, y, z);
  }

  lemma DecodeOctets(x: nat, y: nat, z: nat, rest: string, acc: nat) returns (acc': nat)
    requires x < 256 && y < 256 && z < 256
    ensures DecodeFrom([Letter(x / 4), Letter(x % 4 * 16 + y / 16)] +
                       ([Letter(y % 16 * 4 + z / 64)] + ([Letter(z % 64)] + rest)), acc, 0)
         == [Octet(x)] + ([Octet(y)] + ([Octet(z)] + DecodeFrom(rest, acc', 0)))
  {
    DecodeFirst(x, y, [Letter(y % 16 * 4 + z / 64)] + ([Letter(z % 64)] + rest), acc);
    DecodeSecond(x, y, z, [Letter(z % 64)] + rest, acc);
    acc' := DecodeThird(x, y, z, rest, acc);
  }

  lemma DecodeWhole(d: string, rest: string, acc: nat) returns (acc': nat)
    requires Octets(d) && |d| >= 3
    ensures DecodeFrom(EncodeGroup(d) + rest, acc, 0) == d[..3] + DecodeFrom(rest, acc', 0)
  {
    var x, y, z := d[0] as int, d[1] as int, d[2] as int;
    WholeGroup(x, y, z, d, rest);
    acc' := DecodeOctets(x, y, z, rest, acc);
    ThreeOctets(d, DecodeFrom(rest, acc', 0));
  }

  lemma ThreeOctets(d: string, rest: string)
    requires |d| >= 3
    ensures d[..3] + rest == [d[0]] + ([d[1]] + ([d[2]] + rest))
  {}

  lemma DecodePartial(d: string, acc: nat)
    requires Octets(d) && 1 <= |d| <= 2
    ensures DecodeFrom(EncodeGroup(d), acc, 0) == d
  {
    if |d| == 1 { DecodeOne(d, acc); } else { DecodeTwo(d, acc); }
  }

  lemma OneGroup(d: string, x: nat)
    requires Octets(d) && |d| == 1 && d[0] as int == x
    ensures EncodeGroup(d) == [Letter(x / 4), Letter(x % 4 * 16)] + ("=" + ("=" + ""))
  {
    GroupSextets(x, 0, 0);
  }

  lemma DecodeOne(d: string, acc: nat)
    requires Octets(d) && |d| == 1
    ensures DecodeFrom(EncodeGroup(d), acc, 0) == d
  {
    var x := d[0] as int;
    OneGroup(d, x);
    DecodeFirst(x, 0, "=" + ("=" + ""), acc);
    DecodePadding("=" + "", acc * 4096 + x * 16, 4);
    DecodePadding("", acc * 4096 + x * 16, 4);
  }

  lemma TwoGroup(d: string, x: nat, y: nat)
    requires Octets(d) && |d| == 2 && d[0] as int == x && d[1] as int == y
    ensures EncodeGroup(d) == [Letter(x / 4), Letter(x % 4 * 16 + y / 16)] + ([Letter(y % 16 * 4)] + ("=" + ""))
  {
    GroupSextets(x, y, 0);
  }

  lemma DecodeTwo(d: string, acc: nat)
    requires Octets(d) && |d| == 2
    ensures DecodeFrom(EncodeGroup(d), acc, 0) == d
  {
    var x, y := d[0] as int, d[1] as int;
    TwoGroup(d, x, y);
    DecodeFirst(x, y, [Letter(y % 16 * 4)] + ("=" + ""), acc);
    DecodeSecond(x, y, 0, "=" + "", acc);
    DecodePadding("", acc * 262144 + x * 1024 + y * 4, 2);
  }

  lemma {:induction false} DecodeUndoes(d: string, acc: nat)
    requires Octets(d)
    ensures DecodeFrom(Encode(d), acc, 0) == d
    decreases |d|
  {
    if |d| == 1 || |d| == 2 {
      assert Encode(d) == EncodeGroup(d) + "" == EncodeGroup(d);
      DecodePartial(d, acc);
    } else if |d| >= 3 {
      var rest := if |d| == 3 then "" else Encode(d[3..]);
      var acc' := DecodeWhole(d, rest, acc);
      if |d| > 3 { DecodeUndoes(d[3..], acc'); }
      assert d == d[..3] + d[3..];
    }
  }

  /** For every octet string, decoding undoes encoding. */
  lemma RoundTrip(d: string)
    requires Octets(d)
    ensures Decode(Encode(d)) == d
  {
    DecodeUndoes(d, 0);
  }

  // --- the token both ends agree on ------------------------------------------------------

  lemma {:induction false} EncodingHasNoColon(d: string)
    ensures ':' !in Encode(d)
    decreases |d|
  {
    if d != "" {
      var n := Group(d);
      SextetOfLetter(n / 262144 % 64);
      SextetOfLetter(n / 4096 % 64);
      SextetOfLetter(n / 64 % 64);
      SextetOfLetter(n % 64);
      if |d| > 3 { EncodingHasNoColon(d[3..]); }
    }
  }

  /** `d` without its trailing NULs. */
  function TrimNul(d: string): string {
    if d != "" && d[|d| - 1] == '\0' then TrimNul(d[..|d| - 1]) else d
  }

  /** encode_rdma_token. */
  method EncodeToken(desc: string, mode: TokenEncoding) returns (token: string)
    ensures token == Token(desc, mode)
  {
    if mode.Base64? { token := EncodeLoop(desc); return; }
    var len := |desc|;
    assert desc[..len] == desc;
    while len > 0 && desc[len - 1] == '\0'
      invariant 0 <= len <= |desc| && TrimNul(desc[..len]) == TrimNul(desc)
    {
      assert desc[..len][..len - 1] == desc[..len - 1];
      len := len - 1;
    }
    token := desc[..len];
  }

  function Token(desc: string, mode: TokenEncoding): string {
    if mode.Base64? then Encode(desc) else TrimNul(desc)
  }

  /** The server's reading: a descriptor contains ':', its Base64 form does not. */
  function ServerDescriptor(token: string): string { if ':' in token then token else Decode(token) }

  /** Every two sextets skipped or read leave room for fewer octets. */
  lemma {:induction false} DecodeShrinks(s: string, acc: nat, bits: nat)
    ensures |DecodeFrom(s, acc, bits)| * 8 <= |s| * 6 + bits
    decreases |s|
  {
    if s != "" {
      var v := Sextet(s[0]);
      if v < 0 { DecodeShrinks(s[1..], acc, bits); }
      else if bits + 6 < 8 { DecodeShrinks(s[1..], acc * 64 + v, bits + 6); }
      else { DecodeShrinks(s[1..], acc * 64 + v, bits - 2); }
    }
  }

  /** End to end: Base64 mode gives the server every descriptor byte; verbatim mode
      gives it the NUL-trimmed descriptor exactly when that contains ':' or is empty. */
  lemma ServerRecovers(desc: string)
    requires Octets(desc)
    ensures ServerDescriptor(Token(desc, Base64)) == desc
    ensures ServerDescriptor(Token(desc, Verbatim)) == TrimNul(desc) <==> ':' in TrimNul(desc) || TrimNul(desc) == ""
  {
    EncodingHasNoColon(desc);
    RoundTrip(desc);
    DecodeShrinks(TrimNul(desc), 0, 0);
  }
}
