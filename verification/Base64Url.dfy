/** base64url without padding, section 5 of RFC 4648, and big-endian numbers as bytes. */
module Base64Url {
  import opened Wrappers
  import opened Bytes
  import opened Sequences

  type sextet = x: int | 0 <= x < 64

  function Letter(d: sextet): (c: char) {
    if d < 26 then 'A' + d as char
    else if d < 52 then 'a' + (d - 26) as char
    else if d < 62 then '0' + (d - 52) as char
    else if d == 62 then '-' else '_'
  }

  function Digit(c: char): Option<sextet> {
    if 'A' <= c <= 'Z' then Some(c as int - 'A' as int)
    else if 'a' <= c <= 'z' then Some(c as int - 'a' as int + 26)
    else if '0' <= c <= '9' then Some(c as int - '0' as int + 52)
    else if c == '-' then Some(62)
    else if c == '_' then Some(63)
    else None
  }

  lemma LetterDigit(d: sextet)
    ensures Digit(Letter(d)) == Some(d)
    ensures Letter(d) != '\r' && Letter(d) != '\n'
  {}

  /** Table 2 of RFC 4648: capitals, small letters, figures, each in order, then '-' and '_'. */
  lemma AlphabetExactly(d: sextet)
    ensures Letter(0) == 'A' && Letter(25) == 'Z' && Letter(26) == 'a' && Letter(51) == 'z'
    ensures Letter(52) == '0' && Letter(61) == '9' && Letter(62) == '-' && Letter(63) == '_'
    ensures d < 61 && d != 25 && d != 51 ==> Letter(d + 1) as int == Letter(d) as int + 1
  {}

  /** A character stands for a digit exactly if the digit is written with it. */
  lemma DigitExactly(c: char, d: sextet)
    ensures Digit(c) == Some(d) <==> Letter(d) == c
    ensures Digit(c).None? ==> forall e: sextet :: Letter(e) != c
  {}

  // The four digits of three bytes, and the three bytes of four digits.

  function D0(a: byte): sextet { a / 4 }
  function D1(a: byte, b: byte): sextet { a % 4 * 16 + b / 16 }
  function D2(b: byte, c: byte): sextet { b % 16 * 4 + c / 64 }
  function D3(c: byte): sextet { c % 64 }

  function B0(d: sextet, e: sextet): byte { d * 4 + e / 16 }
  function B1(e: sextet, f: sextet): byte { e % 16 * 16 + f / 4 }
  function B2(f: sextet, g: sextet): byte { f % 4 * 64 + g }

  lemma GroupRoundTrip(a: byte, b: byte, c: byte)
    ensures B0(D0(a), D1(a, b)) == a && B1(D1(a, b), D2(b, c)) == b && B2(D2(b, c), D3(c)) == c
  {}

  /** Three bytes and four digits are the same 24 bits, most significant first. */
  lemma GroupValue(a: byte, b: byte, c: byte)
    ensures var x: int, y: int, z: int := a, b, c;
            var d0: int, d1: int, d2: int, d3: int := D0(a), D1(a, b), D2(b, c), D3(c);
            0x1_0000 * x + 0x100 * y + z == 0x4_0000 * d0 + 0x1000 * d1 + 0x40 * d2 + d3
  {}

  function Encode(b: seq<byte>): string {
    if b == [] then ""
    else if |b| == 1 then [Letter(D0(b[0])), Letter(D1(b[0], 0))]
    else if |b| == 2 then [Letter(D0(b[0])), Letter(D1(b[0], b[1])), Letter(D2(b[1], 0))]
    else
      [Letter(D0(b[0])), Letter(D1(b[0], b[1])), Letter(D2(b[1], b[2])), Letter(D3(b[2]))] + Encode(b[3..])
  }

  /** Groups of four digits are three bytes; bits left over at the end are dropped. */
  function FromDigits(d: seq<sextet>): seq<byte> {
    if |d| < 2 then []
    else if |d| == 2 then [B0(d[0], d[1])]
    else if |d| == 3 then [B0(d[0], d[1]), B1(d[1], d[2])]
    else [B0(d[0], d[1]), B1(d[1], d[2]), B2(d[2], d[3])] + FromDigits(d[4..])
  }

  /** The digits of s; line breaks are skipped, any other foreign character is an error. */
  function Digits(s: string): Option<seq<sextet>> {
    if s == "" then Some([])
    else if s[0] == '\r' || s[0] == '\n' then Digits(s[1..])
    else
      var rest := Digits(s[1..]);
      if Digit(s[0]).None? || rest.None? then None else Some([Digit(s[0]).value] + rest.value)
  }

  function Decode(s: string): Option<seq<byte>> {
    var d := Digits(s);
    if d.None? || |d.value| % 4 == 1 then None else Some(FromDigits(d.value))
  }

  function LettersIn(s: string): nat {
    if s == "" then 0 else LettersIn(s[1..]) + if s[0] == '\r' || s[0] == '\n' then 0 else 1
  }

  lemma {:induction false} DigitsExactly(s: string)
    ensures Digits(s).Some? <==> forall c :: c in s ==> c == '\r' || c == '\n' || Digit(c).Some?
    ensures Digits(s).Some? ==> |Digits(s).value| == LettersIn(s)
  {
    if s != "" {
      DigitsExactly(s[1..]);
      assert forall c :: c in s <==> c == s[0] || c in s[1..];
    }
  }

  /** What decodes: letters of the alphabet and line breaks only, with no single letter left over. */
  lemma DecodesExactly(s: string)
    ensures Decode(s).Some? <==>
            (forall c :: c in s ==> c == '\r' || c == '\n' || Digit(c).Some?) && LettersIn(s) % 4 != 1
  {
    DigitsExactly(s);
  }

  /** The digits an encoding spells. */
  function Sextets(b: seq<byte>): seq<sextet> {
    if b == [] then []
    else if |b| == 1 then [D0(b[0]), D1(b[0], 0)]
    else if |b| == 2 then [D0(b[0]), D1(b[0], b[1]), D2(b[1], 0)]
    else [D0(b[0]), D1(b[0], b[1]), D2(b[1], b[2]), D3(b[2])] + Sextets(b[3..])
  }

  lemma {:induction false} SpellDigits(d: seq<sextet>, s: string)
    requires |s| == |d| && forall i :: 0 <= i < |d| ==> s[i] == Letter(d[i])
    ensures Digits(s) == Some(d)
  {
    if d != [] {
      SpellDigits(d[1..], s[1..]);
      LetterDigit(d[0]);
      assert s[0] == Letter(d[0]);
      assert d == [d[0]] + d[1..];
    }
  }

  lemma {:induction false} EncodeSpells(b: seq<byte>)
    ensures |Encode(b)| == |Sextets(b)| == (4 * |b| + 2) / 3
    ensures forall i :: 0 <= i < |Encode(b)| ==> Encode(b)[i] == Letter(Sextets(b)[i])
  {
    if |b| >= 3 {
      EncodeSpells(b[3..]);
    }
  }

  lemma BytesOfGroup(w: sextet, x: sextet, y: sextet, z: sextet, rest: seq<sextet>)
    ensures FromDigits([w, x, y, z] + rest) == [B0(w, x), B1(x, y), B2(y, z)] + FromDigits(rest)
  {
    Apart([w, x, y, z], rest);
  }

  lemma LastOne(b: seq<byte>)
    requires |b| == 1
    ensures FromDigits(Sextets(b)) == b
  {
    var d := [D0(b[0]), D1(b[0], 0)];
    assert Sextets(b) == d;
    assert B0(D0(b[0]), D1(b[0], 0)) == b[0] by {
      GroupRoundTrip(b[0], 0, 0);
    }
    BytesOfPair(d[0], d[1]);
    assert [b[0]] == b;
  }

  lemma BytesOfPair(w: sextet, x: sextet)
    ensures FromDigits([w, x]) == [B0(w, x)]
  {}

  lemma LastTwo(b: seq<byte>)
    requires |b| == 2
    ensures FromDigits(Sextets(b)) == b
  {
    GroupRoundTrip(b[0], b[1], 0);
    var d := Sextets(b);
    assert |d| == 3 && d[0] == D0(b[0]) && d[1] == D1(b[0], b[1]) && d[2] == D2(b[1], 0);
    assert b == [b[0], b[1]];
  }

  lemma SextetsOfThree(b: seq<byte>)
    requires |b| >= 3
    ensures Sextets(b) == [D0(b[0]), D1(b[0], b[1]), D2(b[1], b[2]), D3(b[2])] + Sextets(b[3..])
  {}

  lemma GroupBytes(a: byte, b: byte, c: byte, rest: seq<sextet>)
    ensures FromDigits([D0(a), D1(a, b), D2(b, c), D3(c)] + rest) == [a, b, c] + FromDigits(rest)
  {
    GroupRoundTrip(a, b, c);
    BytesOfGroup(D0(a), D1(a, b), D2(b, c), D3(c), rest);
  }

  lemma FrontThree(b: seq<byte>)
    requires |b| >= 3
    ensures [b[0], b[1], b[2]] + b[3..] == b
  {
    assert b[..3] == [b[0], b[1], b[2]];
    Together(b, 3);
  }

  lemma FirstThree(b: seq<byte>)
    requires |b| >= 3 && FromDigits(Sextets(b[3..])) == b[3..]
    ensures FromDigits(Sextets(b)) == b
  {
    SextetsOfThree(b);
    GroupBytes(b[0], b[1], b[2], Sextets(b[3..]));
    FrontThree(b);
  }

  lemma {:induction false} SextetsRoundTrip(b: seq<byte>)
    ensures FromDigits(Sextets(b)) == b
  {
    if |b| == 1 {
      LastOne(b);
    } else if |b| == 2 {
      LastTwo(b);
    } else if |b| >= 3 {
      SextetsRoundTrip(b[3..]);
      FirstThree(b);
    }
  }

  lemma EncodingHasDigits(b: seq<byte>)
    ensures Digits(Encode(b)) == Some(Sextets(b)) && |Sextets(b)| % 4 != 1
  {
    EncodeSpells(b);
    SpellDigits(Sextets(b), Encode(b));
    NoLetterLeft(|b|);
  }

  lemma RoundTrip(b: seq<byte>)
    ensures Decode(Encode(b)) == Some(b)
  {
    EncodingHasDigits(b);
    SextetsRoundTrip(b);
  }

  lemma NoLetterLeft(n: nat)
    ensures (4 * n + 2) / 3 % 4 != 1
  {
    var k := n / 3;
    assert n == 3 * k || n == 3 * k + 1 || n == 3 * k + 2;
    assert (4 * n + 2) / 3 == 4 * k || (4 * n + 2) / 3 == 4 * k + 2 || (4 * n + 2) / 3 == 4 * k + 3;
  }

  /** Vectors of section 10 of RFC 4648, without the padding. */
  lemma Vectors()
    ensures Encode([0x66]) == "Zg" && Encode([0x66, 0x6F]) == "Zm8" && Encode([0x66, 0x6F, 0x6F]) == "Zm9v"
    ensures Encode([0x66, 0x6F, 0x6F, 0x62]) == "Zm9vYg"
  {
    assert [0x66, 0x6F, 0x6F, 0x62][3..] == [0x62];
  }

  lemma LengthOfEncoding(b: seq<byte>)
    ensures |Encode(b)| == (4 * |b| + 2) / 3
  {
    EncodeSpells(b);
  }

  predicate InAlphabet(c: char) {
    Digit(c).Some?
  }

  lemma AlphabetOnly(b: seq<byte>)
    ensures forall c :: c in Encode(b) ==> InAlphabet(c)
  {
    EncodeSpells(b);
    forall c | c in Encode(b) ensures InAlphabet(c) {
      var i :| 0 <= i < |Encode(b)| && Encode(b)[i] == c;
      LetterDigit(Sextets(b)[i]);
    }
  }

  // ---------- numbers ----------

  function Pow256(k: nat): (p: nat)
    ensures p > 0
  {
    if k == 0 then 1 else 256 * Pow256(k - 1)
  }

  /** Big-endian, without leading zeros; zero has no bytes. */
  function BigEndian(n: nat): seq<byte> {
    if n == 0 then [] else BigEndian(n / 256) + [n % 256]
  }

  function Number(b: seq<byte>): nat {
    if b == [] then 0 else 256 * Number(b[..|b| - 1]) + b[|b| - 1]
  }

  function Zeros(k: nat): (z: seq<byte>)
    ensures |z| == k
  {
    seq(k, _ => 0)
  }

  lemma {:induction false} NumberOfBigEndian(n: nat)
    ensures Number(BigEndian(n)) == n
  {
    if n > 0 {
      NumberOfBigEndian(n / 256);
      assert BigEndian(n)[..|BigEndian(n)| - 1] == BigEndian(n / 256);
    }
  }

  lemma {:induction false} LeadingZeros(k: nat, b: seq<byte>)
    ensures Number(Zeros(k) + b) == Number(b)
    decreases |b|, k
  {
    if b != [] {
      assert (Zeros(k) + b)[..k + |b| - 1] == Zeros(k) + b[..|b| - 1];
      LeadingZeros(k, b[..|b| - 1]);
    } else if k > 0 {
      assert Zeros(k) + [] == Zeros(k) && Zeros(k)[..k - 1] == Zeros(k - 1) + [];
      LeadingZeros(k - 1, []);
    }
  }

  lemma {:induction false} BigEndianLength(n: nat, k: nat)
    ensures |BigEndian(n)| <= k <==> n < Pow256(k)
    decreases n, k
  {
    if n > 0 && k > 0 {
      BigEndianLength(n / 256, k - 1);
    }
  }

  /** n in exactly width bytes, when it fits. */
  function Padded(n: nat, width: nat): seq<byte> {
    var b := BigEndian(n);
    if |b| < width then Zeros(width - |b|) + b else b
  }

  lemma NumberOfPadded(n: nat, width: nat)
    ensures Number(Padded(n, width)) == n
    ensures n < Pow256(width) ==> |Padded(n, width)| == width
  {
    NumberOfBigEndian(n);
    LeadingZeros(if |BigEndian(n)| < width then width - |BigEndian(n)| else 0, BigEndian(n));
    BigEndianLength(n, width);
  }
}
