/**
 P-256 public keys as JSON web keys, key thumbprints, and raw ECDSA signatures. Which points are on the
 curve is a parameter; a point's coordinates fit in 32 bytes.
 */
module Keys {
  import opened Wrappers
  import opened Bytes
  import opened Base64Url
  import opened Sequences

  datatype PublicKey = PublicKey(curve: string, x: nat, y: nat)

  datatype Jwk = Jwk(kty: string, crv: string, x: string, y: string, kid: string, alg: string)

  datatype Error = WrongCurve | WrongType | BadX | BadY | NotOnCurve

  const P256 := "P-256"

  ghost predicate Coordinates(onCurve: (nat, nat) -> bool) {
    forall x: nat, y: nat :: onCurve(x, y) ==> x < Pow256(32) && y < Pow256(32)
  }

  function EncodeCoord(n: nat): string {
    Encode(Padded(n, 32))
  }

  /** Fill the right end of a zeroed buffer with the number's bytes. */
  method CopyRight(out: array<byte>, end: nat, b: seq<byte>)
    requires |b| <= end <= out.Length
    modifies out
    ensures out[..] == old(out[..end - |b|]) + b + old(out[end..])
  {
    var start := end - |b|;
    for i := 0 to |b|
      invariant out[..] == old(out[..start]) + b[..i] + old(out[start + i..])
    {
      out[start + i] := b[i];
    }
  }

  lemma ZeroHead(b: seq<byte>)
    requires |b| <= 32
    ensures Zeros(32)[..32 - |b|] + b + Zeros(32)[32..] == Zeros(32 - |b|) + b
  {
    assert Zeros(32)[..32 - |b|] == Zeros(32 - |b|);
  }

  method EncodeCoordBuffer(n: nat) returns (s: string)
    ensures s == EncodeCoord(n)
  {
    var b := BigEndian(n);
    if |b| < 32 {
      var padded := new byte[32](_ => 0);
      assert padded[..] == Zeros(32);
      CopyRight(padded, 32, b);
      ZeroHead(b);
      b := padded[..];
    }
    assert b == Padded(n, 32);
    s := Encode(b);
  }

  function PublicKeyToJwk(pub: PublicKey, kid: string): Result<Jwk, Error> {
    if pub.curve != P256 then Err(WrongCurve)
    else Ok(Jwk("EC", P256, EncodeCoord(pub.x), EncodeCoord(pub.y), kid, "ES256"))
  }

  function JwkToPublicKey(onCurve: (nat, nat) -> bool, jwk: Jwk): Result<PublicKey, Error> {
    if jwk.kty != "EC" || jwk.crv != P256 then Err(WrongType)
    else if Decode(jwk.x).None? then Err(BadX)
    else if Decode(jwk.y).None? then Err(BadY)
    else
      var x, y := Number(Decode(jwk.x).value), Number(Decode(jwk.y).value);
      if onCurve(x, y) then Ok(PublicKey(P256, x, y)) else Err(NotOnCurve)
  }

  lemma CoordRoundTrip(n: nat)
    ensures Decode(EncodeCoord(n)).Some? && Number(Decode(EncodeCoord(n)).value) == n
    ensures n < Pow256(32) ==> |EncodeCoord(n)| == 43
  {
    RoundTrip(Padded(n, 32));
    NumberOfPadded(n, 32);
    LengthOfEncoding(Padded(n, 32));
  }

  lemma CoordInjective(m: nat, n: nat)
    requires EncodeCoord(m) == EncodeCoord(n)
    ensures m == n
  {
    CoordRoundTrip(m);
    CoordRoundTrip(n);
  }

  /** A key survives the trip through its JWK exactly when it is a point of the curve. */
  lemma JwkRoundTrip(onCurve: (nat, nat) -> bool, pub: PublicKey, kid: string)
    requires pub.curve == P256
    ensures var back := JwkToPublicKey(onCurve, PublicKeyToJwk(pub, kid).value);
            back == if onCurve(pub.x, pub.y) then Ok(pub) else Err(NotOnCurve)
    ensures var jwk := PublicKeyToJwk(pub, kid).value;
            && Decode(jwk.x).Some? && Number(Decode(jwk.x).value) == pub.x
            && Decode(jwk.y).Some? && Number(Decode(jwk.y).value) == pub.y
            && jwk.kty == "EC" && jwk.crv == "P-256" && jwk.kid == kid && jwk.alg == "ES256"
  {
    CoordRoundTrip(pub.x);
    CoordRoundTrip(pub.y);
  }

  /** Only P-256 keys become JWKs, and which JWK is refused for what. */
  lemma JwkErrors(onCurve: (nat, nat) -> bool, pub: PublicKey, kid: string, jwk: Jwk)
    ensures PublicKeyToJwk(pub, kid).Err? <==> pub.curve != "P-256"
    ensures JwkToPublicKey(onCurve, jwk) == Err(WrongType) <==> jwk.kty != "EC" || jwk.crv != "P-256"
    ensures JwkToPublicKey(onCurve, jwk) == Err(BadX) ==> Decode(jwk.x).None?
    ensures JwkToPublicKey(onCurve, jwk) == Err(BadY) ==> Decode(jwk.x).Some? && Decode(jwk.y).None?
    ensures JwkToPublicKey(onCurve, jwk) == Err(NotOnCurve) ==>
              Decode(jwk.x).Some? && Decode(jwk.y).Some? &&
              !onCurve(Number(Decode(jwk.x).value), Number(Decode(jwk.y).value))
  {}

  // ---------- thumbprints ----------

  /** The canonical JSON that section 3 of RFC 7638 hashes: required members in order, no white space. */
  function ThumbprintPreimage(jwk: Jwk): string {
    "{\"crv\":\"" + jwk.crv + "\",\"kty\":\"" + jwk.kty + "\",\"x\":\"" + jwk.x + "\",\"y\":\"" + jwk.y + "\"}"
  }

  lemma SplitEqual(a: string, b: string, a': string, b': string)
    requires a + b == a' + b' && |a| == |a'|
    ensures a == a' && b == b'
  {
    assert (a + b)[..|a|] == a && (a' + b')[..|a'|] == a';
    assert (a + b)[|a|..] == b && (a' + b')[|a'|..] == b';
  }

  lemma Fields(head: string, mid: string, tail: string, x: string, y: string, x': string, y': string)
    requires |x| == |x'| && |y| == |y'|
    requires head + x + mid + y + tail == head + x' + mid + y' + tail
    ensures x == x' && y == y'
  {
    SplitEqual(head + x + mid + y, tail, head + x' + mid + y', tail);
    SplitEqual(head + x + mid, y, head + x' + mid, y');
    SplitEqual(head + x, mid, head + x', mid);
    SplitEqual(head, x, head, x');
  }

  /** Two keys with one thumbprint preimage are one key. */
  lemma ThumbprintDistinguishesKeys(onCurve: (nat, nat) -> bool, p: PublicKey, q: PublicKey, kid: string, kid': string)
    requires Coordinates(onCurve) && onCurve(p.x, p.y) && onCurve(q.x, q.y) && p.curve == q.curve == P256
    requires ThumbprintPreimage(PublicKeyToJwk(p, kid).value) == ThumbprintPreimage(PublicKeyToJwk(q, kid').value)
    ensures p == q
  {
    CoordRoundTrip(p.x);
    CoordRoundTrip(p.y);
    CoordRoundTrip(q.x);
    CoordRoundTrip(q.y);
    var head := "{\"crv\":\"" + P256 + "\",\"kty\":\"" + "EC" + "\",\"x\":\"";
    var mid := "\",\"y\":\"";
    var px, py, qx, qy := EncodeCoord(p.x), EncodeCoord(p.y), EncodeCoord(q.x), EncodeCoord(q.y);
    assert ThumbprintPreimage(PublicKeyToJwk(p, kid).value) == head + px + mid + py + "\"}";
    assert ThumbprintPreimage(PublicKeyToJwk(q, kid').value) == head + qx + mid + qy + "\"}";
    Fields(head, mid, "\"}", px, py, qx, qy);
    CoordInjective(p.x, q.x);
    CoordInjective(p.y, q.y);
  }

  // ---------- raw signatures ----------

  /** Two numbers copied to the right ends of the halves of a zeroed buffer. */
  lemma RawLayout(rb: seq<byte>, sb: seq<byte>)
    requires |rb| <= 32 && |sb| <= 32
    ensures var half := Zeros(64)[..32 - |rb|] + rb + Zeros(64)[32..];
            half[..64 - |sb|] + sb == (Zeros(32 - |rb|) + rb) + (Zeros(32 - |sb|) + sb)
  {
    assert Zeros(64)[..32 - |rb|] == Zeros(32 - |rb|);
    var half := Zeros(32 - |rb|) + rb + Zeros(64)[32..];
    assert half[..64 - |sb|] == Zeros(32 - |rb|) + rb + Zeros(32 - |sb|);
  }

  lemma PaddedIs(n: nat)
    requires n < Pow256(32)
    ensures |BigEndian(n)| <= 32 && Padded(n, 32) == Zeros(32 - |BigEndian(n)|) + BigEndian(n)
  {
    BigEndianLength(n, 32);
  }

  /** r and s, each in 32 big-endian bytes. */
  method RawSig(r: nat, s: nat) returns (out: array<byte>)
    requires r < Pow256(32) && s < Pow256(32)
    ensures fresh(out) && out[..] == Padded(r, 32) + Padded(s, 32)
    ensures out.Length == 64
  {
    var rb, sb := BigEndian(r), BigEndian(s);
    PaddedIs(r);
    PaddedIs(s);
    RawLayout(rb, sb);
    out := new byte[64](_ => 0);
    assert out[..] == Zeros(64);
    CopyRight(out, 32, rb);
    CopyRight(out, 64, sb);
  }

  /** What VerifyAssertion reads: the two halves of a 64-byte signature. */
  function SplitSig(assertion: string): Option<(nat, nat)> {
    var raw := Decode(assertion);
    if raw.None? || |raw.value| != 64 then None
    else Some((Number(raw.value[..32]), Number(raw.value[32..])))
  }

  /** Only 64 bytes are a signature: r in the first half, s in the second. */
  lemma SplitExactly(assertion: string, r: nat, s: nat)
    ensures SplitSig(assertion) == Some((r, s)) <==>
            exists first: seq<byte>, second: seq<byte> ::
              && |first| == 32 && |second| == 32 && Decode(assertion) == Some(first + second)
              && Number(first) == r && Number(second) == s
  {
    if SplitSig(assertion) == Some((r, s)) {
      var raw := Decode(assertion).value;
      Together(raw, 32);
      assert Decode(assertion) == Some(raw[..32] + raw[32..]);
    }
    if first: seq<byte>, second: seq<byte> :|
      && |first| == 32 && |second| == 32 && Decode(assertion) == Some(first + second)
      && Number(first) == r && Number(second) == s
    {
      Apart(first, second);
    }
  }

  /** The verifier reads back the r and s that were signed, for all of them. */
  lemma SignatureRoundTrip(r: nat, s: nat)
    requires r < Pow256(32) && s < Pow256(32)
    ensures SplitSig(Encode(Padded(r, 32) + Padded(s, 32))) == Some((r, s))
  {
    var raw := Padded(r, 32) + Padded(s, 32);
    NumberOfPadded(r, 32);
    NumberOfPadded(s, 32);
    RoundTrip(raw);
    assert raw[..32] == Padded(r, 32) && raw[32..] == Padded(s, 32);
  }
}
