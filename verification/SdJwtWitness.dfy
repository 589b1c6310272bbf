/**
 A codec for arrays of strings that satisfies what the selective-disclosure results ask of the JSON codec,
 so that they are about something. It is not JSON: every character takes three bytes.
 */
module SdJwtWitness {
  import opened Wrappers
  import opened Bytes
  import opened Sequences
  import opened SdJwt

  function TextBytes(s: string): seq<byte> {
    if s == "" then [0]
    else
      var c := s[0] as int;
      [1, c / 0x1_0000, c / 0x100 % 0x100, c % 0x100] + TextBytes(s[1..])
  }

  function CodePoint(high: int, middle: int, low: int): int {
    high * 0x1_0000 + middle * 0x100 + low
  }

  /** The text at the front of b, and what follows it. */
  function ParseText(b: seq<byte>): (r: Option<(string, seq<byte>)>)
    ensures r.Some? ==> |r.value.1| < |b|
  {
    if b == [] then None
    else if b[0] == 0 then Some(("", b[1..]))
    else if |b| < 4 then None
    else
      var c := CodePoint(b[1], b[2], b[3]);
      var rest := ParseText(b[4..]);
      if rest.None? || !(c < 0xD800 || 0xE000 <= c < 0x11_0000) then None
      else Some(([c as char] + rest.value.0, rest.value.1))
  }

  function ArrayBytes(xs: seq<string>): seq<byte> {
    if xs == [] then [0] else [1] + (TextBytes(xs[0]) + ArrayBytes(xs[1..]))
  }

  function ParseArray(b: seq<byte>): Option<seq<string>>
    decreases |b|
  {
    if b == [] then None
    else if b[0] == 0 then if |b| == 1 then Some([]) else None
    else
      var first := ParseText(b[1..]);
      if first.None? then None
      else
        var rest := ParseArray(first.value.1);
        if rest.None? then None else Some([first.value.0] + rest.value)
  }

  lemma OneMoreChar(c: char, b: seq<byte>)
    requires ParseText(b).Some?
    ensures var n := c as int;
            ParseText([1, n / 0x1_0000, n / 0x100 % 0x100, n % 0x100] + b) ==
            Some(([c] + ParseText(b).value.0, ParseText(b).value.1))
  {
    var n := c as int;
    Apart([1, n / 0x1_0000, n / 0x100 % 0x100, n % 0x100], b);
    assert CodePoint(n / 0x1_0000, n / 0x100 % 0x100, n % 0x100) == n;
  }

  lemma {:induction false} TextBack(s: string, rest: seq<byte>)
    ensures ParseText(TextBytes(s) + rest) == Some((s, rest))
  {
    if s == "" {
      Apart([0], rest);
    } else {
      TextBack(s[1..], rest);
      OneMoreChar(s[0], TextBytes(s[1..]) + rest);
      var n := s[0] as int;
      Associative([1, n / 0x1_0000, n / 0x100 % 0x100, n % 0x100], TextBytes(s[1..]), rest);
      HeadAndTail(s);
    }
  }

  lemma OneMoreText(x: string, rest: seq<byte>)
    requires ParseArray(rest).Some?
    ensures ParseArray([1] + (TextBytes(x) + rest)) == Some([x] + ParseArray(rest).value)
  {
    TextBack(x, rest);
    Apart([1], TextBytes(x) + rest);
  }

  lemma {:induction false} ArrayBack(xs: seq<string>)
    ensures ParseArray(ArrayBytes(xs)) == Some(xs)
  {
    if xs != [] {
      ArrayBack(xs[1..]);
      OneMoreText(xs[0], ArrayBytes(xs[1..]));
      HeadAndTail(xs);
    }
  }

  lemma SomeCodecRoundTrips()
    ensures RoundTrips(Json(xs => ArrayBytes(xs), b => ParseArray(b)))
  {
    forall xs: seq<string> ensures ParseArray(ArrayBytes(xs)) == Some(xs) && ArrayBytes(xs) != [] {
      ArrayBack(xs);
    }
  }
}
