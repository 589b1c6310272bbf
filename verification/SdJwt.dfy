/**
 Selective disclosure: a user token carries digests of its claims, the holder reveals some of them, and
 the verifier learns those and nothing else. JSON and JWT decoding are parameters.
 */
module SdJwt {
  import opened Wrappers
  import opened Bytes
  import opened Jose
  import opened Strings
  import opened Base64Url

  const TILDE: char := '~'
  const SD_TYPE := "user+sd-jwt"

  datatype Json = Json(marshal: seq<string> -> seq<byte>, unmarshal: seq<byte> -> Option<seq<string>>)

  /** Arrays of strings survive the JSON codec, and no JSON text is empty. */
  ghost predicate RoundTrips(json: Json) {
    forall xs: seq<string> :: json.unmarshal(json.marshal(xs)) == Some(xs) && json.marshal(xs) != []
  }

  datatype Disclosure = Disclosure(name: string, value: string, salt: string)

  function Wire(json: Json, d: Disclosure): string {
    Encode(json.marshal([d.salt, d.name, d.value]))
  }

  function DigestOf(json: Json, d: Disclosure): Digest<string> {
    Sha256(Wire(json, d))
  }

  datatype Claims = Claims(
    typ: string, signer: Key, issuer: string, audience: seq<string>, window: Window, subject: string, scope: string,
    sd: seq<Digest<string>>)

  type Decoder = string -> Option<Claims>

  // ---------- presenting ----------

  /** The wire form decodes to the array of salt, name and value, in this order. */
  lemma WireFormat(json: Json, d: Disclosure)
    requires RoundTrips(json)
    ensures Decode(Wire(json, d)).Some?
    ensures json.unmarshal(Decode(Wire(json, d)).value) == Some([d.salt, d.name, d.value])
  {
    RoundTrip(json.marshal([d.salt, d.name, d.value]));
  }

  /** The disclosures whose name is in names, in issue order. */
  function Selected(ds: seq<Disclosure>, names: set<string>): (out: seq<Disclosure>)
    ensures forall d :: d in out <==> d in ds && d.name in names
  {
    if ds == [] then []
    else (if ds[0].name in names then [ds[0]] else []) + Selected(ds[1..], names)
  }

  /** Issue order is kept: what is selected of a list is what is selected of its parts, one after the other. */
  lemma {:induction false} SelectedInOrder(a: seq<Disclosure>, b: seq<Disclosure>, names: set<string>)
    ensures Selected(a + b, names) == Selected(a, names) + Selected(b, names)
  {
    if a == [] {
      assert a + b == b;
    } else {
      assert (a + b)[1..] == a[1..] + b;
      SelectedInOrder(a[1..], b, names);
    }
  }

  lemma SelectedOne(d: Disclosure, names: set<string>)
    ensures Selected([d], names) == if d.name in names then [d] else []
  {
    assert [d][1..] == [];
  }

  function Wires(json: Json, ds: seq<Disclosure>): (ws: seq<string>)
    ensures |ws| == |ds| && forall i :: 0 <= i < |ds| ==> ws[i] == Wire(json, ds[i])
  {
    seq(|ds|, i requires 0 <= i < |ds| => Wire(json, ds[i]))
  }

  function Presentation(jwt: string, wires: seq<string>): string {
    Join([jwt] + wires + [""], TILDE)
  }

  method Present(json: Json, jwt: string, ds: seq<Disclosure>, names: seq<string>) returns (p: string)
    ensures p == Presentation(jwt, Wires(json, Selected(ds, set n | n in names)))
  {
    ghost var all := set n | n in names;
    var wanted: set<string> := {};
    for i := 0 to |names|
      invariant wanted == set n | n in names[..i]
    {
      assert names[..i + 1] == names[..i] + [names[i]];
      wanted := wanted + {names[i]};
    }
    assert names[..|names|] == names;
    var selected: seq<Disclosure> := [];
    for i := 0 to |ds|
      invariant Selected(ds, all) == selected + Selected(ds[i..], all)
    {
      assert ds[i..][1..] == ds[i + 1..];
      if ds[i].name in wanted {
        selected := selected + [ds[i]];
      }
    }
    assert Selected(ds, all) == selected;
    p := Join([jwt] + Wires(json, selected) + [""], TILDE);
  }

  // ---------- validating ----------

  datatype Error = Missing | BadToken | UnknownDigest | BadDisclosure

  /** What a verifier gets: the token's subject and scope, and the pairs it was shown. */
  datatype Verified = Verified(subject: string, scope: string, learned: map<string, string>)

  datatype Validator = Validator(issuerId: string, pubKey: Key)

  predicate ValidClaims(v: Validator, c: Claims, audience: string, now: int) {
    c.typ == SD_TYPE && c.signer == v.pubKey && c.issuer == v.issuerId && audience in c.audience && Open(c.window, now)
  }

  /** The name and value in one disclosure string. */
  function ParseWire(json: Json, wire: string): Option<(string, string)> {
    var raw := Decode(wire);
    if raw.None? then None
    else
      var arr := json.unmarshal(raw.value);
      if arr.None? || |arr.value| != 3 then None else Some((arr.value[1], arr.value[2]))
  }

  /** A disclosure says a pair iff it decodes to an array of exactly three strings that ends with the pair. */
  lemma ParseWireExactly(json: Json, wire: string, n: string, x: string)
    ensures ParseWire(json, wire) == Some((n, x)) <==>
            Decode(wire).Some? && exists salt :: json.unmarshal(Decode(wire).value) == Some([salt, n, x])
  {
    if ParseWire(json, wire) == Some((n, x)) {
      var arr := json.unmarshal(Decode(wire).value).value;
      assert arr == [arr[0], n, x];
    }
  }

  /** A token of that type and issuer, signed with its key, for the audience, and open. */
  ghost predicate GoodToken(v: Validator, c: Option<Claims>, audience: string, now: int) {
    && c.Some? && c.value.typ == "user+sd-jwt" && c.value.signer == v.pubKey && c.value.issuer == v.issuerId
    && audience in c.value.audience && Open(c.value.window, now)
  }

  /** Check each disclosure against the digests and collect what it reveals; a later one wins. */
  function Collect(json: Json, sd: seq<Digest<string>>, wires: seq<string>): Result<map<string, string>, Error> {
    if wires == [] then Ok(map[])
    else
      var before := Collect(json, sd, wires[..|wires| - 1]);
      var wire := wires[|wires| - 1];
      if before.Err? then before
      else if Sha256(wire) !in sd then Err(UnknownDigest)
      else
        var pair := ParseWire(json, wire);
        if pair.None? then Err(BadDisclosure) else Ok(before.value[pair.value.0 := pair.value.1])
  }

  function NonEmpty(parts: seq<string>): seq<string> {
    if parts == [] then []
    else
      var last := parts[|parts| - 1];
      NonEmpty(parts[..|parts| - 1]) + if last != "" then [last] else []
  }

  function ValidateSpec(v: Validator, json: Json, decode: Decoder, p: string, audience: string,
                        now: int): Result<Verified, Error> {
    var parts := Split(p, TILDE);
    if p == "" || |parts| < 2 then Err(Missing)
    else
      var claims := decode(parts[0]);
      if claims.None? || !ValidClaims(v, claims.value, audience, now) then Err(BadToken)
      else
        var learned := Collect(json, claims.value.sd, NonEmpty(parts[1..]));
        if learned.Err? then Err(learned.error)
        else Ok(Verified(claims.value.subject, claims.value.scope, learned.value))
  }

  lemma {:induction false} HoldsSeparator(s: string)
    ensures |Split(s, TILDE)| >= 2 <==> TILDE in s
  {
    NotFound(s, TILDE);
  }

  /** What is refused before the disclosures are looked at: a string without a tilde, and a token that is not good. */
  lemma RefusalsExactly(v: Validator, json: Json, decode: Decoder, p: string, audience: string, now: int)
    ensures var r := ValidateSpec(v, json, decode, p, audience, now);
            && (r == Err(Missing) <==> TILDE !in p)
            && (r == Err(BadToken) <==> TILDE in p && !GoodToken(v, decode(Split(p, TILDE)[0]), audience, now))
  {
    HoldsSeparator(p);
    CollectErrors(json, if decode(Split(p, TILDE)[0]).Some? then decode(Split(p, TILDE)[0]).value.sd else [],
                  NonEmpty(Split(p, TILDE)[1..]));
  }

  /** Only two things are wrong with disclosures: one without a digest, and one that does not decode. */
  lemma {:induction false} CollectErrors(json: Json, sd: seq<Digest<string>>, wires: seq<string>)
    ensures Collect(json, sd, wires).Err? ==>
              Collect(json, sd, wires).error == UnknownDigest || Collect(json, sd, wires).error == BadDisclosure
  {
    if wires != [] {
      CollectErrors(json, sd, wires[..|wires| - 1]);
    }
  }

  /** Empty pieces are skipped wherever they stand, and the others keep their order. */
  lemma {:induction false} NonEmptyInOrder(a: seq<string>, b: seq<string>)
    ensures NonEmpty(a + b) == NonEmpty(a) + NonEmpty(b)
    ensures forall w :: NonEmpty([w]) == if w == "" then [] else [w]
  {
    forall w ensures NonEmpty([w]) == if w == "" then [] else [w] {
      assert [w][..0] == [] && NonEmpty([]) == [];
    }
    if b == [] {
      assert a + b == a;
    } else {
      assert (a + b)[..|a + b| - 1] == a + b[..|b| - 1];
      NonEmptyInOrder(a, b[..|b| - 1]);
    }
  }

  method Validate(v: Validator, json: Json, decode: Decoder, p: string, audience: string, now: int)
    returns (r: Result<Verified, Error>)
    ensures r == ValidateSpec(v, json, decode, p, audience, now)
  {
    if p == "" {
      return Err(Missing);
    }
    var parts := Split(p, TILDE);
    if |parts| < 2 {
      return Err(Missing);
    }
    var rest := parts[1..];
    var wires: seq<string> := [];
    for i := 0 to |rest|
      invariant wires == NonEmpty(rest[..i])
    {
      assert rest[..i + 1][..i] == rest[..i];
      if rest[i] != "" {
        wires := wires + [rest[i]];
      }
    }
    assert rest[..|rest|] == rest;
    var claims := decode(parts[0]);
    if claims.None? || !ValidClaims(v, claims.value, audience, now) {
      return Err(BadToken);
    }
    var learned := CollectDisclosures(json, claims.value.sd, wires);
    if learned.Err? {
      return Err(learned.error);
    }
    return Ok(Verified(claims.value.subject, claims.value.scope, learned.value));
  }

  /** The verifier's loop over the disclosure strings, with the digests in a set. */
  method CollectDisclosures(json: Json, sd: seq<Digest<string>>, wires: seq<string>)
    returns (r: Result<map<string, string>, Error>)
    ensures r == Collect(json, sd, wires)
  {
    var sdSet: set<Digest<string>> := set d | d in sd;
    var found: map<string, string> := map[];
    for i := 0 to |wires|
      invariant Collect(json, sd, wires[..i]) == Ok(found)
    {
      CollectOneMore(json, sd, wires, i);
      if Sha256(wires[i]) !in sdSet {
        FirstErrorStays(json, sd, wires, i + 1);
        return Err(UnknownDigest);
      }
      var pair := ParseWire(json, wires[i]);
      if pair.None? {
        FirstErrorStays(json, sd, wires, i + 1);
        return Err(BadDisclosure);
      }
      found := found[pair.value.0 := pair.value.1];
    }
    assert wires[..|wires|] == wires;
    return Ok(found);
  }

  lemma CollectOneMore(json: Json, sd: seq<Digest<string>>, wires: seq<string>, i: nat)
    requires i < |wires| && Collect(json, sd, wires[..i]).Ok?
    ensures var before := Collect(json, sd, wires[..i]).value;
            var pair := ParseWire(json, wires[i]);
            Collect(json, sd, wires[..i + 1]) ==
            if Sha256(wires[i]) !in sd then Err(UnknownDigest)
            else if pair.None? then Err(BadDisclosure)
            else Ok(before[pair.value.0 := pair.value.1])
  {
    assert wires[..i + 1][..i] == wires[..i];
  }

  lemma {:induction false} FirstErrorStays(json: Json, sd: seq<Digest<string>>, wires: seq<string>, n: nat)
    requires n <= |wires| && Collect(json, sd, wires[..n]).Err?
    ensures Collect(json, sd, wires) == Collect(json, sd, wires[..n])
    decreases |wires|
  {
    if n == |wires| {
      assert wires[..n] == wires;
    } else {
      var init := wires[..|wires| - 1];
      assert init[..n] == wires[..n];
      FirstErrorStays(json, sd, init, n);
    }
  }

  // ---------- what a verifier learns ----------

  /** The token was issued with exactly these disclosures, under distinct names. */
  ghost predicate IssuedWith(json: Json, c: Claims, ds: seq<Disclosure>) {
    && c.sd == seq(|ds|, i requires 0 <= i < |ds| => DigestOf(json, ds[i]))
    && (forall i, j :: 0 <= i < j < |ds| ==> ds[i].name != ds[j].name)
  }

  /** SDUserIssuer.Issue: two disclosures, and a token that lists their digests. */
  function IssueDisclosures(email: string, givenName: string, salt1: string, salt2: string): seq<Disclosure> {
    [Disclosure("email", email, salt1), Disclosure("given_name", givenName, salt2)]
  }

  function IssueClaims(json: Json, v: Validator, ttl: int, sub: string, scope: string, audience: string,
                       ds: seq<Disclosure>, now: int): Claims {
    Claims(SD_TYPE, v.pubKey, v.issuerId, [audience], Window(Some(now + ttl), None, Some(now)), sub, scope,
           seq(|ds|, i requires 0 <= i < |ds| => DigestOf(json, ds[i])))
  }

  /** An issued token is accepted by its issuer's validator, for its audience and while it lasts, and by no other. */
  lemma IssueValidExactly(json: Json, v: Validator, ttl: int, sub: string, scope: string, audience: string,
                          email: string, givenName: string, salt1: string, salt2: string, now: int,
                          other: Validator, wanted: string, later: int)
    ensures var ds := IssueDisclosures(email, givenName, salt1, salt2);
            var c := IssueClaims(json, v, ttl, sub, scope, audience, ds, now);
            && IssuedWith(json, c, ds)
            && (ValidClaims(other, c, wanted, later) <==> other == v && wanted == audience && now <= later < now + ttl)
  {}

  lemma WireParses(json: Json, d: Disclosure)
    requires RoundTrips(json)
    ensures ParseWire(json, Wire(json, d)) == Some((d.name, d.value))
  {
    RoundTrip(json.marshal([d.salt, d.name, d.value]));
  }

  ghost predicate Issued(json: Json, ds: seq<Disclosure>, wire: string) {
    exists d :: d in ds && Wire(json, d) == wire
  }

  /** One of the strings is the disclosure of the pair (n, x). */
  ghost predicate Carried(json: Json, ds: seq<Disclosure>, wires: seq<string>, n: string, x: string) {
    exists d :: d in ds && d.name == n && d.value == x && Wire(json, d) in wires
  }

  predicate Has(m: map<string, string>, n: string, x: string) {
    n in m && m[n] == x
  }

  /** m holds exactly the pairs the strings carry. */
  ghost predicate Learned(m: map<string, string>, json: Json, ds: seq<Disclosure>, wires: seq<string>) {
    forall n: string, x: string :: Has(m, n, x) <==> Carried(json, ds, wires, n, x)
  }

  /** The digest list admits exactly the issued disclosure strings. */
  lemma DigestAdmits(json: Json, c: Claims, ds: seq<Disclosure>, wire: string)
    requires IssuedWith(json, c, ds)
    ensures Sha256(wire) in c.sd <==> Issued(json, ds, wire)
  {
    if Sha256(wire) in c.sd {
      var i :| 0 <= i < |c.sd| && c.sd[i] == Sha256(wire);
      assert ds[i] in ds && DigestOf(json, ds[i]) == Sha256(wire);
    }
    if Issued(json, ds, wire) {
      var d :| d in ds && Wire(json, d) == wire;
      var i :| 0 <= i < |ds| && ds[i] == d;
      assert c.sd[i] == DigestOf(json, d);
    }
  }

  /**
   Whatever strings are put after an issued token, in whatever order and however often: the verifier
   accepts iff all of them are issued disclosures, and then learns exactly the pairs they carry.
   */
  lemma {:induction false} LearnsExactly(json: Json, c: Claims, ds: seq<Disclosure>, wires: seq<string>)
    requires RoundTrips(json) && IssuedWith(json, c, ds)
    ensures Collect(json, c.sd, wires).Ok? <==> forall w :: w in wires ==> Issued(json, ds, w)
    ensures Collect(json, c.sd, wires).Ok? ==> Learned(Collect(json, c.sd, wires).value, json, ds, wires)
  {
    if wires != [] {
      var init, wire := wires[..|wires| - 1], wires[|wires| - 1];
      assert wires == init + [wire];
      LearnsExactly(json, c, ds, init);
      DigestAdmits(json, c, ds, wire);
      if Issued(json, ds, wire) && Collect(json, c.sd, init).Ok? {
        var e :| e in ds && Wire(json, e) == wire;
        WireParses(json, e);
        LastDisclosure(Collect(json, c.sd, init).value, json, c, ds, init, e);
      }
    }
  }

  lemma LastDisclosure(m: map<string, string>, json: Json, c: Claims, ds: seq<Disclosure>, init: seq<string>,
                       e: Disclosure)
    requires RoundTrips(json) && IssuedWith(json, c, ds) && e in ds && Learned(m, json, ds, init)
    ensures Learned(m[e.name := e.value], json, ds, init + [Wire(json, e)])
  {
    var wires := init + [Wire(json, e)];
    var m' := m[e.name := e.value];
    forall n: string, x: string ensures Has(m', n, x) <==> Carried(json, ds, wires, n, x) {
      if Carried(json, ds, wires, n, x) {
        var d :| d in ds && d.name == n && d.value == x && Wire(json, d) in wires;
        SameName(ds, d, e);
        SameWire(json, d, e);
        assert Wire(json, d) in init ==> Carried(json, ds, init, n, x);
      }
      if Has(m', n, x) && n == e.name {
        assert Wire(json, e) in wires;
      } else if Has(m', n, x) {
        assert Has(m, n, x);
        var d :| d in ds && d.name == n && d.value == x && Wire(json, d) in init;
        assert Wire(json, d) in wires;
      }
    }
  }

  lemma SameName(ds: seq<Disclosure>, d: Disclosure, e: Disclosure)
    requires d in ds && e in ds && forall i, j :: 0 <= i < j < |ds| ==> ds[i].name != ds[j].name
    ensures d.name == e.name ==> d == e
  {
    var i :| 0 <= i < |ds| && ds[i] == d;
    var j :| 0 <= j < |ds| && ds[j] == e;
    assert i < j ==> ds[i].name != ds[j].name;
    assert j < i ==> ds[j].name != ds[i].name;
  }

  lemma SameWire(json: Json, d: Disclosure, e: Disclosure)
    requires RoundTrips(json)
    ensures Wire(json, d) == Wire(json, e) ==> d == e
  {
    RoundTrip(json.marshal([d.salt, d.name, d.value]));
    RoundTrip(json.marshal([e.salt, e.name, e.value]));
    if Wire(json, d) == Wire(json, e) {
      var xs, ys := [d.salt, d.name, d.value], [e.salt, e.name, e.value];
      assert json.unmarshal(json.marshal(xs)) == Some(xs) && json.unmarshal(json.marshal(ys)) == Some(ys);
      assert xs[0] == ys[0] && xs[1] == ys[1] && xs[2] == ys[2];
    }
  }

  lemma {:induction false} NonEmptyOf(ws: seq<string>)
    requires forall i :: 0 <= i < |ws| ==> ws[i] != ""
    ensures NonEmpty(ws + [""]) == ws
  {
    assert (ws + [""])[..|ws|] == ws;
    AllNonEmpty(ws);
  }

  lemma {:induction false} AllNonEmpty(ws: seq<string>)
    requires forall i :: 0 <= i < |ws| ==> ws[i] != ""
    ensures NonEmpty(ws) == ws
  {
    if ws != [] {
      AllNonEmpty(ws[..|ws| - 1]);
      assert ws == ws[..|ws| - 1] + [ws[|ws| - 1]];
    }
  }

  /** A disclosure string is never empty and never holds the separator. */
  lemma WireShape(json: Json, d: Disclosure)
    requires RoundTrips(json)
    ensures Wire(json, d) != "" && TILDE !in Wire(json, d)
  {
    var b := json.marshal([d.salt, d.name, d.value]);
    AlphabetOnly(b);
    LengthOfEncoding(b);
  }

  lemma PresentationParses(jwt: string, wires: seq<string>)
    requires TILDE !in jwt && forall i :: 0 <= i < |wires| ==> wires[i] != "" && TILDE !in wires[i]
    ensures Split(Presentation(jwt, wires), TILDE) == [jwt] + wires + [""]
    ensures Presentation(jwt, wires) != ""
    ensures NonEmpty(([jwt] + wires + [""])[1..]) == wires
  {
    var parts := [jwt] + wires + [""];
    SplitJoin(parts, TILDE);
    assert parts[1..] == wires + [""];
    NonEmptyOf(wires);
    assert Presentation(jwt, wires) == jwt + [TILDE] + Join(parts[1..], TILDE);
  }

  /** Validating what Present makes yields exactly the issued pairs whose name was to be found. */
  lemma PresentThenValidate(v: Validator, json: Json, decode: Decoder, jwt: string, ds: seq<Disclosure>,
                            names: set<string>, audience: string, now: int)
    requires RoundTrips(json) && TILDE !in jwt
    requires decode(jwt).Some? && ValidClaims(v, decode(jwt).value, audience, now) &&
             IssuedWith(json, decode(jwt).value, ds)
    ensures var r := ValidateSpec(v, json, decode, Presentation(jwt, Wires(json, Selected(ds, names))), audience, now);
            && r.Ok? && r.value.subject == decode(jwt).value.subject && r.value.scope == decode(jwt).value.scope
            && forall n: string, x: string :: Has(r.value.learned, n, x) <==> n in names && Pair(ds, n, x)
  {
    var chosen := Selected(ds, names);
    var wires := Wires(json, chosen);
    assert ValidateSpec(v, json, decode, Presentation(jwt, wires), audience, now) ==
           Shown(decode(jwt).value, Collect(json, decode(jwt).value.sd, wires)) by {
      PresentedIsCollected(v, json, decode, jwt, chosen, audience, now);
    }
    LearnsExactly(json, decode(jwt).value, ds, wires);
    ChosenAreIssued(json, ds, names);
    forall n: string, x: string ensures Carried(json, ds, wires, n, x) <==> n in names && Pair(ds, n, x) {
      ChosenCarried(json, ds, names, n, x);
    }
  }

  function Shown(c: Claims, learned: Result<map<string, string>, Error>): Result<Verified, Error> {
    if learned.Err? then Err(learned.error) else Ok(Verified(c.subject, c.scope, learned.value))
  }

  lemma PresentedIsCollected(v: Validator, json: Json, decode: Decoder, jwt: string, chosen: seq<Disclosure>,
                             audience: string, now: int)
    requires RoundTrips(json) && TILDE !in jwt && decode(jwt).Some? && ValidClaims(v, decode(jwt).value, audience, now)
    ensures ValidateSpec(v, json, decode, Presentation(jwt, Wires(json, chosen)), audience, now) ==
            Shown(decode(jwt).value, Collect(json, decode(jwt).value.sd, Wires(json, chosen)))
  {
    var wires := Wires(json, chosen);
    forall i | 0 <= i < |wires| ensures wires[i] != "" && TILDE !in wires[i] {
      WireShape(json, chosen[i]);
    }
    PresentationParses(jwt, wires);
  }

  lemma ChosenAreIssued(json: Json, ds: seq<Disclosure>, names: set<string>)
    ensures forall w :: w in Wires(json, Selected(ds, names)) ==> Issued(json, ds, w)
  {
    var chosen := Selected(ds, names);
    var wires := Wires(json, chosen);
    forall w | w in wires ensures Issued(json, ds, w) {
      var i :| 0 <= i < |wires| && wires[i] == w;
      assert chosen[i] in chosen && Wire(json, chosen[i]) == w;
    }
  }

  ghost predicate Pair(ds: seq<Disclosure>, n: string, x: string) {
    exists d :: d in ds && d.name == n && d.value == x
  }

  lemma ChosenCarried(json: Json, ds: seq<Disclosure>, names: set<string>, n: string, x: string)
    requires RoundTrips(json)
    ensures Carried(json, ds, Wires(json, Selected(ds, names)), n, x) <==> n in names && Pair(ds, n, x)
  {
    var chosen := Selected(ds, names);
    var wires := Wires(json, chosen);
    if Carried(json, ds, wires, n, x) {
      var d :| d in ds && d.name == n && d.value == x && Wire(json, d) in wires;
      var i :| 0 <= i < |wires| && wires[i] == Wire(json, d);
      assert chosen[i] in chosen;
      SameWire(json, d, chosen[i]);
    }
    if n in names && Pair(ds, n, x) {
      var d :| d in ds && d.name == n && d.value == x;
      assert d in chosen;
      var i :| 0 <= i < |chosen| && chosen[i] == d;
      assert wires[i] == Wire(json, d);
    }
  }

  /** However the strings were chosen, ordered or repeated, an accepted presentation shows issued pairs only. */
  lemma OnlyIssuedPairs(v: Validator, json: Json, decode: Decoder, p: string, ds: seq<Disclosure>, audience: string,
                        now: int)
    requires RoundTrips(json) && ValidateSpec(v, json, decode, p, audience, now).Ok?
    requires IssuedWith(json, decode(Split(p, TILDE)[0]).value, ds)
    ensures forall n: string, x: string ::
              Has(ValidateSpec(v, json, decode, p, audience, now).value.learned, n, x) ==> Pair(ds, n, x)
  {
    var parts := Split(p, TILDE);
    LearnsExactly(json, decode(parts[0]).value, ds, NonEmpty(parts[1..]));
    var learned := ValidateSpec(v, json, decode, p, audience, now).value.learned;
    forall n: string, x: string | Has(learned, n, x) ensures Pair(ds, n, x) {
      assert Carried(json, ds, NonEmpty(parts[1..]), n, x);
    }
  }

  /**
   From issue to verification: the verifier accepts what the holder presents of an issued token iff it is the
   issuer's validator, the token is for its audience, and the token still lasts; and then it learns exactly
   the email address and the given name, as far as they were named.
   */
  lemma IssuePresentValidate(
    v: Validator, json: Json, decode: Decoder, jwt: string, ttl: int, sub: string, scope: string, audience: string,
    email: string, givenName: string, salt1: string, salt2: string, issued: int,
    names: set<string>, other: Validator, wanted: string, now: int)
    requires RoundTrips(json) && TILDE !in jwt
    requires var ds := IssueDisclosures(email, givenName, salt1, salt2);
             decode(jwt) == Some(IssueClaims(json, v, ttl, sub, scope, audience, ds, issued))
    ensures var ds := IssueDisclosures(email, givenName, salt1, salt2);
            var p := Presentation(jwt, Wires(json, Selected(ds, names)));
            var r := ValidateSpec(other, json, decode, p, wanted, now);
            && (r.Ok? <==> other == v && wanted == audience && issued <= now < issued + ttl)
            && (r.Ok? ==> r.value.subject == sub && r.value.scope == scope)
            && (r.Ok? ==> forall n: string, x: string :: Has(r.value.learned, n, x) <==>
                            n in names && ((n == "email" && x == email) || (n == "given_name" && x == givenName)))
  {
    var ds := IssueDisclosures(email, givenName, salt1, salt2);
    IssueValidExactly(json, v, ttl, sub, scope, audience, email, givenName, salt1, salt2, issued, other, wanted, now);
    if ValidClaims(other, decode(jwt).value, wanted, now) {
      PresentThenValidate(other, json, decode, jwt, ds, names, wanted, now);
      forall n: string, x: string
        ensures Pair(ds, n, x) <==> (n == "email" && x == email) || (n == "given_name" && x == givenName)
      {
        assert ds[0] in ds && ds[1] in ds;
      }
    } else {
      RefusedToken(other, json, decode, jwt, Selected(ds, names), wanted, now);
    }
  }

  lemma RefusedToken(v: Validator, json: Json, decode: Decoder, jwt: string, chosen: seq<Disclosure>, audience: string,
                     now: int)
    requires RoundTrips(json) && TILDE !in jwt
    requires decode(jwt).None? || !ValidClaims(v, decode(jwt).value, audience, now)
    ensures ValidateSpec(v, json, decode, Presentation(jwt, Wires(json, chosen)), audience, now).Err?
  {
    var wires := Wires(json, chosen);
    forall i | 0 <= i < |wires| ensures wires[i] != "" && TILDE !in wires[i] {
      WireShape(json, chosen[i]);
    }
    PresentationParses(jwt, wires);
  }

  // ---------- routing of user tokens ----------

  /** The three parts of a compact JWT, dot-separated base64url. */
  function Compact(header: seq<byte>, payload: seq<byte>, signature: seq<byte>): string {
    Encode(header) + "." + Encode(payload) + "." + Encode(signature)
  }

  /** The test for a tilde sends every plain token one way and every presentation the other. */
  lemma TildeRoutes(header: seq<byte>, payload: seq<byte>, signature: seq<byte>, wires: seq<string>)
    ensures TILDE !in Compact(header, payload, signature)
    ensures TILDE in Presentation(Compact(header, payload, signature), wires)
  {
    AlphabetOnly(header);
    AlphabetOnly(payload);
    AlphabetOnly(signature);
    var jwt := Compact(header, payload, signature);
    assert ([jwt] + wires + [""])[1..] == wires + [""];
    assert (jwt + [TILDE])[|jwt|] == TILDE;
  }
}
