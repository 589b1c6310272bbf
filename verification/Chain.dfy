/**
 Delegation chains: the wire format, the hash that binds a proof to a chain, and validation of every
 hop. How a compact token decodes is a parameter.
 */
module Chain {
  import opened Wrappers
  import opened Jose
  import opened Strings

  const TILDE: char := '~'

  type AgentChain = seq<string>

  datatype ParseError = EmptyString | EmptyToken(at: nat)

  /** Position of the first empty token, or the number of tokens. */
  function FirstEmpty(parts: seq<string>): (i: nat)
    ensures i <= |parts| && (i < |parts| ==> parts[i] == "") && forall j :: 0 <= j < i ==> parts[j] != ""
  {
    if parts == [] || parts[0] == "" then 0
    else
      var i := FirstEmpty(parts[1..]);
      assert forall j :: 0 < j < i + 1 ==> parts[j] == parts[1..][j - 1];
      i + 1
  }

  function ParseChain(s: string): Result<AgentChain, ParseError> {
    if s == "" then Err(EmptyString)
    else
      var parts := Split(s, TILDE);
      var i := FirstEmpty(parts);
      if i < |parts| then Err(EmptyToken(i)) else Ok(parts)
  }

  function String(c: AgentChain): string {
    Join(c, TILDE)
  }

  function Hash(c: AgentChain): Digest<string> {
    Sha256(String(c))
  }

  /** Some token, and every token non-empty and free of the separator. */
  ghost predicate Wellformed(c: AgentChain) {
    c != [] && FreeOf(c, TILDE) && forall i :: 0 <= i < |c| ==> c[i] != ""
  }

  /** Parsing yields well-formed chains only, and printing one gives the string that was parsed. */
  lemma PrintAfterParse(s: string)
    requires ParseChain(s).Ok?
    ensures Wellformed(ParseChain(s).value) && String(ParseChain(s).value) == s
  {
    JoinSplit(s, TILDE);
  }

  /** What is refused: the empty string, and a string with an empty token, named by its first position. */
  lemma ParseErrors(s: string)
    ensures ParseChain(s) == Err(EmptyString) <==> s == ""
    ensures forall i: nat :: ParseChain(s) == Err(EmptyToken(i)) ==>
              && i < |Split(s, TILDE)| && Split(s, TILDE)[i] == ""
              && forall j :: 0 <= j < i ==> Split(s, TILDE)[j] != ""
  {}

  lemma ParseAfterPrint(c: AgentChain)
    requires Wellformed(c)
    ensures ParseChain(String(c)) == Ok(c)
  {
    SplitJoin(c, TILDE);
    assert c[0] != "";
  }

  /** A proof's chain hash fits one chain only. */
  lemma HashBindsChain(c: AgentChain, d: AgentChain)
    requires Wellformed(c) && Wellformed(d) && Hash(c) == Hash(d)
    ensures c == d
  {
    ParseAfterPrint(c);
    ParseAfterPrint(d);
  }

  /** A new chain with the token at its end, copied so that c itself is left alone. */
  method Extend(c: array<string>, token: string) returns (next: Option<array<string>>)
    ensures next.None? <==> token == ""
    ensures next.Some? ==> fresh(next.value) && next.value[..] == c[..] + [token]
  {
    if token == "" {
      return None;
    }
    var out := new string[c.Length + 1];
    for i := 0 to c.Length
      invariant out[..i] == c[..i]
    {
      out[i] := c[i];
    }
    out[c.Length] := token;
    assert out[..c.Length] == c[..];
    return Some(out);
  }

  lemma ExtendPrints(c: AgentChain, token: string)
    requires c != []
    ensures String(c + [token]) == String(c) + [TILDE] + token
  {
    JoinSnoc(c, token, TILDE);
  }

  // ---------- validation ----------

  type Decoder = string -> Option<AgentToken>

  type Validators = map<string, AgentValidator>

  /** The issuer a token claims, read without checking the signature. */
  function PeekIssuer(decode: Decoder, token: string): Option<string> {
    if decode(token).Some? && decode(token).value.issuer != "" then Some(decode(token).value.issuer) else None
  }

  function ValidateWith(decode: Decoder, v: AgentValidator, token: string, now: int): Option<AgentToken> {
    if decode(token).Some? && ValidAgentToken(v, decode(token).value, now) then decode(token) else None
  }

  /** Validation of one token by the validator registered for the issuer it claims. */
  function ValidateByIssuer(decode: Decoder, validators: Validators, token: string, now: int): Option<AgentToken> {
    var issuer := PeekIssuer(decode, token);
    if issuer.None? || issuer.value !in validators then None
    else ValidateWith(decode, validators[issuer.value], token, now)
  }

  predicate ValidHop(decode: Decoder, validators: Validators, token: string, depth: nat, now: int) {
    var agent := ValidateByIssuer(decode, validators, token, now);
    agent.Some? && agent.value.depth == depth
  }

  predicate ValidChain(decode: Decoder, validators: Validators, c: AgentChain, now: int) {
    c != [] && forall i :: 0 <= i < |c| ==> ValidHop(decode, validators, c[i], i, now)
  }

  /** Validate every hop in order; the agents of all hops, or the position of the first bad one. */
  method Validate(decode: Decoder, validators: Validators, c: AgentChain, now: int)
    returns (r: Result<seq<AgentToken>, nat>)
    ensures r.Ok? <==> ValidChain(decode, validators, c, now)
    ensures r.Ok? ==> |r.value| == |c| && forall i :: 0 <= i < |c| ==> decode(c[i]) == Some(r.value[i])
    ensures r.Err? && c != [] ==> r.error < |c| && !ValidHop(decode, validators, c[r.error], r.error, now) &&
                                  forall i :: 0 <= i < r.error ==> ValidHop(decode, validators, c[i], i, now)
  {
    if c == [] {
      return Err(0);
    }
    var results: seq<AgentToken> := [];
    for i := 0 to |c|
      invariant |results| == i
      invariant forall j :: 0 <= j < i ==>
                  ValidHop(decode, validators, c[j], j, now) && decode(c[j]) == Some(results[j])
    {
      var issuer := PeekIssuer(decode, c[i]);
      if issuer.None? || issuer.value !in validators {
        return Err(i);
      }
      var agent := ValidateWith(decode, validators[issuer.value], c[i], now);
      if agent.None? || agent.value.depth != i {
        return Err(i);
      }
      results := results + [agent.value];
    }
    return Ok(results);
  }

  /** Every non-empty prefix of a valid chain is valid, and its tokens are pairwise distinct. */
  lemma ValidChainShape(decode: Decoder, validators: Validators, c: AgentChain, now: int)
    requires ValidChain(decode, validators, c, now)
    ensures forall n :: 0 < n <= |c| ==> ValidChain(decode, validators, c[..n], now)
    ensures forall i, j :: 0 <= i < j < |c| ==> c[i] != c[j]
  {
    forall i, j | 0 <= i < j < |c| ensures c[i] != c[j] {
      assert ValidHop(decode, validators, c[i], i, now) && ValidHop(decode, validators, c[j], j, now);
    }
  }

  /** Extending a valid chain keeps it valid exactly when the new token is a valid hop of the next depth. */
  lemma ExtendKeepsValid(decode: Decoder, validators: Validators, c: AgentChain, token: string, now: int)
    requires ValidChain(decode, validators, c, now)
    ensures ValidChain(decode, validators, c + [token], now) <==> ValidHop(decode, validators, token, |c|, now)
  {
    var next := c + [token];
    assert next[|c|] == token;
    assert forall i :: 0 <= i < |c| ==> next[i] == c[i];
  }

  /** A token as an issuer makes it: by whom, for how long, from when, and at which depth of a chain. */
  datatype Hop = Hop(v: AgentValidator, ttl: int, issued: int, subject: string, role: string, workload: Key, depth: int)

  /** Token i of the chain was issued as hops[i] says, by an issuer the map knows. */
  ghost predicate IssuedAs(decode: Decoder, validators: Validators, c: AgentChain, hops: seq<Hop>) {
    && |hops| == |c|
    && forall i :: 0 <= i < |c| ==>
         var h := hops[i];
         && h.subject != "" && h.role != "" && h.v.issuerId != ""
         && h.v.issuerId in validators && validators[h.v.issuerId] == h.v
         && decode(c[i]) ==
            IssueAgentToken(h.v.issuerId, h.v.idpPub, h.ttl, h.subject, h.role, Some(h.workload), h.depth, h.issued)
  }

  /** A chain of issued tokens is valid exactly when each stands at its own depth and is within its lifetime. */
  lemma IssuedChainExactly(decode: Decoder, validators: Validators, c: AgentChain, hops: seq<Hop>, now: int)
    requires IssuedAs(decode, validators, c, hops)
    ensures ValidChain(decode, validators, c, now) <==>
            c != [] &&
            forall i :: 0 <= i < |c| ==> hops[i].depth == i && hops[i].issued <= now < hops[i].issued + hops[i].ttl
  {
    forall i | 0 <= i < |c|
      ensures ValidHop(decode, validators, c[i], i, now) <==>
              hops[i].depth == i && hops[i].issued <= now < hops[i].issued + hops[i].ttl
    {
      var h := hops[i];
      IssuedValidExactly(h.v.issuerId, h.v.idpPub, h.ttl, h.subject, h.role, Some(h.workload), h.depth, h.issued,
                         h.v, now);
    }
  }

  // ---------- the gateway's any-validator lookup ----------

  /** Acceptance by some validator of the map, whichever key it sits under. */
  function AnyValidator(decode: Decoder, validators: Validators, token: string, now: int): Option<AgentToken> {
    if exists k :: k in validators && ValidateWith(decode, validators[k], token, now).Some? then decode(token) else None
  }

  /** Try the validators in whatever order the map yields them; the first success wins. */
  method ValidateWithAny(decode: Decoder, validators: Validators, token: string, now: int)
    returns (r: Option<AgentToken>)
    ensures r == AnyValidator(decode, validators, token, now)
  {
    var todo := validators.Keys;
    while todo != {}
      invariant todo <= validators.Keys
      invariant forall k :: k in validators && k !in todo ==> ValidateWith(decode, validators[k], token, now).None?
      decreases |todo|
    {
      var k :| k in todo;
      var agent := ValidateWith(decode, validators[k], token, now);
      if agent.Some? {
        return agent;
      }
      todo := todo - {k};
    }
    return None;
  }

  /** For every validator of the map, the one filed under the issuer it checks for is that validator itself. */
  ghost predicate FoundByIssuer(validators: Validators) {
    forall k :: k in validators ==>
      var issuer := validators[k].issuerId;
      issuer != "" && issuer in validators && validators[issuer] == validators[k]
  }

  /** The leaf check and the per-hop check of a chain accept the same tokens, at every reading. */
  ghost predicate LookupsAgree(validators: Validators) {
    forall decode: Decoder, token: string, now: int ::
      AnyValidator(decode, validators, token, now) == ValidateByIssuer(decode, validators, token, now)
  }

  /** A token that v accepts at the reading 0. */
  function TokenFor(v: AgentValidator): AgentToken {
    AgentToken(AGENT_TOKEN_TYPE, v.idpPub, v.issuerId, Window(Some(1), None, None), "", Some(0), 0)
  }

  lemma FoundMeansAgree(decode: Decoder, validators: Validators, token: string, now: int)
    requires FoundByIssuer(validators)
    ensures AnyValidator(decode, validators, token, now) == ValidateByIssuer(decode, validators, token, now)
  {
    if AnyValidator(decode, validators, token, now).Some? {
      var k :| k in validators && ValidateWith(decode, validators[k], token, now).Some?;
      assert PeekIssuer(decode, token) == Some(validators[k].issuerId);
    }
  }

  /** A validator that its own issuer does not lead to accepts a leaf token that no hop accepts. */
  lemma MisfiledMeansDiffer(validators: Validators, k: string)
    requires k in validators
    requires var issuer := validators[k].issuerId;
             issuer == "" || issuer !in validators || validators[issuer] != validators[k]
    ensures var decode: Decoder := _ => Some(TokenFor(validators[k]));
            AnyValidator(decode, validators, "", 0).Some? && ValidateByIssuer(decode, validators, "", 0).None?
  {
    var decode: Decoder := _ => Some(TokenFor(validators[k]));
    assert ValidateWith(decode, validators[k], "", 0).Some?;
  }

  /** Exactly when the two lookups accept the same tokens, whatever decodes and whenever it is asked. */
  lemma LookupsAgreeExactly(validators: Validators)
    ensures LookupsAgree(validators) <==> FoundByIssuer(validators)
  {
    if FoundByIssuer(validators) {
      forall decode: Decoder, token: string, now: int
        ensures AnyValidator(decode, validators, token, now) == ValidateByIssuer(decode, validators, token, now)
      {
        FoundMeansAgree(decode, validators, token, now);
      }
    } else {
      var k :| k in validators && !(var issuer := validators[k].issuerId;
                 issuer != "" && issuer in validators && validators[issuer] == validators[k]);
      MisfiledMeansDiffer(validators, k);
      var decode: Decoder := _ => Some(TokenFor(validators[k]));
      assert AnyValidator(decode, validators, "", 0) != ValidateByIssuer(decode, validators, "", 0);
    }
  }

  /** Every validator sits under the issuer it checks for, and none is for the empty issuer. */
  ghost predicate KeyedByIssuer(validators: Validators) {
    forall k :: k in validators ==> validators[k].issuerId == k && k != ""
  }

  /** In particular the lookups agree on a map in which every validator is filed under its issuer. */
  lemma AnyIsByIssuer(decode: Decoder, validators: Validators, token: string, now: int)
    requires KeyedByIssuer(validators)
    ensures AnyValidator(decode, validators, token, now) == ValidateByIssuer(decode, validators, token, now)
  {
    FoundMeansAgree(decode, validators, token, now);
  }

  /** A validator filed under another name only passes leaves but no hop. */
  lemma MisfiledValidatorDiffers(decode: Decoder, v: AgentValidator, key: string, token: string, now: int)
    requires ValidateWith(decode, v, token, now).Some? && key != v.issuerId
    ensures AnyValidator(decode, map[key := v], token, now).Some?
    ensures ValidateByIssuer(decode, map[key := v], token, now).None?
  {
    assert key in map[key := v];
  }

  /** One filed under its issuer and an alias as well is harmless, though not every key is an issuer. */
  lemma AliasIsHarmless(key: Key)
    ensures var v := AgentValidator("a", key);
            FoundByIssuer(map["a" := v, "alias" := v]) && !KeyedByIssuer(map["a" := v, "alias" := v])
  {
    assert "alias" in map["a" := AgentValidator("a", key), "alias" := AgentValidator("a", key)];
  }
}
