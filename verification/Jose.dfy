/**
 Symbolic tokens: a key pair is named by a number, a signed token carries the key that signed it, and
 SHA-256 is a constructor, hence injective. Times are seconds.
 */
module Jose {
  import opened Wrappers

  type Key = int

  /** SHA-256 as a constructor: injective, and no digest is one of something else. */
  datatype Digest<T> = Sha256(preimage: T)

  /** The registered time claims; any of them may be absent from a payload. */
  datatype Window = Window(exp: Option<int>, nbf: Option<int>, iat: Option<int>)

  /** What a parser that requires exp and checks nbf and iat accepts at the reading now. */
  predicate Open(w: Window, now: int) {
    && w.exp.Some? && now < w.exp.value
    && (w.nbf.Some? ==> w.nbf.value <= now)
    && (w.iat.Some? ==> w.iat.value <= now)
  }

  datatype AgentToken = AgentToken(
    typ: string, signer: Key, issuer: string, window: Window, subject: string, workloadKey: Option<Key>, depth: int)

  datatype AgentValidator = AgentValidator(issuerId: string, idpPub: Key)

  const AGENT_TOKEN_TYPE := "agent+jwt"

  /** AgentValidator.Validate: signature, times, typ, issuer and a well-formed cnf.jwk. */
  predicate ValidAgentToken(v: AgentValidator, t: AgentToken, now: int) {
    && t.typ == AGENT_TOKEN_TYPE
    && t.signer == v.idpPub
    && Open(t.window, now)
    && t.issuer == v.issuerId
    && t.workloadKey.Some?
  }

  /** AgentIssuer.Issue; subject, role and workload key are required. */
  function IssueAgentToken(issuerId: string, key: Key, ttl: int, subject: string, role: string,
                           workloadKey: Option<Key>, depth: int, now: int): Option<AgentToken> {
    if subject == "" || role == "" || workloadKey.None? then None
    else Some(AgentToken(AGENT_TOKEN_TYPE, key, issuerId, Window(Some(now + ttl), Some(now), Some(now)), subject,
                         workloadKey, depth))
  }

  /**
   An issued token is good for the validator of its issuer and key, from its issue until its ttl is over,
   and for no other.
   */
  lemma IssuedValidExactly(issuerId: string, key: Key, ttl: int, subject: string, role: string,
                           workloadKey: Option<Key>, depth: int, now: int, v: AgentValidator, later: int)
    requires subject != "" && role != "" && workloadKey.Some?
    ensures var t := IssueAgentToken(issuerId, key, ttl, subject, role, workloadKey, depth, now);
            t.Some? &&
            (ValidAgentToken(v, t.value, later) <==> v == AgentValidator(issuerId, key) && now <= later < now + ttl)
  {}
}
