/**
 The agent gateway: one middleware pass per request over the replay store and the revoked set, and the
 delivery of security events that fill the revoked set.
 */
module Gateway {
  import opened Wrappers
  import opened Jose
  import opened Chain
  import Jti = JtiStore

  const PROOF_TYPE := "application/agent-proof+jwt"

  datatype ProofToken = ProofToken(
    typ: string, signer: Key, window: Window, audience: seq<string>, chainHash: Digest<string>, jti: string)

  datatype Decision = Failed | Pending | Allowed | Forbidden

  /** The authorizer's answer for a subject; which answers it gives is a parameter. */
  type Authorizer = string -> Decision

  datatype Config = Config(
    validators: Validators, decode: Decoder, federated: bool, mtls: bool, remediation: bool, authz: Authorizer)

  /**
   What a request brings: an empty string or None is a missing header; resolved is what federation
   answers for the leaf's issuer, and peer the URI names in the client certificate.
   */
  datatype Request = Request(
    leaf: string, resolved: Option<Key>, peer: Option<seq<string>>, chain: string, proof: Option<ProofToken>,
    uri: string)

  datatype Stage = AtLeaf | AtRevocation | AtBinding | AtChain | AtProof | AtReplay | AtAuthorization(d: Decision)

  datatype Verdict = Rejected(at: Stage) | Forwarded

  /** The session-revoked payload; absent when the event is missing or does not parse. */
  datatype Payload = Payload(sub: string, uri: string)

  datatype SecurityEvent = SecurityEvent(jti: string, sessionRevoked: Option<Payload>)

  datatype Status = BadRequest | Conflict | Accepted

  datatype State = State(seen: Jti.Seen, revoked: set<string>, eventsSeen: set<string>)

  const INIT := State(map[], {}, {})

  // ---------- one request ----------

  /** Static validators first; then, if configured, a validator built from the federated key. */
  function ResolveAndValidate(cfg: Config, r: Request, now: int): Option<AgentToken> {
    var known := AnyValidator(cfg.decode, cfg.validators, r.leaf, now);
    if known.Some? then known
    else
      var issuer := PeekIssuer(cfg.decode, r.leaf);
      if cfg.federated && issuer.Some? && r.resolved.Some?
      then ValidateWith(cfg.decode, AgentValidator(issuer.value, r.resolved.value), r.leaf, now)
      else None
  }

  predicate Bound(cfg: Config, r: Request, agent: AgentToken) {
    cfg.mtls ==> r.peer.Some? && agent.subject in r.peer.value
  }

  predicate ChainAccepted(cfg: Config, r: Request, now: int) {
    r.chain != "" && ParseChain(r.chain).Ok? && ValidChain(cfg.decode, cfg.validators, ParseChain(r.chain).value, now)
  }

  /** Everything ProofValidator.Validate checks before it touches the replay store. */
  predicate ProofAccepted(r: Request, key: Key, chain: AgentChain, now: int) {
    && r.proof.Some? && r.proof.value.typ == PROOF_TYPE && r.proof.value.signer == key
    && Open(r.proof.value.window, now)
    && r.uri in r.proof.value.audience
    && r.proof.value.chainHash == Hash(chain)
    && r.proof.value.jti != ""
  }

  /** A proof of that type, signed with the key, open, for this URI and this chain, and with a jti. */
  ghost predicate GoodProof(r: Request, key: Key, chain: AgentChain, now: int) {
    && r.proof.Some? && r.proof.value.typ == "application/agent-proof+jwt" && r.proof.value.signer == key
    && Open(r.proof.value.window, now) && (exists a :: a in r.proof.value.audience && a == r.uri)
    && r.proof.value.chainHash == Sha256(String(chain)) && r.proof.value.jti != ""
  }

  const DEFAULT_PROOF_TTL := 300

  /** GenerateProof: a zero ttl stands for the default, and a negative one makes an expired token. */
  function GenerateProof(uri: string, chain: AgentChain, key: Key, ttl: int, now: int,
                         jti: string): Option<ProofToken> {
    if uri == "" || chain == [] then None
    else
      var exp := now + if ttl == 0 then DEFAULT_PROOF_TTL else ttl;
      Some(ProofToken(PROOF_TYPE, key, Window(Some(exp), Some(now), Some(now)), [uri], Hash(chain), jti))
  }

  /**
   A generated proof is accepted for the key and the URI it was made for, with a chain that prints as the one
   it was made for, while it lasts, and for nothing else. Well-formed chains that print alike are one chain.
   */
  lemma ProofFitsExactly(r: Request, key: Key, chain: AgentChain, now: int,
                         uri: string, proved: AgentChain, signer: Key, ttl: int, made: int, jti: string)
    requires uri != "" && jti != "" && proved != []
    requires r.proof == GenerateProof(uri, proved, signer, ttl, made, jti)
    ensures ProofAccepted(r, key, chain, now) <==>
            key == signer && String(chain) == String(proved) && r.uri == uri &&
            made <= now < made + if ttl == 0 then 300 else ttl
    ensures Wellformed(chain) && Wellformed(proved) ==> (String(chain) == String(proved) <==> chain == proved)
  {
    if Wellformed(chain) && Wellformed(proved) && String(chain) == String(proved) {
      HashBindsChain(chain, proved);
    }
  }

  /** The clock readings of one request: each check that needs the time takes its own, and so does the replay store. */
  datatype Readings = Readings(leaf: int, chain: int, proof: int, recorded: int)

  /** One pass of the middleware. */
  function Handle(cfg: Config, s: State, r: Request, t: Readings): (State, Verdict) {
    var agent := if r.leaf == "" then None else ResolveAndValidate(cfg, r, t.leaf);
    if agent.None? then (s, Rejected(AtLeaf))
    else if cfg.remediation && agent.value.subject in s.revoked then (s, Rejected(AtRevocation))
    else if !Bound(cfg, r, agent.value) then (s, Rejected(AtBinding))
    else if !ChainAccepted(cfg, r, t.chain) then (s, Rejected(AtChain))
    else if !ProofAccepted(r, agent.value.workloadKey.value, ParseChain(r.chain).value, t.proof) then
      (s, Rejected(AtProof))
    else
      var call := RecordOf(r, t.recorded);
      var s' := s.(seen := Jti.After(s.seen, call));
      if !Jti.Accepts(s.seen, call) then (s', Rejected(AtReplay))
      else
        var d := cfg.authz(agent.value.subject);
        if d.Allowed? then (s', Forwarded) else (s', Rejected(AtAuthorization(d)))
  }

  function RecordOf(r: Request, recorded: int): Jti.Call
    requires r.proof.Some? && r.proof.value.window.exp.Some?
  {
    Jti.Call(r.proof.value.jti, r.proof.value.window.exp.value, recorded)
  }

  // ---------- one security event ----------

  function SubjectOf(p: Payload): string {
    if p.sub != "" then p.sub else p.uri
  }

  /** The subjects an event revokes: the payload's sub, or its uri, or nothing. */
  function RevokedBy(e: SecurityEvent): set<string> {
    if e.sessionRevoked.None? || SubjectOf(e.sessionRevoked.value) == "" then {}
    else {SubjectOf(e.sessionRevoked.value)}
  }

  /** The event's payload names subject: in sub, or in uri where sub is empty. */
  ghost predicate Names(e: SecurityEvent, subject: string) {
    && subject != "" && e.sessionRevoked.Some?
    && var p := e.sessionRevoked.value;
       p.sub == subject || (p.sub == "" && p.uri == subject)
  }

  lemma RevokedByExactly(e: SecurityEvent, subject: string)
    ensures subject in RevokedBy(e) <==> Names(e, subject)
  {}

  function Receive(s: State, e: SecurityEvent): (State, Status) {
    if e.jti == "" then (s, BadRequest)
    else if e.jti in s.eventsSeen then (s, Conflict)
    else (s.(eventsSeen := s.eventsSeen + {e.jti}, revoked := s.revoked + RevokedBy(e)), Accepted)
  }

  // ---------- the objects ----------

  /** The receiver of security events with the remediation handler registered on it. */
  class Receiver {
    var jtiSeen: set<string>
    var subjects: map<string, int>

    constructor ()
      ensures jtiSeen == {} && subjects == map[]
    {
      jtiSeen, subjects := {}, map[];
    }

    /** The remediation handler: record the time at which the payload's subject was revoked. */
    method HandleSessionRevoked(e: SecurityEvent, now: int)
      modifies this`subjects
      ensures forall k :: k in subjects <==> k in old(subjects) || Names(e, k)
      ensures forall k :: k in subjects ==> subjects[k] == if Names(e, k) then now else old(subjects)[k]
    {
      if e.sessionRevoked.None? {
        return;
      }
      var subject := e.sessionRevoked.value.sub;
      if subject == "" {
        subject := e.sessionRevoked.value.uri;
      }
      if subject != "" {
        subjects := subjects[subject := now];
      }
    }

    method ServeHttp(e: SecurityEvent, now: int, ghost seen: Jti.Seen) returns (status: Status)
      modifies this
      ensures (State(seen, subjects.Keys, jtiSeen), status) == Receive(State(seen, old(subjects).Keys, old(jtiSeen)), e)
      ensures status == if e.jti == "" then BadRequest else if e.jti in old(jtiSeen) then Conflict else Accepted
      ensures status != Accepted ==> jtiSeen == old(jtiSeen) && subjects == old(subjects)
      ensures status == Accepted ==> jtiSeen == old(jtiSeen) + {e.jti}
      ensures status == Accepted ==> forall k :: k in subjects <==> k in old(subjects) || Names(e, k)
    {
      if e.jti == "" {
        return BadRequest;
      }
      if e.jti in jtiSeen {
        return Conflict;
      }
      jtiSeen := jtiSeen + {e.jti};
      HandleSessionRevoked(e, now);
      forall k ensures k in RevokedBy(e) <==> Names(e, k) {
        RevokedByExactly(e, k);
      }
      assert subjects.Keys == old(subjects).Keys + RevokedBy(e);
      return Accepted;
    }

    method IsRevoked(subject: string) returns (b: bool)
      ensures b <==> subject in subjects.Keys
    {
      b := subject in subjects;
    }
  }

  class Server {
    const cfg: Config
    const store: Jti.InMemoryJtiStore
    const receiver: Receiver

    constructor (cfg: Config, store: Jti.InMemoryJtiStore, receiver: Receiver)
      ensures this.cfg == cfg && this.store == store && this.receiver == receiver
    {
      this.cfg, this.store, this.receiver := cfg, store, receiver;
    }

    ghost function View(): State
      reads store, receiver
    {
      State(store.seen, receiver.subjects.Keys, receiver.jtiSeen)
    }

    method ResolveAgent(r: Request, now: int) returns (agent: Option<AgentToken>)
      ensures agent == ResolveAndValidate(cfg, r, now)
    {
      agent := ValidateWithAny(cfg.decode, cfg.validators, r.leaf, now);
      if agent.Some? || !cfg.federated {
        return;
      }
      var issuer := PeekIssuer(cfg.decode, r.leaf);
      if issuer.None? || r.resolved.None? {
        return None;
      }
      agent := ValidateWith(cfg.decode, AgentValidator(issuer.value, r.resolved.value), r.leaf, now);
    }

    /** The first URI name of the certificate that equals the token's subject settles the binding. */
    method VerifyMtlsBinding(r: Request, subject: string) returns (ok: bool)
      ensures ok <==> r.peer.Some? && subject in r.peer.value
    {
      if r.peer.None? {
        return false;
      }
      var uris := r.peer.value;
      for i := 0 to |uris|
        invariant subject !in uris[..i]
      {
        if uris[i] == subject {
          return true;
        }
      }
      assert uris[..|uris|] == uris;
      return false;
    }

    /** The parser reads the clock first, and the replay store once more when it is reached. */
    method ValidateProof(r: Request, key: Key, chain: AgentChain, now: int, recorded: int) returns (v: Option<Stage>)
      modifies store
      ensures GoodProof(r, key, chain, now) <==> ProofAccepted(r, key, chain, now)
      ensures !GoodProof(r, key, chain, now) ==> v == Some(AtProof) && store.seen == old(store.seen)
      ensures GoodProof(r, key, chain, now) ==>
                var call := Jti.Call(r.proof.value.jti, r.proof.value.window.exp.value, recorded);
                && store.seen == Jti.After(old(store.seen), call)
                && v == if Jti.Accepts(old(store.seen), call) then None else Some(AtReplay)
    {
      if r.proof.None? {
        return Some(AtProof);
      }
      var p := r.proof.value;
      if p.typ != PROOF_TYPE || p.signer != key || !Open(p.window, now) {
        return Some(AtProof);
      }
      var audOk := false;
      for i := 0 to |p.audience|
        invariant audOk <==> r.uri in p.audience[..i]
      {
        assert p.audience[..i + 1] == p.audience[..i] + [p.audience[i]];
        if p.audience[i] == r.uri {
          audOk := true;
        }
      }
      assert p.audience[..|p.audience|] == p.audience;
      if !audOk || p.chainHash != Hash(chain) || p.jti == "" {
        return Some(AtProof);
      }
      var isNew := store.Record(p.jti, p.window.exp.value, recorded);
      return if isNew then None else Some(AtReplay);
    }

    method AgentAuth(r: Request, t: Readings) returns (v: Verdict)
      modifies store
      ensures (View(), v) == Handle(cfg, old(View()), r, t)
    {
      if r.leaf == "" {
        return Rejected(AtLeaf);
      }
      var agent := ResolveAgent(r, t.leaf);
      if agent.None? {
        return Rejected(AtLeaf);
      }
      var subject := agent.value.subject;
      if cfg.remediation {
        var revoked := receiver.IsRevoked(subject);
        if revoked {
          return Rejected(AtRevocation);
        }
      }
      if cfg.mtls {
        var bound := VerifyMtlsBinding(r, subject);
        if !bound {
          return Rejected(AtBinding);
        }
      }
      if r.chain == "" {
        return Rejected(AtChain);
      }
      var chain := ParseChain(r.chain);
      if chain.Err? {
        return Rejected(AtChain);
      }
      var hops := Validate(cfg.decode, cfg.validators, chain.value, t.chain);
      if hops.Err? {
        return Rejected(AtChain);
      }
      var failed := ValidateProof(r, agent.value.workloadKey.value, chain.value, t.proof, t.recorded);
      if failed.Some? {
        return Rejected(failed.value);
      }
      var d := cfg.authz(subject);
      return if d.Allowed? then Forwarded else Rejected(AtAuthorization(d));
    }
  }

  // ---------- runs ----------

  datatype Input = Arrives(r: Request, t: Readings) | Delivered(e: SecurityEvent)

  datatype Output = Answer(v: Verdict) | Ack(status: Status)

  function Step(cfg: Config, s: State, i: Input): (State, Output) {
    match i
    case Arrives(r, t) => var (s', v) := Handle(cfg, s, r, t); (s', Answer(v))
    case Delivered(e) => var (s', status) := Receive(s, e); (s', Ack(status))
  }

  function Run(cfg: Config, inputs: seq<Input>): State {
    if inputs == [] then INIT else Step(cfg, Run(cfg, inputs[..|inputs| - 1]), inputs[|inputs| - 1]).0
  }

  /** What the gateway answers to input k of a run. */
  function OutputAt(cfg: Config, inputs: seq<Input>, k: nat): Output
    requires k < |inputs|
  {
    Step(cfg, Run(cfg, inputs[..k]), inputs[k]).1
  }

  lemma RunPrefix(cfg: Config, inputs: seq<Input>, k: nat)
    requires k < |inputs|
    ensures Run(cfg, inputs[..k + 1]) == Step(cfg, Run(cfg, inputs[..k]), inputs[k]).0
  {
    assert inputs[..k + 1][..k] == inputs[..k];
  }

  /** A request is forwarded exactly when one agent, the leaf's, stands behind every configured check. */
  lemma ForwardedExactly(cfg: Config, s: State, r: Request, t: Readings)
    ensures Handle(cfg, s, r, t).1 == Forwarded <==>
            r.leaf != "" && exists agent ::
              && ResolveAndValidate(cfg, r, t.leaf) == Some(agent)
              && (cfg.remediation ==> agent.subject !in s.revoked)
              && Bound(cfg, r, agent)
              && ChainAccepted(cfg, r, t.chain)
              && ProofAccepted(r, agent.workloadKey.value, ParseChain(r.chain).value, t.proof)
              && Jti.Accepts(s.seen, RecordOf(r, t.recorded))
              && cfg.authz(agent.subject) == Allowed
  {
    var agent := ResolveAndValidate(cfg, r, t.leaf);
    assert agent.Some? ==> agent == Some(agent.value);
  }

  /** What an honest agent sends: a leaf token of its issuer as the whole chain, and a proof made for this request. */
  ghost predicate Honest(cfg: Config, r: Request, v: AgentValidator, subject: string, role: string, workload: Key,
                         ttl: int, issued: int, proofTtl: int, made: int, jti: string)
  {
    && r.leaf != "" && TILDE !in r.leaf && r.chain == r.leaf && r.uri != "" && jti != "" && subject != "" && role != ""
    && cfg.decode(r.leaf) == IssueAgentToken(v.issuerId, v.idpPub, ttl, subject, role, Some(workload), 0, issued)
    && r.proof == GenerateProof(r.uri, [r.leaf], workload, proofTtl, made, jti)
  }

  /**
   The whole way, exactly: a gateway that knows the issuer forwards an honest agent's request iff leaf token,
   chain and proof are each checked within their lifetime, the agent is neither revoked nor unbound, the proof
   is new to the replay store, and the agent is authorized.
   */
  lemma HonestForwardedExactly(cfg: Config, s: State, r: Request, t: Readings, v: AgentValidator, subject: string,
                               role: string, workload: Key, ttl: int, issued: int, proofTtl: int, made: int,
                               jti: string)
    requires Honest(cfg, r, v, subject, role, workload, ttl, issued, proofTtl, made, jti)
    requires cfg.validators == map[v.issuerId := v] && v.issuerId != "" && !cfg.federated
    ensures var exp := made + if proofTtl == 0 then 300 else proofTtl;
            Handle(cfg, s, r, t).1 == Forwarded <==>
            && issued <= t.leaf < issued + ttl && issued <= t.chain < issued + ttl && made <= t.proof < exp
            && (cfg.remediation ==> subject !in s.revoked)
            && (cfg.mtls ==> r.peer.Some? && subject in r.peer.value)
            && Jti.Accepts(s.seen, Jti.Call(jti, exp, t.recorded))
            && cfg.authz(subject) == Allowed
  {
    ForwardedExactly(cfg, s, r, t);
    var agent := cfg.decode(r.leaf).value;
    HonestTokens(cfg, r, v, subject, role, workload, ttl, issued, t.leaf, t.chain);
    ParseAfterPrint([r.leaf]);
    ProofFitsExactly(r, workload, [r.leaf], t.proof, r.uri, [r.leaf], workload, proofTtl, made, jti);
    assert agent.subject == subject && agent.workloadKey == Some(workload);
  }

  lemma HonestTokens(cfg: Config, r: Request, v: AgentValidator, subject: string, role: string, workload: Key,
                     ttl: int, issued: int, leafAt: int, chainAt: int)
    requires r.leaf != "" && TILDE !in r.leaf && r.chain == r.leaf && subject != "" && role != ""
    requires cfg.decode(r.leaf) == IssueAgentToken(v.issuerId, v.idpPub, ttl, subject, role, Some(workload), 0, issued)
    requires cfg.validators == map[v.issuerId := v] && v.issuerId != "" && !cfg.federated
    ensures ResolveAndValidate(cfg, r, leafAt) ==
            if issued <= leafAt < issued + ttl then cfg.decode(r.leaf) else None
    ensures ChainAccepted(cfg, r, chainAt) <==> issued <= chainAt < issued + ttl
  {
    IssuedValidExactly(v.issuerId, v.idpPub, ttl, subject, role, Some(workload), 0, issued, v, leafAt);
    IssuedValidExactly(v.issuerId, v.idpPub, ttl, subject, role, Some(workload), 0, issued, v, chainAt);
    assert v.issuerId in cfg.validators;
    ParseAfterPrint([r.leaf]);
    assert String([r.leaf]) == r.leaf;
    assert ChainAccepted(cfg, r, chainAt) <==> ValidHop(cfg.decode, cfg.validators, r.leaf, 0, chainAt);
  }

  /**
   A forwarded request was made by someone who holds the key of the leaf token: the proof is signed with
   the workload key that a validator, static or federated, vouches for, and was open when it was parsed.
   */
  lemma ForwardedProvesPossession(cfg: Config, s: State, r: Request, t: Readings)
    requires Handle(cfg, s, r, t).1 == Forwarded
    ensures exists v: AgentValidator, agent ::
              && ((exists k :: k in cfg.validators && cfg.validators[k] == v) ||
                  (cfg.federated && r.resolved == Some(v.idpPub) && PeekIssuer(cfg.decode, r.leaf) == Some(v.issuerId)))
              && cfg.decode(r.leaf) == Some(agent) && ValidAgentToken(v, agent, t.leaf)
              && r.proof.Some? && Some(r.proof.value.signer) == agent.workloadKey && Open(r.proof.value.window, t.proof)
  {
    var agent := ResolveAndValidate(cfg, r, t.leaf).value;
    if AnyValidator(cfg.decode, cfg.validators, r.leaf, t.leaf).Some? {
      var k :| k in cfg.validators && ValidateWith(cfg.decode, cfg.validators[k], r.leaf, t.leaf).Some?;
      assert ValidAgentToken(cfg.validators[k], agent, t.leaf);
    } else {
      assert ValidAgentToken(AgentValidator(PeekIssuer(cfg.decode, r.leaf).value, r.resolved.value), agent, t.leaf);
    }
  }

  /** A leaf no static validator accepts: federation decides, by the key it answers for the issuer the leaf names. */
  lemma FederatedExactly(cfg: Config, r: Request, now: int, agent: AgentToken)
    requires forall k :: k in cfg.validators ==> ValidateWith(cfg.decode, cfg.validators[k], r.leaf, now).None?
    ensures ResolveAndValidate(cfg, r, now) == Some(agent) <==>
            && cfg.federated && cfg.decode(r.leaf) == Some(agent) && agent.issuer != ""
            && r.resolved == Some(agent.signer) && agent.typ == "agent+jwt" && Open(agent.window, now)
            && agent.workloadKey.Some?
  {}

  /** A leaf some static validator accepts is settled by it, whatever federation would say. */
  lemma StaticFirst(cfg: Config, r: Request, now: int, k: string)
    requires k in cfg.validators && ValidateWith(cfg.decode, cfg.validators[k], r.leaf, now).Some?
    ensures ResolveAndValidate(cfg, r, now) == cfg.decode(r.leaf)
  {}

  /** Where a request that is not forwarded was turned away: at the first check, in this order, that it fails. */
  lemma RejectedAtFirst(cfg: Config, s: State, r: Request, t: Readings)
    ensures var v := Handle(cfg, s, r, t).1;
            var agent := ResolveAndValidate(cfg, r, t.leaf);
            && (v == Rejected(AtLeaf) <==> r.leaf == "" || agent.None?)
            && (v == Rejected(AtRevocation) ==> cfg.remediation && agent.value.subject in s.revoked)
            && (v == Rejected(AtBinding) ==>
                  (cfg.remediation ==> agent.value.subject !in s.revoked) && !Bound(cfg, r, agent.value))
            && (v == Rejected(AtChain) ==> Bound(cfg, r, agent.value) && !ChainAccepted(cfg, r, t.chain))
            && (v == Rejected(AtProof) ==>
                  && ChainAccepted(cfg, r, t.chain)
                  && !ProofAccepted(r, agent.value.workloadKey.value, ParseChain(r.chain).value, t.proof))
            && (v == Rejected(AtReplay) ==>
                  && ProofAccepted(r, agent.value.workloadKey.value, ParseChain(r.chain).value, t.proof)
                  && !Jti.Accepts(s.seen, RecordOf(r, t.recorded)))
            && (forall d :: v == Rejected(AtAuthorization(d)) ==>
                  d != Allowed && cfg.authz(agent.value.subject) == d && Jti.Accepts(s.seen, RecordOf(r, t.recorded)))
  {}

  /** A proof token opens one delegation chain only: requests it is accepted for carry the same chain header. */
  lemma ProofFitsOneChain(r: Request, r': Request, key: Key, key': Key, now: int, now': int)
    requires r.proof == r'.proof && ParseChain(r.chain).Ok? && ParseChain(r'.chain).Ok?
    requires ProofAccepted(r, key, ParseChain(r.chain).value, now) &&
             ProofAccepted(r', key', ParseChain(r'.chain).value, now')
    ensures r.chain == r'.chain
  {
    PrintAfterParse(r.chain);
    PrintAfterParse(r'.chain);
    HashBindsChain(ParseChain(r.chain).value, ParseChain(r'.chain).value);
  }

  /**
   The binding is described as one to the first URI name of the certificate. The code takes any of them: a
   certificate binds as described, for every agent, exactly when it holds no URI name besides its first.
   */
  lemma FirstNameExactly(cfg: Config, r: Request)
    requires cfg.mtls && r.peer.Some?
    ensures BindsByFirstName(cfg, r) <==> forall n :: n in r.peer.value ==> n == r.peer.value[0]
  {
    var names := r.peer.value;
    if n :| n in names && n != names[0] {
      var agent := AgentToken(AGENT_TOKEN_TYPE, 0, "", Window(None, None, None), n, None, 0);
      assert Bound(cfg, r, agent) && agent.subject != names[0];
    }
  }

  ghost predicate BindsByFirstName(cfg: Config, r: Request)
    requires r.peer.Some?
  {
    forall agent :: Bound(cfg, r, agent) <==> r.peer.value != [] && r.peer.value[0] == agent.subject
  }

  lemma LaterNameBinds(cfg: Config, r: Request, agent: AgentToken)
    requires cfg.mtls
    requires agent.subject == "spiffe://corp/a" && r.peer == Some(["spiffe://corp/b", "spiffe://corp/a"])
    ensures Bound(cfg, r, agent) && r.peer.value[0] != agent.subject
  {
    assert r.peer.value[1] == agent.subject;
    assert r.peer.value[0][14] == 'b' && agent.subject[14] == 'a';
  }

  /** A request turned away before the replay check leaves no trace. */
  lemma EarlyRejectionChangesNothing(cfg: Config, s: State, r: Request, t: Readings)
    ensures var (s', v) := Handle(cfg, s, r, t);
            && (v.Rejected? && !v.at.AtReplay? && !v.at.AtAuthorization? ==> s' == s)
            && s'.revoked == s.revoked && s'.eventsSeen == s.eventsSeen
  {}

  // ---------- revocation over runs ----------

  /** Input k is the first delivery of a non-empty jti. */
  ghost predicate FirstSeen(inputs: seq<Input>, k: nat)
    requires k < |inputs|
  {
    && inputs[k].Delivered? && inputs[k].e.jti != ""
    && forall i :: 0 <= i < k && inputs[i].Delivered? ==> inputs[i].e.jti != inputs[k].e.jti
  }

  /** Some first-seen event among the first n inputs revokes subject. */
  ghost predicate RevokedWithin(inputs: seq<Input>, n: nat, subject: string)
    requires n <= |inputs|
  {
    exists k :: 0 <= k < n && FirstSeen(inputs, k) && Names(inputs[k].e, subject)
  }

  lemma {:induction false} EventsSeenExactly(cfg: Config, inputs: seq<Input>, n: nat, jti: string)
    requires n <= |inputs|
    ensures jti in Run(cfg, inputs[..n]).eventsSeen <==>
            jti != "" && exists k :: 0 <= k < n && inputs[k].Delivered? && inputs[k].e.jti == jti
  {
    if n > 0 {
      EventsSeenExactly(cfg, inputs, n - 1, jti);
      RunPrefix(cfg, inputs, n - 1);
      if inputs[n - 1].Arrives? {
        EarlyRejectionChangesNothing(cfg, Run(cfg, inputs[..n - 1]), inputs[n - 1].r, inputs[n - 1].t);
      }
    }
  }

  lemma OneMoreInput(inputs: seq<Input>, n: nat, subject: string)
    requires n < |inputs|
    ensures RevokedWithin(inputs, n + 1, subject) <==>
            RevokedWithin(inputs, n, subject) || (FirstSeen(inputs, n) && Names(inputs[n].e, subject))
  {
    if RevokedWithin(inputs, n + 1, subject) {
      var k :| 0 <= k < n + 1 && FirstSeen(inputs, k) && Names(inputs[k].e, subject);
    }
    if RevokedWithin(inputs, n, subject) {
      var k :| 0 <= k < n && FirstSeen(inputs, k) && Names(inputs[k].e, subject);
      assert k < n + 1;
    }
  }

  /** What a delivery is answered: an empty jti is refused, one delivered before conflicts, any other is accepted. */
  lemma AckExactly(cfg: Config, inputs: seq<Input>, k: nat)
    requires k < |inputs| && inputs[k].Delivered?
    ensures OutputAt(cfg, inputs, k) == Ack(BadRequest) <==> inputs[k].e.jti == ""
    ensures OutputAt(cfg, inputs, k) == Ack(Accepted) <==> FirstSeen(inputs, k)
    ensures OutputAt(cfg, inputs, k) == Ack(Conflict) <==>
            inputs[k].e.jti != "" &&
            exists i :: 0 <= i < k && inputs[i].Delivered? && inputs[i].e.jti == inputs[k].e.jti
  {
    EventsSeenExactly(cfg, inputs, k, inputs[k].e.jti);
  }

  /** An event changes the revoked set exactly when it is the first with its jti. */
  lemma EventRevokes(cfg: Config, inputs: seq<Input>, n: nat)
    requires n < |inputs| && inputs[n].Delivered?
    ensures Run(cfg, inputs[..n + 1]).revoked ==
            Run(cfg, inputs[..n]).revoked + if FirstSeen(inputs, n) then RevokedBy(inputs[n].e) else {}
  {
    RunPrefix(cfg, inputs, n);
    EventsSeenExactly(cfg, inputs, n, inputs[n].e.jti);
  }

  /** The revoked set is exactly the subjects named by the session-revoked payloads of first-seen events. */
  lemma {:induction false} RevokedExactly(cfg: Config, inputs: seq<Input>, n: nat, subject: string)
    requires n <= |inputs|
    ensures subject in Run(cfg, inputs[..n]).revoked <==> RevokedWithin(inputs, n, subject)
  {
    if n > 0 {
      RevokedExactly(cfg, inputs, n - 1, subject);
      OneMoreInput(inputs, n - 1, subject);
      if inputs[n - 1].Arrives? {
        RunPrefix(cfg, inputs, n - 1);
        EarlyRejectionChangesNothing(cfg, Run(cfg, inputs[..n - 1]), inputs[n - 1].r, inputs[n - 1].t);
      } else {
        EventRevokes(cfg, inputs, n - 1);
        RevokedByExactly(inputs[n - 1].e, subject);
      }
    }
  }

  /** Once an event that revokes a subject has been answered 202, no request of that subject is forwarded. */
  lemma RevokedIsNeverForwarded(cfg: Config, inputs: seq<Input>, k: nat, n: nat)
    requires cfg.remediation && k < n < |inputs|
    requires inputs[k].Delivered? && OutputAt(cfg, inputs, k) == Ack(Accepted)
    requires inputs[n].Arrives? && ResolveAndValidate(cfg, inputs[n].r, inputs[n].t.leaf).Some?
    requires Names(inputs[k].e, ResolveAndValidate(cfg, inputs[n].r, inputs[n].t.leaf).value.subject)
    ensures OutputAt(cfg, inputs, n) != Answer(Forwarded)
  {
    var subject := ResolveAndValidate(cfg, inputs[n].r, inputs[n].t.leaf).value.subject;
    EventsSeenExactly(cfg, inputs, k, inputs[k].e.jti);
    assert FirstSeen(inputs, k);
    RevokedExactly(cfg, inputs, n, subject);
  }

  // ---------- replay over runs ----------

  /** Whether input k reaches the replay store. */
  ghost predicate Records(cfg: Config, inputs: seq<Input>, k: nat)
    requires k < |inputs|
  {
    && inputs[k].Arrives?
    && var v := Handle(cfg, Run(cfg, inputs[..k]), inputs[k].r, inputs[k].t).1;
       v.Forwarded? || v.at.AtReplay? || v.at.AtAuthorization?
  }

  lemma RecordsHaveProof(cfg: Config, inputs: seq<Input>, k: nat)
    requires k < |inputs| && Records(cfg, inputs, k)
    ensures inputs[k].r.proof.Some? && Open(inputs[k].r.proof.value.window, inputs[k].t.proof)
  {}

  /** The calls made on the replay store by the first n inputs. */
  ghost function Calls(cfg: Config, inputs: seq<Input>, n: nat): seq<Jti.Call>
    requires n <= |inputs|
  {
    if n == 0 then []
    else if Records(cfg, inputs, n - 1) then
      RecordsHaveProof(cfg, inputs, n - 1);
      Calls(cfg, inputs, n - 1) + [RecordOf(inputs[n - 1].r, inputs[n - 1].t.recorded)]
    else Calls(cfg, inputs, n - 1)
  }

  /** Only the inputs that reach the replay store change it, each by its own call. */
  lemma StoreStep(cfg: Config, inputs: seq<Input>, k: nat)
    requires k < |inputs|
    ensures var before := Run(cfg, inputs[..k]).seen;
            var after := Run(cfg, inputs[..k + 1]).seen;
            if Records(cfg, inputs, k) then
              (RecordsHaveProof(cfg, inputs, k);
               after == Jti.After(before, RecordOf(inputs[k].r, inputs[k].t.recorded)))
            else after == before
  {
    RunPrefix(cfg, inputs, k);
    if Records(cfg, inputs, k) {
      RecordsHaveProof(cfg, inputs, k);
    } else if inputs[k].Arrives? {
      EarlyRejectionChangesNothing(cfg, Run(cfg, inputs[..k]), inputs[k].r, inputs[k].t);
    }
  }

  lemma RunOneMore(calls: seq<Jti.Call>, call: Jti.Call)
    ensures Jti.Run(calls + [call]) == Jti.After(Jti.Run(calls), call)
  {
    assert (calls + [call])[..|calls|] == calls;
  }

  lemma {:induction false} StoreFollowsCalls(cfg: Config, inputs: seq<Input>, n: nat)
    requires n <= |inputs|
    ensures Run(cfg, inputs[..n]).seen == Jti.Run(Calls(cfg, inputs, n))
  {
    if n > 0 {
      StoreFollowsCalls(cfg, inputs, n - 1);
      StoreStep(cfg, inputs, n - 1);
      if Records(cfg, inputs, n - 1) {
        RecordsHaveProof(cfg, inputs, n - 1);
        RunOneMore(Calls(cfg, inputs, n - 1), RecordOf(inputs[n - 1].r, inputs[n - 1].t.recorded));
      }
    }
  }

  lemma {:induction false} CallsGrow(cfg: Config, inputs: seq<Input>, m: nat, n: nat)
    requires m <= n <= |inputs|
    ensures Calls(cfg, inputs, m) <= Calls(cfg, inputs, n)
  {
    if m < n {
      CallsGrow(cfg, inputs, m, n - 1);
    }
  }

  /** The replay store's readings do not run backwards over the run. */
  ghost predicate ClockMonotone(inputs: seq<Input>) {
    forall i, j :: 0 <= i < j < |inputs| && inputs[i].Arrives? && inputs[j].Arrives? ==>
      inputs[i].t.recorded <= inputs[j].t.recorded
  }

  lemma OneMoreForward(calls: seq<Jti.Call>, call: Jti.Call)
    requires Jti.ClockMonotone(calls) && forall i :: 0 <= i < |calls| ==> calls[i].now <= call.now
    ensures Jti.ClockMonotone(calls + [call])
  {}

  /** The calls of a run keep the run's clock. */
  lemma {:induction false} CallsForward(cfg: Config, inputs: seq<Input>, n: nat)
    requires n <= |inputs| && ClockMonotone(inputs)
    ensures Jti.ClockMonotone(Calls(cfg, inputs, n))
    ensures forall i, m :: 0 <= i < |Calls(cfg, inputs, n)| && n <= m < |inputs| && inputs[m].Arrives? ==>
              Calls(cfg, inputs, n)[i].now <= inputs[m].t.recorded
  {
    if n > 0 {
      CallsForward(cfg, inputs, n - 1);
      if Records(cfg, inputs, n - 1) {
        RecordsHaveProof(cfg, inputs, n - 1);
        OneMoreForward(Calls(cfg, inputs, n - 1), RecordOf(inputs[n - 1].r, inputs[n - 1].t.recorded));
      }
    }
  }

  /** No two proof tokens of the run share a jti and differ in expiry. */
  ghost predicate JtiFixesExp(inputs: seq<Input>) {
    forall i, j :: 0 <= i < j < |inputs| && HasProof(inputs[i]) && HasProof(inputs[j]) &&
                   inputs[i].r.proof.value.jti == inputs[j].r.proof.value.jti ==>
      inputs[i].r.proof.value.window.exp == inputs[j].r.proof.value.window.exp
  }

  predicate HasProof(i: Input) {
    i.Arrives? && i.r.proof.Some?
  }

  /** Every call of the run stems from an input with a proof, and an earlier call from an earlier input. */
  lemma {:induction false} CallOrigin(cfg: Config, inputs: seq<Input>, n: nat, i: nat) returns (k: nat)
    requires n <= |inputs| && i < |Calls(cfg, inputs, n)|
    ensures k < n && HasProof(inputs[k]) && inputs[k].r.proof.value.window.exp.Some?
    ensures Calls(cfg, inputs, n)[i] == RecordOf(inputs[k].r, inputs[k].t.recorded)
  {
    if Records(cfg, inputs, n - 1) && i == |Calls(cfg, inputs, n - 1)| {
      RecordsHaveProof(cfg, inputs, n - 1);
      k := n - 1;
    } else {
      k := CallOrigin(cfg, inputs, n - 1, i);
    }
  }

  lemma CallsFixExp(cfg: Config, inputs: seq<Input>, n: nat)
    requires n <= |inputs| && JtiFixesExp(inputs)
    ensures Jti.JtiFixesExp(Calls(cfg, inputs, n))
  {
    var calls := Calls(cfg, inputs, n);
    forall i, j | 0 <= i < j < |calls| && calls[i].jti == calls[j].jti ensures calls[i].exp == calls[j].exp {
      var k := CallOrigin(cfg, inputs, n, i);
      var l := CallOrigin(cfg, inputs, n, j);
      assert k < l || l < k || k == l;
    }
  }

  /** The call of input m stands at its place in the calls of every longer run. */
  lemma CallAt(cfg: Config, inputs: seq<Input>, m: nat, n: nat)
    requires m < n <= |inputs| && Records(cfg, inputs, m)
    ensures var calls := Calls(cfg, inputs, n); var i := |Calls(cfg, inputs, m)|;
            && i < |calls| && calls[..i] == Calls(cfg, inputs, m)
            && (RecordsHaveProof(cfg, inputs, m); calls[i] == RecordOf(inputs[m].r, inputs[m].t.recorded))
  {
    RecordsHaveProof(cfg, inputs, m);
    CallsGrow(cfg, inputs, m + 1, n);
    assert Calls(cfg, inputs, m + 1) == Calls(cfg, inputs, m) + [RecordOf(inputs[m].r, inputs[m].t.recorded)];
  }

  /** An input that reaches the replay store is answered there by what the store says to its call. */
  lemma StoreDecides(cfg: Config, inputs: seq<Input>, m: nat, n: nat)
    requires m < n <= |inputs| && Records(cfg, inputs, m)
    ensures inputs[m].r.proof.Some? && inputs[m].r.proof.value.window.exp.Some?
    ensures var calls := Calls(cfg, inputs, n); var i := |Calls(cfg, inputs, m)|;
            && i < |calls| && calls[i] == RecordOf(inputs[m].r, inputs[m].t.recorded)
            && (OutputAt(cfg, inputs, m) == Answer(Rejected(AtReplay)) <==> !Jti.Accepted(calls, i))
  {
    RecordsHaveProof(cfg, inputs, m);
    CallAt(cfg, inputs, m, n);
    StoreFollowsCalls(cfg, inputs, m);
  }

  ghost predicate ForwardedAt(cfg: Config, inputs: seq<Input>, m: nat)
    requires m < |inputs|
  {
    inputs[m].Arrives? && OutputAt(cfg, inputs, m) == Answer(Forwarded)
  }

  lemma ForwardedRecords(cfg: Config, inputs: seq<Input>, m: nat)
    requires m < |inputs| && ForwardedAt(cfg, inputs, m)
    ensures Records(cfg, inputs, m)
  {}

  /** Inputs m and n use the same proof token, as far as the replay store can tell. */
  predicate SameProof(inputs: seq<Input>, m: nat, n: nat)
    requires m < |inputs| && n < |inputs|
  {
    && HasProof(inputs[m]) && HasProof(inputs[n])
    && inputs[m].r.proof.value.jti == inputs[n].r.proof.value.jti
    && inputs[m].r.proof.value.window.exp == inputs[n].r.proof.value.window.exp
  }

  /** Two inputs that reach the store with one proof are two calls of one jti and expiry, in their order. */
  lemma TwoCalls(cfg: Config, inputs: seq<Input>, m: nat, n: nat)
    requires m < n < |inputs| && SameProof(inputs, m, n) && Records(cfg, inputs, m) && Records(cfg, inputs, n)
    ensures inputs[n].r.proof.value.window.exp.Some?
    ensures var calls := Calls(cfg, inputs, n + 1);
            var i, k := |Calls(cfg, inputs, m)|, |Calls(cfg, inputs, n)|;
            && i < k < |calls| && calls[i].jti == calls[k].jti && calls[i].exp == calls[k].exp
            && calls[k] == RecordOf(inputs[n].r, inputs[n].t.recorded)
            && (OutputAt(cfg, inputs, m) == Answer(Rejected(AtReplay)) <==> !Jti.Accepted(calls, i))
            && (OutputAt(cfg, inputs, n) == Answer(Rejected(AtReplay)) <==> !Jti.Accepted(calls, k))
  {
    StoreDecides(cfg, inputs, m, n + 1);
    StoreDecides(cfg, inputs, n, n + 1);
    assert |Calls(cfg, inputs, m)| < |Calls(cfg, inputs, n)| by {
      StoreDecides(cfg, inputs, m, n);
    }
  }

  /** On a forward clock, two calls of one jti and expiry are both accepted only if the later one is past the expiry. */
  lemma AcceptedTwice(calls: seq<Jti.Call>, i: nat, k: nat)
    requires i < k < |calls| && Jti.ClockMonotone(calls)
    requires calls[i].jti == calls[k].jti && calls[i].exp == calls[k].exp
    ensures Jti.Accepted(calls, i) && Jti.Accepted(calls, k) ==> calls[k].exp < calls[k].now
    ensures Jti.JtiFixesExp(calls) ==> (Jti.Accepted(calls, k) <==> calls[k].exp < calls[k].now)
  {
    Jti.AcceptedExactly(calls, k);
    assert calls[k].now <= calls[k].exp ==> Jti.StillLive(calls, i, k);
    if Jti.JtiFixesExp(calls) {
      Jti.ForwardClockExactly(calls, k);
    }
  }

  /**
   With a clock that does not run backwards, no proof token is forwarded twice as long as the replay store
   is reached before the token expires: a second forwarding means the second record came too late.
   */
  lemma ProofForwardedOnce(cfg: Config, inputs: seq<Input>, m: nat, n: nat)
    requires ClockMonotone(inputs) && m < n < |inputs|
    requires ForwardedAt(cfg, inputs, m) && ForwardedAt(cfg, inputs, n) && SameProof(inputs, m, n)
    ensures inputs[n].r.proof.value.window.exp.Some?
    ensures inputs[n].r.proof.value.window.exp.value < inputs[n].t.recorded
  {
    ForwardedRecords(cfg, inputs, m);
    ForwardedRecords(cfg, inputs, n);
    TwoCalls(cfg, inputs, m, n);
    CallsForward(cfg, inputs, n + 1);
    AcceptedTwice(Calls(cfg, inputs, n + 1), |Calls(cfg, inputs, m)|, |Calls(cfg, inputs, n)|);
  }

  /**
   Exactly: a proof token that has reached the replay store before and reaches it again is let through once
   more iff it is recorded past its expiry, and is rejected as a replay in every other case.
   */
  lemma ReplayRejectedExactly(cfg: Config, inputs: seq<Input>, m: nat, n: nat)
    requires ClockMonotone(inputs) && JtiFixesExp(inputs) && m < n < |inputs|
    requires Records(cfg, inputs, m) && Records(cfg, inputs, n) && SameProof(inputs, m, n)
    ensures inputs[n].r.proof.value.window.exp.Some?
    ensures OutputAt(cfg, inputs, n) == Answer(Rejected(AtReplay)) <==>
            inputs[n].t.recorded <= inputs[n].r.proof.value.window.exp.value
  {
    TwoCalls(cfg, inputs, m, n);
    assert Jti.ClockMonotone(Calls(cfg, inputs, n + 1)) by {
      CallsForward(cfg, inputs, n + 1);
    }
    CallsFixExp(cfg, inputs, n + 1);
    AcceptedTwice(Calls(cfg, inputs, n + 1), |Calls(cfg, inputs, m)|, |Calls(cfg, inputs, n)|);
  }

  // ---------- a run in which one proof token is forwarded twice ----------

  function SampleAgent(): AgentToken {
    AgentToken(AGENT_TOKEN_TYPE, 1, "idp", Window(Some(100), None, None), "agent", Some(2), 0)
  }

  function SampleConfig(): Config {
    Config(map["idp" := AgentValidator("idp", 1)], _ => Some(SampleAgent()), false, false, false, _ => Allowed)
  }

  /** One token as leaf and chain, with a proof that expires at 10. */
  function SampleRequest(): Request {
    var proof := ProofToken(PROOF_TYPE, 2, Window(Some(10), None, None), ["https://tool"], Hash(["token"]), "j");
    Request("token", None, None, "token", Some(proof), "https://tool")
  }

  lemma SampleForwarded(s: State, t: Readings)
    requires t.leaf < 100 && t.chain < 100 && t.proof < 10
    ensures Handle(SampleConfig(), s, SampleRequest(), t).1 ==
            if Jti.Accepts(s.seen, Jti.Call("j", 10, t.recorded)) then Forwarded else Rejected(AtReplay)
  {
    var cfg := SampleConfig();
    ParseAfterPrint(["token"]);
    assert String(["token"]) == "token";
    assert ValidateWith(cfg.decode, cfg.validators["idp"], "token", t.leaf).Some?;
    assert ValidHop(cfg.decode, cfg.validators, "token", 0, t.chain);
  }

  /**
   The replay store's safety note says that a token too old for the store has already failed its expiry
   check. Parsed at 9 and recorded at 11, a token that expires at 10 is forwarded a second time.
   */
  lemma StraddledExpiryForwardsTwice()
    ensures var inputs := [Arrives(SampleRequest(), Readings(5, 5, 5, 5)),
                           Arrives(SampleRequest(), Readings(9, 9, 9, 11))];
            ClockMonotone(inputs) && JtiFixesExp(inputs) &&
            ForwardedAt(SampleConfig(), inputs, 0) && ForwardedAt(SampleConfig(), inputs, 1)
  {
    var first, second := Readings(5, 5, 5, 5), Readings(9, 9, 9, 11);
    var inputs := [Arrives(SampleRequest(), first), Arrives(SampleRequest(), second)];
    SampleForwarded(INIT, first);
    RunPrefix(SampleConfig(), inputs, 0);
    assert Run(SampleConfig(), inputs[..0]) == INIT;
    var s := Run(SampleConfig(), inputs[..1]);
    assert s == Handle(SampleConfig(), INIT, SampleRequest(), first).0;
    assert s.seen == map["j" := 10];
    SampleForwarded(s, second);
  }
}
