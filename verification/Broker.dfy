/**
 The credential broker (policy decision point, credential delivery point, audit log) and the payment
 gateway on top, as one state machine. Each call is cut where the source takes or releases a lock;
 calls of any number of clients interleave at those cuts, and a client sees a token only when the
 call that made it returns.
 */
module Broker {
  import opened Wrappers
  import opened Jose
  import opened Policy
  import opened PaymentScope

  const DECISION_TYPE := "pdp-decision+jwt"
  const ACCESS_TYPE := "cb4a-token+jwt"
  const DPOP_TYPE := "dpop+jwt"
  const DEFAULT_TTL := 900

  datatype Envelope = Envelope(agentSvid: string, target: string, action: string, scope: string)

  datatype Thumbprint = NoThumbprint | Thumbprint(key: Key)

  /** The claims of decision tokens and of access tokens; a claim a token lacks has its zero value. */
  datatype Claims = Claims(
    window: Window, jti: string, env: Envelope, requestId: string,
    tier: Option<Tier>, approved: bool, approverId: string, jkt: Thumbprint)

  datatype Jwt = Jwt(typ: string, signer: Key, claims: Claims)

  datatype Proof = Proof(
    typ: string, jwk: Option<Key>, signer: Key, window: Window, jti: string, htm: string, htu: string,
    ath: Option<Digest<Jwt>>)

  datatype Event = PolicyEvaluated | Approved | Denied | CredentialMinted | ApiCall | ReplayRejected

  datatype Detail = TierDetail(t: Tier) | ByPolicy | By(approver: string) | Bound(jkt: Thumbprint) | Jti(jti: string)

  datatype AuditEntry = AuditEntry(
    event: Event, env: Envelope, tier: Option<Tier>, requestId: string, detail: Detail, success: bool)

  datatype RequestState = StatePending | StateApproved | StateDenied

  datatype PendingRequest = PendingRequest(id: string, env: Envelope, tier: Tier, state: RequestState)

  datatype Config = Config(
    rules: seq<PolicyRule>, pdpKey: Key, pdpTtl: int,
    trustedPdp: Key, vault: set<string>, cdpKey: Key, tokenTtl: int)

  datatype Gateway = Gateway(cdpPub: Key, validator: AgentValidator, asset: string, amount: string)

  datatype Payload = Payload(token: Option<Jwt>, proof: Option<Proof>, agentToken: Option<AgentToken>)

  /**
   A granted payment and what it rests on: the credential's claims, the proof's jti and the key that signed
   the proof.
   */
  datatype Payment = Payment(gateway: Gateway, claims: Claims, resource: string, jti: string, prover: Key)

  /** The payment a resource-server check is made for, when a gateway asked for the check. */
  datatype Purchase = Purchase(gateway: Gateway, claims: Claims, agentToken: AgentToken)

  /** A call that passed the stateless checks: the token's claims and what the proof binds. */
  datatype Use = Use(
    claims: Claims, jti: string, exp: int, verb: string, uri: string, prover: Key, purchase: Option<Purchase>)

  /** Where an in-flight call stands: the next section of code it will run, with its locals. */
  datatype Frame =
    | EvalLog(env: Envelope, id: string)
    | EvalIssue(env: Envelope, id: string)
    | EvalLogApproved(env: Envelope, id: string, decision: Jwt)
    | EvalPark(env: Envelope, id: string)
    | ApproveIssue(req: PendingRequest, approver: string)
    | ApproveLog(req: PendingRequest, approver: string, decision: Jwt)
    | DenyLog(req: PendingRequest, approver: string)
    | MintLog(granted: Claims, token: Jwt)
    | CallCheck(presented: Option<Jwt>, proof: Option<Proof>, verb: string, uri: string, purchase: Option<Purchase>)
    | CallRecord(use: Use)
    | CallLog(use: Use)
    | ReplayLog(use: Use)
    | PayAgent(use: Use, bought: Purchase)
    | Returning(result: Option<Jwt>)

  datatype State = State(
    log: seq<AuditEntry>,
    pending: map<string, PendingRequest>,
    dpopJti: map<string, int>,
    calls: map<nat, Frame>,
    known: set<Jwt>,
    ids: set<string>,
    payments: seq<Payment>)

  const INIT := State([], map[], map[], map[], {}, {}, [])

  datatype Op =
    | Evaluate(envelope: Option<Envelope>, freshId: string)
    | Approve(id: string, approver: string)
    | ApproveWithPasskey(id: string, credentialId: string, assertionValid: bool)
    | Deny(id: string, approver: string)
    | Mint(decision: Option<Jwt>, ephemeral: Key, tokenJti: string)
    | Call(token: Option<Jwt>, proof: Option<Proof>, verb: string, uri: string)
    | Pay(gateway: Gateway, payload: Payload, verb: string, uri: string)
    | Continue(freshJti: string)
    | SignFails

  /** One scheduling choice: which call moves, at which clock reading, and how. */
  datatype Step = Step(call: nat, now: int, op: Op)

  /** A client can present a token it was handed, or one signed with a key it may hold. */
  predicate Presentable(cfg: Config, s: State, t: Option<Jwt>) {
    t.Some? ==> t.value in s.known || (t.value.signer != cfg.pdpKey && t.value.signer != cfg.cdpKey)
  }

  predicate Enabled(cfg: Config, s: State, step: Step) {
    match step.op
    case Evaluate(_, freshId) => step.call !in s.calls && freshId !in s.ids
    case Approve(_, _) => step.call !in s.calls
    case ApproveWithPasskey(_, _, _) => step.call !in s.calls
    case Deny(_, _) => step.call !in s.calls
    case Mint(decision, _, _) => step.call !in s.calls && Presentable(cfg, s, decision)
    case Call(token, _, _, _) => step.call !in s.calls && Presentable(cfg, s, token)
    case Pay(_, payload, _, _) => step.call !in s.calls && Presentable(cfg, s, payload.token)
    case Continue(_) => step.call in s.calls
    case SignFails => step.call in s.calls && (s.calls[step.call].EvalIssue? || s.calls[step.call].ApproveIssue?)
  }

  // ---------- the pieces of code between two cuts ----------

  function Ttl(configured: int): int {
    if configured <= 0 then DEFAULT_TTL else configured
  }

  function TierFor(cfg: Config, env: Envelope): Tier {
    EvaluateTier(cfg.rules, env.agentSvid, env.scope)
  }

  function IssueDecision(cfg: Config, env: Envelope, tier: Tier, id: string, approver: string, now: int,
                         jti: string): Jwt {
    Jwt(DECISION_TYPE, cfg.pdpKey,
        Claims(Window(Some(now + Ttl(cfg.pdpTtl)), Some(now), Some(now)), jti, env, id, Some(tier), true, approver,
               NoThumbprint))
  }

  /** Mint's checks: a decision of the trusted PDP, in its time window, approved, for a scope in the vault. */
  predicate DecisionAccepted(cfg: Config, t: Option<Jwt>, now: int) {
    && t.Some? && t.value.typ == DECISION_TYPE && t.value.signer == cfg.trustedPdp
    && Open(t.value.claims.window, now)
    && t.value.claims.approved
    && t.value.claims.env.scope in cfg.vault
  }

  function AccessToken(cfg: Config, granted: Claims, ephemeral: Key, now: int, jti: string): Jwt {
    Jwt(ACCESS_TYPE, cfg.cdpKey,
        Claims(Window(Some(now + Ttl(cfg.tokenTtl)), Some(now), Some(now)), jti, granted.env, granted.requestId,
               None, false, "", Thumbprint(ephemeral)))
  }

  predicate AccessAccepted(cfg: Config, t: Option<Jwt>, now: int) {
    && t.Some? && t.value.typ == ACCESS_TYPE && t.value.signer == cfg.cdpKey
    && Open(t.value.claims.window, now)
  }

  /** Steps 2 to 6 of the resource-server check, and the proof's jti being present. */
  predicate ProofAccepted(p: Option<Proof>, t: Jwt, verb: string, uri: string, now: int) {
    && p.Some? && p.value.typ == DPOP_TYPE
    && p.value.jwk.Some? && p.value.signer == p.value.jwk.value
    && Open(p.value.window, now)
    && p.value.htm == verb && p.value.htu == uri
    && p.value.ath == Some(Sha256(t))
    && t.claims.jkt == Thumbprint(p.value.jwk.value)
    && p.value.jti != ""
  }

  function UseOf(claims: Claims, p: Proof, verb: string, uri: string, purchase: Option<Purchase>): Use
    requires p.window.exp.Some?
  {
    Use(claims, p.jti, p.window.exp.value, verb, uri, p.signer, purchase)
  }

  const DPOP_TTL := 120

  /** GenerateDPoPProof: the holder's proof for one request with one token; method and URI are required. */
  function GenerateProof(token: Jwt, ephemeral: Key, verb: string, uri: string, now: int, jti: string): Option<Proof> {
    if verb == "" || uri == "" then None
    else Some(Proof(DPOP_TYPE, Some(ephemeral), ephemeral, Window(Some(now + DPOP_TTL), None, Some(now)), jti, verb,
                    uri, Some(Sha256(token))))
  }

  /** Verify's own first two steps: the token parses under the gateway's CDP key and its scope is the price. */
  predicate PaymentAccepted(g: Gateway, p: Payload, now: int) {
    && p.token.Some? && p.proof.Some? && p.agentToken.Some?
    && p.token.value.signer == g.cdpPub && Open(p.token.value.claims.window, now)
    && CheckScope(g.asset, g.amount, p.token.value.claims.env.scope)
  }

  function GrantEntry(event: Event, env: Envelope, tier: Tier, id: string, detail: Detail, success: bool): AuditEntry {
    AuditEntry(event, env, Some(tier), id, detail, success)
  }

  function CallEntry(event: Event, use: Use, detail: Detail, success: bool): AuditEntry {
    AuditEntry(event, use.claims.env.(target := use.uri, action := use.verb), None, use.claims.requestId, detail,
               success)
  }

  function Enter(s: State, c: nat, f: Frame): State {
    s.(calls := s.calls[c := f])
  }

  function Leave(s: State, c: nat): State {
    s.(calls := s.calls - {c})
  }

  function Append(s: State, e: AuditEntry): State {
    s.(log := s.log + [e])
  }

  /** The locked section shared by Approve and ApproveWithPasskey; an error returns with nothing changed. */
  function BeginApprove(s: State, c: nat, id: string, approver: string): State {
    if id !in s.pending || s.pending[id].state != StatePending then s
    else
      var req := s.pending[id].(state := StateApproved);
      Enter(s.(pending := s.pending[id := req]), c, ApproveIssue(req, approver))
  }

  function BeginDeny(s: State, c: nat, id: string, approver: string): State {
    if id !in s.pending || s.pending[id].state != StatePending then s
    else
      var req := s.pending[id].(state := StateDenied);
      Enter(s.(pending := s.pending[id := req]), c, DenyLog(req, approver))
  }

  function Begin(cfg: Config, s: State, c: nat, now: int, op: Op): State
    requires !op.Continue? && !op.SignFails?
  {
    match op
    case Evaluate(None, _) => s
    case Evaluate(Some(env), id) => Enter(s.(ids := s.ids + {id}), c, EvalLog(env, id))
    case Approve(id, approver) => BeginApprove(s, c, id, approver)
    case ApproveWithPasskey(id, credentialId, ok) => if ok then BeginApprove(s, c, id, credentialId) else s
    case Deny(id, approver) => BeginDeny(s, c, id, approver)
    case Mint(decision, ephemeral, jti) =>
      if DecisionAccepted(cfg, decision, now)
      then Enter(s, c, MintLog(decision.value.claims, AccessToken(cfg, decision.value.claims, ephemeral, now, jti)))
      else s
    case Call(token, proof, verb, uri) => Enter(s, c, CallCheck(token, proof, verb, uri, None))
    case Pay(g, p, verb, uri) =>
      if PaymentAccepted(g, p, now)
      then Enter(s, c,
                 CallCheck(p.token, p.proof, verb, uri, Some(Purchase(g, p.token.value.claims, p.agentToken.value))))
      else s
  }

  function Resume(cfg: Config, s: State, c: nat, now: int, jti: string): State
    requires c in s.calls
  {
    match s.calls[c]
    case EvalLog(env, id) =>
      var tier := TierFor(cfg, env);
      Enter(Append(s, GrantEntry(PolicyEvaluated, env, tier, id, TierDetail(tier), true)), c,
            if tier == Auto then EvalIssue(env, id) else EvalPark(env, id))
    case EvalIssue(env, id) =>
      Enter(s, c, EvalLogApproved(env, id, IssueDecision(cfg, env, Auto, id, "auto", now, jti)))
    case EvalLogApproved(env, id, decision) =>
      Enter(Append(s, GrantEntry(Approved, env, Auto, id, ByPolicy, true)), c, Returning(Some(decision)))
    case EvalPark(env, id) =>
      Enter(s.(pending := s.pending[id := PendingRequest(id, env, TierFor(cfg, env), StatePending)]), c,
            Returning(None))
    case ApproveIssue(req, approver) =>
      Enter(s, c, ApproveLog(req, approver, IssueDecision(cfg, req.env, req.tier, req.id, approver, now, jti)))
    case ApproveLog(req, approver, decision) =>
      Enter(Append(s, GrantEntry(Approved, req.env, req.tier, req.id, By(approver), true)), c,
            Returning(Some(decision)))
    case DenyLog(req, approver) =>
      Enter(Append(s, GrantEntry(Denied, req.env, req.tier, req.id, By(approver), false)), c, Returning(None))
    case MintLog(granted, token) =>
      var bound := Bound(token.claims.jkt);
      Enter(Append(s, AuditEntry(CredentialMinted, granted.env, granted.tier, granted.requestId, bound, true)), c,
            Returning(Some(token)))
    case CallCheck(token, proof, verb, uri, purchase) =>
      if AccessAccepted(cfg, token, now) && ProofAccepted(proof, token.value, verb, uri, now)
      then Enter(s, c, CallRecord(UseOf(token.value.claims, proof.value, verb, uri, purchase)))
      else Leave(s, c)
    case CallRecord(use) =>
      if use.jti in s.dpopJti then Enter(s, c, ReplayLog(use))
      else Enter(s.(dpopJti := s.dpopJti[use.jti := use.exp]), c, CallLog(use))
    case CallLog(use) =>
      Enter(Append(s, CallEntry(ApiCall, use, Jti(use.jti), true)), c,
            match use.purchase case None => Returning(None) case Some(bought) => PayAgent(use, bought))
    case ReplayLog(use) =>
      Leave(Append(s, CallEntry(ReplayRejected, use, Jti(use.jti), false)), c)
    case PayAgent(use, bought) =>
      if ValidAgentToken(bought.gateway.validator, bought.agentToken, now) &&
        bought.agentToken.subject == bought.claims.env.agentSvid
      then Leave(s.(payments := s.payments + [Payment(bought.gateway, bought.claims, use.uri, use.jti, use.prover)]), c)
      else Leave(s, c)
    case Returning(result) =>
      Leave(s.(known := s.known + if result.Some? then {result.value} else {}), c)
  }

  function Next(cfg: Config, s: State, step: Step): State
    requires Enabled(cfg, s, step)
  {
    match step.op
    case Continue(jti) => Resume(cfg, s, step.call, step.now, jti)
    case SignFails => Leave(s, step.call)
    case _ => Begin(cfg, s, step.call, step.now, step.op)
  }

  /** The state after a schedule, if every step of it is possible when its turn comes. */
  function RunFrom(cfg: Config, s: State, steps: seq<Step>): Option<State>
    decreases |steps|
  {
    if steps == [] then Some(s)
    else if Enabled(cfg, s, steps[0]) then RunFrom(cfg, Next(cfg, s, steps[0]), steps[1..])
    else None
  }

  function Run(cfg: Config, steps: seq<Step>): Option<State> {
    RunFrom(cfg, INIT, steps)
  }
}
