/**
 Provenance: in every interleaving, every entry of the audit log has its cause earlier in the log,
 and every token a client holds or a call is about to use is backed by the entry that granted it.
 */
module BrokerProvenance {
  import opened Wrappers
  import opened Jose
  import opened Policy
  import opened Broker

  /** The delivery point trusts exactly the decision point of this broker. */
  predicate Wired(cfg: Config) {
    cfg.trustedPdp == cfg.pdpKey
  }

  // ---------- causes ----------

  datatype Grant = Grant(env: Envelope, tier: Option<Tier>, requestId: string)

  /** What a call keeps of its grant: target and action come from the call itself. */
  datatype Subject = Subject(requestId: string, agentSvid: string, scope: string)

  function GrantOf(e: AuditEntry): Grant {
    Grant(e.env, e.tier, e.requestId)
  }

  function SubjectOf(e: AuditEntry): Subject {
    Subject(e.requestId, e.env.agentSvid, e.env.scope)
  }

  function ClaimGrant(c: Claims): Grant {
    Grant(c.env, c.tier, c.requestId)
  }

  function ClaimSubject(c: Claims): Subject {
    Subject(c.requestId, c.env.agentSvid, c.env.scope)
  }

  ghost predicate HasGrant(log: seq<AuditEntry>, event: Event, g: Grant) {
    exists e :: e in log && e.event == event && GrantOf(e) == g
  }

  ghost predicate HasMinted(log: seq<AuditEntry>, s: Subject) {
    exists e :: e in log && e.event == CredentialMinted && SubjectOf(e) == s
  }

  /** A credential for s was minted and bound to the key of that thumbprint. */
  ghost predicate HasBound(log: seq<AuditEntry>, s: Subject, jkt: Thumbprint) {
    exists e :: e in log && e.event == CredentialMinted && SubjectOf(e) == s && e.detail == Bound(jkt)
  }

  /** Entry k is the api_call of the jti for subject at resource, and follows a mint bound to the prover's key. */
  ghost predicate CallAt(log: seq<AuditEntry>, k: nat, subject: Subject, jti: string, resource: string, prover: Key) {
    && k < |log| && log[k].event == ApiCall && log[k].detail == Jti(jti)
    && SubjectOf(log[k]) == subject && log[k].env.target == resource
    && HasBound(log[..k], subject, Thumbprint(prover))
  }

  ghost predicate Called(log: seq<AuditEntry>, subject: Subject, jti: string, resource: string, prover: Key) {
    exists k :: CallAt(log, k, subject, jti, resource, prover)
  }

  ghost predicate UseCalled(log: seq<AuditEntry>, use: Use) {
    Called(log, ClaimSubject(use.claims), use.jti, use.uri, use.prover)
  }

  /** The policy evaluated this very request, and put it in the tier its rules give. */
  ghost predicate WasEvaluated(cfg: Config, log: seq<AuditEntry>, env: Envelope, tier: Tier, id: string) {
    tier == TierFor(cfg, env) && HasGrant(log, PolicyEvaluated, Grant(env, Some(tier), id))
  }

  /** e may be appended to prior. */
  ghost predicate Caused(cfg: Config, prior: seq<AuditEntry>, e: AuditEntry) {
    match e.event
    case PolicyEvaluated => e.tier == Some(TierFor(cfg, e.env))
    case Approved => HasGrant(prior, PolicyEvaluated, GrantOf(e)) && (e.tier != Some(Auto) ==> e.detail.By?)
    case Denied => HasGrant(prior, PolicyEvaluated, GrantOf(e))
    case CredentialMinted => HasGrant(prior, Approved, GrantOf(e))
    case ApiCall => HasMinted(prior, SubjectOf(e))
    case ReplayRejected => HasMinted(prior, SubjectOf(e))
  }

  ghost predicate CausalLog(cfg: Config, log: seq<AuditEntry>) {
    forall k :: 0 <= k < |log| ==> Caused(cfg, log[..k], log[k])
  }

  // ---------- the invariant ----------

  ghost predicate DecisionBacked(log: seq<AuditEntry>, t: Jwt) {
    HasGrant(log, Approved, ClaimGrant(t.claims))
  }

  ghost predicate TokenBacked(cfg: Config, log: seq<AuditEntry>, t: Jwt) {
    && (t.signer == cfg.pdpKey && t.typ == DECISION_TYPE ==> DecisionBacked(log, t))
    && (t.signer == cfg.cdpKey && t.typ == ACCESS_TYPE ==> HasBound(log, ClaimSubject(t.claims), t.claims.jkt))
  }

  predicate IsDecision(cfg: Config, t: Jwt, env: Envelope, tier: Tier, id: string) {
    t.typ == DECISION_TYPE && t.signer == cfg.pdpKey && ClaimGrant(t.claims) == Grant(env, Some(tier), id)
  }

  ghost predicate RequestBacked(cfg: Config, log: seq<AuditEntry>, req: PendingRequest) {
    req.tier != Auto && WasEvaluated(cfg, log, req.env, req.tier, req.id)
  }

  ghost predicate FrameBacked(cfg: Config, s: State, f: Frame) {
    match f
    case EvalLog(_, _) => true
    case EvalIssue(env, id) => WasEvaluated(cfg, s.log, env, Auto, id)
    case EvalLogApproved(env, id, d) => WasEvaluated(cfg, s.log, env, Auto, id) && IsDecision(cfg, d, env, Auto, id)
    case EvalPark(env, id) => TierFor(cfg, env) != Auto && WasEvaluated(cfg, s.log, env, TierFor(cfg, env), id)
    case ApproveIssue(req, _) => RequestBacked(cfg, s.log, req)
    case ApproveLog(req, _, d) => RequestBacked(cfg, s.log, req) && IsDecision(cfg, d, req.env, req.tier, req.id)
    case DenyLog(req, _) => RequestBacked(cfg, s.log, req)
    case MintLog(granted, token) =>
      && HasGrant(s.log, Approved, ClaimGrant(granted))
      && token.typ == ACCESS_TYPE && token.signer == cfg.cdpKey && ClaimSubject(token.claims) == ClaimSubject(granted)
    case CallCheck(token, _, _, _, p) =>
      Presentable(cfg, s, token) &&
        (p.Some? ==> token.Some? && token.value.claims == p.value.claims && PriceMet(p.value))
    case CallRecord(use) => UseBacked(s.log, use)
    case CallLog(use) => UseBacked(s.log, use)
    case ReplayLog(use) => UseBacked(s.log, use)
    case PayAgent(use, bought) => UseBacked(s.log, use) && use.purchase == Some(bought) && UseCalled(s.log, use)
    case Returning(result) => result.Some? ==> TokenBacked(cfg, s.log, result.value)
  }

  ghost predicate UseBacked(log: seq<AuditEntry>, use: Use) {
    && HasBound(log, ClaimSubject(use.claims), Thumbprint(use.prover))
    && (use.purchase.Some? ==> use.purchase.value.claims == use.claims && PriceMet(use.purchase.value))
  }

  predicate PriceMet(p: Purchase) {
    PaymentScope.CheckScope(p.gateway.asset, p.gateway.amount, p.claims.env.scope)
  }

  ghost predicate PaymentBacked(log: seq<AuditEntry>, p: Payment) {
    && Called(log, ClaimSubject(p.claims), p.jti, p.resource, p.prover)
    && PaymentScope.CheckScope(p.gateway.asset, p.gateway.amount, p.claims.env.scope)
  }

  ghost predicate Backed(cfg: Config, s: State) {
    && CausalLog(cfg, s.log)
    && (forall t :: t in s.known ==> TokenBacked(cfg, s.log, t))
    && (forall c :: c in s.calls ==> FrameBacked(cfg, s, s.calls[c]))
    && (forall id :: id in s.pending ==> s.pending[id].id == id && RequestBacked(cfg, s.log, s.pending[id]))
    && (forall i :: 0 <= i < |s.payments| ==> PaymentBacked(s.log, s.payments[i]))
  }

  // ---------- every step keeps it ----------

  lemma TokenStaysBacked(cfg: Config, log: seq<AuditEntry>, log': seq<AuditEntry>, t: Jwt)
    requires TokenBacked(cfg, log, t) && log <= log'
    ensures TokenBacked(cfg, log', t)
  {
    assert forall e :: e in log ==> e in log';
  }

  lemma RequestStaysBacked(cfg: Config, log: seq<AuditEntry>, log': seq<AuditEntry>, req: PendingRequest)
    requires RequestBacked(cfg, log, req) && log <= log'
    ensures RequestBacked(cfg, log', req)
  {
    assert forall e :: e in log ==> e in log';
  }

  lemma StaysCalled(log: seq<AuditEntry>, log': seq<AuditEntry>, subject: Subject, jti: string, resource: string,
                    prover: Key)
    requires Called(log, subject, jti, resource, prover) && log <= log'
    ensures Called(log', subject, jti, resource, prover)
  {
    var k: nat :| CallAt(log, k, subject, jti, resource, prover);
    assert log'[..k] == log[..k];
    assert CallAt(log', k, subject, jti, resource, prover);
  }

  lemma PaymentStaysBacked(log: seq<AuditEntry>, log': seq<AuditEntry>, p: Payment)
    requires PaymentBacked(log, p) && log <= log'
    ensures PaymentBacked(log', p)
  {
    StaysCalled(log, log', ClaimSubject(p.claims), p.jti, p.resource, p.prover);
  }

  /** Nothing that was backed stops being so when the log and the known tokens grow. */
  lemma FrameStaysBacked(cfg: Config, s: State, s': State, f: Frame)
    requires FrameBacked(cfg, s, f) && s.log <= s'.log && s.known <= s'.known
    ensures FrameBacked(cfg, s', f)
  {
    if f.PayAgent? {
      StaysCalled(s.log, s'.log, ClaimSubject(f.use.claims), f.use.jti, f.use.uri, f.use.prover);
    }
    assert forall e :: e in s.log ==> e in s'.log;
  }

  /** The log either stays or gains one caused entry. */
  ghost predicate LogStep(cfg: Config, log: seq<AuditEntry>, log': seq<AuditEntry>) {
    log' == log || exists e :: log' == log + [e] && Caused(cfg, log, e)
  }

  lemma CausalStep(cfg: Config, log: seq<AuditEntry>, log': seq<AuditEntry>)
    requires CausalLog(cfg, log) && LogStep(cfg, log, log')
    ensures CausalLog(cfg, log') && log <= log'
  {
    if log' != log {
      forall k | 0 <= k < |log'| ensures Caused(cfg, log'[..k], log'[k]) {
        if k < |log| {
          assert log'[..k] == log[..k];
        } else {
          assert log'[..k] == log;
        }
      }
    }
  }

  /** A step that touches one call, and adds only backed things, keeps the whole state backed. */
  lemma Rebuild(cfg: Config, s: State, s': State, c: nat)
    requires Backed(cfg, s)
    requires LogStep(cfg, s.log, s'.log) && s.known <= s'.known
    requires forall t :: t in s'.known && t !in s.known ==> TokenBacked(cfg, s.log, t)
    requires forall d :: d in s'.calls && d != c ==> d in s.calls && s'.calls[d] == s.calls[d]
    requires c in s'.calls ==> FrameBacked(cfg, s', s'.calls[c])
    requires forall id :: id in s'.pending ==> s'.pending[id].id == id && RequestBacked(cfg, s.log, s'.pending[id])
    requires s.payments <= s'.payments
    requires forall i :: |s.payments| <= i < |s'.payments| ==> PaymentBacked(s.log, s'.payments[i])
    ensures Backed(cfg, s')
  {
    CausalStep(cfg, s.log, s'.log);
    forall t | t in s'.known ensures TokenBacked(cfg, s'.log, t) {
      TokenStaysBacked(cfg, s.log, s'.log, t);
    }
    forall d | d in s'.calls ensures FrameBacked(cfg, s', s'.calls[d]) {
      if d != c {
        FrameStaysBacked(cfg, s, s', s.calls[d]);
      }
    }
    forall id | id in s'.pending ensures s'.pending[id].id == id && RequestBacked(cfg, s'.log, s'.pending[id]) {
      assert RequestBacked(cfg, s.log, s'.pending[id]);
      RequestStaysBacked(cfg, s.log, s'.log, s'.pending[id]);
    }
    forall i | 0 <= i < |s'.payments| ensures PaymentBacked(s'.log, s'.payments[i]) {
      assert i < |s.payments| ==> s'.payments[i] == s.payments[i];
      PaymentStaysBacked(s.log, s'.log, s'.payments[i]);
    }
  }

  /** A call that has just begun, or gone from one section to another, with a frame that is backed. */
  lemma Enters(cfg: Config, s: State, c: nat, f: Frame)
    requires Backed(cfg, s) && FrameBacked(cfg, s, f)
    ensures Backed(cfg, Enter(s, c, f))
  {
    FrameStaysBacked(cfg, s, Enter(s, c, f), f);
    Rebuild(cfg, s, Enter(s, c, f), c);
  }

  lemma EvaluateBegins(cfg: Config, s: State, c: nat, env: Envelope, id: string)
    requires Backed(cfg, s)
    ensures Backed(cfg, Enter(s.(ids := s.ids + {id}), c, EvalLog(env, id)))
  {
    Rebuild(cfg, s, Enter(s.(ids := s.ids + {id}), c, EvalLog(env, id)), c);
  }

  /** A person's decision changes the state of a parked request and nothing else about it. */
  lemma DecisionBegins(cfg: Config, s: State, c: nat, id: string, state: RequestState, f: Frame)
    requires Backed(cfg, s) && id in s.pending
    requires var req := s.pending[id].(state := state);
             (exists approver :: f == ApproveIssue(req, approver)) || (exists approver :: f == DenyLog(req, approver))
    ensures Backed(cfg, Enter(s.(pending := s.pending[id := s.pending[id].(state := state)]), c, f))
  {
    var req := s.pending[id].(state := state);
    assert RequestBacked(cfg, s.log, req);
    Rebuild(cfg, s, Enter(s.(pending := s.pending[id := req]), c, f), c);
  }

  lemma MintBegins(cfg: Config, s: State, c: nat, now: int, decision: Option<Jwt>, ephemeral: Key, jti: string)
    requires Wired(cfg) && Backed(cfg, s) && Presentable(cfg, s, decision)
    ensures Backed(cfg, Begin(cfg, s, c, now, Mint(decision, ephemeral, jti)))
  {
    if DecisionAccepted(cfg, decision, now) {
      var granted := decision.value.claims;
      assert TokenBacked(cfg, s.log, decision.value);
      Enters(cfg, s, c, MintLog(granted, AccessToken(cfg, granted, ephemeral, now, jti)));
    }
  }

  lemma PayBegins(cfg: Config, s: State, c: nat, now: int, g: Gateway, p: Payload, verb: string, uri: string)
    requires Backed(cfg, s) && Presentable(cfg, s, p.token)
    ensures Backed(cfg, Begin(cfg, s, c, now, Pay(g, p, verb, uri)))
  {
    if PaymentAccepted(g, p, now) {
      var bought := Purchase(g, p.token.value.claims, p.agentToken.value);
      Enters(cfg, s, c, CallCheck(p.token, p.proof, verb, uri, Some(bought)));
    }
  }

  lemma ApproveBegins(cfg: Config, s: State, c: nat, id: string, approver: string)
    requires Backed(cfg, s)
    ensures Backed(cfg, BeginApprove(s, c, id, approver))
    ensures Backed(cfg, BeginDeny(s, c, id, approver))
  {
    if id in s.pending && s.pending[id].state == StatePending {
      var req := s.pending[id];
      DecisionBegins(cfg, s, c, id, StateApproved, ApproveIssue(req.(state := StateApproved), approver));
      DecisionBegins(cfg, s, c, id, StateDenied, DenyLog(req.(state := StateDenied), approver));
    }
  }

  lemma BeginKeepsBacked(cfg: Config, s: State, step: Step)
    requires Wired(cfg) && Backed(cfg, s) && Enabled(cfg, s, step) && !step.op.Continue? && !step.op.SignFails?
    ensures Backed(cfg, Next(cfg, s, step))
  {
    match step.op
    case Evaluate(None, _) =>
    case Evaluate(Some(env), id) => EvaluateBegins(cfg, s, step.call, env, id);
    case Approve(id, approver) => ApproveBegins(cfg, s, step.call, id, approver);
    case ApproveWithPasskey(id, credentialId, _) => ApproveBegins(cfg, s, step.call, id, credentialId);
    case Deny(id, approver) => ApproveBegins(cfg, s, step.call, id, approver);
    case Mint(decision, ephemeral, jti) => MintBegins(cfg, s, step.call, step.now, decision, ephemeral, jti);
    case Call(token, proof, verb, uri) => Enters(cfg, s, step.call, CallCheck(token, proof, verb, uri, None));
    case Pay(g, p, verb, uri) => PayBegins(cfg, s, step.call, step.now, g, p, verb, uri);
  }

  /** What the appended entry says is on record from then on. */
  lemma OnRecord(log: seq<AuditEntry>, e: AuditEntry)
    ensures HasGrant(log + [e], e.event, GrantOf(e))
    ensures e.event == CredentialMinted && e.detail.Bound? ==> HasBound(log + [e], SubjectOf(e), e.detail.jkt)
  {
    assert e in log + [e];
  }

  /** A section that writes the caused entry e and goes on at f. */
  lemma Logs(cfg: Config, s: State, c: nat, e: AuditEntry, f: Frame)
    requires Backed(cfg, s) && Caused(cfg, s.log, e) && FrameBacked(cfg, Append(s, e), f)
    ensures Backed(cfg, Enter(Append(s, e), c, f))
  {
    FrameStaysBacked(cfg, Append(s, e), Enter(Append(s, e), c, f), f);
    Rebuild(cfg, s, Enter(Append(s, e), c, f), c);
  }

  /** A section that writes the caused entry e and returns. */
  lemma LogsLast(cfg: Config, s: State, c: nat, e: AuditEntry)
    requires Backed(cfg, s) && Caused(cfg, s.log, e)
    ensures Backed(cfg, Leave(Append(s, e), c))
  {
    Rebuild(cfg, s, Leave(Append(s, e), c), c);
  }

  lemma EvaluateKeepsBacked(cfg: Config, s: State, c: nat, now: int, jti: string)
    requires Backed(cfg, s) && c in s.calls && (s.calls[c].EvalLog? || s.calls[c].EvalLogApproved?)
    ensures Backed(cfg, Resume(cfg, s, c, now, jti))
  {
    var s' := Resume(cfg, s, c, now, jti);
    assert FrameBacked(cfg, s, s.calls[c]);
    var e := s'.log[|s.log|];
    assert s'.log == s.log + [e] && Caused(cfg, s.log, e);
    OnRecord(s.log, e);
    assert FrameBacked(cfg, s', s'.calls[c]);
    Rebuild(cfg, s, s', c);
  }

  lemma ParkKeepsBacked(cfg: Config, s: State, c: nat, now: int, jti: string)
    requires Backed(cfg, s) && c in s.calls && (s.calls[c].EvalIssue? || s.calls[c].EvalPark?)
    ensures Backed(cfg, Resume(cfg, s, c, now, jti))
  {
    var s' := Resume(cfg, s, c, now, jti);
    assert FrameBacked(cfg, s, s.calls[c]);
    assert FrameBacked(cfg, s', s'.calls[c]);
    Rebuild(cfg, s, s', c);
  }

  lemma ApproveIssueKeepsBacked(cfg: Config, s: State, c: nat, now: int, jti: string)
    requires Backed(cfg, s) && c in s.calls && s.calls[c].ApproveIssue?
    ensures Backed(cfg, Resume(cfg, s, c, now, jti))
  {
    assert FrameBacked(cfg, s, s.calls[c]);
    Rebuild(cfg, s, Resume(cfg, s, c, now, jti), c);
  }

  lemma ApproveLogKeepsBacked(cfg: Config, s: State, c: nat, now: int, jti: string)
    requires Backed(cfg, s) && c in s.calls && s.calls[c].ApproveLog?
    ensures Backed(cfg, Resume(cfg, s, c, now, jti))
  {
    var f := s.calls[c];
    assert FrameBacked(cfg, s, f);
    var e := GrantEntry(Approved, f.req.env, f.req.tier, f.req.id, By(f.approver), true);
    OnRecord(s.log, e);
    Logs(cfg, s, c, e, Returning(Some(f.decision)));
  }

  lemma DenyLogKeepsBacked(cfg: Config, s: State, c: nat, now: int, jti: string)
    requires Backed(cfg, s) && c in s.calls && s.calls[c].DenyLog?
    ensures Backed(cfg, Resume(cfg, s, c, now, jti))
  {
    var f := s.calls[c];
    assert FrameBacked(cfg, s, f);
    Logs(cfg, s, c, GrantEntry(Denied, f.req.env, f.req.tier, f.req.id, By(f.approver), false), Returning(None));
  }

  lemma MintKeepsBacked(cfg: Config, s: State, c: nat, now: int, jti: string)
    requires Backed(cfg, s) && c in s.calls && s.calls[c].MintLog?
    ensures Backed(cfg, Resume(cfg, s, c, now, jti))
  {
    var s' := Resume(cfg, s, c, now, jti);
    assert FrameBacked(cfg, s, s.calls[c]);
    var e := s'.log[|s.log|];
    assert s'.log == s.log + [e] && Caused(cfg, s.log, e);
    OnRecord(s.log, e);
    assert TokenBacked(cfg, s'.log, s.calls[c].token);
    Rebuild(cfg, s, s', c);
  }

  lemma CheckKeepsBacked(cfg: Config, s: State, c: nat, now: int, jti: string)
    requires Backed(cfg, s) && c in s.calls && (s.calls[c].CallCheck? || s.calls[c].CallRecord?)
    ensures Backed(cfg, Resume(cfg, s, c, now, jti))
  {
    assert FrameBacked(cfg, s, s.calls[c]);
    Rebuild(cfg, s, Resume(cfg, s, c, now, jti), c);
  }

  lemma NowCalled(s: State, use: Use)
    requires UseBacked(s.log, use)
    ensures UseCalled(Append(s, CallEntry(ApiCall, use, Jti(use.jti), true)).log, use)
  {
    var log := Append(s, CallEntry(ApiCall, use, Jti(use.jti), true)).log;
    assert log[..|s.log|] == s.log;
    assert CallAt(log, |s.log|, ClaimSubject(use.claims), use.jti, use.uri, use.prover);
  }

  lemma PayFrameBacked(cfg: Config, s: State, use: Use)
    requires UseBacked(s.log, use) && use.purchase.Some?
    ensures FrameBacked(cfg, Append(s, CallEntry(ApiCall, use, Jti(use.jti), true)), PayAgent(use, use.purchase.value))
  {
    NowCalled(s, use);
    var m :| m in s.log && m.event == CredentialMinted && SubjectOf(m) == ClaimSubject(use.claims) &&
             m.detail == Bound(Thumbprint(use.prover));
    assert m in Append(s, CallEntry(ApiCall, use, Jti(use.jti), true)).log;
  }

  lemma UseCauses(cfg: Config, log: seq<AuditEntry>, event: Event, use: Use, detail: Detail, success: bool)
    requires UseBacked(log, use) && (event == ApiCall || event == ReplayRejected)
    ensures Caused(cfg, log, CallEntry(event, use, detail, success))
  {
    var m :| m in log && m.event == CredentialMinted && SubjectOf(m) == ClaimSubject(use.claims) &&
             m.detail == Bound(Thumbprint(use.prover));
    assert SubjectOf(CallEntry(event, use, detail, success)) == SubjectOf(m);
  }

  lemma CallLogKeepsBacked(cfg: Config, s: State, c: nat, now: int, jti: string)
    requires Backed(cfg, s) && c in s.calls && s.calls[c].CallLog?
    ensures Backed(cfg, Resume(cfg, s, c, now, jti))
  {
    var use := s.calls[c].use;
    assert UseBacked(s.log, use) by {
      assert FrameBacked(cfg, s, s.calls[c]);
    }
    var e := CallEntry(ApiCall, use, Jti(use.jti), true);
    UseCauses(cfg, s.log, ApiCall, use, Jti(use.jti), true);
    if use.purchase.Some? {
      PayFrameBacked(cfg, s, use);
      Logs(cfg, s, c, e, PayAgent(use, use.purchase.value));
    } else {
      Logs(cfg, s, c, e, Returning(None));
    }
  }

  lemma ReplayLogKeepsBacked(cfg: Config, s: State, c: nat, now: int, jti: string)
    requires Backed(cfg, s) && c in s.calls && s.calls[c].ReplayLog?
    ensures Backed(cfg, Resume(cfg, s, c, now, jti))
  {
    var use := s.calls[c].use;
    assert UseBacked(s.log, use) by {
      assert FrameBacked(cfg, s, s.calls[c]);
    }
    UseCauses(cfg, s.log, ReplayRejected, use, Jti(use.jti), false);
    LogsLast(cfg, s, c, CallEntry(ReplayRejected, use, Jti(use.jti), false));
  }

  lemma PayKeepsBacked(cfg: Config, s: State, c: nat, now: int, jti: string)
    requires Backed(cfg, s) && c in s.calls && s.calls[c].PayAgent?
    ensures Backed(cfg, Resume(cfg, s, c, now, jti))
  {
    var use, bought := s.calls[c].use, s.calls[c].bought;
    var p := Payment(bought.gateway, bought.claims, use.uri, use.jti, use.prover);
    assert PaymentBacked(s.log, p) by {
      assert FrameBacked(cfg, s, s.calls[c]);
    }
    Leaves(cfg, s, c);
    Pays(cfg, s, c, p);
  }

  lemma Leaves(cfg: Config, s: State, c: nat)
    requires Backed(cfg, s)
    ensures Backed(cfg, Leave(s, c))
  {
    Rebuild(cfg, s, Leave(s, c), c);
  }

  lemma Pays(cfg: Config, s: State, c: nat, p: Payment)
    requires Backed(cfg, s) && PaymentBacked(s.log, p)
    ensures Backed(cfg, Leave(s.(payments := s.payments + [p]), c))
  {
    Rebuild(cfg, s, Leave(s.(payments := s.payments + [p]), c), c);
  }

  lemma ReturnKeepsBacked(cfg: Config, s: State, c: nat, now: int, jti: string)
    requires Backed(cfg, s) && c in s.calls && s.calls[c].Returning?
    ensures Backed(cfg, Resume(cfg, s, c, now, jti))
  {
    assert FrameBacked(cfg, s, s.calls[c]);
    Rebuild(cfg, s, Resume(cfg, s, c, now, jti), c);
  }

  lemma StepKeepsBacked(cfg: Config, s: State, step: Step)
    requires Wired(cfg) && Backed(cfg, s) && Enabled(cfg, s, step)
    ensures Backed(cfg, Next(cfg, s, step))
  {
    match step.op
    case SignFails => Rebuild(cfg, s, Next(cfg, s, step), step.call);
    case Continue(jti) =>
      match s.calls[step.call] {
        case EvalLog(_, _) => EvaluateKeepsBacked(cfg, s, step.call, step.now, jti);
        case EvalIssue(_, _) => ParkKeepsBacked(cfg, s, step.call, step.now, jti);
        case EvalLogApproved(_, _, _) => EvaluateKeepsBacked(cfg, s, step.call, step.now, jti);
        case EvalPark(_, _) => ParkKeepsBacked(cfg, s, step.call, step.now, jti);
        case ApproveIssue(_, _) => ApproveIssueKeepsBacked(cfg, s, step.call, step.now, jti);
        case ApproveLog(_, _, _) => ApproveLogKeepsBacked(cfg, s, step.call, step.now, jti);
        case DenyLog(_, _) => DenyLogKeepsBacked(cfg, s, step.call, step.now, jti);
        case MintLog(_, _) => MintKeepsBacked(cfg, s, step.call, step.now, jti);
        case PayAgent(_, _) => PayKeepsBacked(cfg, s, step.call, step.now, jti);
        case Returning(_) => ReturnKeepsBacked(cfg, s, step.call, step.now, jti);
        case CallLog(_) => CallLogKeepsBacked(cfg, s, step.call, step.now, jti);
        case ReplayLog(_) => ReplayLogKeepsBacked(cfg, s, step.call, step.now, jti);
        case _ => CheckKeepsBacked(cfg, s, step.call, step.now, jti);
      }
    case _ => BeginKeepsBacked(cfg, s, step);
  }

  lemma {:induction false} RunFromBacked(cfg: Config, s: State, steps: seq<Step>)
    requires Wired(cfg) && Backed(cfg, s)
    ensures var end := RunFrom(cfg, s, steps);
            end.Some? ==> Backed(cfg, end.value)
    decreases |steps|
  {
    if steps != [] && Enabled(cfg, s, steps[0]) {
      StepKeepsBacked(cfg, s, steps[0]);
      RunFromBacked(cfg, Next(cfg, s, steps[0]), steps[1..]);
    }
  }
}
