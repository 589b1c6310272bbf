/**
 The broker's objects as the source writes them, each method run to its end without interruption.
 Every method is proved to do exactly what the sections of its call do in the state machine. Calls made
 one after the other, each with a fresh id or a presentable token as the machine's steps ask for, are
 proved to be one of its schedules, so what holds of every schedule holds after them.
 */
module BrokerObjects {
  import opened Wrappers
  import opened Jose
  import opened Policy
  import opened PaymentScope
  import opened Broker

  /** How many sections a call still has to run, at most. */
  function Rank(f: Frame): nat {
    match f
    case EvalLog(_, _) => 4
    case EvalIssue(_, _) => 3
    case EvalLogApproved(_, _, _) => 2
    case EvalPark(_, _) => 2
    case ApproveIssue(_, _) => 3
    case ApproveLog(_, _, _) => 2
    case DenyLog(_, _) => 2
    case MintLog(_, _) => 2
    case CallCheck(_, _, _, _, _) => 5
    case CallRecord(_) => 4
    case CallLog(_) => 3
    case ReplayLog(_) => 2
    case PayAgent(_, _) => 2
    case Returning(_) => 1
  }

  lemma RankDrops(cfg: Config, s: State, c: nat, now: int, jti: string)
    requires c in s.calls
    ensures var s' := Resume(cfg, s, c, now, jti); c in s'.calls ==> Rank(s'.calls[c]) < Rank(s.calls[c])
  {
    match s.calls[c]
    case EvalLog(_, _) =>
    case EvalIssue(_, _) =>
    case EvalLogApproved(_, _, _) =>
    case EvalPark(_, _) =>
    case ApproveIssue(_, _) =>
    case ApproveLog(_, _, _) =>
    case DenyLog(_, _) =>
    case MintLog(_, _) =>
    case CallCheck(_, _, _, _, _) =>
    case CallRecord(_) =>
    case CallLog(_) =>
    case ReplayLog(_) =>
    case PayAgent(_, _) =>
    case Returning(_) =>
  }

  /** Run call c, and no other, until it returns. */
  function Finish(cfg: Config, s: State, c: nat, now: int, jti: string): State
    decreases if c in s.calls then Rank(s.calls[c]) else 0
  {
    if c !in s.calls then s
    else
      RankDrops(cfg, s, c, now, jti);
      Finish(cfg, Resume(cfg, s, c, now, jti), c, now, jti)
  }

  /** A call made with nothing else running. */
  function Alone(cfg: Config, s: State, c: nat, now: int, op: Op, jti: string): State
    requires !op.Continue? && !op.SignFails?
  {
    Finish(cfg, Begin(cfg, s, c, now, op), c, now, jti)
  }

  /** Running a call alone is one of the schedules of the state machine. */
  lemma {:induction false} FinishIsASchedule(cfg: Config, s: State, c: nat, now: int, jti: string)
    returns (steps: seq<Step>)
    ensures RunFrom(cfg, s, steps) == Some(Finish(cfg, s, c, now, jti))
    ensures |steps| <= 5
    ensures c in s.calls ==> |steps| <= Rank(s.calls[c])
    ensures c !in s.calls ==> steps == []
    decreases if c in s.calls then Rank(s.calls[c]) else 0
  {
    if c !in s.calls {
      steps := [];
    } else {
      RankDrops(cfg, s, c, now, jti);
      var step := Step(c, now, Continue(jti));
      var rest := FinishIsASchedule(cfg, Next(cfg, s, step), c, now, jti);
      steps := [step] + rest;
      assert steps[0] == step && steps[1..] == rest;
    }
  }

  lemma {:induction false} RunFromAppend(cfg: Config, s: State, first: seq<Step>, rest: seq<Step>)
    requires RunFrom(cfg, s, first).Some?
    ensures RunFrom(cfg, s, first + rest) == RunFrom(cfg, RunFrom(cfg, s, first).value, rest)
    decreases |first|
  {
    if first == [] {
      assert first + rest == rest;
    } else {
      assert (first + rest)[1..] == first[1..] + rest;
      RunFromAppend(cfg, Next(cfg, s, first[0]), first[1..], rest);
    }
  }

  /** A whole call made alone, its opening section included, is a schedule, if the machine lets it begin. */
  lemma AloneIsASchedule(cfg: Config, s: State, c: nat, now: int, op: Op, jti: string) returns (steps: seq<Step>)
    requires !op.Continue? && !op.SignFails? && Enabled(cfg, s, Step(c, now, op))
    ensures RunFrom(cfg, s, steps) == Some(Alone(cfg, s, c, now, op, jti))
  {
    var step := Step(c, now, op);
    var rest := FinishIsASchedule(cfg, Next(cfg, s, step), c, now, jti);
    steps := [step] + rest;
    assert steps[0] == step && steps[1..] == rest;
  }

  datatype AloneCall = AloneCall(c: nat, now: int, op: Op, jti: string)

  predicate MayBegin(cfg: Config, s: State, call: AloneCall) {
    !call.op.Continue? && !call.op.SignFails? && Enabled(cfg, s, Step(call.c, call.now, call.op))
  }

  /** Calls made one after the other, each returning before the next begins. */
  function OneByOne(cfg: Config, s: State, calls: seq<AloneCall>): Option<State>
    decreases |calls|
  {
    if calls == [] then Some(s)
    else if !MayBegin(cfg, s, calls[0]) then None
    else OneByOne(cfg, Alone(cfg, s, calls[0].c, calls[0].now, calls[0].op, calls[0].jti), calls[1..])
  }

  /** What calls made one after the other reach, some schedule reaches: from INIT, every theorem about runs applies. */
  lemma {:induction false} OneByOneIsASchedule(cfg: Config, s: State, calls: seq<AloneCall>) returns (steps: seq<Step>)
    requires OneByOne(cfg, s, calls).Some?
    ensures RunFrom(cfg, s, steps) == OneByOne(cfg, s, calls)
    decreases |calls|
  {
    if calls == [] {
      steps := [];
    } else {
      var call := calls[0];
      var first := AloneIsASchedule(cfg, s, call.c, call.now, call.op, call.jti);
      var rest := OneByOneIsASchedule(cfg, Alone(cfg, s, call.c, call.now, call.op, call.jti), calls[1..]);
      RunFromAppend(cfg, s, first, rest);
      steps := first + rest;
    }
  }

  /** Sections that do not touch the recorded jtis, or do not touch the parked requests. */
  predicate LeavesJtis(f: Frame) {
    !f.CallCheck? && !f.CallRecord?
  }

  predicate LeavesPending(f: Frame) {
    !f.EvalLog? && !f.EvalPark? && !f.EvalIssue? && !f.EvalLogApproved?
  }

  /** One section keeps them, and leads to another that does. */
  lemma SectionLeavesJtis(cfg: Config, s: State, c: nat, now: int, jti: string)
    requires c in s.calls && LeavesJtis(s.calls[c])
    ensures var s' := Resume(cfg, s, c, now, jti);
            s'.dpopJti == s.dpopJti && (c in s'.calls ==> LeavesJtis(s'.calls[c]))
  {
    match s.calls[c]
    case EvalLog(_, _) =>
    case EvalIssue(_, _) =>
    case EvalLogApproved(_, _, _) =>
    case EvalPark(_, _) =>
    case ApproveIssue(_, _) =>
    case ApproveLog(_, _, _) =>
    case DenyLog(_, _) =>
    case MintLog(_, _) =>
    case CallLog(_) =>
    case ReplayLog(_) =>
    case PayAgent(_, _) =>
    case Returning(_) =>
  }

  lemma SectionLeavesPending(cfg: Config, s: State, c: nat, now: int, jti: string)
    requires c in s.calls && LeavesPending(s.calls[c])
    ensures var s' := Resume(cfg, s, c, now, jti);
            s'.pending == s.pending && (c in s'.calls ==> LeavesPending(s'.calls[c]))
  {
    match s.calls[c]
    case ApproveIssue(_, _) =>
    case ApproveLog(_, _, _) =>
    case DenyLog(_, _) =>
    case MintLog(_, _) =>
    case CallCheck(_, _, _, _, _) =>
    case CallRecord(_) =>
    case CallLog(_) =>
    case ReplayLog(_) =>
    case PayAgent(_, _) =>
    case Returning(_) =>
  }

  lemma {:induction false} FinishLeavesJtis(cfg: Config, s: State, c: nat, now: int, jti: string)
    requires c in s.calls ==> LeavesJtis(s.calls[c])
    ensures Finish(cfg, s, c, now, jti).dpopJti == s.dpopJti
    decreases if c in s.calls then Rank(s.calls[c]) else 0
  {
    if c in s.calls {
      RankDrops(cfg, s, c, now, jti);
      SectionLeavesJtis(cfg, s, c, now, jti);
      FinishLeavesJtis(cfg, Resume(cfg, s, c, now, jti), c, now, jti);
    }
  }

  lemma {:induction false} FinishLeavesPending(cfg: Config, s: State, c: nat, now: int, jti: string)
    requires c in s.calls ==> LeavesPending(s.calls[c])
    ensures Finish(cfg, s, c, now, jti).pending == s.pending
    decreases if c in s.calls then Rank(s.calls[c]) else 0
  {
    if c in s.calls {
      RankDrops(cfg, s, c, now, jti);
      SectionLeavesPending(cfg, s, c, now, jti);
      FinishLeavesPending(cfg, Resume(cfg, s, c, now, jti), c, now, jti);
    }
  }

  /** The decision point's calls leave the delivery point's jtis alone, and the delivery point's the parked requests. */
  lemma AloneLeaves(cfg: Config, s: State, c: nat, now: int, op: Op, jti: string)
    requires c !in s.calls && !op.Continue? && !op.SignFails?
    ensures !op.Call? && !op.Pay? ==> Alone(cfg, s, c, now, op, jti).dpopJti == s.dpopJti
    ensures op.Mint? || op.Call? || op.Pay? ==> Alone(cfg, s, c, now, op, jti).pending == s.pending
  {
    var begun := Begin(cfg, s, c, now, op);
    if !op.Call? && !op.Pay? {
      FinishLeavesJtis(cfg, begun, c, now, jti);
    }
    if op.Mint? || op.Call? || op.Pay? {
      FinishLeavesPending(cfg, begun, c, now, jti);
    }
  }

  // ---------- what the tokens say, claim by claim ----------

  /** A time window that is open from made on for the configured lifetime, fifteen minutes if none is configured. */
  ghost predicate Lasts(w: Window, made: int, configured: int) {
    forall now: int :: Open(w, now) <==> made <= now < made + if configured <= 0 then 900 else configured
  }

  ghost predicate SaysDecision(cfg: Config, t: Jwt, env: Envelope, tier: Tier, id: string, approver: string, made: int,
                               jti: string)
  {
    && t.typ == "pdp-decision+jwt" && t.signer == cfg.pdpKey && Lasts(t.claims.window, made, cfg.pdpTtl)
    && t.claims.env == env && t.claims.tier == Some(tier) && t.claims.requestId == id
    && t.claims.approved && t.claims.approverId == approver && t.claims.jti == jti && t.claims.jkt == NoThumbprint
  }

  /** The grant's agent, target, action, scope and request, bound to the holder's key. */
  ghost predicate SaysAccess(cfg: Config, t: Jwt, granted: Claims, holder: Key, made: int, jti: string) {
    && t.typ == "cb4a-token+jwt" && t.signer == cfg.cdpKey && Lasts(t.claims.window, made, cfg.tokenTtl)
    && t.claims.env == granted.env && t.claims.requestId == granted.requestId
    && t.claims.jkt == Thumbprint(holder) && t.claims.jti == jti
    && t.claims.tier == None && !t.claims.approved && t.claims.approverId == ""
  }

  lemma DecisionSays(cfg: Config, env: Envelope, tier: Tier, id: string, approver: string, made: int, jti: string)
    ensures var decision := IssueDecision(cfg, env, tier, id, approver, made, jti);
            SaysDecision(cfg, decision, env, tier, id, approver, made, jti)
  {}

  lemma AccessSays(cfg: Config, granted: Claims, holder: Key, made: int, jti: string)
    ensures SaysAccess(cfg, AccessToken(cfg, granted, holder, made, jti), granted, holder, made, jti)
  {}

  /** A decision of the trusted decision point, at a reading at which it is open, approved, for a scope in the vault. */
  ghost predicate GoodDecision(cfg: Config, t: Option<Jwt>, now: int) {
    && t.Some? && t.value.typ == "pdp-decision+jwt" && t.value.signer == cfg.trustedPdp
    && Open(t.value.claims.window, now)
    && t.value.claims.approved && t.value.claims.env.scope in cfg.vault
  }

  /** An open access token of this delivery point and an open proof for this call, made with the key it is bound to. */
  ghost predicate GoodCall(cfg: Config, t: Option<Jwt>, p: Option<Proof>, verb: string, uri: string, now: int) {
    && t.Some? && t.value.typ == "cb4a-token+jwt" && t.value.signer == cfg.cdpKey && Open(t.value.claims.window, now)
    && p.Some? && p.value.typ == "dpop+jwt" && p.value.jwk == Some(p.value.signer) && Open(p.value.window, now)
    && p.value.htm == verb && p.value.htu == uri && p.value.ath == Some(Sha256(t.value))
    && t.value.claims.jkt == Thumbprint(p.value.signer) && p.value.jti != ""
  }

  // ---------- what each call comes to when it runs alone ----------

  lemma OneSection(cfg: Config, s: State, c: nat, now: int, jti: string)
    requires c in s.calls
    ensures Finish(cfg, s, c, now, jti) == Finish(cfg, Resume(cfg, s, c, now, jti), c, now, jti)
  {}

  lemma Returns(cfg: Config, s: State, c: nat, now: int, jti: string, result: Option<Jwt>)
    requires c in s.calls && s.calls[c] == Returning(result)
    ensures Finish(cfg, s, c, now, jti) == Leave(s.(known := s.known + if result.Some? then {result.value} else {}), c)
  {
    OneSection(cfg, s, c, now, jti);
  }

  lemma EvaluateAlone(cfg: Config, s: State, c: nat, now: int, env: Envelope, id: string, jti: string)
    ensures var end := Alone(cfg, s, c, now, Broker.Evaluate(Some(env), id), jti);
            var tier := TierFor(cfg, env);
            var evaluated := AuditEntry(PolicyEvaluated, env, Some(tier), id, TierDetail(tier), true);
            if tier == Auto then
              && end.log == s.log + [evaluated] + [AuditEntry(Approved, env, Some(Auto), id, ByPolicy, true)]
              && end.pending == s.pending
              && IssueDecision(cfg, env, Auto, id, "auto", now, jti) in end.known
            else
              && end.log == s.log + [evaluated]
              && end.pending == s.pending[id := PendingRequest(id, env, tier, StatePending)]
    ensures Alone(cfg, s, c, now, Broker.Evaluate(Some(env), id), jti).dpopJti == s.dpopJti
  {
    var s0 := Begin(cfg, s, c, now, Broker.Evaluate(Some(env), id));
    var s1 := Resume(cfg, s0, c, now, jti);
    OneSection(cfg, s0, c, now, jti);
    var s2 := Resume(cfg, s1, c, now, jti);
    OneSection(cfg, s1, c, now, jti);
    if TierFor(cfg, env) == Auto {
      var s3 := Resume(cfg, s2, c, now, jti);
      OneSection(cfg, s2, c, now, jti);
      Returns(cfg, s3, c, now, jti, Some(IssueDecision(cfg, env, Auto, id, "auto", now, jti)));
    } else {
      Returns(cfg, s2, c, now, jti, None);
    }
  }

  lemma ApproveAlone(cfg: Config, s: State, c: nat, now: int, id: string, approver: string, jti: string)
    requires c !in s.calls && id in s.pending && s.pending[id].id == id && s.pending[id].state == StatePending
    ensures var end := Finish(cfg, BeginApprove(s, c, id, approver), c, now, jti);
            var req := s.pending[id].(state := StateApproved);
            && end.log == s.log + [AuditEntry(Approved, req.env, Some(req.tier), id, By(approver), true)]
            && end.pending == s.pending[id := req] && end.dpopJti == s.dpopJti
            && IssueDecision(cfg, req.env, req.tier, id, approver, now, jti) in end.known
  {
    var req := s.pending[id].(state := StateApproved);
    var s0 := BeginApprove(s, c, id, approver);
    var s1 := Resume(cfg, s0, c, now, jti);
    OneSection(cfg, s0, c, now, jti);
    var s2 := Resume(cfg, s1, c, now, jti);
    OneSection(cfg, s1, c, now, jti);
    Returns(cfg, s2, c, now, jti, Some(IssueDecision(cfg, req.env, req.tier, id, approver, now, jti)));
  }

  lemma DenyAlone(cfg: Config, s: State, c: nat, now: int, id: string, approver: string, jti: string)
    requires c !in s.calls && id in s.pending && s.pending[id].id == id && s.pending[id].state == StatePending
    ensures var end := Finish(cfg, BeginDeny(s, c, id, approver), c, now, jti);
            var req := s.pending[id].(state := StateDenied);
            && end.log == s.log + [AuditEntry(Denied, req.env, Some(req.tier), id, By(approver), false)]
            && end.pending == s.pending[id := req]
  {
    var s0 := BeginDeny(s, c, id, approver);
    OneSection(cfg, s0, c, now, jti);
    Returns(cfg, Resume(cfg, s0, c, now, jti), c, now, jti, None);
  }

  lemma MintAlone(cfg: Config, s: State, c: nat, now: int, decision: Option<Jwt>, ephemeral: Key, tokenJti: string)
    requires DecisionAccepted(cfg, decision, now)
    ensures var end := Alone(cfg, s, c, now, Broker.Mint(decision, ephemeral, tokenJti), "");
            var granted := decision.value.claims;
            && end.log == s.log +
              [AuditEntry(CredentialMinted, granted.env, granted.tier, granted.requestId,
                          Bound(Thumbprint(ephemeral)), true)]
            && end.dpopJti == s.dpopJti
            && AccessToken(cfg, granted, ephemeral, now, tokenJti) in end.known
  {
    var s0 := Begin(cfg, s, c, now, Broker.Mint(decision, ephemeral, tokenJti));
    OneSection(cfg, s0, c, now, "");
    Returns(cfg, Resume(cfg, s0, c, now, ""), c, now, "",
            Some(AccessToken(cfg, decision.value.claims, ephemeral, now, tokenJti)));
  }

  /** A call past the stateless checks either finds its jti taken or takes it and logs the call. */
  lemma RecordAlone(cfg: Config, s: State, c: nat, now: int, use: Use)
    requires c in s.calls && s.calls[c] == CallRecord(use) && use.purchase == None
    ensures var end := Finish(cfg, s, c, now, "");
            if use.jti in s.dpopJti then
              end.log == s.log + [CallEntry(ReplayRejected, use, Jti(use.jti), false)] && end.dpopJti == s.dpopJti
            else
              && end.log == s.log + [CallEntry(ApiCall, use, Jti(use.jti), true)]
              && end.dpopJti == s.dpopJti[use.jti := use.exp]
  {
    var s1 := Resume(cfg, s, c, now, "");
    OneSection(cfg, s, c, now, "");
    var s2 := Resume(cfg, s1, c, now, "");
    OneSection(cfg, s1, c, now, "");
    if use.jti !in s.dpopJti {
      Returns(cfg, s2, c, now, "", None);
    }
  }

  lemma CallAlone(cfg: Config, s: State, c: nat, now: int, token: Option<Jwt>, proof: Option<Proof>, verb: string,
                  uri: string)
    ensures var end := Alone(cfg, s, c, now, Broker.Call(token, proof, verb, uri), "");
            if !(AccessAccepted(cfg, token, now) && ProofAccepted(proof, token.value, verb, uri, now)) then
              end.log == s.log && end.dpopJti == s.dpopJti
            else
              var p, claims := proof.value, token.value.claims;
              var called := claims.env.(target := uri, action := verb);
              if p.jti in s.dpopJti then
                && end.log == s.log + [AuditEntry(ReplayRejected, called, None, claims.requestId, Jti(p.jti), false)]
                && end.dpopJti == s.dpopJti
              else
                && end.log == s.log + [AuditEntry(ApiCall, called, None, claims.requestId, Jti(p.jti), true)]
                && end.dpopJti == s.dpopJti[p.jti := p.window.exp.value]
  {
    var s0 := Begin(cfg, s, c, now, Broker.Call(token, proof, verb, uri));
    OneSection(cfg, s0, c, now, "");
    if AccessAccepted(cfg, token, now) && ProofAccepted(proof, token.value, verb, uri, now) {
      var p := proof.value;
      var use := UseOf(token.value.claims, p, verb, uri, None);
      RecordAlone(cfg, Resume(cfg, s0, c, now, ""), c, now, use);
    }
  }

  /** A payment logs and spends what the plain call would, and is granted when the payer's identity also checks out. */
  lemma PayAlone(cfg: Config, s: State, c: nat, now: int, g: Gateway, p: Payload, verb: string, uri: string)
    requires PaymentAccepted(g, p, now)
    ensures var end := Alone(cfg, s, c, now, Broker.Pay(g, p, verb, uri), "");
            var call := Alone(cfg, s, c, now, Broker.Call(p.token, p.proof, verb, uri), "");
            var claims := p.token.value.claims;
            && end.log == call.log && end.dpopJti == call.dpopJti
            && end.payments == s.payments +
               if AccessAccepted(cfg, p.token, now) && ProofAccepted(p.proof, p.token.value, verb, uri, now) &&
                  p.proof.value.jti !in s.dpopJti &&
                  ValidAgentToken(g.validator, p.agentToken.value, now) &&
                    p.agentToken.value.subject == claims.env.agentSvid
               then [Payment(g, claims, uri, p.proof.value.jti, p.proof.value.signer)] else []
  {
    CallAlone(cfg, s, c, now, p.token, p.proof, verb, uri);
    var claims := p.token.value.claims;
    var bought := Purchase(g, claims, p.agentToken.value);
    var s0 := Begin(cfg, s, c, now, Broker.Pay(g, p, verb, uri));
    OneSection(cfg, s0, c, now, "");
    if AccessAccepted(cfg, p.token, now) && ProofAccepted(p.proof, p.token.value, verb, uri, now) {
      var use := UseOf(claims, p.proof.value, verb, uri, Some(bought));
      var s1 := Resume(cfg, s0, c, now, "");
      assert s1.calls[c] == CallRecord(use);
      PayRecordAlone(cfg, s1, c, now, use, bought);
    }
  }

  lemma PayRecordAlone(cfg: Config, s: State, c: nat, now: int, use: Use, bought: Purchase)
    requires c in s.calls && s.calls[c] == CallRecord(use) && use.purchase == Some(bought)
    ensures var end := Finish(cfg, s, c, now, "");
            if use.jti in s.dpopJti then
              && end.log == s.log + [CallEntry(ReplayRejected, use, Jti(use.jti), false)] && end.dpopJti == s.dpopJti
              && end.payments == s.payments
            else
              && end.log == s.log + [CallEntry(ApiCall, use, Jti(use.jti), true)]
              && end.dpopJti == s.dpopJti[use.jti := use.exp]
              && end.payments == s.payments +
                 if ValidAgentToken(bought.gateway.validator, bought.agentToken, now) &&
                    bought.agentToken.subject == bought.claims.env.agentSvid
                 then [Payment(bought.gateway, bought.claims, use.uri, use.jti, use.prover)] else []
  {
    var s1 := Resume(cfg, s, c, now, "");
    OneSection(cfg, s, c, now, "");
    var s2 := Resume(cfg, s1, c, now, "");
    OneSection(cfg, s1, c, now, "");
    if use.jti !in s.dpopJti {
      OneSection(cfg, s2, c, now, "");
    }
  }

  /** A refused payment comes back at once and leaves nothing behind. */
  lemma PayRefused(cfg: Config, s: State, c: nat, now: int, g: Gateway, p: Payload, verb: string, uri: string)
    requires c !in s.calls && !PaymentAccepted(g, p, now)
    ensures Alone(cfg, s, c, now, Broker.Pay(g, p, verb, uri), "") == s
  {}

  /**
   Which payments get as far as the delivery point: those with all three parts, a credential signed with the
   gateway's key and open when the gateway reads the clock, and exactly the price as its scope.
   */
  lemma PayBeginsExactly(cfg: Config, s: State, c: nat, now: int, g: Gateway, p: Payload, verb: string, uri: string)
    requires c !in s.calls
    ensures c in Begin(cfg, s, c, now, Broker.Pay(g, p, verb, uri)).calls <==>
            && p.token.Some? && p.proof.Some? && p.agentToken.Some?
            && p.token.value.signer == g.cdpPub && Open(p.token.value.claims.window, now)
            && ':' !in g.asset && p.token.value.claims.env.scope == "payment:" + g.asset + ":" + g.amount
  {
    if p.token.Some? {
      CheckScopeExactly(g.asset, g.amount, p.token.value.claims.env.scope);
    }
  }

  // ---------- what honest parties get ----------

  /**
   A decision is good for a mint exactly while it lasts, for a scope in the vault, at the delivery point
   that trusts its issuer.
   */
  lemma DecisionMintableExactly(cfg: Config, env: Envelope, tier: Tier, id: string, approver: string, made: int,
                                jti: string, now: int)
    ensures DecisionAccepted(cfg, Some(IssueDecision(cfg, env, tier, id, approver, made, jti)), now) <==>
            cfg.trustedPdp == cfg.pdpKey && env.scope in cfg.vault &&
            made <= now < made + if cfg.pdpTtl <= 0 then 900 else cfg.pdpTtl
  {}

  /**
   A proof made by the holder of a minted token fits that token, that request and that key, for two
   minutes, and nothing else.
   */
  lemma ProofFitsExactly(token: Jwt, key: Key, verb: string, uri: string, made: int, jti: string,
                         presented: Jwt, verb': string, uri': string, now: int)
    requires verb != "" && uri != "" && jti != ""
    ensures ProofAccepted(GenerateProof(token, key, verb, uri, made, jti), presented, verb', uri', now) <==>
            presented == token && token.claims.jkt == Thumbprint(key) && verb' == verb && uri' == uri &&
              made <= now < made + 120
  {}

  /** Clock readings of a request's way from evaluation to call. */
  datatype Times = Times(evaluated: int, approved: int, minted: int, proved: int, called: int)

  predicate InTime(cfg: Config, t: Times) {
    && t.approved <= t.minted < t.approved + (if cfg.pdpTtl <= 0 then 900 else cfg.pdpTtl)
    && t.minted <= t.called < t.minted + (if cfg.tokenTtl <= 0 then 900 else cfg.tokenTtl)
    && t.proved <= t.called < t.proved + 120
  }

  lemma DecisionIsServed(
    cfg: Config, s: State, c: nat, t: Times, env: Envelope, id: string, approver: string, ephemeral: Key,
    verb: string, uri: string, decisionJti: string, tokenJti: string, proofJti: string)
    requires cfg.trustedPdp == cfg.pdpKey && env.scope in cfg.vault && InTime(cfg, t)
    requires verb != "" && uri != "" && proofJti != "" && proofJti !in s.dpopJti
    ensures var tier := TierFor(cfg, env);
            var decision := IssueDecision(cfg, env, tier, id, approver, t.approved, decisionJti);
            var token := AccessToken(cfg, decision.claims, ephemeral, t.minted, tokenJti);
            var proof := GenerateProof(token, ephemeral, verb, uri, t.proved, proofJti);
            var minted := Alone(cfg, s, c, t.minted, Broker.Mint(Some(decision), ephemeral, tokenJti), "");
            && token in minted.known
            && Alone(cfg, minted, c, t.called, Broker.Call(Some(token), proof, verb, uri), "").log == s.log +
                 [AuditEntry(CredentialMinted, env, Some(tier), id, Bound(Thumbprint(ephemeral)), true)] +
                 [AuditEntry(ApiCall, env.(target := uri, action := verb), None, id, Jti(proofJti), true)]
  {
    var decision := IssueDecision(cfg, env, TierFor(cfg, env), id, approver, t.approved, decisionJti);
    var token := AccessToken(cfg, decision.claims, ephemeral, t.minted, tokenJti);
    var minted := Alone(cfg, s, c, t.minted, Broker.Mint(Some(decision), ephemeral, tokenJti), "");
    DecisionMintableExactly(cfg, env, TierFor(cfg, env), id, approver, t.approved, decisionJti, t.minted);
    MintAlone(cfg, s, c, t.minted, Some(decision), ephemeral, tokenJti);
    ProofFitsExactly(token, ephemeral, verb, uri, t.proved, proofJti, token, verb, uri, t.called);
    CallAlone(cfg, minted, c, t.called, Some(token), GenerateProof(token, ephemeral, verb, uri, t.proved, proofJti),
              verb, uri);
  }

  lemma FourCalls(cfg: Config, s: State, s1: State, s2: State, s3: State, a: AloneCall, b: AloneCall, d: AloneCall,
                  e: AloneCall)
    requires MayBegin(cfg, s, a) && Alone(cfg, s, a.c, a.now, a.op, a.jti) == s1
    requires MayBegin(cfg, s1, b) && Alone(cfg, s1, b.c, b.now, b.op, b.jti) == s2
    requires MayBegin(cfg, s2, d) && Alone(cfg, s2, d.c, d.now, d.op, d.jti) == s3
    requires MayBegin(cfg, s3, e)
    ensures OneByOne(cfg, s, [a, b, d, e]).Some?
  {
    assert [a, b, d, e][1..] == [b, d, e] && [b, d, e][1..] == [d, e] && [d, e][1..] == [e] && [e][1..] == [];
    assert OneByOne(cfg, s3, [e]).Some?;
    assert OneByOne(cfg, s2, [d, e]).Some?;
    assert OneByOne(cfg, s1, [b, d, e]).Some?;
  }

  /**
   The whole way: a request that needs a human is parked, approved, minted for and called with, each call
   handing its token to the next. If every token is used while it lasts, the log gains exactly the four
   entries of the story, in order.
   */
  lemma ApprovedRequestIsServed(
    cfg: Config, s: State, c: nat, t: Times, env: Envelope, id: string, approver: string, ephemeral: Key,
    verb: string, uri: string, decisionJti: string, tokenJti: string, proofJti: string)
    requires cfg.trustedPdp == cfg.pdpKey && TierFor(cfg, env) != Auto && env.scope in cfg.vault && InTime(cfg, t)
    requires c !in s.calls && id !in s.ids
    requires verb != "" && uri != "" && proofJti != "" && proofJti !in s.dpopJti
    ensures var decision := IssueDecision(cfg, env, TierFor(cfg, env), id, approver, t.approved, decisionJti);
            var token := AccessToken(cfg, decision.claims, ephemeral, t.minted, tokenJti);
            var proof := GenerateProof(token, ephemeral, verb, uri, t.proved, proofJti);
            OneByOne(cfg, s,
              [ AloneCall(c, t.evaluated, Broker.Evaluate(Some(env), id), ""),
                AloneCall(c, t.approved, Broker.Approve(id, approver), decisionJti),
                AloneCall(c, t.minted, Broker.Mint(Some(decision), ephemeral, tokenJti), ""),
                AloneCall(c, t.called, Broker.Call(Some(token), proof, verb, uri), "") ]).Some?
    ensures var tier := TierFor(cfg, env);
            var parked := Alone(cfg, s, c, t.evaluated, Broker.Evaluate(Some(env), id), "");
            var approved := Alone(cfg, parked, c, t.approved, Broker.Approve(id, approver), decisionJti);
            var decision := IssueDecision(cfg, env, tier, id, approver, t.approved, decisionJti);
            var minted := Alone(cfg, approved, c, t.minted, Broker.Mint(Some(decision), ephemeral, tokenJti), "");
            var token := AccessToken(cfg, decision.claims, ephemeral, t.minted, tokenJti);
            var proof := GenerateProof(token, ephemeral, verb, uri, t.proved, proofJti);
            && decision in approved.known && token in minted.known
            && Alone(cfg, minted, c, t.called, Broker.Call(Some(token), proof, verb, uri), "").log == s.log +
                 [AuditEntry(PolicyEvaluated, env, Some(tier), id, TierDetail(tier), true)] +
                 [AuditEntry(Approved, env, Some(tier), id, By(approver), true)] +
                 [AuditEntry(CredentialMinted, env, Some(tier), id, Bound(Thumbprint(ephemeral)), true)] +
                 [AuditEntry(ApiCall, env.(target := uri, action := verb), None, id, Jti(proofJti), true)]
  {
    var parked := Alone(cfg, s, c, t.evaluated, Broker.Evaluate(Some(env), id), "");
    EvaluateAlone(cfg, s, c, t.evaluated, env, id, "");
    LeavesNoFrame(cfg, Begin(cfg, s, c, t.evaluated, Broker.Evaluate(Some(env), id)), c, t.evaluated, "");
    var approved := Alone(cfg, parked, c, t.approved, Broker.Approve(id, approver), decisionJti);
    ApproveAlone(cfg, parked, c, t.approved, id, approver, decisionJti);
    DecisionIsServed(cfg, approved, c, t, env, id, approver, ephemeral, verb, uri, decisionJti, tokenJti, proofJti);
    var decision := IssueDecision(cfg, env, TierFor(cfg, env), id, approver, t.approved, decisionJti);
    var token := AccessToken(cfg, decision.claims, ephemeral, t.minted, tokenJti);
    var minted := Alone(cfg, approved, c, t.minted, Broker.Mint(Some(decision), ephemeral, tokenJti), "");
    LeavesNoFrame(cfg, BeginApprove(parked, c, id, approver), c, t.approved, decisionJti);
    LeavesNoFrame(cfg, Begin(cfg, approved, c, t.minted, Broker.Mint(Some(decision), ephemeral, tokenJti)), c,
                  t.minted, "");
    var evaluate := AloneCall(c, t.evaluated, Broker.Evaluate(Some(env), id), "");
    var approve := AloneCall(c, t.approved, Broker.Approve(id, approver), decisionJti);
    var mint := AloneCall(c, t.minted, Broker.Mint(Some(decision), ephemeral, tokenJti), "");
    var proof := GenerateProof(token, ephemeral, verb, uri, t.proved, proofJti);
    var call := AloneCall(c, t.called, Broker.Call(Some(token), proof, verb, uri), "");
    FourCalls(cfg, s, parked, approved, minted, evaluate, approve, mint, call);
  }

  /**
   A payment made with a credential of this delivery point and a proof made for it is granted exactly when the
   credential is for the gateway's price, both still last, the proof is new, and the payer shows a valid agent
   token of the credential's own agent.
   */
  lemma PaymentGrantedExactly(
    cfg: Config, s: State, c: nat, granted: Claims, ephemeral: Key, minted: int, proved: int, paid: int,
    g: Gateway, agent: AgentToken, verb: string, uri: string, tokenJti: string, proofJti: string)
    requires g.cdpPub == cfg.cdpKey && c !in s.calls && verb != "" && uri != "" && proofJti != ""
    ensures var token := AccessToken(cfg, granted, ephemeral, minted, tokenJti);
            var proof := GenerateProof(token, ephemeral, verb, uri, proved, proofJti);
            var pay := Broker.Pay(g, Payload(Some(token), proof, Some(agent)), verb, uri);
            Alone(cfg, s, c, paid, pay, "").payments == s.payments +
            if && ':' !in g.asset && granted.env.scope == "payment:" + g.asset + ":" + g.amount
               && minted <= paid < minted + (if cfg.tokenTtl <= 0 then 900 else cfg.tokenTtl)
               && proved <= paid < proved + 120 && proofJti !in s.dpopJti
               && agent.typ == "agent+jwt" && agent.signer == g.validator.idpPub && Open(agent.window, paid)
               && agent.issuer == g.validator.issuerId && agent.workloadKey.Some?
               && agent.subject == granted.env.agentSvid
            then [Payment(g, token.claims, uri, proofJti, ephemeral)] else []
  {
    var token := AccessToken(cfg, granted, ephemeral, minted, tokenJti);
    var proof := GenerateProof(token, ephemeral, verb, uri, proved, proofJti);
    var p := Payload(Some(token), proof, Some(agent));
    CheckScopeExactly(g.asset, g.amount, granted.env.scope);
    ProofFitsExactly(token, ephemeral, verb, uri, proved, proofJti, token, verb, uri, paid);
    if PaymentAccepted(g, p, paid) {
      PayAlone(cfg, s, c, paid, g, p, verb, uri);
    } else {
      PayRefused(cfg, s, c, paid, g, p, verb, uri);
    }
  }

  /** A call that has run to its end leaves no frame behind. */
  lemma {:induction false} LeavesNoFrame(cfg: Config, s: State, c: nat, now: int, jti: string)
    ensures c !in Finish(cfg, s, c, now, jti).calls
    decreases if c in s.calls then Rank(s.calls[c]) else 0
  {
    if c in s.calls {
      RankDrops(cfg, s, c, now, jti);
      LeavesNoFrame(cfg, Resume(cfg, s, c, now, jti), c, now, jti);
    }
  }

  class AuditLog {
    var entries: seq<AuditEntry>

    constructor ()
      ensures entries == []
    {
      entries := [];
    }

    method Append(e: AuditEntry)
      modifies this
      ensures entries == old(entries) + [e]
    {
      entries := entries + [e];
    }

    /** A snapshot in an array of its own: later appends do not show in it. */
    method Entries() returns (out: array<AuditEntry>)
      ensures fresh(out) && out[..] == entries
    {
      out := new AuditEntry[|entries|](i requires 0 <= i < |entries| reads this => entries[i]);
    }

    method Len() returns (n: nat)
      ensures n == |entries|
    {
      n := |entries|;
    }
  }

  datatype Verdict = Decision(token: Jwt) | Parked(id: string)

  class InMemoryPdp {
    const cfg: Config
    const audit: AuditLog
    var pending: map<string, PendingRequest>

    constructor (cfg: Config, audit: AuditLog)
      ensures this.cfg == cfg && this.audit == audit && pending == map[]
    {
      this.cfg := cfg;
      this.audit := audit;
      pending := map[];
    }

    /** The objects hold the log and the parked requests of s. */
    ghost predicate Holds(s: State)
      reads this, audit
    {
      s.log == audit.entries && s.pending == pending
    }

    method Evaluate(envelope: Option<Envelope>, freshId: string, freshJti: string, now: int, ghost s: State,
                    ghost c: nat)
      returns (r: Result<Verdict, string>)
      requires Holds(s) && c !in s.calls
      modifies this`pending, audit
      ensures Holds(Alone(cfg, s, c, now, Broker.Evaluate(envelope, freshId), freshJti))
      ensures r.Ok? <==> envelope.Some?
      ensures r.Err? ==> pending == old(pending) && audit.entries == old(audit.entries)
      ensures r.Ok? ==>
                var env := envelope.value;
                var tier := EvaluateTier(cfg.rules, env.agentSvid, env.scope);
                var evaluated := AuditEntry(PolicyEvaluated, env, Some(tier), freshId, TierDetail(tier), true);
                if tier == Auto then
                  && r.value.Decision? && SaysDecision(cfg, r.value.token, env, Auto, freshId, "auto", now, freshJti)
                  && r.value.token in Alone(cfg, s, c, now, Broker.Evaluate(envelope, freshId), freshJti).known
                  && audit.entries ==
                     old(audit.entries) + [evaluated] + [AuditEntry(Approved, env, Some(Auto), freshId, ByPolicy, true)]
                  && pending == old(pending)
                else
                  && r.value == Parked(freshId)
                  && audit.entries == old(audit.entries) + [evaluated]
                  && pending == old(pending)[freshId := PendingRequest(freshId, env, tier, StatePending)]
    {
      if envelope.None? {
        return Err("envClaims is required");
      }
      var env := envelope.value;
      EvaluateAlone(cfg, s, c, now, env, freshId, freshJti);
      DecisionSays(cfg, env, Auto, freshId, "auto", now, freshJti);
      var tier := FirstMatch(cfg.rules, env.agentSvid, env.scope);
      audit.Append(GrantEntry(PolicyEvaluated, env, tier, freshId, TierDetail(tier), true));
      if tier == Auto {
        var decision := IssueDecision(cfg, env, tier, freshId, "auto", now, freshJti);
        audit.Append(GrantEntry(Approved, env, tier, freshId, ByPolicy, true));
        return Ok(Decision(decision));
      }
      pending := pending[freshId := PendingRequest(freshId, env, tier, StatePending)];
      return Ok(Parked(freshId));
    }

    method Approve(id: string, approver: string, freshJti: string, now: int, ghost s: State, ghost c: nat)
      returns (r: Result<Jwt, string>)
      requires Holds(s) && c !in s.calls
      requires forall p :: p in s.pending ==> s.pending[p].id == p
      modifies this`pending, audit
      ensures Holds(Alone(cfg, s, c, now, Broker.Approve(id, approver), freshJti))
      ensures r.Ok? <==> id in s.pending && s.pending[id].state == StatePending
      ensures r.Ok? ==>
                var req := old(pending)[id];
                && SaysDecision(cfg, r.value, req.env, req.tier, id, approver, now, freshJti)
                && r.value in Alone(cfg, s, c, now, Broker.Approve(id, approver), freshJti).known
                && audit.entries ==
                   old(audit.entries) + [AuditEntry(Approved, req.env, Some(req.tier), id, By(approver), true)]
                && pending == old(pending)[id := req.(state := StateApproved)]
      ensures r.Err? ==> pending == old(pending) && audit.entries == old(audit.entries)
    {
      if id !in pending {
        return Err("unknown request");
      }
      var req := pending[id];
      if req.state != StatePending {
        return Err("request is already resolved");
      }
      ApproveAlone(cfg, s, c, now, id, approver, freshJti);
      DecisionSays(cfg, req.env, req.tier, id, approver, now, freshJti);
      req := req.(state := StateApproved);
      pending := pending[id := req];
      var decision := IssueDecision(cfg, req.env, req.tier, id, approver, now, freshJti);
      audit.Append(GrantEntry(Approved, req.env, req.tier, id, By(approver), true));
      return Ok(decision);
    }

    /** The assertion check is the passkey library's; only its verdict matters here. */
    method ApproveWithPasskey(id: string, credentialId: string, assertionValid: bool, freshJti: string, now: int,
                              ghost s: State, ghost c: nat)
      returns (r: Result<Jwt, string>)
      requires Holds(s) && c !in s.calls
      requires forall p :: p in s.pending ==> s.pending[p].id == p
      modifies this`pending, audit
      ensures Holds(Alone(cfg, s, c, now, Broker.ApproveWithPasskey(id, credentialId, assertionValid), freshJti))
      ensures r.Ok? <==> assertionValid && id in s.pending && s.pending[id].state == StatePending
      ensures r.Ok? ==>
                var req := old(pending)[id];
                && SaysDecision(cfg, r.value, req.env, req.tier, id, credentialId, now, freshJti)
                && audit.entries ==
                   old(audit.entries) + [AuditEntry(Approved, req.env, Some(req.tier), id, By(credentialId), true)]
                && pending == old(pending)[id := req.(state := StateApproved)]
      ensures r.Err? ==> pending == old(pending) && audit.entries == old(audit.entries)
    {
      if !assertionValid {
        return Err("passkey assertion invalid");
      }
      r := Approve(id, credentialId, freshJti, now, s, c);
    }

    method Deny(id: string, approver: string, now: int, ghost s: State, ghost c: nat) returns (ok: bool)
      requires Holds(s) && c !in s.calls
      requires forall p :: p in s.pending ==> s.pending[p].id == p
      modifies this`pending, audit
      ensures Holds(Alone(cfg, s, c, now, Broker.Deny(id, approver), ""))
      ensures ok <==> id in s.pending && s.pending[id].state == StatePending
      ensures ok ==>
                var req := old(pending)[id];
                && audit.entries ==
                   old(audit.entries) + [AuditEntry(Denied, req.env, Some(req.tier), id, By(approver), false)]
                && pending == old(pending)[id := req.(state := StateDenied)]
      ensures !ok ==> pending == old(pending) && audit.entries == old(audit.entries)
    {
      if id !in pending {
        return false;
      }
      var req := pending[id];
      if req.state != StatePending {
        return false;
      }
      DenyAlone(cfg, s, c, now, id, approver, "");
      req := req.(state := StateDenied);
      pending := pending[id := req];
      audit.Append(GrantEntry(Denied, req.env, req.tier, id, By(approver), false));
      return true;
    }

    /** The parked request as it stands; the caller gets a copy. */
    method Get(id: string) returns (r: Option<PendingRequest>)
      ensures r == if id in pending then Some(pending[id]) else None
    {
      r := if id in pending then Some(pending[id]) else None;
    }
  }

  class Cdp {
    const cfg: Config
    const audit: AuditLog
    var dpopJti: map<string, int>

    constructor (cfg: Config, audit: AuditLog)
      ensures this.cfg == cfg && this.audit == audit && dpopJti == map[]
    {
      this.cfg := cfg;
      this.audit := audit;
      dpopJti := map[];
    }

    ghost predicate Holds(s: State)
      reads this, audit
    {
      s.log == audit.entries && s.dpopJti == dpopJti
    }

    method Mint(decision: Option<Jwt>, ephemeral: Key, tokenJti: string, now: int, ghost s: State, ghost c: nat)
      returns (r: Result<Jwt, string>)
      requires Holds(s) && c !in s.calls
      modifies audit
      ensures Holds(Alone(cfg, s, c, now, Broker.Mint(decision, ephemeral, tokenJti), ""))
      ensures r.Ok? <==> GoodDecision(cfg, decision, now)
      ensures r.Err? ==> audit.entries == old(audit.entries)
      ensures r.Ok? ==>
                var granted := decision.value.claims;
                && SaysAccess(cfg, r.value, granted, ephemeral, now, tokenJti)
                && audit.entries == old(audit.entries) +
                   [AuditEntry(CredentialMinted, granted.env, granted.tier, granted.requestId,
                               Bound(Thumbprint(ephemeral)), true)]
                && r.value in Alone(cfg, s, c, now, Broker.Mint(decision, ephemeral, tokenJti), "").known
    {
      if decision.None? || decision.value.typ != DECISION_TYPE || decision.value.signer != cfg.trustedPdp ||
         !Open(decision.value.claims.window, now) {
        return Err("invalid PDP decision");
      }
      var granted := decision.value.claims;
      if !granted.approved {
        return Err("PDP decision is not approved");
      }
      if granted.env.scope !in cfg.vault {
        return Err("no credential in vault for scope");
      }
      MintAlone(cfg, s, c, now, decision, ephemeral, tokenJti);
      AccessSays(cfg, granted, ephemeral, now, tokenJti);
      var token := AccessToken(cfg, granted, ephemeral, now, tokenJti);
      audit.Append(AuditEntry(CredentialMinted, granted.env, granted.tier, granted.requestId,
                              Bound(token.claims.jkt), true));
      return Ok(token);
    }

    method SimulateApiCall(token: Option<Jwt>, proof: Option<Proof>, verb: string, uri: string, now: int,
                           ghost s: State, ghost c: nat)
      returns (ok: bool)
      requires Holds(s) && c !in s.calls
      modifies this`dpopJti, audit
      ensures Holds(Alone(cfg, s, c, now, Broker.Call(token, proof, verb, uri), ""))
      ensures ok <==> GoodCall(cfg, token, proof, verb, uri, now) && proof.value.jti !in old(dpopJti)
      ensures if !GoodCall(cfg, token, proof, verb, uri, now) then
                audit.entries == old(audit.entries) && dpopJti == old(dpopJti)
              else
                var p, claims := proof.value, token.value.claims;
                var called := claims.env.(target := uri, action := verb);
                && audit.entries == old(audit.entries) +
                   [AuditEntry(if ok then ApiCall else ReplayRejected, called, None, claims.requestId, Jti(p.jti), ok)]
                && dpopJti == if ok then old(dpopJti)[p.jti := p.window.exp.value] else old(dpopJti)
    {
      CallAlone(cfg, s, c, now, token, proof, verb, uri);
      if !AccessAccepted(cfg, token, now) {
        return false;
      }
      var claims := token.value.claims;
      if proof.None? || proof.value.typ != DPOP_TYPE || proof.value.jwk.None? ||
        proof.value.signer != proof.value.jwk.value ||
         !Open(proof.value.window, now) {
        return false;
      }
      var p := proof.value;
      if p.htm != verb || p.htu != uri {
        return false;
      }
      if p.ath != Some(Sha256(token.value)) {
        return false;
      }
      if claims.jkt != Thumbprint(p.jwk.value) {
        return false;
      }
      if p.jti == "" {
        return false;
      }
      var target := claims.env.(target := uri, action := verb);
      if p.jti in dpopJti {
        audit.Append(AuditEntry(ReplayRejected, target, None, claims.requestId, Jti(p.jti), false));
        return false;
      }
      dpopJti := dpopJti[p.jti := p.window.exp.value];
      audit.Append(AuditEntry(ApiCall, target, None, claims.requestId, Jti(p.jti), true));
      return true;
    }
  }

  class PaymentGateway {
    const gateway: Gateway
    const cdp: Cdp

    constructor (gateway: Gateway, cdp: Cdp)
      ensures this.gateway == gateway && this.cdp == cdp
    {
      this.gateway := gateway;
      this.cdp := cdp;
    }

    /** Grants exactly the payments the state machine records, with the same log and the same spent jtis. */
    method Verify(p: Payload, verb: string, uri: string, now: int, ghost s: State, ghost c: nat)
      returns (r: Result<Payment, string>)
      requires cdp.Holds(s) && c !in s.calls
      modifies cdp`dpopJti, cdp.audit
      ensures cdp.Holds(Alone(cdp.cfg, s, c, now, Broker.Pay(gateway, p, verb, uri), ""))
      ensures Alone(cdp.cfg, s, c, now, Broker.Pay(gateway, p, verb, uri), "").payments ==
              s.payments + if r.Ok? then [r.value] else []
      ensures r.Ok? <==>
              && p.token.Some? && p.proof.Some? && p.agentToken.Some?
              && p.token.value.signer == gateway.cdpPub && ':' !in gateway.asset
              && p.token.value.claims.env.scope == "payment:" + gateway.asset + ":" + gateway.amount
              && GoodCall(cdp.cfg, p.token, p.proof, verb, uri, now) && p.proof.value.jti !in old(cdp.dpopJti)
              && p.agentToken.value.typ == "agent+jwt" && p.agentToken.value.signer == gateway.validator.idpPub
              && Open(p.agentToken.value.window, now) && p.agentToken.value.issuer == gateway.validator.issuerId
              && p.agentToken.value.workloadKey.Some?
              && p.agentToken.value.subject == p.token.value.claims.env.agentSvid
      ensures r.Ok? ==>
              r.value == Payment(gateway, p.token.value.claims, uri, p.proof.value.jti, p.proof.value.signer)
    {
      if p.token.None? || p.proof.None? || p.agentToken.None? {
        return Err("cb4aToken, dpopProof and agentToken are required");
      }
      var claims := p.token.value.claims;
      CheckScopeExactly(gateway.asset, gateway.amount, claims.env.scope);
      if p.token.value.signer != gateway.cdpPub || !Open(claims.window, now) {
        return Err("invalid CB4A token");
      }
      if !CheckScope(gateway.asset, gateway.amount, claims.env.scope) {
        return Err("scope does not cover the payment");
      }
      PayAlone(cdp.cfg, s, c, now, gateway, p, verb, uri);
      CallAlone(cdp.cfg, s, c, now, p.token, p.proof, verb, uri);
      var ok := cdp.SimulateApiCall(p.token, p.proof, verb, uri, now, s, c);
      if !ok {
        return Err("DPoP verification failed");
      }
      if !ValidAgentToken(gateway.validator, p.agentToken.value, now) {
        return Err("invalid AgentToken");
      }
      if p.agentToken.value.subject != claims.env.agentSvid {
        return Err("AgentToken sub does not match");
      }
      return Ok(Payment(gateway, claims, uri, p.proof.value.jti, p.proof.value.signer));
    }
  }
}
