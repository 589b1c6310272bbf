/**
 Exclusion: in every interleaving a request id is resolved at most once. No id is both approved and
 denied, no id is approved twice, and the parked request's state says which of the two happened.
 */
module BrokerExclusion {
  import opened Wrappers
  import opened Policy
  import opened Broker

  /** The request whose resolution is in the hands of a call. */
  function Owned(f: Frame): Option<string> {
    match f
    case EvalLog(_, id) => Some(id)
    case EvalIssue(_, id) => Some(id)
    case EvalLogApproved(_, id, _) => Some(id)
    case EvalPark(_, id) => Some(id)
    case ApproveIssue(req, _) => Some(req.id)
    case ApproveLog(req, _, _) => Some(req.id)
    case DenyLog(req, _) => Some(req.id)
    case _ => None
  }

  predicate IsResolution(e: AuditEntry) {
    e.event == Approved || e.event == Denied
  }

  ghost predicate Resolved(log: seq<AuditEntry>, id: string) {
    exists e :: e in log && IsResolution(e) && e.requestId == id
  }

  ghost predicate ResolvedOnce(log: seq<AuditEntry>) {
    forall j, k :: 0 <= j < k < |log| && IsResolution(log[j]) && IsResolution(log[k]) ==>
      log[j].requestId != log[k].requestId
  }

  /** What the state of the parked request says about a resolution on record. */
  ghost predicate Agrees(s: State, e: AuditEntry) {
    && e.requestId in s.ids
    && (e.event == Approved && e.tier != Some(Auto) ==>
          e.requestId in s.pending && s.pending[e.requestId].state == StateApproved)
    && (e.event == Denied ==> e.requestId in s.pending && s.pending[e.requestId].state == StateDenied)
  }

  ghost predicate FrameAgrees(s: State, f: Frame) {
    match f
    case EvalLog(_, id) => id !in s.pending
    case EvalIssue(_, id) => id !in s.pending
    case EvalLogApproved(_, id, _) => id !in s.pending
    case EvalPark(_, id) => id !in s.pending
    case ApproveIssue(req, _) => req.id in s.pending && s.pending[req.id] == req && req.state == StateApproved
    case ApproveLog(req, _, _) => req.id in s.pending && s.pending[req.id] == req && req.state == StateApproved
    case DenyLog(req, _) => req.id in s.pending && s.pending[req.id] == req && req.state == StateDenied
    case _ => true
  }

  ghost predicate OwnerFree(s: State, id: string) {
    !Resolved(s.log, id) && forall c :: c in s.calls ==> Owned(s.calls[c]) != Some(id)
  }

  ghost predicate Owners(s: State) {
    && (forall c :: c in s.calls && Owned(s.calls[c]).Some? ==>
          Owned(s.calls[c]).value in s.ids && !Resolved(s.log, Owned(s.calls[c]).value))
    && (forall c, d :: c in s.calls && d in s.calls && c != d && Owned(s.calls[c]).Some? ==>
          Owned(s.calls[c]) != Owned(s.calls[d]))
  }

  ghost predicate Exclusive(s: State) {
    && ResolvedOnce(s.log)
    && Owners(s)
    && (forall e :: e in s.log && IsResolution(e) ==> Agrees(s, e))
    && (forall c :: c in s.calls ==> FrameAgrees(s, s.calls[c]))
    && (forall id :: id in s.pending ==>
          id in s.ids && s.pending[id].id == id && (s.pending[id].state == StatePending ==> OwnerFree(s, id)))
  }

  lemma ResolvedAppend(log: seq<AuditEntry>, e: AuditEntry, id: string)
    ensures Resolved(log + [e], id) <==> Resolved(log, id) || (IsResolution(e) && e.requestId == id)
  {
    if IsResolution(e) && e.requestId == id {
      assert e in log + [e];
    }
    if x :| x in log && IsResolution(x) && x.requestId == id {
      assert x in log + [e];
    }
  }

  /** A step of call c that resolves nothing, parks nothing and keeps the id c owns, if c still owns one. */
  lemma Neutral(s: State, s': State, c: nat)
    requires Exclusive(s)
    requires s'.pending == s.pending && s'.ids == s.ids
    requires forall d :: d in s'.calls && d != c ==> d in s.calls && s'.calls[d] == s.calls[d]
    requires c in s'.calls && Owned(s'.calls[c]).Some? ==>
               c in s.calls && Owned(s'.calls[c]) == Owned(s.calls[c]) && FrameAgrees(s, s'.calls[c])
    requires s'.log == s.log || exists e :: !IsResolution(e) && s'.log == s.log + [e]
    ensures Exclusive(s')
  {
    if s'.log != s.log {
      var e :| !IsResolution(e) && s'.log == s.log + [e];
      forall id ensures Resolved(s'.log, id) <==> Resolved(s.log, id) {
        ResolvedAppend(s.log, e, id);
      }
    }
    forall id | id in s'.pending && s'.pending[id].state == StatePending ensures OwnerFree(s', id) {
      assert OwnerFree(s, id);
    }
    assert Owners(s');
  }

  lemma EvaluateStarts(s: State, c: nat, env: Envelope, id: string)
    requires Exclusive(s) && c !in s.calls && id !in s.ids
    ensures Exclusive(Enter(s.(ids := s.ids + {id}), c, EvalLog(env, id)))
  {
    var s' := Enter(s.(ids := s.ids + {id}), c, EvalLog(env, id));
    assert !Resolved(s.log, id);
    forall p | p in s'.pending && s'.pending[p].state == StatePending ensures OwnerFree(s', p) {
      assert OwnerFree(s, p);
    }
    assert Owners(s');
  }

  lemma Parks(s: State, c: nat, env: Envelope, tier: Tier, id: string)
    requires Exclusive(s) && c in s.calls && s.calls[c] == EvalPark(env, id)
    ensures Exclusive(Enter(s.(pending := s.pending[id := PendingRequest(id, env, tier, StatePending)]), c,
                            Returning(None)))
  {
    var s' := Enter(s.(pending := s.pending[id := PendingRequest(id, env, tier, StatePending)]), c, Returning(None));
    assert FrameAgrees(s, s.calls[c]);
    forall p | p in s'.pending && s'.pending[p].state == StatePending ensures OwnerFree(s', p) {
      assert p != id ==> OwnerFree(s, p);
    }
    forall d | d in s'.calls ensures FrameAgrees(s', s'.calls[d]) {
      assert d != c ==> FrameAgrees(s, s.calls[d]);
    }
    assert Owners(s');
  }

  /** A human takes a parked request out of the pending state. */
  lemma Decides(s: State, c: nat, req: PendingRequest, f: Frame)
    requires Exclusive(s) && c !in s.calls && req.id in s.pending && s.pending[req.id].state == StatePending
    requires req.state != StatePending && Owned(f) == Some(req.id)
    requires FrameAgrees(s.(pending := s.pending[req.id := req]), f)
    ensures Exclusive(Enter(s.(pending := s.pending[req.id := req]), c, f))
  {
    var s' := Enter(s.(pending := s.pending[req.id := req]), c, f);
    assert OwnerFree(s, req.id);
    forall p | p in s'.pending && s'.pending[p].state == StatePending ensures OwnerFree(s', p) {
      assert OwnerFree(s, p);
    }
    forall d | d in s'.calls ensures FrameAgrees(s', s'.calls[d]) {
      assert d != c ==> FrameAgrees(s, s.calls[d]);
    }
    assert Owners(s');
  }

  /** The owner of a request puts its resolution on record and lets go of it. */
  lemma Resolves(s: State, c: nat, e: AuditEntry, f: Frame)
    requires Exclusive(s) && c in s.calls && IsResolution(e)
    requires Owned(s.calls[c]) == Some(e.requestId) && Owned(f) == None && FrameAgrees(s, f)
    requires Agrees(s, e)
    requires e.requestId in s.pending ==> s.pending[e.requestId].state != StatePending
    ensures Exclusive(Enter(Append(s, e), c, f))
  {
    var s' := Enter(Append(s, e), c, f);
    forall id ensures Resolved(s'.log, id) <==> Resolved(s.log, id) || e.requestId == id {
      ResolvedAppend(s.log, e, id);
    }
    forall p | p in s'.pending && s'.pending[p].state == StatePending ensures OwnerFree(s', p) {
      assert OwnerFree(s, p);
    }
    forall j, k | 0 <= j < k < |s'.log| && IsResolution(s'.log[j]) && IsResolution(s'.log[k])
      ensures s'.log[j].requestId != s'.log[k].requestId
    {
      assert s.log[j] in s.log;
    }
    assert Owners(s');
  }

  lemma ApproveStarts(s: State, c: nat, id: string, approver: string)
    requires Exclusive(s) && c !in s.calls
    ensures Exclusive(BeginApprove(s, c, id, approver))
  {
    if id in s.pending && s.pending[id].state == StatePending {
      var req := s.pending[id].(state := StateApproved);
      Decides(s, c, req, ApproveIssue(req, approver));
    }
  }

  lemma DenyStarts(s: State, c: nat, id: string, approver: string)
    requires Exclusive(s) && c !in s.calls
    ensures Exclusive(BeginDeny(s, c, id, approver))
  {
    if id in s.pending && s.pending[id].state == StatePending {
      var req := s.pending[id].(state := StateDenied);
      Decides(s, c, req, DenyLog(req, approver));
    }
  }

  lemma BeginKeepsExclusive(cfg: Config, s: State, step: Step)
    requires Exclusive(s) && Enabled(cfg, s, step) && !step.op.Continue? && !step.op.SignFails?
    ensures Exclusive(Next(cfg, s, step))
  {
    var s' := Next(cfg, s, step);
    if s' != s {
      match step.op
      case Evaluate(env, id) => EvaluateStarts(s, step.call, env.value, id);
      case Approve(id, approver) => ApproveStarts(s, step.call, id, approver);
      case ApproveWithPasskey(id, credentialId, _) => ApproveStarts(s, step.call, id, credentialId);
      case Deny(id, approver) => DenyStarts(s, step.call, id, approver);
      case _ => Neutral(s, s', step.call);
    }
  }

  lemma ResolutionKeepsExclusive(cfg: Config, s: State, c: nat, now: int, jti: string)
    requires Exclusive(s) && c in s.calls
    requires s.calls[c].EvalLogApproved? || s.calls[c].ApproveLog? || s.calls[c].DenyLog?
    ensures Exclusive(Resume(cfg, s, c, now, jti))
  {
    var s' := Resume(cfg, s, c, now, jti);
    var e := s'.log[|s.log|];
    assert FrameAgrees(s, s.calls[c]) && Owned(s.calls[c]) == Some(e.requestId);
    Resolves(s, c, e, s'.calls[c]);
    assert s' == Enter(Append(s, e), c, s'.calls[c]);
  }

  /** Sections that write an entry other than a resolution. */
  lemma LoggingKeepsExclusive(cfg: Config, s: State, c: nat, now: int, jti: string)
    requires Exclusive(s) && c in s.calls
    requires s.calls[c].EvalLog? || s.calls[c].MintLog? || s.calls[c].CallLog? || s.calls[c].ReplayLog?
    ensures Exclusive(Resume(cfg, s, c, now, jti))
  {
    var s' := Resume(cfg, s, c, now, jti);
    var e := s'.log[|s.log|];
    assert FrameAgrees(s, s.calls[c]);
    assert s'.log == s.log + [e] && !IsResolution(e);
    assert s'.pending == s.pending && s'.ids == s.ids;
    Neutral(s, s', c);
  }

  /** Issuing a decision: the call keeps the request it owns. */
  lemma IssueKeepsExclusive(cfg: Config, s: State, c: nat, now: int, jti: string)
    requires Exclusive(s) && c in s.calls && (s.calls[c].EvalIssue? || s.calls[c].ApproveIssue?)
    ensures Exclusive(Resume(cfg, s, c, now, jti))
  {
    assert FrameAgrees(s, s.calls[c]);
    Neutral(s, Resume(cfg, s, c, now, jti), c);
  }

  /** Sections of calls that own no request, and write no entry. */
  lemma SilentKeepsExclusive(cfg: Config, s: State, c: nat, now: int, jti: string)
    requires Exclusive(s) && c in s.calls
    requires s.calls[c].CallCheck? || s.calls[c].CallRecord? || s.calls[c].PayAgent? || s.calls[c].Returning?
    ensures Exclusive(Resume(cfg, s, c, now, jti))
  {
    var s' := Resume(cfg, s, c, now, jti);
    assert s'.log == s.log && s'.pending == s.pending && s'.ids == s.ids;
    Neutral(s, s', c);
  }

  lemma ResumeKeepsExclusive(cfg: Config, s: State, c: nat, now: int, jti: string)
    requires Exclusive(s) && c in s.calls
    ensures Exclusive(Resume(cfg, s, c, now, jti))
  {
    match s.calls[c]
    case EvalLogApproved(_, _, _) => ResolutionKeepsExclusive(cfg, s, c, now, jti);
    case ApproveLog(_, _, _) => ResolutionKeepsExclusive(cfg, s, c, now, jti);
    case DenyLog(_, _) => ResolutionKeepsExclusive(cfg, s, c, now, jti);
    case EvalPark(env, id) => Parks(s, c, env, TierFor(cfg, env), id);
    case EvalLog(_, _) => LoggingKeepsExclusive(cfg, s, c, now, jti);
    case MintLog(_, _) => LoggingKeepsExclusive(cfg, s, c, now, jti);
    case CallLog(_) => LoggingKeepsExclusive(cfg, s, c, now, jti);
    case ReplayLog(_) => LoggingKeepsExclusive(cfg, s, c, now, jti);
    case EvalIssue(_, _) => IssueKeepsExclusive(cfg, s, c, now, jti);
    case ApproveIssue(_, _) => IssueKeepsExclusive(cfg, s, c, now, jti);
    case _ => SilentKeepsExclusive(cfg, s, c, now, jti);
  }

  lemma StepKeepsExclusive(cfg: Config, s: State, step: Step)
    requires Exclusive(s) && Enabled(cfg, s, step)
    ensures Exclusive(Next(cfg, s, step))
  {
    match step.op
    case SignFails => Neutral(s, Next(cfg, s, step), step.call);
    case Continue(jti) => ResumeKeepsExclusive(cfg, s, step.call, step.now, jti);
    case _ => BeginKeepsExclusive(cfg, s, step);
  }

  lemma {:induction false} RunFromExclusive(cfg: Config, s: State, steps: seq<Step>)
    requires Exclusive(s)
    ensures var end := RunFrom(cfg, s, steps);
            end.Some? ==> Exclusive(end.value)
    decreases |steps|
  {
    if steps != [] && Enabled(cfg, s, steps[0]) {
      StepKeepsExclusive(cfg, s, steps[0]);
      RunFromExclusive(cfg, Next(cfg, s, steps[0]), steps[1..]);
    }
  }
}
