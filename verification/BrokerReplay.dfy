/**
 Replay protection: each recorded DPoP jti is spent on one api_call entry, by at most one payment, and
 the recorded jtis number exactly the api_call entries plus the calls about to write one.
 */
module BrokerReplay {
  import opened Wrappers
  import opened Broker

  function ApiCalls(log: seq<AuditEntry>): nat {
    if log == [] then 0 else ApiCalls(log[..|log| - 1]) + if log[|log| - 1].event == ApiCall then 1 else 0
  }

  /** The calls that took a jti and have yet to write their api_call entry. */
  function InFlight(s: State): set<nat> {
    set c | c in s.calls && s.calls[c].CallLog?
  }

  ghost predicate Conserved(s: State) {
    |s.dpopJti| == ApiCalls(s.log) + |InFlight(s)|
  }

  lemma AppendCounts(log: seq<AuditEntry>, e: AuditEntry)
    ensures ApiCalls(log + [e]) == ApiCalls(log) + if e.event == ApiCall then 1 else 0
  {
    assert (log + [e])[..|log|] == log;
  }

  lemma Others(a: set<nat>, c: nat)
    ensures |a| == |a - {c}| + if c in a then 1 else 0
  {
    if c in a {
      assert a == (a - {c}) + {c};
    } else {
      assert a - {c} == a;
    }
  }

  /** A step of call c changes the number of calls in flight by what it does to c. */
  lemma InFlightChange(s: State, s': State, c: nat)
    requires forall d :: d != c ==> (d in s.calls <==> d in s'.calls) && (d in s.calls ==> s.calls[d] == s'.calls[d])
    ensures |InFlight(s)| + (if c in InFlight(s') then 1 else 0) == |InFlight(s')| + (if c in InFlight(s) then 1 else 0)
  {
    assert InFlight(s) - {c} == InFlight(s') - {c} by {
      forall d | d != c ensures d in InFlight(s) <==> d in InFlight(s') {}
    }
    Others(InFlight(s), c);
    Others(InFlight(s'), c);
  }

  /** A step that leaves the jtis alone moves as many calls out of flight as it writes api_call entries. */
  lemma Flow(s: State, s': State, c: nat)
    requires Conserved(s)
    requires forall d :: d != c ==> (d in s.calls <==> d in s'.calls) && (d in s.calls ==> s.calls[d] == s'.calls[d])
    requires |s'.dpopJti| + (if c in InFlight(s) then 1 else 0) ==
             |s.dpopJti| + (if c in InFlight(s') then 1 else 0) + ApiCalls(s'.log) - ApiCalls(s.log)
    ensures Conserved(s')
  {
    InFlightChange(s, s', c);
  }

  /** The sections that neither take a jti nor write an api_call entry. */
  predicate Quiet(f: Frame) {
    !f.CallRecord? && !f.CallLog? && !f.PayAgent?
  }

  /** s' is s after a section of call c that touches no jti and no payment, and logs no api_call. */
  ghost predicate QuietChange(s: State, s': State, c: nat) {
    && s'.dpopJti == s.dpopJti && s'.payments == s.payments
    && (forall d :: d in s'.calls && d != c ==> d in s.calls && s'.calls[d] == s.calls[d])
    && (forall d :: d in s.calls && d != c ==> d in s'.calls)
    && (c in s'.calls ==> !s'.calls[c].CallLog? && !s'.calls[c].PayAgent?)
    && (s'.log == s.log || exists e: AuditEntry :: e.event != ApiCall && s'.log == s.log + [e])
  }

  lemma QuietMove(s: State, s1: State, c: nat, f: Frame)
    requires s1.calls == s.calls && s1.dpopJti == s.dpopJti && s1.payments == s.payments
    requires s1.log == s.log || exists e: AuditEntry :: e.event != ApiCall && s1.log == s.log + [e]
    requires !f.CallLog? && !f.PayAgent?
    ensures QuietChange(s, Enter(s1, c, f), c) && QuietChange(s, Leave(s1, c), c)
  {}

  lemma QuietAppend(s: State, c: nat, e: AuditEntry, f: Frame)
    requires e.event != ApiCall && !f.CallLog? && !f.PayAgent?
    ensures QuietChange(s, Enter(Append(s, e), c, f), c) && QuietChange(s, Leave(Append(s, e), c), c)
  {
    QuietMove(s, Append(s, e), c, f);
  }

  lemma BeginIsQuiet(cfg: Config, s: State, step: Step)
    requires Enabled(cfg, s, step) && !step.op.Continue? && !step.op.SignFails?
    ensures QuietChange(s, Next(cfg, s, step), step.call)
  {}

  lemma BeginConserves(cfg: Config, s: State, step: Step)
    requires Conserved(s) && Enabled(cfg, s, step) && !step.op.Continue? && !step.op.SignFails?
    ensures Conserved(Next(cfg, s, step))
  {
    BeginIsQuiet(cfg, s, step);
    QuietConserves(s, Next(cfg, s, step), step.call);
  }

  lemma QuietStep(cfg: Config, s: State, c: nat, now: int, jti: string)
    requires c in s.calls && Quiet(s.calls[c])
    ensures QuietChange(s, Resume(cfg, s, c, now, jti), c)
  {
    var s' := Resume(cfg, s, c, now, jti);
    var f := if c in s'.calls then s'.calls[c] else Returning(None);
    match s.calls[c]
    case EvalLog(_, _) => QuietAppend(s, c, s'.log[|s.log|], f);
    case EvalLogApproved(_, _, _) => QuietAppend(s, c, s'.log[|s.log|], f);
    case ApproveLog(_, _, _) => QuietAppend(s, c, s'.log[|s.log|], f);
    case DenyLog(_, _) => QuietAppend(s, c, s'.log[|s.log|], f);
    case MintLog(_, _) => QuietAppend(s, c, s'.log[|s.log|], f);
    case ReplayLog(_) => QuietAppend(s, c, s'.log[|s.log|], f);
    case EvalIssue(_, _) => QuietMove(s, s, c, f);
    case EvalPark(_, _) => QuietMove(s, s.(pending := s'.pending), c, f);
    case ApproveIssue(_, _) => QuietMove(s, s, c, f);
    case CallCheck(_, _, _, _, _) => QuietMove(s, s, c, f);
    case Returning(_) => QuietMove(s, s.(known := s'.known), c, f);
  }

  lemma QuietConserves(s: State, s': State, c: nat)
    requires Conserved(s) && QuietChange(s, s', c) && (c in s.calls ==> Quiet(s.calls[c]))
    ensures Conserved(s')
  {
    if s'.log != s.log {
      var e: AuditEntry :| e.event != ApiCall && s'.log == s.log + [e];
      AppendCounts(s.log, e);
    }
    Flow(s, s', c);
  }

  lemma RecordConserves(cfg: Config, s: State, c: nat, now: int, jti: string)
    requires Conserved(s) && c in s.calls && s.calls[c].CallRecord?
    ensures Conserved(Resume(cfg, s, c, now, jti))
  {
    Flow(s, Resume(cfg, s, c, now, jti), c);
  }

  lemma LoggingConserves(s: State, s': State, c: nat, e: AuditEntry, f: Frame)
    requires Conserved(s) && c in s.calls && s.calls[c].CallLog? && !f.CallLog? && e.event == ApiCall
    requires s'.dpopJti == s.dpopJti && s'.log == s.log + [e] && s'.calls == s.calls[c := f]
    ensures Conserved(s')
  {
    AppendCounts(s.log, e);
    Flow(s, s', c);
  }

  lemma LogConserves(cfg: Config, s: State, c: nat, now: int, jti: string)
    requires Conserved(s) && c in s.calls && s.calls[c].CallLog?
    ensures Conserved(Resume(cfg, s, c, now, jti))
  {
    var use := s.calls[c].use;
    var s' := Resume(cfg, s, c, now, jti);
    LoggingConserves(s, s', c, CallEntry(ApiCall, use, Jti(use.jti), true), s'.calls[c]);
  }

  lemma LeavingConserves(s: State, s': State, c: nat)
    requires Conserved(s) && c in s.calls && !s.calls[c].CallLog?
    requires s'.dpopJti == s.dpopJti && s'.log == s.log && s'.calls == s.calls - {c}
    ensures Conserved(s')
  {
    Flow(s, s', c);
  }

  lemma PayConserves(cfg: Config, s: State, c: nat, now: int, jti: string)
    requires Conserved(s) && c in s.calls && s.calls[c].PayAgent?
    ensures Conserved(Resume(cfg, s, c, now, jti))
  {
    LeavingConserves(s, Resume(cfg, s, c, now, jti), c);
  }

  lemma QuietResumeConserves(cfg: Config, s: State, c: nat, now: int, jti: string)
    requires Conserved(s) && c in s.calls && Quiet(s.calls[c])
    ensures Conserved(Resume(cfg, s, c, now, jti))
  {
    QuietStep(cfg, s, c, now, jti);
    QuietConserves(s, Resume(cfg, s, c, now, jti), c);
  }

  lemma ResumeConserves(cfg: Config, s: State, c: nat, now: int, jti: string)
    requires Conserved(s) && c in s.calls
    ensures Conserved(Resume(cfg, s, c, now, jti))
  {
    match s.calls[c]
    case CallRecord(_) => RecordConserves(cfg, s, c, now, jti);
    case CallLog(_) => LogConserves(cfg, s, c, now, jti);
    case PayAgent(_, _) => PayConserves(cfg, s, c, now, jti);
    case _ => QuietResumeConserves(cfg, s, c, now, jti);
  }

  // ---------- one use per jti ----------

  ghost predicate Logged(log: seq<AuditEntry>, jti: string) {
    exists e :: e in log && e.event == ApiCall && e.detail == Jti(jti)
  }

  /** The jti a call is holding between taking it and being done with it. */
  function Holds(f: Frame): Option<string> {
    match f
    case CallLog(use) => Some(use.jti)
    case PayAgent(use, _) => Some(use.jti)
    case _ => None
  }

  ghost predicate Paid(s: State, jti: string) {
    exists i :: 0 <= i < |s.payments| && s.payments[i].jti == jti
  }

  ghost predicate HolderOk(s: State, f: Frame) {
    match f
    case CallLog(use) => use.jti in s.dpopJti && !Logged(s.log, use.jti) && !Paid(s, use.jti)
    case PayAgent(use, _) => use.jti in s.dpopJti && Logged(s.log, use.jti) && !Paid(s, use.jti)
    case _ => true
  }

  ghost predicate UsedOnce(s: State) {
    && (forall j, k :: 0 <= j < k < |s.log| && s.log[j].event == ApiCall && s.log[k].event == ApiCall ==>
          s.log[j].detail != s.log[k].detail)
    && (forall e :: e in s.log && e.event == ApiCall ==> e.detail.Jti? && e.detail.jti in s.dpopJti)
    && (forall i :: 0 <= i < |s.payments| ==> s.payments[i].jti in s.dpopJti)
    && (forall i, j :: 0 <= i < j < |s.payments| ==> s.payments[i].jti != s.payments[j].jti)
    && (forall c :: c in s.calls ==> HolderOk(s, s.calls[c]))
    && (forall c, d :: c in s.calls && d in s.calls && c != d && Holds(s.calls[c]).Some? ==>
          Holds(s.calls[c]) != Holds(s.calls[d]))
  }

  lemma LoggedAppend(log: seq<AuditEntry>, e: AuditEntry, jti: string)
    ensures Logged(log + [e], jti) <==> Logged(log, jti) || (e.event == ApiCall && e.detail == Jti(jti))
  {
    if e.event == ApiCall && e.detail == Jti(jti) {
      assert e in log + [e];
    }
    if x :| x in log && x.event == ApiCall && x.detail == Jti(jti) {
      assert x in log + [e];
    }
  }

  /** A step of call c that takes no jti, uses none and lets c hold none. */
  lemma Idle(s: State, s': State, c: nat)
    requires UsedOnce(s) && QuietChange(s, s', c)
    ensures UsedOnce(s')
  {
    if s'.log != s.log {
      var e: AuditEntry :| e.event != ApiCall && s'.log == s.log + [e];
      forall jti ensures Logged(s'.log, jti) <==> Logged(s.log, jti) {
        LoggedAppend(s.log, e, jti);
      }
    }
    forall d | d in s'.calls ensures HolderOk(s', s'.calls[d]) {
      assert d != c ==> HolderOk(s, s.calls[d]);
    }
  }

  lemma Takes(s: State, c: nat, use: Use)
    requires UsedOnce(s) && c in s.calls && s.calls[c] == CallRecord(use) && use.jti !in s.dpopJti
    ensures UsedOnce(Enter(s.(dpopJti := s.dpopJti[use.jti := use.exp]), c, CallLog(use)))
  {
    var s' := Enter(s.(dpopJti := s.dpopJti[use.jti := use.exp]), c, CallLog(use));
    assert !Logged(s.log, use.jti);
    forall d | d in s'.calls ensures HolderOk(s', s'.calls[d]) {
      assert d != c ==> HolderOk(s, s.calls[d]);
    }
  }

  lemma Logs(s: State, c: nat, use: Use, f: Frame)
    requires UsedOnce(s) && c in s.calls && s.calls[c] == CallLog(use)
    requires f.Returning? || (f.PayAgent? && f.use == use)
    ensures UsedOnce(Enter(Append(s, CallEntry(ApiCall, use, Jti(use.jti), true)), c, f))
  {
    var e := CallEntry(ApiCall, use, Jti(use.jti), true);
    var s' := Enter(Append(s, e), c, f);
    assert HolderOk(s, s.calls[c]);
    forall jti ensures Logged(s'.log, jti) <==> Logged(s.log, jti) || jti == use.jti {
      LoggedAppend(s.log, e, jti);
    }
    forall d | d in s'.calls ensures HolderOk(s', s'.calls[d]) {
      if d != c {
        assert HolderOk(s, s.calls[d]);
        assert Holds(s.calls[c]) == Some(use.jti);
      }
    }
    forall j, k | 0 <= j < k < |s'.log| && s'.log[j].event == ApiCall && s'.log[k].event == ApiCall
      ensures s'.log[j].detail != s'.log[k].detail
    {
      assert s.log[j] in s.log;
    }
  }

  lemma Pays(s: State, c: nat, use: Use, bought: Purchase, p: Payment)
    requires UsedOnce(s) && c in s.calls && s.calls[c] == PayAgent(use, bought) && p.jti == use.jti
    ensures UsedOnce(Leave(s.(payments := s.payments + [p]), c))
  {
    var s' := Leave(s.(payments := s.payments + [p]), c);
    assert HolderOk(s, s.calls[c]);
    forall jti ensures Paid(s', jti) <==> Paid(s, jti) || jti == use.jti {
      assert s'.payments[|s.payments|] == p;
      assert forall i :: 0 <= i < |s.payments| ==> s'.payments[i] == s.payments[i];
    }
    forall d | d in s'.calls ensures HolderOk(s', s'.calls[d]) {
      assert HolderOk(s, s.calls[d]) && Holds(s.calls[c]) == Some(use.jti);
    }
  }

  lemma BeginKeepsUsedOnce(cfg: Config, s: State, step: Step)
    requires UsedOnce(s) && Enabled(cfg, s, step) && !step.op.Continue? && !step.op.SignFails?
    ensures UsedOnce(Next(cfg, s, step))
  {
    BeginIsQuiet(cfg, s, step);
    Idle(s, Next(cfg, s, step), step.call);
  }

  lemma RecordKeepsUsedOnce(cfg: Config, s: State, c: nat, now: int, jti: string)
    requires UsedOnce(s) && c in s.calls && s.calls[c].CallRecord?
    ensures UsedOnce(Resume(cfg, s, c, now, jti))
  {
    if s.calls[c].use.jti in s.dpopJti {
      Idle(s, Resume(cfg, s, c, now, jti), c);
    } else {
      Takes(s, c, s.calls[c].use);
    }
  }

  lemma PayKeepsUsedOnce(cfg: Config, s: State, c: nat, now: int, jti: string)
    requires UsedOnce(s) && c in s.calls && s.calls[c].PayAgent?
    ensures UsedOnce(Resume(cfg, s, c, now, jti))
  {
    var use, bought := s.calls[c].use, s.calls[c].bought;
    Pays(s, c, use, bought, Payment(bought.gateway, bought.claims, use.uri, use.jti, use.prover));
    Idle(s, Leave(s, c), c);
  }

  lemma ResumeKeepsUsedOnce(cfg: Config, s: State, c: nat, now: int, jti: string)
    requires UsedOnce(s) && c in s.calls
    ensures UsedOnce(Resume(cfg, s, c, now, jti))
  {
    match s.calls[c]
    case CallRecord(_) => RecordKeepsUsedOnce(cfg, s, c, now, jti);
    case CallLog(use) => Logs(s, c, use, Resume(cfg, s, c, now, jti).calls[c]);
    case PayAgent(_, _) => PayKeepsUsedOnce(cfg, s, c, now, jti);
    case _ =>
      QuietStep(cfg, s, c, now, jti);
      Idle(s, Resume(cfg, s, c, now, jti), c);
  }

  lemma StepKeepsReplay(cfg: Config, s: State, step: Step)
    requires UsedOnce(s) && Conserved(s) && Enabled(cfg, s, step)
    ensures UsedOnce(Next(cfg, s, step)) && Conserved(Next(cfg, s, step))
  {
    match step.op
    case SignFails =>
      Idle(s, Next(cfg, s, step), step.call);
      Flow(s, Next(cfg, s, step), step.call);
    case Continue(jti) =>
      ResumeKeepsUsedOnce(cfg, s, step.call, step.now, jti);
      ResumeConserves(cfg, s, step.call, step.now, jti);
    case _ =>
      BeginKeepsUsedOnce(cfg, s, step);
      BeginConserves(cfg, s, step);
  }

  lemma {:induction false} RunFromReplay(cfg: Config, s: State, steps: seq<Step>)
    requires UsedOnce(s) && Conserved(s)
    ensures var end := RunFrom(cfg, s, steps);
            end.Some? ==> UsedOnce(end.value) && Conserved(end.value)
    decreases |steps|
  {
    if steps != [] && Enabled(cfg, s, steps[0]) {
      StepKeepsReplay(cfg, s, steps[0]);
      RunFromReplay(cfg, Next(cfg, s, steps[0]), steps[1..]);
    }
  }
}
