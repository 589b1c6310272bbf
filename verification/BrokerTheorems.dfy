/** What holds of the broker and the payment gateway after any schedule of any number of calls. */
module BrokerTheorems {
  import opened Wrappers
  import opened Policy
  import opened PaymentScope
  import opened Strings
  import opened Broker
  import opened BrokerProvenance
  import opened BrokerExclusion
  import opened BrokerReplay

  ghost predicate Reaches(cfg: Config, steps: seq<Step>, s: State) {
    Run(cfg, steps) == Some(s)
  }

  lemma Invariants(cfg: Config, steps: seq<Step>, s: State)
    requires Wired(cfg) && Reaches(cfg, steps, s)
    ensures Backed(cfg, s) && Exclusive(s) && UsedOnce(s) && Conserved(s)
  {
    RunFromBacked(cfg, INIT, steps);
    RunFromExclusive(cfg, INIT, steps);
    assert InFlight(INIT) == {};
    RunFromReplay(cfg, INIT, steps);
  }

  lemma EarlierGrant(log: seq<AuditEntry>, k: nat, event: Event, g: Grant) returns (i: nat)
    requires k <= |log| && HasGrant(log[..k], event, g)
    ensures i < k && log[i].event == event && GrantOf(log[i]) == g
  {
    var e :| e in log[..k] && e.event == event && GrantOf(e) == g;
    i :| 0 <= i < k && log[..k][i] == e;
  }

  lemma EarlierMint(log: seq<AuditEntry>, k: nat, subject: Subject) returns (i: nat)
    requires k <= |log| && HasMinted(log[..k], subject)
    ensures i < k && log[i].event == CredentialMinted && SubjectOf(log[i]) == subject
  {
    var e :| e in log[..k] && e.event == CredentialMinted && SubjectOf(e) == subject;
    i :| 0 <= i < k && log[..k][i] == e;
  }

  lemma BoundBy(log: seq<AuditEntry>, subject: Subject, jkt: Thumbprint) returns (m: nat)
    requires HasBound(log, subject, jkt)
    ensures m < |log| && log[m].event == CredentialMinted && SubjectOf(log[m]) == subject && log[m].detail == Bound(jkt)
  {
    var e :| e in log && e.event == CredentialMinted && SubjectOf(e) == subject && e.detail == Bound(jkt);
    m :| 0 <= m < |log| && log[m] == e;
  }

  /** Entries i, j and m record, in that order, the evaluation, the approval and the mint of one grant. */
  predicate CauseOf(cfg: Config, log: seq<AuditEntry>, i: int, j: int, m: int) {
    && 0 <= i < j < m < |log|
    && log[i].event == PolicyEvaluated && log[j].event == Approved && log[m].event == CredentialMinted
    && GrantOf(log[i]) == GrantOf(log[j]) == GrantOf(log[m])
    && log[m].tier == Some(TierFor(cfg, log[m].env))
  }

  lemma MintCaused(cfg: Config, log: seq<AuditEntry>, m: nat) returns (i: nat, j: nat)
    requires CausalLog(cfg, log) && m < |log| && log[m].event == CredentialMinted
    ensures CauseOf(cfg, log, i, j, m) && (log[m].tier != Some(Auto) ==> log[j].detail.By?)
  {
    assert Caused(cfg, log[..m], log[m]);
    j := EarlierGrant(log, m, Approved, GrantOf(log[m]));
    assert Caused(cfg, log[..j], log[j]);
    i := EarlierGrant(log, j, PolicyEvaluated, GrantOf(log[j]));
    assert Caused(cfg, log[..i], log[i]);
  }

  /**
   Provenance of API calls: whatever the interleaving, an api_call entry is preceded, in order, by the
   evaluation, the approval and the mint of a grant with its request id, agent and scope.
   */
  lemma EveryCallHasItsCause(cfg: Config, steps: seq<Step>, s: State, k: nat)
    requires Wired(cfg) && Reaches(cfg, steps, s)
    requires k < |s.log| && s.log[k].event == ApiCall
    ensures exists i, j, m :: CauseOf(cfg, s.log, i, j, m) && m < k && SubjectOf(s.log[m]) == SubjectOf(s.log[k])
  {
    Invariants(cfg, steps, s);
    assert Caused(cfg, s.log[..k], s.log[k]);
    var m := EarlierMint(s.log, k, SubjectOf(s.log[k]));
    var i, j := MintCaused(cfg, s.log, m);
  }

  /**
   A credential minted in a tier that needs a human has its request parked in the approved state, by a
   named approver.
   */
  lemma MintNeedsApproval(cfg: Config, steps: seq<Step>, s: State, m: nat)
    requires Wired(cfg) && Reaches(cfg, steps, s)
    requires m < |s.log| && s.log[m].event == CredentialMinted
    ensures s.log[m].tier == Some(TierFor(cfg, s.log[m].env))
    ensures s.log[m].tier != Some(Auto) ==>
              && s.log[m].requestId in s.pending && s.pending[s.log[m].requestId].state == StateApproved
              && exists j :: 0 <= j < m && s.log[j].event == Approved &&
                             GrantOf(s.log[j]) == GrantOf(s.log[m]) && s.log[j].detail.By?
  {
    Invariants(cfg, steps, s);
    var i, j := MintCaused(cfg, s.log, m);
    assert s.log[j] in s.log && IsResolution(s.log[j]);
    assert Agrees(s, s.log[j]);
  }

  /**
   Tokens are sender-constrained: a call that is about to write its api_call entry proved possession of the
   very key its credential was bound to when it was minted, so a token without that key is of no use.
   */
  lemma CallIsSenderConstrained(cfg: Config, steps: seq<Step>, s: State, c: nat)
    requires Wired(cfg) && Reaches(cfg, steps, s)
    requires c in s.calls && s.calls[c].CallLog?
    ensures var use := s.calls[c].use;
            exists i, j, m :: CauseOf(cfg, s.log, i, j, m) && SubjectOf(s.log[m]) == ClaimSubject(use.claims) &&
                              s.log[m].detail == Bound(Thumbprint(use.prover))
  {
    Invariants(cfg, steps, s);
    assert FrameBacked(cfg, s, s.calls[c]);
    var use := s.calls[c].use;
    var m := BoundBy(s.log, ClaimSubject(use.claims), Thumbprint(use.prover));
    var i, j := MintCaused(cfg, s.log, m);
  }

  /** No id is both approved and denied, and none is approved twice. */
  lemma ResolvedAtMostOnce(cfg: Config, steps: seq<Step>, s: State, j: nat, k: nat)
    requires Wired(cfg) && Reaches(cfg, steps, s)
    requires j < |s.log| && k < |s.log| && IsResolution(s.log[j]) && IsResolution(s.log[k])
    requires s.log[j].requestId == s.log[k].requestId
    ensures j == k
  {
    Invariants(cfg, steps, s);
  }

  /** The recorded DPoP jtis are exactly as many as the api_call entries and the calls about to write one. */
  lemma JtisAreConserved(cfg: Config, steps: seq<Step>, s: State)
    requires Wired(cfg) && Reaches(cfg, steps, s)
    ensures |s.dpopJti| == ApiCalls(s.log) + |InFlight(s)|
  {
    Invariants(cfg, steps, s);
  }

  /** No two successful payments, and no two api_call entries, rest on the same proof. */
  lemma ProofsAreSpentOnce(cfg: Config, steps: seq<Step>, s: State)
    requires Wired(cfg) && Reaches(cfg, steps, s)
    ensures forall i, j :: 0 <= i < j < |s.payments| ==> s.payments[i].jti != s.payments[j].jti
    ensures forall i, j :: 0 <= i < j < |s.log| && s.log[i].event == ApiCall && s.log[j].event == ApiCall ==>
              s.log[i].detail != s.log[j].detail
  {
    Invariants(cfg, steps, s);
  }

  lemma SamePieces(a: string, b: string, c: string, d: string, sep: char)
    requires sep !in a && sep !in c && a + [sep] + b == c + [sep] + d
    ensures a == c && b == d
  {
    FirstAt(a, sep, b);
    FirstAt(c, sep, d);
    var whole := a + [sep] + b;
    assert a == whole[..|a|] && b == whole[|a| + 1..];
    assert c == whole[..|c|] && d == whole[|c| + 1..];
  }

  lemma MicroPaymentOnly(asset: string, amount: string)
    requires ':' !in asset && "payment:" + asset + ":" + amount == MICRO_PAYMENT
    ensures asset == "AGENT_CREDIT" && amount == "50"
  {
    var rest := asset + [':'] + amount;
    assert MICRO_PAYMENT == "payment:" + rest;
    assert rest == MICRO_PAYMENT[8..] == "AGENT_CREDIT" + [':'] + "50";
    SamePieces(asset, amount, "AGENT_CREDIT", "50", ':');
  }

  /** Under the default policy the only payment scope approved without a human is the fifty-credit one. */
  lemma PaymentTier(asset: string, amount: string, agent: string)
    requires ':' !in asset
    requires EvaluateTier(DefaultPolicyRules(), agent, "payment:" + asset + ":" + amount) == Auto
    ensures asset == "AGENT_CREDIT" && amount == "50"
  {
    var scope := "payment:" + asset + ":" + amount;
    DefaultAutoExactly(agent, scope);
    assert "payment:" <= scope;
    MicroPaymentOnly(asset, amount);
  }

  /** Every granted payment has an api_call entry of its own, after the mint of the credential it was made with. */
  lemma PaymentHasItsCall(cfg: Config, steps: seq<Step>, s: State, n: nat) returns (i: nat, j: nat, m: nat, k: nat)
    requires Wired(cfg) && Reaches(cfg, steps, s) && n < |s.payments|
    ensures var p := s.payments[n];
            && CauseOf(cfg, s.log, i, j, m) && SubjectOf(s.log[m]) == ClaimSubject(p.claims)
            && s.log[m].detail == Bound(Thumbprint(p.prover)) && (s.log[m].tier != Some(Auto) ==> s.log[j].detail.By?)
            && m < k && CallAt(s.log, k, ClaimSubject(p.claims), p.jti, p.resource, p.prover)
  {
    var p := s.payments[n];
    assert CausalLog(cfg, s.log) && PaymentBacked(s.log, p) by {
      Invariants(cfg, steps, s);
    }
    k :| CallAt(s.log, k, ClaimSubject(p.claims), p.jti, p.resource, p.prover);
    m := BoundBy(s.log[..k], ClaimSubject(p.claims), Thumbprint(p.prover));
    i, j := MintCaused(cfg, s.log, m);
  }

  /**
   End to end: with the default policy, every payment a gateway grants at another price than
   AGENT_CREDIT:50 goes back to a parked request for exactly that price which a person approved. Its
   proof was signed with the key bound to the credential minted for it, and it has an api_call entry of
   its own jti and resource after that mint.
   */
  lemma PaymentTracesToApproval(cfg: Config, steps: seq<Step>, s: State, n: nat)
    requires Wired(cfg) && cfg.rules == DefaultPolicyRules() && Reaches(cfg, steps, s)
    requires n < |s.payments|
    requires !(s.payments[n].gateway.asset == "AGENT_CREDIT" && s.payments[n].gateway.amount == "50")
    ensures var p := s.payments[n];
            && p.claims.env.scope == "payment:" + p.gateway.asset + ":" + p.gateway.amount
            && p.claims.requestId in s.pending && s.pending[p.claims.requestId].state == StateApproved
            && exists i, j, m, k ::
                 && CauseOf(cfg, s.log, i, j, m) && SubjectOf(s.log[m]) == ClaimSubject(p.claims)
                 && s.log[j].detail.By? && s.log[m].detail == Bound(Thumbprint(p.prover))
                 && m < k && CallAt(s.log, k, ClaimSubject(p.claims), p.jti, p.resource, p.prover)
  {
    Invariants(cfg, steps, s);
    var p := s.payments[n];
    assert PaymentBacked(s.log, p);
    CheckScopeExactly(p.gateway.asset, p.gateway.amount, p.claims.env.scope);
    var i, j, m, k := PaymentHasItsCall(cfg, steps, s, n);
    if s.log[m].tier == Some(Auto) {
      PaymentTier(p.gateway.asset, p.gateway.amount, s.log[m].env.agentSvid);
    }
    MintNeedsApproval(cfg, steps, s, m);
  }
}
