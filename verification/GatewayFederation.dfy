/**
 The gateway with its federation resolver: what it means that a request is forwarded for an agent whose
 issuer no static validator knows.
 */
module GatewayFederation {
  import opened Wrappers
  import opened Jose
  import opened Chain
  import opened Gateway
  import Fed = Federation

  /** The key the gateway gets for an issuer from its resolver, cache included. */
  function Answered(s: Fed.Store, anchors: Fed.Anchors, issuer: string, now: int): Option<Key> {
    var r := Fed.Cached(s, anchors, issuer, now).1;
    if r.Ok? then Fed.FirstPoint(r.value.jwks) else None
  }

  /** The resolver after registrations and resolutions. */
  function After(s: Fed.Store, anchors: Fed.Anchors, ops: seq<Fed.Op>): Fed.Store
    decreases |ops|
  {
    if ops == [] then s else After(Fed.Apply(s, anchors, ops[0]).0, anchors, ops[1..])
  }

  const EMPTY: Fed.Store := Fed.Store(map[], map[], map[])

  ghost predicate NotAfter(ops: seq<Fed.Op>, at: int) {
    forall i :: 0 <= i < |ops| && ops[i].Resolve? ==> ops[i].now <= at
  }

  /** However the resolver came to be where it is, its cache answers as a fresh resolution would. */
  lemma {:induction false} ReachedCoherent(s: Fed.Store, anchors: Fed.Anchors, ops: seq<Fed.Op>, clock: int, at: int)
    requires Fed.Coherent(s, anchors, clock) && Fed.ClockFrom(clock, ops) && clock <= at && NotAfter(ops, at)
    ensures Fed.Coherent(After(s, anchors, ops), anchors, at)
    decreases |ops|
  {
    if ops != [] {
      var next := Fed.Apply(s, anchors, ops[0]).0;
      assert forall i :: 0 <= i < |ops[1..]| ==> ops[1..][i] == ops[i + 1];
      match ops[0]
      case Resolve(id, now) =>
        Fed.ResolveStaysCoherent(s, anchors, clock, id, now);
        ReachedCoherent(next, anchors, ops[1..], now, at);
      case _ =>
        Fed.RegisterStaysCoherent(s, anchors, clock, ops[0]);
        ReachedCoherent(next, anchors, ops[1..], clock, at);
    }
  }

  /**
   The documents registered for issuer make key its key: an anchor that the issuer's own configuration
   names vouches for the key, and the configuration is signed with it.
   */
  ghost predicate Anchored(s: Fed.Store, anchors: Fed.Anchors, issuer: string, key: Key, now: int) {
    && issuer in s.configs && issuer in s.statements && s.configs[issuer].Signed? && s.statements[issuer].Signed?
    && var ec, ss := s.configs[issuer], s.statements[issuer];
       && ec.payload.issuer != "" && ec.payload.subject != ""
       && (exists h :: h in ec.payload.hints && h in anchors && Fed.Vouches(ss, anchors[h], issuer, now))
       && ss.payload.jwks != [] && ss.payload.jwks[0].point == Some(key)
       && Fed.Verify(ec, key, now).Some?
  }

  /** The resolver answers exactly the key that is the issuer's. */
  lemma AnsweredExactly(s: Fed.Store, anchors: Fed.Anchors, issuer: string, key: Key, now: int)
    requires Fed.Coherent(s, anchors, now)
    ensures Answered(s, anchors, issuer, now) == Some(key) <==> Anchored(s, anchors, issuer, key, now)
  {
    Fed.ResolveStaysCoherent(s, anchors, now, issuer, now);
    if issuer in s.configs && issuer in s.statements {
      var ec, ss := s.configs[issuer], s.statements[issuer];
      if Answered(s, anchors, issuer, now) == Some(key) {
        Fed.ResolvedExactly(ec, ss, anchors, issuer, now, Fed.Cached(s, anchors, issuer, now).1.value);
      }
      if Anchored(s, anchors, issuer, key, now) {
        AnchoredResolves(ec, ss, anchors, issuer, key, now);
      }
    }
  }

  lemma AnchoredResolves(ec: Fed.Document, ss: Fed.Document, anchors: Fed.Anchors, issuer: string, key: Key, now: int)
    requires ec.Signed? && ss.Signed? && ec.payload.issuer != "" && ec.payload.subject != ""
    requires exists h :: h in ec.payload.hints && h in anchors && Fed.Vouches(ss, anchors[h], issuer, now)
    requires ss.payload.jwks != [] && ss.payload.jwks[0].point == Some(key) && Fed.Verify(ec, key, now).Some?
    ensures var r := Fed.ResolveFresh(Some(ec), Some(ss), anchors, issuer, now);
            r.Ok? && Fed.FirstPoint(r.value.jwks) == Some(key)
  {
    Fed.HintLoop(ec.payload.hints, ss, anchors, issuer, now);
  }

  /**
   A request whose leaf no static validator accepts is forwarded only if a trust anchor vouches for the key
   that signed the leaf, through documents registered for the very issuer the leaf names; and the proof is
   signed with the workload key in that leaf.
   */
  lemma FederatedLeafIsAnchored(
    cfg: Config, s: State, r: Request, t: Readings, anchors: Fed.Anchors, ops: seq<Fed.Op>, clock: int, at: int)
    requires Fed.ClockFrom(clock, ops) && clock <= at && NotAfter(ops, at)
    requires PeekIssuer(cfg.decode, r.leaf).Some? ==>
               r.resolved == Answered(After(EMPTY, anchors, ops), anchors, PeekIssuer(cfg.decode, r.leaf).value, at)
    requires AnyValidator(cfg.decode, cfg.validators, r.leaf, t.leaf).None?
    requires Handle(cfg, s, r, t).1 == Forwarded
    ensures cfg.federated
    ensures exists agent ::
              && cfg.decode(r.leaf) == Some(agent)
              && Anchored(After(EMPTY, anchors, ops), anchors, agent.issuer, agent.signer, at)
              && r.proof.Some? && agent.workloadKey == Some(r.proof.value.signer)
  {
    var store := After(EMPTY, anchors, ops);
    ReachedCoherent(EMPTY, anchors, ops, clock, at);
    var agent := ResolveAndValidate(cfg, r, t.leaf).value;
    AnsweredExactly(store, anchors, agent.issuer, agent.signer, at);
  }
}
