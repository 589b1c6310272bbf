/**
 Trust-chain resolution with a cache. The cached resolver is proved to answer every call of every run
 as a resolver without a cache would at that instant.
 */
module Federation {
  import opened Wrappers
  import opened Jose

  /** A key of a JWK set; point is absent when the JWK does not parse to a curve point. */
  datatype Jwk = Jwk(kid: string, point: Option<Key>)

  /** The payload of an entity configuration or of a subordinate statement. */
  datatype Statement = Statement(
    issuer: string, subject: string, exp: Option<int>, nbf: Option<int>, jwks: seq<Jwk>, hints: seq<string>)

  /** A registered string: no JWT at all, or one whose signature some key made (or none did). */
  datatype Document = Garbage | Signed(typ: string, signer: Option<Key>, payload: Statement)

  const STATEMENT_TYPE := "entity-statement+jwt"

  datatype Resolved = Resolved(jwks: seq<Jwk>, expiresAt: int)

  datatype Error =
    NoConfiguration | NoStatement | BadConfiguration | NoTrustedAuthority | NoKeys | BadKey | NotSelfSigned

  type Anchors = map<string, Key>

  function Parse(doc: Document): Option<Statement> {
    if doc.Garbage? || doc.payload.issuer == "" || doc.payload.subject == "" then None else Some(doc.payload)
  }

  /** Signature by pub, the statement typ, an exp that has not passed and an nbf, if any, that has. */
  function Verify(doc: Document, pub: Key, now: int): Option<Statement> {
    if && doc.Signed? && doc.typ == STATEMENT_TYPE && doc.signer == Some(pub)
       && Open(Window(doc.payload.exp, doc.payload.nbf, None), now)
    then Some(doc.payload) else None
  }

  /** The first hint that names a trust anchor which verifies the statement about id. */
  function VerifiedBy(hints: seq<string>, ss: Document, anchors: Anchors, id: string, now: int): Option<Statement> {
    if hints == [] then None
    else if hints[0] in anchors && Vouches(ss, anchors[hints[0]], id, now) then Verify(ss, anchors[hints[0]], now)
    else VerifiedBy(hints[1..], ss, anchors, id, now)
  }

  predicate Vouches(ss: Document, anchor: Key, id: string, now: int) {
    var s := Verify(ss, anchor, now);
    s.Some? && s.value.subject == id
  }

  function Earlier(a: int, b: int): int {
    if b < a then b else a
  }

  /** The exp claim as the typed payload carries it: zero when the claim is absent. */
  function ExpOf(s: Statement): int {
    if s.exp.Some? then s.exp.value else 0
  }

  /** Resolution from the registered documents alone. */
  function ResolveFresh(ec: Option<Document>, ss: Option<Document>, anchors: Anchors, id: string,
                        now: int): Result<Resolved, Error> {
    if ec.None? then Err(NoConfiguration)
    else if ss.None? then Err(NoStatement)
    else
      var leaf := Parse(ec.value);
      if leaf.None? then Err(BadConfiguration)
      else
        var verified := VerifiedBy(leaf.value.hints, ss.value, anchors, id, now);
        if verified.None? then Err(NoTrustedAuthority)
        else if verified.value.jwks == [] then Err(NoKeys)
        else
          var key := verified.value.jwks[0].point;
          if key.None? then Err(BadKey)
          else if Verify(ec.value, key.value, now).None? then Err(NotSelfSigned)
          else Ok(Resolved(verified.value.jwks, Earlier(ExpOf(verified.value), ExpOf(leaf.value))))
  }

  // ---------- what a resolution means ----------

  /** Some hint of the configuration is an anchor that vouches for id. */
  predicate Trusted(hints: seq<string>, ss: Document, anchors: Anchors, id: string, now: int) {
    exists h :: h in hints && h in anchors && Vouches(ss, anchors[h], id, now)
  }

  /** The loop finds the statement whenever any hint would, and which hint does makes no difference. */
  lemma {:induction false} HintLoop(hints: seq<string>, ss: Document, anchors: Anchors, id: string, now: int)
    ensures VerifiedBy(hints, ss, anchors, id, now) ==
            if Trusted(hints, ss, anchors, id, now) then Some(ss.payload) else None
  {
    if hints != [] {
      HintLoop(hints[1..], ss, anchors, id, now);
      assert forall h :: h in hints <==> h == hints[0] || h in hints[1..];
      if Trusted(hints, ss, anchors, id, now) && !Trusted(hints[1..], ss, anchors, id, now) {
        var h :| h in hints && h in anchors && Vouches(ss, anchors[h], id, now);
        assert h == hints[0];
      }
    }
  }

  /** A statement of that type, signed with the key, whose exp is still to come and whose nbf, if any, has passed. */
  ghost predicate SignedAndOpen(doc: Document, key: Key, now: int) {
    && doc.Signed? && doc.typ == "entity-statement+jwt" && doc.signer == Some(key)
    && doc.payload.exp.Some? && now < doc.payload.exp.value
    && (doc.payload.nbf.Some? ==> doc.payload.nbf.value <= now)
  }

  lemma VerifyExactly(doc: Document, key: Key, now: int)
    ensures Verify(doc, key, now) == if SignedAndOpen(doc, key, now) then Some(doc.payload) else None
  {}

  /** Success, exactly: an anchor named by the configuration vouches for a key that signed the configuration. */
  lemma ResolvedExactly(ec: Document, ss: Document, anchors: Anchors, id: string, now: int, e: Resolved)
    ensures ResolveFresh(Some(ec), Some(ss), anchors, id, now) == Ok(e) <==>
            && ec.Signed? && ec.payload.issuer != "" && ec.payload.subject != ""
            && (exists h :: h in ec.payload.hints && h in anchors && SignedAndOpen(ss, anchors[h], now))
            && ss.payload.subject == id
            && ss.payload.jwks != [] && ss.payload.jwks[0].point.Some?
            && SignedAndOpen(ec, ss.payload.jwks[0].point.value, now)
            && e.jwks == ss.payload.jwks
            && e.expiresAt == if ss.payload.exp.value < ec.payload.exp.value then ss.payload.exp.value
                              else ec.payload.exp.value
    ensures ResolveFresh(Some(ec), Some(ss), anchors, id, now) == Ok(e) ==>
              Parse(ec).Some? && Trusted(ec.payload.hints, ss, anchors, id, now)
  {
    assert forall h :: h in anchors ==>
      (Vouches(ss, anchors[h], id, now) <==> SignedAndOpen(ss, anchors[h], now) && ss.payload.subject == id);
    if Parse(ec).Some? {
      HintLoop(ec.payload.hints, ss, anchors, id, now);
    }
  }

  /** Which failure is which, in the order in which they are met. */
  lemma FailuresExactly(ec: Option<Document>, ss: Option<Document>, anchors: Anchors, id: string, now: int)
    ensures var r := ResolveFresh(ec, ss, anchors, id, now);
            && (r == Err(NoConfiguration) <==> ec.None?)
            && (r == Err(NoStatement) <==> ec.Some? && ss.None?)
            && (r == Err(BadConfiguration) <==>
                  && ec.Some? && ss.Some?
                  && (ec.value.Garbage? || ec.value.payload.issuer == "" || ec.value.payload.subject == ""))
            && (r == Err(NoTrustedAuthority) ==> !Trusted(ec.value.payload.hints, ss.value, anchors, id, now))
            && (r == Err(NoKeys) ==> ss.value.Signed? && ss.value.payload.jwks == [])
            && (r == Err(BadKey) ==>
                  ss.value.Signed? && ss.value.payload.jwks != [] && ss.value.payload.jwks[0].point.None?)
            && (r == Err(NotSelfSigned) ==>
                  && ss.value.Signed? && ss.value.payload.jwks != [] && ss.value.payload.jwks[0].point.Some?
                  && !SignedAndOpen(ec.value, ss.value.payload.jwks[0].point.value, now))
  {
    if ec.Some? && ss.Some? && Parse(ec.value).Some? {
      HintLoop(ec.value.payload.hints, ss.value, anchors, id, now);
    }
  }

  /** Neither the order nor the repetition of authority hints matters. */
  lemma HintsAsASet(ec: Document, ec': Document, ss: Document, anchors: Anchors, id: string, now: int)
    requires ec.Signed? && ec'.Signed? && ec' == ec.(payload := ec.payload.(hints := ec'.payload.hints))
    requires forall h :: h in ec.payload.hints <==> h in ec'.payload.hints
    ensures ResolveFresh(Some(ec), Some(ss), anchors, id, now) == ResolveFresh(Some(ec'), Some(ss), anchors, id, now)
  {
    HintLoop(ec.payload.hints, ss, anchors, id, now);
    HintLoop(ec'.payload.hints, ss, anchors, id, now);
  }

  /** A resolution stays what it is until its expiry, and is refused from then on. */
  lemma ValidUntilExpiry(ec: Document, ss: Document, anchors: Anchors, id: string, now: int, e: Resolved, later: int)
    requires ResolveFresh(Some(ec), Some(ss), anchors, id, now) == Ok(e) && now <= later
    ensures now < e.expiresAt
    ensures later < e.expiresAt ==> ResolveFresh(Some(ec), Some(ss), anchors, id, later) == Ok(e)
    ensures later >= e.expiresAt ==> ResolveFresh(Some(ec), Some(ss), anchors, id, later).Err?
  {
    ResolvedExactly(ec, ss, anchors, id, now, e);
    var h :| h in ec.payload.hints && h in anchors && Vouches(ss, anchors[h], id, now);
    if later < e.expiresAt {
      assert Vouches(ss, anchors[h], id, later);
      ResolvedExactly(ec, ss, anchors, id, later, e);
    } else if ResolveFresh(Some(ec), Some(ss), anchors, id, later).Ok? {
      ResolvedExactly(ec, ss, anchors, id, later, ResolveFresh(Some(ec), Some(ss), anchors, id, later).value);
    }
  }

  function FirstPoint(jwks: seq<Jwk>): Option<Key> {
    if jwks == [] then None else if jwks[0].point.Some? then jwks[0].point else FirstPoint(jwks[1..])
  }

  /** ResolvedEntity.PublicKey: the first key of the set that parses. */
  method PublicKey(e: Resolved) returns (key: Option<Key>)
    ensures key == FirstPoint(e.jwks)
    ensures key.None? <==> forall i :: 0 <= i < |e.jwks| ==> e.jwks[i].point.None?
    ensures key.Some? ==> exists i :: 0 <= i < |e.jwks| && e.jwks[i].point == key &&
                                      forall j :: 0 <= j < i ==> e.jwks[j].point.None?
  {
    for i := 0 to |e.jwks|
      invariant FirstPoint(e.jwks) == FirstPoint(e.jwks[i..])
      invariant forall j :: 0 <= j < i ==> e.jwks[j].point.None?
    {
      if e.jwks[i].point.Some? {
        return e.jwks[i].point;
      }
    }
    return None;
  }

  /** The key a caller gets from a resolution is the key that verified the entity configuration. */
  lemma PublicKeyVerifies(ec: Document, ss: Document, anchors: Anchors, id: string, now: int, e: Resolved)
    requires ResolveFresh(Some(ec), Some(ss), anchors, id, now) == Ok(e)
    ensures FirstPoint(e.jwks).Some? && Verify(ec, FirstPoint(e.jwks).value, now).Some?
    ensures ec.signer == FirstPoint(e.jwks)
  {
    ResolvedExactly(ec, ss, anchors, id, now, e);
  }

  // ---------- the resolver with its cache ----------

  datatype Store =
    Store(configs: map<string, Document>, statements: map<string, Document>, cache: map<string, Resolved>)

  function Get<V>(m: map<string, V>, k: string): Option<V> {
    if k in m then Some(m[k]) else None
  }

  function Uncached(s: Store, anchors: Anchors, id: string, now: int): Result<Resolved, Error> {
    ResolveFresh(Get(s.configs, id), Get(s.statements, id), anchors, id, now)
  }

  function Cached(s: Store, anchors: Anchors, id: string, now: int): (Store, Result<Resolved, Error>) {
    if id in s.cache && now < s.cache[id].expiresAt then (s, Ok(s.cache[id]))
    else
      var r := Uncached(s, anchors, id, now);
      (s.(cache := if r.Ok? then s.cache[id := r.value] else s.cache - {id}), r)
  }

  class InMemoryResolver {
    const trustAnchors: Anchors
    var entityConfigs: map<string, Document>
    var subStatements: map<string, Document>
    var cache: map<string, Resolved>

    ghost function View(): Store
      reads this
    {
      Store(entityConfigs, subStatements, cache)
    }

    constructor (anchors: Anchors)
      ensures trustAnchors == anchors && View() == Store(map[], map[], map[])
    {
      trustAnchors := anchors;
      entityConfigs, subStatements, cache := map[], map[], map[];
    }

    method RegisterEntityConfig(id: string, doc: Document)
      modifies this
      ensures View() == Apply(old(View()), trustAnchors, RegisterConfig(id, doc)).0
    {
      entityConfigs := entityConfigs[id := doc];
      cache := cache - {id};
    }

    method RegisterSubordinateStatement(id: string, doc: Document)
      modifies this
      ensures View() == Apply(old(View()), trustAnchors, RegisterStatement(id, doc)).0
    {
      subStatements := subStatements[id := doc];
      cache := cache - {id};
    }

    method Resolve(id: string, now: int) returns (r: Result<Resolved, Error>)
      modifies this`cache
      ensures (View(), r) == Cached(old(View()), trustAnchors, id, now)
      ensures id in old(cache) && now < old(cache)[id].expiresAt ==> r == Ok(old(cache)[id]) && cache == old(cache)
      ensures r.Ok? ==> cache == old(cache)[id := r.value]
      ensures r.Err? ==> cache == old(cache) - {id}
    {
      if id in cache {
        if now < cache[id].expiresAt {
          return Ok(cache[id]);
        }
        cache := cache - {id};
      }
      assert cache == old(cache) - {id};
      if id !in entityConfigs {
        return Err(NoConfiguration);
      }
      if id !in subStatements {
        return Err(NoStatement);
      }
      var ec, ss := entityConfigs[id], subStatements[id];
      var leaf := Parse(ec);
      if leaf.None? {
        return Err(BadConfiguration);
      }
      var hints := leaf.value.hints;
      var verified: Option<Statement> := None;
      var i := 0;
      while i < |hints|
        invariant 0 <= i <= |hints|
        invariant verified == None
        invariant VerifiedBy(hints, ss, trustAnchors, id, now) == VerifiedBy(hints[i..], ss, trustAnchors, id, now)
      {
        if hints[i] in trustAnchors {
          var s := Verify(ss, trustAnchors[hints[i]], now);
          if s.Some? && s.value.subject == id {
            verified := s;
            break;
          }
        }
        i := i + 1;
      }
      assert verified == VerifiedBy(hints, ss, trustAnchors, id, now);
      if verified.None? {
        return Err(NoTrustedAuthority);
      }
      if verified.value.jwks == [] {
        return Err(NoKeys);
      }
      var key := verified.value.jwks[0].point;
      if key.None? {
        return Err(BadKey);
      }
      if Verify(ec, key.value, now).None? {
        return Err(NotSelfSigned);
      }
      var exp := ExpOf(verified.value);
      if ExpOf(leaf.value) < exp {
        exp := ExpOf(leaf.value);
      }
      var entity := Resolved(verified.value.jwks, exp);
      cache := cache[id := entity];
      assert cache == old(cache)[id := entity];
      return Ok(entity);
    }
  }

  // ---------- runs ----------

  datatype Op =
    | RegisterConfig(id: string, doc: Document)
    | RegisterStatement(id: string, doc: Document)
    | Resolve(id: string, now: int)

  function Apply(s: Store, anchors: Anchors, op: Op): (Store, Option<Result<Resolved, Error>>) {
    match op
    case RegisterConfig(id, doc) => (s.(configs := s.configs[id := doc], cache := s.cache - {id}), None)
    case RegisterStatement(id, doc) => (s.(statements := s.statements[id := doc], cache := s.cache - {id}), None)
    case Resolve(id, now) => var (s', r) := Cached(s, anchors, id, now); (s', Some(r))
  }

  /** The answers of a run with the cache. */
  function Answers(s: Store, anchors: Anchors, ops: seq<Op>): seq<Result<Resolved, Error>>
    decreases |ops|
  {
    if ops == [] then []
    else
      var (s', r) := Apply(s, anchors, ops[0]);
      (if r.Some? then [r.value] else []) + Answers(s', anchors, ops[1..])
  }

  /** The answers of the same run by a resolver that caches nothing. */
  function PlainAnswers(s: Store, anchors: Anchors, ops: seq<Op>): seq<Result<Resolved, Error>>
    decreases |ops|
  {
    if ops == [] then []
    else
      match ops[0]
      case RegisterConfig(id, doc) => PlainAnswers(s.(configs := s.configs[id := doc]), anchors, ops[1..])
      case RegisterStatement(id, doc) => PlainAnswers(s.(statements := s.statements[id := doc]), anchors, ops[1..])
      case Resolve(id, now) => [Uncached(s, anchors, id, now)] + PlainAnswers(s, anchors, ops[1..])
  }

  ghost predicate ClockFrom(clock: int, ops: seq<Op>) {
    && (forall i :: 0 <= i < |ops| && ops[i].Resolve? ==> clock <= ops[i].now)
    && (forall i, j :: 0 <= i < j < |ops| && ops[i].Resolve? && ops[j].Resolve? ==> ops[i].now <= ops[j].now)
  }

  /** Every cached entry is what a fresh resolution gives, at clock and until the entry expires. */
  ghost predicate Coherent(s: Store, anchors: Anchors, clock: int) {
    forall id, t :: id in s.cache && clock <= t < s.cache[id].expiresAt ==>
      Uncached(s, anchors, id, t) == Ok(s.cache[id])
  }

  lemma RegisterStaysCoherent(s: Store, anchors: Anchors, clock: int, op: Op)
    requires Coherent(s, anchors, clock) && !op.Resolve?
    ensures Coherent(Apply(s, anchors, op).0, anchors, clock)
  {
    var s' := Apply(s, anchors, op).0;
    forall k, t | k in s'.cache && clock <= t < s'.cache[k].expiresAt
      ensures Uncached(s', anchors, k, t) == Ok(s'.cache[k])
    {
      assert Uncached(s', anchors, k, t) == Uncached(s, anchors, k, t);
    }
  }

  lemma ResolveStaysCoherent(s: Store, anchors: Anchors, clock: int, id: string, now: int)
    requires Coherent(s, anchors, clock) && clock <= now
    ensures Coherent(Cached(s, anchors, id, now).0, anchors, now)
    ensures Cached(s, anchors, id, now).1 == Uncached(s, anchors, id, now)
  {
    var (s', r) := Cached(s, anchors, id, now);
    forall k, t | k in s'.cache && now <= t < s'.cache[k].expiresAt
      ensures Uncached(s', anchors, k, t) == Ok(s'.cache[k])
    {
      assert Uncached(s', anchors, k, t) == Uncached(s, anchors, k, t);
      if k == id && Uncached(s, anchors, id, now) == Ok(s'.cache[id]) {
        ValidUntilExpiry(s.configs[id], s.statements[id], anchors, id, now, s'.cache[id], t);
      }
    }
  }

  /** Registered documents are the ones an entity is resolved from. */
  lemma RegisteredIsResolved(anchors: Anchors, id: string, ec: Document, ss: Document, now: int)
    ensures var ops := [RegisterConfig(id, ec), RegisterStatement(id, ss), Resolve(id, now)];
            Answers(Store(map[], map[], map[]), anchors, ops) == [ResolveFresh(Some(ec), Some(ss), anchors, id, now)]
  {
    var s0 := Store(map[], map[], map[]);
    var s1 := Apply(s0, anchors, RegisterConfig(id, ec)).0;
    var s2 := Apply(s1, anchors, RegisterStatement(id, ss)).0;
    var last := [Resolve(id, now)];
    assert last[1..] == [];
    var s3 := Apply(s2, anchors, last[0]).0;
    assert Answers(s3, anchors, []) == [];
    assert Answers(s2, anchors, last) == [ResolveFresh(Some(ec), Some(ss), anchors, id, now)];
    var two := [RegisterStatement(id, ss), Resolve(id, now)];
    assert two[1..] == last;
    assert Answers(s1, anchors, two) == Answers(s2, anchors, last);
    var ops := [RegisterConfig(id, ec), RegisterStatement(id, ss), Resolve(id, now)];
    assert ops[1..] == two;
  }

  /** Cache transparency: with a clock that does not run backwards, the cache never shows in an answer. */
  lemma {:induction false} CacheIsTransparent(s: Store, s': Store, anchors: Anchors, ops: seq<Op>, clock: int)
    requires Coherent(s, anchors, clock) && ClockFrom(clock, ops)
    requires s'.configs == s.configs && s'.statements == s.statements
    ensures Answers(s, anchors, ops) == PlainAnswers(s', anchors, ops)
    decreases |ops|
  {
    if ops != [] {
      var next := Apply(s, anchors, ops[0]).0;
      match ops[0]
      case RegisterConfig(id, doc) =>
        RegisterStaysCoherent(s, anchors, clock, ops[0]);
        CacheIsTransparent(next, s'.(configs := s'.configs[id := doc]), anchors, ops[1..], clock);
      case RegisterStatement(id, doc) =>
        RegisterStaysCoherent(s, anchors, clock, ops[0]);
        CacheIsTransparent(next, s'.(statements := s'.statements[id := doc]), anchors, ops[1..], clock);
      case Resolve(id, now) =>
        ResolveStaysCoherent(s, anchors, clock, id, now);
        assert forall i :: 0 <= i < |ops[1..]| ==> ops[1..][i] == ops[i + 1];
        CacheIsTransparent(next, s', anchors, ops[1..], now);
    }
  }
}
