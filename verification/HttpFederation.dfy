/**
 The resolver that fetches its documents. Every trust anchor serves a statement of its own, so what the
 loop over the authority hints finds can depend on their order; when it does is stated exactly.
 */
module HttpFederation {
  import opened Wrappers
  import opened Jose
  import opened Federation

  /** What fetching the statement from an authority brings; None is a failed fetch. */
  type Fetcher = string -> Option<Document>

  /** What one resolution is about: the documents that can be fetched, the anchors, the entity and the reading. */
  datatype Query = Query(ec: Document, fetch: Fetcher, anchors: Anchors, id: string, now: int)

  /** What one hint leads to; a hint that fails any check is passed over. */
  function Works(q: Query, hint: string): Option<Resolved> {
    if hint !in q.anchors || q.fetch(hint).None? then None
    else
      var ss := Verify(q.fetch(hint).value, q.anchors[hint], q.now);
      if ss.None? || ss.value.subject != q.id || ss.value.jwks == [] || ss.value.jwks[0].point.None? then None
      else
        var verified := Verify(q.ec, ss.value.jwks[0].point.value, q.now);
        if verified.None? then None
        else Some(Resolved(ss.value.jwks, Earlier(ExpOf(ss.value), ExpOf(verified.value))))
  }

  function FirstWorking(q: Query, hints: seq<string>): Option<Resolved> {
    if hints == [] then None
    else if Works(q, hints[0]).Some? then Works(q, hints[0])
    else FirstWorking(q, hints[1..])
  }

  /** Resolution without the cache. */
  function Fetched(q: Query): Option<Resolved> {
    var leaf := Parse(q.ec);
    if leaf.None? then None else FirstWorking(q, leaf.value.hints)
  }

  /** Resolution with it; ec is None when the configuration cannot be fetched. */
  function FromCache(
    cache: map<string, Resolved>, ec: Option<Document>, fetch: Fetcher, anchors: Anchors, id: string, now: int)
    : (map<string, Resolved>, Option<Resolved>)
  {
    if id in cache && now < cache[id].expiresAt then (cache, Some(cache[id]))
    else
      var r := if ec.None? then None else Fetched(Query(ec.value, fetch, anchors, id, now));
      (if r.Some? then cache[id := r.value] else cache - {id}, r)
  }

  class HttpResolver {
    const trustAnchors: Anchors
    var cache: map<string, Resolved>

    constructor (anchors: Anchors)
      ensures trustAnchors == anchors && cache == map[]
    {
      trustAnchors, cache := anchors, map[];
    }

    method Resolve(id: string, ec: Option<Document>, fetch: Fetcher, now: int) returns (r: Option<Resolved>)
      modifies this`cache
      ensures (cache, r) == FromCache(old(cache), ec, fetch, trustAnchors, id, now)
      ensures id in old(cache) && now < old(cache)[id].expiresAt ==> r == Some(old(cache)[id]) && cache == old(cache)
      ensures (id in old(cache) ==> old(cache)[id].expiresAt <= now) ==>
                && r == (if ec.None? then None else Fetched(Query(ec.value, fetch, trustAnchors, id, now)))
                && cache == if r.Some? then old(cache)[id := r.value] else old(cache) - {id}
    {
      if id in cache {
        if now < cache[id].expiresAt {
          return Some(cache[id]);
        }
        cache := cache - {id};
      }
      assert cache == old(cache) - {id};
      if ec.None? {
        return None;
      }
      var leaf := Parse(ec.value);
      if leaf.None? {
        return None;
      }
      r := TryHints(Query(ec.value, fetch, trustAnchors, id, now), leaf.value.hints);
      if r.Some? {
        cache := cache[id := r.value];
        assert cache == old(cache)[id := r.value];
      }
    }

    /** The loop over the hints: every failed check goes on to the next one. */
    method TryHints(q: Query, hints: seq<string>) returns (r: Option<Resolved>)
      ensures r == FirstWorking(q, hints)
    {
      for i := 0 to |hints|
        invariant FirstWorking(q, hints) == FirstWorking(q, hints[i..])
      {
        assert hints[i..][1..] == hints[i + 1..];
        if hints[i] !in q.anchors {
          continue;
        }
        var ss := q.fetch(hints[i]);
        if ss.None? {
          continue;
        }
        var s := Verify(ss.value, q.anchors[hints[i]], q.now);
        if s.None? || s.value.subject != q.id || s.value.jwks == [] || s.value.jwks[0].point.None? {
          continue;
        }
        var verified := Verify(q.ec, s.value.jwks[0].point.value, q.now);
        if verified.None? {
          continue;
        }
        var exp := ExpOf(s.value);
        if ExpOf(verified.value) < exp {
          exp := ExpOf(verified.value);
        }
        return Some(Resolved(s.value.jwks, exp));
      }
      return None;
    }
  }

  // ---------- what the order of the hints decides ----------

  /** The result is what the first hint that works leads to, and there is one iff some hint works. */
  lemma {:induction false} FirstWorkingExactly(q: Query, hints: seq<string>)
    ensures FirstWorking(q, hints).None? <==> forall h :: h in hints ==> Works(q, h).None?
    ensures FirstWorking(q, hints).Some? ==>
              exists i :: 0 <= i < |hints| && FirstWorking(q, hints) == Works(q, hints[i]) &&
                          forall j :: 0 <= j < i ==> Works(q, hints[j]).None?
  {
    if hints != [] {
      FirstWorkingExactly(q, hints[1..]);
      assert forall h :: h in hints <==> h == hints[0] || h in hints[1..];
      if Works(q, hints[0]).None? && FirstWorking(q, hints).Some? {
        var k :| 0 <= k < |hints[1..]| && FirstWorking(q, hints[1..]) == Works(q, hints[1..][k]) &&
                 forall j :: 0 <= j < k ==> Works(q, hints[1..][j]).None?;
        forall j | 0 <= j < k + 1 ensures Works(q, hints[j]).None? {
          assert j > 0 ==> hints[j] == hints[1..][j - 1];
        }
        assert hints[k + 1] == hints[1..][k];
      }
    }
  }

  /** Whether a resolution succeeds depends on the set of hints only. */
  lemma SuccessByHintSet(q: Query, hints: seq<string>, other: seq<string>)
    requires forall h :: h in hints <==> h in other
    ensures FirstWorking(q, hints).Some? <==> FirstWorking(q, other).Some?
  {
    FirstWorkingExactly(q, hints);
    FirstWorkingExactly(q, other);
  }

  /** All hints that work lead to the same keys and the same expiry. */
  ghost predicate WorkingAgree(q: Query, hints: seq<string>) {
    forall g, h :: g in hints && h in hints && Works(q, g).Some? && Works(q, h).Some? ==> Works(q, g) == Works(q, h)
  }

  /** No reordering of the hints changes the result. */
  ghost predicate OrderIrrelevant(q: Query, hints: seq<string>) {
    forall other :: multiset(other) == multiset(hints) ==> FirstWorking(q, other) == FirstWorking(q, hints)
  }

  /** The order of the hints is irrelevant exactly where the anchors that work agree. */
  lemma OrderIrrelevantExactly(q: Query, hints: seq<string>)
    ensures OrderIrrelevant(q, hints) <==> WorkingAgree(q, hints)
  {
    if WorkingAgree(q, hints) {
      forall other | multiset(other) == multiset(hints) ensures FirstWorking(q, other) == FirstWorking(q, hints) {
        assert forall h :: h in hints <==> h in multiset(hints);
        assert forall h :: h in other <==> h in multiset(other);
        AgreedResult(q, hints, other);
      }
    }
    if OrderIrrelevant(q, hints) {
      forall g, h | g in hints && h in hints && Works(q, g).Some? && Works(q, h).Some?
        ensures Works(q, g) == Works(q, h)
      {
        var first := MoveToFront(q, hints, g);
        var second := MoveToFront(q, hints, h);
      }
    }
  }

  /** Where the hints that work agree, repetition does not matter either. */
  lemma AgreedResult(q: Query, hints: seq<string>, other: seq<string>)
    requires WorkingAgree(q, hints) && forall h :: h in hints <==> h in other
    ensures FirstWorking(q, hints) == FirstWorking(q, other)
  {
    FirstWorkingExactly(q, hints);
    FirstWorkingExactly(q, other);
  }

  lemma MoveToFront(q: Query, hints: seq<string>, h: string) returns (other: seq<string>)
    requires h in hints && Works(q, h).Some?
    ensures multiset(other) == multiset(hints) && FirstWorking(q, other) == Works(q, h)
  {
    var i :| 0 <= i < |hints| && hints[i] == h;
    other := [h] + hints[..i] + hints[i + 1..];
    assert hints == hints[..i] + [h] + hints[i + 1..];
    assert other[0] == h;
  }

  /**
   What is resolved: an anchor the configuration names vouches for the key handed out, and that key signed
   the configuration.
   */
  lemma FetchedIsAnchored(q: Query, e: Resolved)
    requires Fetched(q) == Some(e)
    ensures FirstPoint(e.jwks).Some? && Verify(q.ec, FirstPoint(e.jwks).value, q.now).Some?
    ensures exists h :: h in q.ec.payload.hints && h in q.anchors && q.fetch(h).Some? &&
                        Vouches(q.fetch(h).value, q.anchors[h], q.id, q.now) && e.jwks == q.fetch(h).value.payload.jwks
  {
    FirstWorkingExactly(q, q.ec.payload.hints);
    var i :| 0 <= i < |q.ec.payload.hints| && Works(q, q.ec.payload.hints[i]) == Some(e);
    assert q.ec.payload.hints[i] in q.ec.payload.hints;
  }

  /** Where every anchor serves one statement, this resolver and the in-memory one give the same results. */
  lemma AgreesWithInMemory(q: Query, ss: Document, e: Resolved)
    requires forall h :: h in q.anchors ==> q.fetch(h) == Some(ss)
    ensures Fetched(q) == Some(e) <==> ResolveFresh(Some(q.ec), Some(ss), q.anchors, q.id, q.now) == Ok(e)
  {
    if Parse(q.ec).Some? {
      var hints := q.ec.payload.hints;
      HintLoop(hints, ss, q.anchors, q.id, q.now);
      FirstWorkingExactly(q, hints);
      if Trusted(hints, ss, q.anchors, q.id, q.now) {
        var h :| h in hints && h in q.anchors && Vouches(ss, q.anchors[h], q.id, q.now);
        assert forall g :: Works(q, g).Some? ==> Works(q, g) == Works(q, h);
      }
    }
  }

  // ---------- a pair of anchors that disagree ----------

  function SampleStatement(hint: string): Option<Document> {
    var exp := if hint == "a" then 20 else 30;
    Some(Signed(STATEMENT_TYPE, Some(if hint == "a" then 1 else 2),
                Statement(hint, "leaf", Some(exp), None, [Jwk("", Some(3))], [])))
  }

  function SampleQuery(hints: seq<string>): Query {
    var ec := Signed(STATEMENT_TYPE, Some(3), Statement("leaf", "leaf", Some(40), None, [], hints));
    Query(ec, hint => SampleStatement(hint), map["a" := 1, "b" := 2], "leaf", 10)
  }

  /** Two anchors that vouch until 20 and until 30: the order of the hints decides how long the result lasts. */
  lemma OrderCanMatter()
    ensures Fetched(SampleQuery(["a", "b"])) == Some(Resolved([Jwk("", Some(3))], 20))
    ensures Fetched(SampleQuery(["b", "a"])) == Some(Resolved([Jwk("", Some(3))], 30))
  {}

  // ---------- how long the cache is right ----------

  /** The same query at a later reading: nothing that can be fetched has changed. */
  function At(q: Query, now: int): Query {
    q.(now := now)
  }

  /** A hint that works goes on doing so, with the same result, until that result expires, and no longer. */
  lemma WorksUntilExpiry(q: Query, hint: string, later: int)
    requires Works(q, hint).Some? && q.now <= later
    ensures Works(At(q, later), hint) == if later < Works(q, hint).value.expiresAt then Works(q, hint) else None
  {}

  /** While the configuration is open, a hint that did not work comes to work only when its statement's nbf passes. */
  lemma WorksFromNbf(q: Query, hint: string, later: int)
    requires Works(q, hint).None? && Works(At(q, later), hint).Some? && q.now <= later
    requires q.ec.Signed? && Open(Window(q.ec.payload.exp, q.ec.payload.nbf, None), q.now)
    ensures var nbf := q.fetch(hint).value.payload.nbf; nbf.Some? && q.now < nbf.value <= later
  {}

  /**
   With nothing changed at the authorities, a cached entity stays resolvable for as long as it is served
   from the cache. It is what a fresh resolution would give exactly where the hints before the one it
   came from still lead nowhere, or the first of them that has come to work leads to the same entity.
   */
  lemma CachedExactly(q: Query, hints: seq<string>, w: nat, later: int)
    requires w < |hints| && Works(q, hints[w]).Some? && forall j :: 0 <= j < w ==> Works(q, hints[j]).None?
    requires q.now <= later < Works(q, hints[w]).value.expiresAt
    ensures var e := Works(q, hints[w]);
            var before := FirstWorking(At(q, later), hints[..w]);
            && FirstWorking(q, hints) == e && FirstWorking(At(q, later), hints).Some?
            && (FirstWorking(At(q, later), hints) == e <==> before == None || before == e)
  {
    WorksUntilExpiry(q, hints[w], later);
    SkipFailing(q, hints, w);
    Prefix(At(q, later), hints, w);
  }

  lemma {:induction false} SkipFailing(q: Query, hints: seq<string>, w: nat)
    requires w < |hints| && forall j :: 0 <= j < w ==> Works(q, hints[j]).None?
    ensures FirstWorking(q, hints) == FirstWorking(q, hints[w..])
  {
    if w > 0 {
      assert hints[1..][w - 1..] == hints[w..];
      SkipFailing(q, hints[1..], w - 1);
    }
  }

  lemma {:induction false} Prefix(q: Query, hints: seq<string>, w: nat)
    requires w <= |hints|
    ensures FirstWorking(q, hints) ==
            if FirstWorking(q, hints[..w]).Some? then FirstWorking(q, hints[..w]) else FirstWorking(q, hints[w..])
  {
    if w > 0 {
      assert hints[..w][1..] == hints[1..][..w - 1] && hints[1..][w - 1..] == hints[w..];
      Prefix(q, hints[1..], w - 1);
    }
  }

  /** As SampleQuery, but the statement of the first anchor is not valid before 15. */
  function LaterQuery(now: int): Query {
    var q := SampleQuery(["a", "b"]);
    var late := Signed(STATEMENT_TYPE, Some(1), Statement("a", "leaf", Some(20), Some(15), [Jwk("", Some(3))], []));
    q.(fetch := hint => if hint == "a" then Some(late) else SampleStatement(hint), now := now)
  }

  /** Resolved at 10 and served from the cache until 30, while from 15 on a fresh resolution gives another expiry. */
  lemma CacheCanDiffer()
    ensures Fetched(LaterQuery(10)) == Some(Resolved([Jwk("", Some(3))], 30))
    ensures Fetched(LaterQuery(16)) == Some(Resolved([Jwk("", Some(3))], 20))
  {}

  // ---------- what the resolver answers over a run ----------

  /** One call: the entity, what fetching its configuration and the statements brings, and the reading. */
  datatype Call = Call(id: string, ec: Option<Document>, fetch: Fetcher, now: int)

  /** What the call comes to without the cache. */
  function Fresh(anchors: Anchors, c: Call): Option<Resolved> {
    if c.ec.None? then None else Fetched(Query(c.ec.value, c.fetch, anchors, c.id, c.now))
  }

  function CacheAfter(anchors: Anchors, calls: seq<Call>): map<string, Resolved> {
    if calls == [] then map[]
    else
      var c := calls[|calls| - 1];
      FromCache(CacheAfter(anchors, calls[..|calls| - 1]), c.ec, c.fetch, anchors, c.id, c.now).0
  }

  /** What call k is answered. */
  function Answer(anchors: Anchors, calls: seq<Call>, k: nat): Option<Resolved>
    requires k < |calls|
  {
    var c := calls[k];
    FromCache(CacheAfter(anchors, calls[..k]), c.ec, c.fetch, anchors, c.id, c.now).1
  }

  /** Call i is the latest of the first k calls for id that was answered afresh, and its result is still kept for id. */
  ghost predicate KeptFrom(anchors: Anchors, calls: seq<Call>, i: nat, k: nat, id: string)
    requires k <= |calls|
  {
    && i < k && calls[i].id == id && Fresh(anchors, calls[i]).Some?
    && forall j :: i < j < k && calls[j].id == id ==> calls[j].now < Fresh(anchors, calls[i]).value.expiresAt
  }

  lemma CacheStep(anchors: Anchors, calls: seq<Call>, k: nat)
    requires k < |calls|
    ensures var c := calls[k];
            CacheAfter(anchors, calls[..k + 1]) ==
            FromCache(CacheAfter(anchors, calls[..k]), c.ec, c.fetch, anchors, c.id, c.now).0
  {
    assert calls[..k + 1][..k] == calls[..k];
  }

  /** A fresh resolution has not expired. */
  lemma FreshIsOpen(anchors: Anchors, c: Call)
    requires Fresh(anchors, c).Some?
    ensures c.now < Fresh(anchors, c).value.expiresAt
  {
    var q := Query(c.ec.value, c.fetch, anchors, c.id, c.now);
    FirstWorkingExactly(q, c.ec.value.payload.hints);
  }

  /** Whatever is in the cache was fetched by an earlier call for that entity. */
  lemma {:induction false} CachedWasFetched(anchors: Anchors, calls: seq<Call>, k: nat, id: string) returns (i: nat)
    requires k <= |calls| && id in CacheAfter(anchors, calls[..k])
    ensures KeptFrom(anchors, calls, i, k, id)
    ensures Fresh(anchors, calls[i]) == Some(CacheAfter(anchors, calls[..k])[id])
  {
    CacheStep(anchors, calls, k - 1);
    var c := calls[k - 1];
    var before := CacheAfter(anchors, calls[..k - 1]);
    if c.id == id && !(id in before && c.now < before[id].expiresAt) {
      i := k - 1;
    } else {
      i := CachedWasFetched(anchors, calls, k - 1, id);
    }
  }

  /**
   The resolver's own answers: an entity that is handed out has not expired. It is what fetching gives now, or
   what it gave to an earlier call for the same entity whose result has not expired for any call since.
   */
  lemma AnswerExactly(anchors: Anchors, calls: seq<Call>, k: nat)
    requires k < |calls|
    ensures var r := Answer(anchors, calls, k);
            && (r.Some? ==> calls[k].now < r.value.expiresAt)
            && (r == Fresh(anchors, calls[k]) ||
                exists i: nat :: KeptFrom(anchors, calls, i, k, calls[k].id) && Fresh(anchors, calls[i]) == r)
  {
    var c := calls[k];
    var before := CacheAfter(anchors, calls[..k]);
    if c.id in before && c.now < before[c.id].expiresAt {
      var i := CachedWasFetched(anchors, calls, k, c.id);
    } else if Fresh(anchors, c).Some? {
      FreshIsOpen(anchors, c);
    }
  }

  /** The cache is used: while the result of an earlier call lasts, later calls for the entity are answered with it. */
  lemma {:induction false} KeptIsAnswered(anchors: Anchors, calls: seq<Call>, i: nat, k: nat)
    requires i < k < |calls| && calls[k].id == calls[i].id && Answer(anchors, calls, i).Some?
    requires forall j :: i < j <= k && calls[j].id == calls[i].id ==>
               calls[j].now < Answer(anchors, calls, i).value.expiresAt
    ensures Answer(anchors, calls, k) == Answer(anchors, calls, i)
  {
    StaysKept(anchors, calls, i, k);
  }

  lemma {:induction false} StaysKept(anchors: Anchors, calls: seq<Call>, i: nat, k: nat)
    requires i < k <= |calls| && Answer(anchors, calls, i).Some?
    requires forall j :: i < j < k && calls[j].id == calls[i].id ==>
               calls[j].now < Answer(anchors, calls, i).value.expiresAt
    ensures calls[i].id in CacheAfter(anchors, calls[..k])
    ensures CacheAfter(anchors, calls[..k])[calls[i].id] == Answer(anchors, calls, i).value
  {
    CacheStep(anchors, calls, k - 1);
    if i < k - 1 {
      StaysKept(anchors, calls, i, k - 1);
    }
  }

  /** An entity whose kept result has expired, or that has none, is answered with what fetching gives now. */
  lemma ExpiredIsFetched(anchors: Anchors, calls: seq<Call>, k: nat)
    requires k < |calls|
    requires forall i :: 0 <= i < k && calls[i].id == calls[k].id && Fresh(anchors, calls[i]).Some? ==>
               Fresh(anchors, calls[i]).value.expiresAt <= calls[k].now
    ensures Answer(anchors, calls, k) == Fresh(anchors, calls[k])
  {
    if calls[k].id in CacheAfter(anchors, calls[..k]) {
      var i := CachedWasFetched(anchors, calls, k, calls[k].id);
    }
  }

  /**
   With nothing changed at the authorities and a forward clock, an answer differs from a fresh resolution
   exactly where a hint before the one it came from has meanwhile come to work and leads elsewhere.
   */
  lemma AnswerIsFreshExactly(anchors: Anchors, calls: seq<Call>, i: nat, k: nat, w: nat)
    requires i < k < |calls| && calls[i].id == calls[k].id
    requires calls[i].ec == calls[k].ec && calls[i].fetch == calls[k].fetch
    requires calls[i].now <= calls[k].now && calls[i].ec.Some? && Parse(calls[i].ec.value).Some?
    requires var q := Query(calls[i].ec.value, calls[i].fetch, anchors, calls[i].id, calls[i].now);
             var hints := calls[i].ec.value.payload.hints;
             && w < |hints| && Works(q, hints[w]).Some? && (forall j :: 0 <= j < w ==> Works(q, hints[j]).None?)
             && Answer(anchors, calls, i) == Works(q, hints[w]) && calls[k].now < Works(q, hints[w]).value.expiresAt
             && forall j :: i < j <= k && calls[j].id == calls[i].id ==>
                  calls[j].now < Works(q, hints[w]).value.expiresAt
    ensures var q := Query(calls[k].ec.value, calls[k].fetch, anchors, calls[k].id, calls[k].now);
            var before := FirstWorking(q, calls[k].ec.value.payload.hints[..w]);
            Answer(anchors, calls, k) == Fresh(anchors, calls[k]) <==>
            before == None || before == Answer(anchors, calls, k)
  {
    KeptIsAnswered(anchors, calls, i, k);
    var q := Query(calls[i].ec.value, calls[i].fetch, anchors, calls[i].id, calls[i].now);
    CachedExactly(q, calls[i].ec.value.payload.hints, w, calls[k].now);
  }

  /** With no nbf still to come among the statements the cache is right until the entity expires. */
  lemma CachedWithoutNbf(q: Query, hints: seq<string>, w: nat, later: int)
    requires w < |hints| && Works(q, hints[w]).Some? && forall j :: 0 <= j < w ==> Works(q, hints[j]).None?
    requires q.now <= later < Works(q, hints[w]).value.expiresAt
    requires forall h :: h in hints && q.fetch(h).Some? && q.fetch(h).value.Signed? ==>
               q.fetch(h).value.payload.nbf.None? || q.fetch(h).value.payload.nbf.value <= q.now
    ensures FirstWorking(At(q, later), hints) == Works(q, hints[w])
  {
    CachedExactly(q, hints, w, later);
    forall j | 0 <= j < w ensures Works(At(q, later), hints[j]).None? {
      if Works(At(q, later), hints[j]).Some? {
        WorksFromNbf(q, hints[j], later);
        assert false;
      }
    }
    FirstWorkingExactly(At(q, later), hints[..w]);
  }
}
