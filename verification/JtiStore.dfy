/**
 The replay store of proof tokens. It forgets entries whose expiry has passed by its own clock reading.
 It is described exactly for arbitrary readings, and compared with a store that never forgets.
 */
module JtiStore {

  /** One call of Record: the token's jti and expiry, and the clock reading taken on entry. */
  datatype Call = Call(jti: string, exp: int, now: int)

  type Seen = map<string, int>

  /** The entries that survive the sweep: the source drops an entry once now is after its expiry. */
  function Sweep(seen: Seen, now: int): Seen {
    map jti | jti in seen && now <= seen[jti] :: seen[jti]
  }

  predicate Accepts(seen: Seen, c: Call) {
    c.jti !in Sweep(seen, c.now)
  }

  function After(seen: Seen, c: Call): Seen {
    var live := Sweep(seen, c.now);
    if c.jti in live then live else live[c.jti := c.exp]
  }

  class InMemoryJtiStore {
    var seen: Seen

    constructor ()
      ensures seen == map[]
    {
      seen := map[];
    }

    /** Sweep, check, insert; false stands for ErrReplayed. */
    method Record(jti: string, exp: int, now: int) returns (ok: bool)
      modifies this
      ensures ok == Accepts(old(seen), Call(jti, exp, now))
      ensures seen == After(old(seen), Call(jti, exp, now))
    {
      var todo := seen.Keys;
      while todo != {}
        invariant todo <= seen.Keys <= old(seen).Keys
        invariant forall id :: id in seen ==> seen[id] == old(seen)[id] && (id !in todo ==> now <= seen[id])
        invariant forall id :: id in old(seen) && now <= old(seen)[id] ==> id in seen
        decreases |todo|
      {
        var id :| id in todo;
        if now > seen[id] {
          seen := seen - {id};
        }
        todo := todo - {id};
      }
      assert seen == Sweep(old(seen), now);
      if jti in seen {
        return false;
      }
      seen := seen[jti := exp];
      return true;
    }
  }

  // ---------- runs ----------

  function Run(calls: seq<Call>): Seen {
    if calls == [] then map[] else After(Run(calls[..|calls| - 1]), calls[|calls| - 1])
  }

  predicate Accepted(calls: seq<Call>, i: nat)
    requires i < |calls|
  {
    Accepts(Run(calls[..i]), calls[i])
  }

  /** No clock reading from call i + 1 up to call k (k itself included) is past the expiry recorded by call i. */
  ghost predicate StillLive(calls: seq<Call>, i: nat, k: nat)
    requires i < |calls|
  {
    forall j :: i < j <= k && j < |calls| ==> calls[j].now <= calls[i].exp
  }

  /** Entry i is what the store remembers for its jti after the first k calls. */
  ghost predicate Remembered(calls: seq<Call>, i: nat, k: nat)
    requires k <= |calls|
  {
    i < k && Accepted(calls, i) && StillLive(calls, i, k - 1)
  }

  lemma RunPrefix(calls: seq<Call>, k: nat)
    requires k < |calls|
    ensures Run(calls[..k + 1]) == After(Run(calls[..k]), calls[k])
  {
    assert calls[..k + 1][..k] == calls[..k];
  }

  lemma RememberedStep(calls: seq<Call>, i: nat, k: nat)
    requires i < k < |calls|
    ensures Remembered(calls, i, k + 1) <==> Remembered(calls, i, k) && calls[k].now <= calls[i].exp
  {
    if Remembered(calls, i, k) && calls[k].now <= calls[i].exp {
      forall j | i < j <= k && j < |calls| ensures calls[j].now <= calls[i].exp {
        assert j < k ==> StillLive(calls, i, k - 1);
      }
    }
  }

  /** What the sweep of call k leaves: the entries remembered after it, other than its own. */
  lemma SweptExactly(calls: seq<Call>, k: nat, jti: string)
    requires k < |calls|
    requires jti in Run(calls[..k]) <==> exists i :: 0 <= i < k && Remembered(calls, i, k) && calls[i].jti == jti
    requires forall i :: 0 <= i < k && Remembered(calls, i, k) && calls[i].jti == jti ==>
               Run(calls[..k])[jti] == calls[i].exp
    ensures var swept := Sweep(Run(calls[..k]), calls[k].now);
            && (jti in swept <==> exists i :: 0 <= i < k && Remembered(calls, i, k + 1) && calls[i].jti == jti)
            && (forall i :: 0 <= i < k && Remembered(calls, i, k + 1) && calls[i].jti == jti ==>
                swept[jti] == calls[i].exp)
  {
    forall i | 0 <= i < k
      ensures Remembered(calls, i, k + 1) <==> Remembered(calls, i, k) && calls[k].now <= calls[i].exp
    {
      RememberedStep(calls, i, k);
    }
    var swept := Sweep(Run(calls[..k]), calls[k].now);
    if jti in swept {
      var i :| 0 <= i < k && Remembered(calls, i, k) && calls[i].jti == jti;
      assert Remembered(calls, i, k + 1);
    }
    forall i | 0 <= i < k && Remembered(calls, i, k + 1) && calls[i].jti == jti
      ensures jti in swept && swept[jti] == calls[i].exp
    {
      assert Remembered(calls, i, k);
    }
  }

  /** The store holds exactly the accepted entries no reading since has outlived, under their own expiry. */
  lemma {:induction false} SeenExactly(calls: seq<Call>, k: nat, jti: string)
    requires k <= |calls|
    ensures jti in Run(calls[..k]) <==> exists i :: 0 <= i < k && Remembered(calls, i, k) && calls[i].jti == jti
    ensures forall i :: 0 <= i < k && Remembered(calls, i, k) && calls[i].jti == jti ==>
              Run(calls[..k])[jti] == calls[i].exp
  {
    if k > 0 {
      var last := k - 1;
      SeenExactly(calls, last, jti);
      SweptExactly(calls, last, jti);
      RunPrefix(calls, last);
      var swept := Sweep(Run(calls[..last]), calls[last].now);
      assert Remembered(calls, last, k) <==> calls[last].jti !in swept;
      if jti in Run(calls[..k]) && jti !in swept {
        assert jti == calls[last].jti && Remembered(calls, last, k);
      }
      if jti in swept {
        assert jti in Run(calls[..k]) && Run(calls[..k])[jti] == swept[jti];
      }
    }
  }

  /**
   Refinement, for any clock readings: a call is accepted iff no accepted entry with its jti has stayed
   live through every reading since, the call's own included.
   */
  lemma AcceptedExactly(calls: seq<Call>, k: nat)
    requires k < |calls|
    ensures Accepted(calls, k) <==>
            !exists i :: 0 <= i < k && Accepted(calls, i) && calls[i].jti == calls[k].jti && StillLive(calls, i, k)
  {
    SeenExactly(calls, k, calls[k].jti);
    var seen := Run(calls[..k]);
    if calls[k].jti in Sweep(seen, calls[k].now) {
      var i :| 0 <= i < k && Remembered(calls, i, k) && calls[i].jti == calls[k].jti;
      assert StillLive(calls, i, k);
    }
    if i :| 0 <= i < k && Accepted(calls, i) && calls[i].jti == calls[k].jti && StillLive(calls, i, k) {
      assert Remembered(calls, i, k);
    }
  }

  ghost predicate ClockMonotone(calls: seq<Call>) {
    forall i, j :: 0 <= i < j < |calls| ==> calls[i].now <= calls[j].now
  }

  /** Every call is recorded before its own token expires. The parser's earlier reading does not ensure it. */
  ghost predicate ReachedInTime(calls: seq<Call>) {
    forall i :: 0 <= i < |calls| ==> calls[i].now <= calls[i].exp
  }

  /** The reference: a store that never forgets accepts a jti once and only once. */
  predicate NeverSeen(calls: seq<Call>, k: nat)
    requires k < |calls|
  {
    forall i :: 0 <= i < k ==> calls[i].jti != calls[k].jti
  }

  ghost predicate JtiFixesExp(calls: seq<Call>) {
    forall i, j :: 0 <= i < j < |calls| && calls[i].jti == calls[j].jti ==> calls[i].exp == calls[j].exp
  }

  lemma {:induction false} FirstUse(calls: seq<Call>, k: nat) returns (first: nat)
    requires k < |calls| && !NeverSeen(calls, k)
    ensures first < k && calls[first].jti == calls[k].jti && NeverSeen(calls, first) && Accepted(calls, first)
  {
    first :| 0 <= first < k && calls[first].jti == calls[k].jti;
    if NeverSeen(calls, first) {
      AcceptedExactly(calls, first);
    } else {
      first := FirstUse(calls, first);
    }
  }

  /** On a forward clock a jti is accepted the first time and, again and again, past its expiry; never else. */
  lemma ForwardClockExactly(calls: seq<Call>, k: nat)
    requires k < |calls| && ClockMonotone(calls) && JtiFixesExp(calls)
    ensures Accepted(calls, k) <==> NeverSeen(calls, k) || calls[k].exp < calls[k].now
  {
    AcceptedExactly(calls, k);
    if !NeverSeen(calls, k) && calls[k].now <= calls[k].exp {
      var first := FirstUse(calls, k);
      assert StillLive(calls, first, k);
    }
  }

  /** With a clock that does not run backwards, forgetting is invisible exactly where the reading is in time. */
  lemma AgreesWithFullHistory(calls: seq<Call>, k: nat)
    requires k < |calls| && ClockMonotone(calls) && JtiFixesExp(calls)
    ensures (Accepted(calls, k) <==> NeverSeen(calls, k)) <==> NeverSeen(calls, k) || calls[k].now <= calls[k].exp
  {
    ForwardClockExactly(calls, k);
  }

  /** last is the latest call before call k with call k's jti. */
  ghost predicate LastUse(calls: seq<Call>, last: nat, k: nat)
    requires k < |calls|
  {
    && last < k && calls[last].jti == calls[k].jti
    && forall j :: last < j < k ==> calls[j].jti != calls[k].jti
  }

  /** Accepted or not, a jti just used is in the store under its expiry. */
  lemma EntryAfterUse(calls: seq<Call>, last: nat)
    requires last < |calls| && JtiFixesExp(calls)
    ensures calls[last].jti in Run(calls[..last + 1]) && Run(calls[..last + 1])[calls[last].jti] == calls[last].exp
  {
    RunPrefix(calls, last);
    SeenExactly(calls, last, calls[last].jti);
  }

  /** Until it is used again, it stays there exactly while no reading is past that expiry. */
  lemma {:induction false} EntryStays(calls: seq<Call>, last: nat, m: nat)
    requires last < m <= |calls| && JtiFixesExp(calls)
    requires forall j :: last < j < m ==> calls[j].jti != calls[last].jti
    ensures calls[last].jti in Run(calls[..m]) <==> forall j :: last < j < m ==> calls[j].now <= calls[last].exp
    ensures calls[last].jti in Run(calls[..m]) ==> Run(calls[..m])[calls[last].jti] == calls[last].exp
  {
    if m == last + 1 {
      EntryAfterUse(calls, last);
    } else {
      EntryStays(calls, last, m - 1);
      RunPrefix(calls, m - 1);
    }
  }

  /** For arbitrary readings: a jti is accepted again iff some reading since its last use was past its expiry. */
  lemma AnyClockExactly(calls: seq<Call>, last: nat, k: nat)
    requires k < |calls| && LastUse(calls, last, k) && JtiFixesExp(calls)
    ensures Accepted(calls, k) <==> exists j :: last < j <= k && calls[k].exp < calls[j].now
  {
    EntryStays(calls, last, k);
  }

  /** A token parsed just before its expiry and recorded just after it gets in twice, on a forward clock. */
  lemma RecordedPastExpiryAcceptsTwice()
    ensures var calls := [Call("a", 10, 5), Call("a", 10, 11)];
            ClockMonotone(calls) && JtiFixesExp(calls) && Accepted(calls, 0) && Accepted(calls, 1)
  {
    var calls := [Call("a", 10, 5), Call("a", 10, 11)];
    ForwardClockExactly(calls, 0);
    ForwardClockExactly(calls, 1);
  }

  /** On a clock that runs backwards it gets in twice even though each of its uses is recorded in time. */
  lemma LateReadingAcceptsTwice()
    ensures var calls := [Call("a", 10, 5), Call("b", 30, 20), Call("a", 10, 9)];
            ReachedInTime(calls) && JtiFixesExp(calls) && Accepted(calls, 0) && Accepted(calls, 2)
  {
    var calls := [Call("a", 10, 5), Call("b", 30, 20), Call("a", 10, 9)];
    AcceptedExactly(calls, 0);
    AnyClockExactly(calls, 0, 2);
    assert calls[2].exp < calls[1].now;
  }

  // ---------- memory ----------

  /** The calls accepted no more than ttl before the latest reading. */
  ghost function RecentlyAccepted(calls: seq<Call>, ttl: nat): set<int>
    requires calls != []
  {
    set i | 0 <= i < |calls| && Accepted(calls, i) && calls[|calls| - 1].now <= calls[i].now + ttl
  }

  lemma {:induction false} ImageNoLarger(keys: set<string>, indices: set<int>, calls: seq<Call>)
    requires forall i :: i in indices ==> 0 <= i < |calls|
    requires forall key :: key in keys ==> exists i :: i in indices && calls[i].jti == key
    ensures |keys| <= |indices|
    decreases indices
  {
    if keys != {} {
      var key :| key in keys;
      var i :| i in indices && calls[i].jti == key;
      assert forall other :: other in keys - {key} ==> exists j :: j in indices - {i} && calls[j].jti == other;
      ImageNoLarger(keys - {key}, indices - {i}, calls);
      assert |keys| == |keys - {key}| + 1 && |indices| == |indices - {i}| + 1;
    }
  }

  /** When tokens live at most ttl, the store is never larger than the acceptances of the last ttl. */
  lemma SizeBound(calls: seq<Call>, ttl: nat)
    requires calls != [] && forall i :: 0 <= i < |calls| ==> calls[i].exp <= calls[i].now + ttl
    ensures |Run(calls)| <= |RecentlyAccepted(calls, ttl)|
  {
    var n := |calls|;
    assert calls[..n] == calls;
    forall jti | jti in Run(calls).Keys
      ensures exists i :: i in RecentlyAccepted(calls, ttl) && calls[i].jti == jti
    {
      SeenExactly(calls, n, jti);
      var i :| 0 <= i < n && Remembered(calls, i, n) && calls[i].jti == jti;
      assert i < n - 1 ==> calls[n - 1].now <= calls[i].exp;
      assert i in RecentlyAccepted(calls, ttl);
    }
    ImageNoLarger(Run(calls).Keys, RecentlyAccepted(calls, ttl), calls);
  }
}
