/**
 The agent-scoped memory store: namespaces, write-time detectors, integrity hashes checked on read, and
 a per-agent audit log from which the stored ids can be rebuilt.
 */
module Memory {
  import opened Wrappers
  import opened Jose

  const NUL: char := '\0'

  function Preimage(sub: string, content: string, createdAt: string): string {
    sub + [NUL] + content + [NUL] + createdAt
  }

  /** createdAt is the formatted time. */
  function ComputeIntegrity(sub: string, content: string, createdAt: string): Digest<string> {
    Sha256(Preimage(sub, content, createdAt))
  }

  /** Whatever NULs the contents hold, equal preimages mean equal fields when subject and time hold none. */
  lemma PreimageInjective(s: string, c: string, t: string, s': string, c': string, t': string)
    requires NUL !in s && NUL !in s' && NUL !in t && NUL !in t'
    requires Preimage(s, c, t) == Preimage(s', c', t')
    ensures s == s' && c == c' && t == t'
  {
    var p := Preimage(s, c, t);
    assert p == s + [NUL] + (c + [NUL] + t) && p == s' + [NUL] + (c' + [NUL] + t');
    FirstNul(s, c + [NUL] + t, s', c' + [NUL] + t');
    LastNul(c, t, c', t');
  }

  lemma FirstNul(a: string, b: string, a': string, b': string)
    requires NUL !in a && NUL !in a' && a + [NUL] + b == a' + [NUL] + b'
    ensures a == a' && b == b'
  {
    var p := a + [NUL] + b;
    assert p[|a|] == NUL && p[|a'|] == NUL;
    assert forall k :: 0 <= k < |a| ==> p[k] == a[k];
    assert forall k :: 0 <= k < |a'| ==> p[k] == a'[k];
    assert p[..|a|] == a && p[..|a'|] == a' && p[|a| + 1..] == b && p[|a'| + 1..] == b';
  }

  lemma LastNul(a: string, b: string, a': string, b': string)
    requires NUL !in b && NUL !in b' && a + [NUL] + b == a' + [NUL] + b'
    ensures a == a' && b == b'
  {
    var p := a + [NUL] + b;
    assert p[|a|] == NUL && p[|a'|] == NUL;
    assert forall k :: |a| < k < |p| ==> p[k] == b[k - |a| - 1];
    assert forall k :: |a'| < k < |p| ==> p[k] == b'[k - |a'| - 1];
    assert p[..|a|] == a && p[..|a'|] == a' && p[|a| + 1..] == b && p[|a'| + 1..] == b';
  }

  /**
   Exactly which two subjects can collide: those of which one, followed by NUL, begins the other. Then
   some contents give equal preimages; for all other pairs none do.
   */
  lemma CollisionExactly(s: string, s': string)
    requires s != s'
    ensures Collides(s, s') <==> s + [NUL] <= s' || s' + [NUL] <= s
  {
    if Collides(s, s') {
      var c, t, c', t' :| NUL !in t && NUL !in t' && Preimage(s, c, t) == Preimage(s', c', t');
      if |s| <= |s'| {
        PrefixOfOther(s, c, t, s', c', t');
      } else {
        PrefixOfOther(s', c', t', s, c, t);
      }
    }
    if s + [NUL] <= s' {
      LongerCollides(s, s');
    }
    if s' + [NUL] <= s {
      LongerCollides(s', s);
    }
  }

  /** Some contents, under times without NUL, give the two subjects one preimage. */
  ghost predicate Collides(s: string, s': string) {
    exists c, t, c', t' :: NUL !in t && NUL !in t' && Preimage(s, c, t) == Preimage(s', c', t')
  }

  lemma PrefixOfOther(s: string, c: string, t: string, s': string, c': string, t': string)
    requires Preimage(s, c, t) == Preimage(s', c', t') && s != s' && |s| <= |s'|
    ensures s + [NUL] <= s'
  {
    var p := Preimage(s, c, t);
    assert p[..|s|] == s && p[|s|] == NUL && p[..|s'|] == s';
    if |s| < |s'| {
      assert s' == p[..|s'|] && p[..|s| + 1] == s + [NUL];
    }
  }

  lemma LongerCollides(s: string, s': string)
    requires s + [NUL] <= s'
    ensures Collides(s, s') && Collides(s', s)
  {
    var rest := s'[|s| + 1..];
    assert s' == s + [NUL] + rest;
    assert Preimage(s, rest + [NUL], "") == Preimage(s', "", "");
  }

  /** A NUL in the subject is not harmless: two different entries can then share a preimage. */
  lemma NulInSubjectCollides()
    ensures Preimage(['a', NUL, 'b'], "c", "t") == Preimage("a", ['b', NUL, 'c'], "t")
    ensures Collides(['a', NUL, 'b'], "a")
  {}

  // ---------- detectors ----------

  const MAX_CONTENT_BYTES := 50 * 1024

  const INJECTION_PATTERNS := [
    "ignore previous", "ignore all previous", "disregard your", "new instructions:", "system prompt:",
    "you are now", "act as if", "forget everything", "your true purpose", "<|system|>", "[system]",
    "<!-- system -->", "---\nsystem:"]

  predicate Contains(s: string, p: string) {
    exists i :: 0 <= i <= |s| && p <= s[i..]
  }

  /** A pattern is contained where the text is something, the pattern, and something more. */
  lemma ContainsExactly(s: string, p: string)
    ensures Contains(s, p) <==> exists before, after :: s == before + p + after
  {
    if Contains(s, p) {
      var i :| 0 <= i <= |s| && p <= s[i..];
      assert s == s[..i] + p + s[i + |p|..];
    }
    if before, after :| s == before + p + after {
      assert s[|before|..] == p + after;
    }
  }

  datatype Detector = SizeAnomaly | PromptInjection

  /** The lower-casing function is the standard library's; any will do. */
  ghost predicate Clean(lower: string -> string, content: string) {
    |content| <= MAX_CONTENT_BYTES && forall p :: p in INJECTION_PATTERNS ==> !Contains(lower(content), p)
  }

  function Verdict(lower: string -> string, content: string): Option<Detector> {
    if |content| > MAX_CONTENT_BYTES then Some(SizeAnomaly)
    else if exists p :: p in INJECTION_PATTERNS && Contains(lower(content), p) then Some(PromptInjection)
    else None
  }

  lemma VerdictExactly(lower: string -> string, content: string)
    ensures Verdict(lower, content) == None <==> Clean(lower, content)
  {}

  /** A content with one of these phrases is refused for it, unless it is refused for its size already. */
  lemma PhrasesRefused(lower: string -> string, content: string, phrase: string)
    requires phrase in
      { "ignore previous", "ignore all previous", "disregard your", "new instructions:", "system prompt:",
        "you are now", "act as if", "forget everything", "your true purpose", "<|system|>", "[system]",
        "<!-- system -->", "---\nsystem:" }
    requires Contains(lower(content), phrase)
    ensures Verdict(lower, content) == if |content| > 51200 then Some(SizeAnomaly) else Some(PromptInjection)
  {
    var ps := INJECTION_PATTERNS;
    assert ps[0] in ps && ps[1] in ps && ps[2] in ps && ps[3] in ps && ps[4] in ps && ps[5] in ps && ps[6] in ps;
    assert ps[7] in ps && ps[8] in ps && ps[9] in ps && ps[10] in ps && ps[11] in ps && ps[12] in ps;
  }

  method ValidateContent(lower: string -> string, content: string) returns (r: Option<Detector>)
    ensures r == Verdict(lower, content)
    ensures r == Some(SizeAnomaly) <==> |content| > 51200
    ensures r == None <==> |content| <= 51200 && forall p :: p in INJECTION_PATTERNS ==> !Contains(lower(content), p)
  {
    if |content| > MAX_CONTENT_BYTES {
      return Some(SizeAnomaly);
    }
    var low := lower(content);
    for i := 0 to |INJECTION_PATTERNS|
      invariant forall j :: 0 <= j < i ==> !Contains(low, INJECTION_PATTERNS[j])
    {
      if Contains(low, INJECTION_PATTERNS[i]) {
        assert INJECTION_PATTERNS[i] in INJECTION_PATTERNS;
        return Some(PromptInjection);
      }
    }
    return None;
  }

  // ---------- the store as a value ----------

  datatype Entry = Entry(id: string, sub: string, content: string, createdAt: string, integrity: Digest<string>)

  datatype Kind = Wrote | Deleted | IntegrityFailed | Rejected(detector: Detector)

  datatype Record = Record(id: string, kind: Kind)

  type Spaces<T> = map<string, seq<T>>

  datatype Store = Store(entries: Spaces<Entry>, audit: Spaces<Record>)

  datatype Output =
    | Written(e: Entry) | BadArgument | WriteRejected(detector: Detector)
    | Listed(es: seq<Entry>) | IntegrityError(id: string)
    | Removed | NotFound | Trail(rs: seq<Record>) | Tampered(hit: bool)

  datatype Op =
    | Write(agent: string, id: string, content: string, now: string)
    | Read(agent: string)
    | Delete(agent: string, id: string)
    | Audit(agent: string)
    | Tamper(agent: string, id: string, content: string)

  function Of<T>(m: Spaces<T>, agent: string): seq<T> {
    if agent in m then m[agent] else []
  }

  function Push<T>(m: Spaces<T>, agent: string, x: T): Spaces<T> {
    m[agent := Of(m, agent) + [x]]
  }

  function NewEntry(agent: string, id: string, content: string, now: string): Entry {
    Entry(id, agent, content, now, ComputeIntegrity(agent, content, now))
  }

  predicate Intact(e: Entry) {
    ComputeIntegrity(e.sub, e.content, e.createdAt) == e.integrity
  }

  /** Position of the first entry with that id, or the number of entries. */
  function FindId(es: seq<Entry>, id: string): (i: nat)
    ensures i <= |es|
    ensures i < |es| ==> es[i].id == id
    ensures forall j :: 0 <= j < i ==> es[j].id != id
  {
    if es == [] || es[0].id == id then 0
    else
      var i := FindId(es[1..], id);
      assert forall j :: 0 < j < i + 1 ==> es[j] == es[1..][j - 1];
      i + 1
  }

  ghost predicate FirstWithId(es: seq<Entry>, i: int, id: string) {
    0 <= i < |es| && es[i].id == id && forall j :: 0 <= j < i ==> es[j].id != id
  }

  function FindBroken(es: seq<Entry>): (i: nat)
    ensures i <= |es|
    ensures i < |es| ==> !Intact(es[i])
    ensures forall j :: 0 <= j < i ==> Intact(es[j])
  {
    if es == [] || !Intact(es[0]) then 0
    else
      var i := FindBroken(es[1..]);
      assert forall j :: 0 < j < i + 1 ==> es[j] == es[1..][j - 1];
      i + 1
  }

  function Apply(lower: string -> string, s: Store, op: Op): (Store, Output) {
    match op
    case Write(agent, id, content, now) =>
      if agent == "" || id == "" then (s, BadArgument)
      else
        var verdict := Verdict(lower, content);
        if verdict.Some? then
          (s.(audit := Push(s.audit, agent, Record(id, Rejected(verdict.value)))), WriteRejected(verdict.value))
        else
          var e := NewEntry(agent, id, content, now);
          (Store(Push(s.entries, agent, e), Push(s.audit, agent, Record(id, Wrote))), Written(e))
    case Read(agent) =>
      var es := Of(s.entries, agent);
      var i := FindBroken(es);
      if i < |es| then (s.(audit := Push(s.audit, agent, Record(es[i].id, IntegrityFailed))), IntegrityError(es[i].id))
      else (s, Listed(es))
    case Delete(agent, id) =>
      var es := Of(s.entries, agent);
      var i := FindId(es, id);
      if i < |es| then
        (Store(s.entries[agent := es[..i] + es[i + 1..]], Push(s.audit, agent, Record(id, Deleted))), Removed)
      else (s, NotFound)
    case Audit(agent) => (s, Trail(Of(s.audit, agent)))
    case Tamper(agent, id, content) =>
      var es := Of(s.entries, agent);
      var i := FindId(es, id);
      if i < |es| then (s.(entries := s.entries[agent := es[i := es[i].(content := content)]]), Tampered(true))
      else (s, Tampered(false))
  }

  // ---------- the object ----------

  class InMemoryStore {
    const lower: string -> string
    var entries: Spaces<Entry>
    var audit: Spaces<Record>

    ghost function View(): Store
      reads this
    {
      Store(entries, audit)
    }

    constructor (lower: string -> string)
      ensures this.lower == lower && View() == Store(map[], map[])
    {
      this.lower := lower;
      entries, audit := map[], map[];
    }

    method Log(agent: string, id: string, kind: Kind)
      modifies this`audit
      ensures audit == old(audit)[agent := (if agent in old(audit) then old(audit)[agent] else []) + [Record(id, kind)]]
    {
      audit := audit[agent := Of(audit, agent) + [Record(id, kind)]];
    }

    method Write(agent: string, id: string, content: string, now: string) returns (r: Output)
      modifies this
      ensures (View(), r) == Apply(lower, old(View()), Op.Write(agent, id, content, now))
      ensures agent == "" || id == "" ==> r == BadArgument && View() == old(View())
      ensures agent != "" && id != "" && !Clean(lower, content) ==>
                && r == WriteRejected(if |content| > 51200 then SizeAnomaly else PromptInjection)
                && entries == old(entries) && audit == Push(old(audit), agent, Record(id, Rejected(r.detector)))
      ensures agent != "" && id != "" && Clean(lower, content) ==>
                var digest := Sha256(agent + [NUL] + content + [NUL] + now);
                && r == Written(Entry(id, agent, content, now, digest))
                && entries == Push(old(entries), agent, r.e) && audit == Push(old(audit), agent, Record(id, Wrote))
    {
      if agent == "" || id == "" {
        return BadArgument;
      }
      var verdict := ValidateContent(lower, content);
      if verdict.Some? {
        Log(agent, id, Rejected(verdict.value));
        return WriteRejected(verdict.value);
      }
      var e := Entry(id, agent, content, now, ComputeIntegrity(agent, content, now));
      entries := entries[agent := Of(entries, agent) + [e]];
      Log(agent, id, Wrote);
      return Written(e);
    }

    method Read(agent: string) returns (r: Output)
      modifies this`audit
      ensures (View(), r) == Apply(lower, old(View()), Op.Read(agent))
      ensures entries == old(entries)
      ensures (forall e :: e in Of(entries, agent) ==> Intact(e)) ==>
                r == Listed(Of(entries, agent)) && audit == old(audit)
      ensures forall i :: 0 <= i < |Of(entries, agent)| && !Intact(Of(entries, agent)[i]) &&
                          (forall j :: 0 <= j < i ==> Intact(Of(entries, agent)[j])) ==>
                && r == IntegrityError(Of(entries, agent)[i].id)
                && audit == Push(old(audit), agent, Record(r.id, IntegrityFailed))
    {
      var stored := Of(entries, agent);
      var results := [];
      while |results| < |stored|
        invariant |results| <= |stored| && results == stored[..|results|]
        invariant forall j :: 0 <= j < |results| ==> Intact(stored[j])
      {
        var e := stored[|results|];
        if ComputeIntegrity(e.sub, e.content, e.createdAt) != e.integrity {
          assert FindBroken(stored) == |results|;
          Log(agent, e.id, IntegrityFailed);
          return IntegrityError(e.id);
        }
        results := results + [e];
      }
      assert FindBroken(stored) == |stored| && results == stored;
      return Listed(results);
    }

    /** The slice keeps its order: everything after the match moves down by one. */
    method Delete(agent: string, id: string) returns (r: Output)
      modifies this
      ensures (View(), r) == Apply(lower, old(View()), Op.Delete(agent, id))
      ensures (forall e :: e in Of(old(entries), agent) ==> e.id != id) ==> r == NotFound && View() == old(View())
      ensures forall i :: FirstWithId(Of(old(entries), agent), i, id) ==>
                && r == Removed && audit == Push(old(audit), agent, Record(id, Deleted))
                && entries == old(entries)[agent := Of(old(entries), agent)[..i] + Of(old(entries), agent)[i + 1..]]
    {
      var es := Of(entries, agent);
      for i := 0 to |es|
        invariant forall j :: 0 <= j < i ==> es[j].id != id
        invariant View() == old(View())
      {
        if es[i].id == id {
          assert FindId(es, id) == i;
          entries := entries[agent := es[..i] + es[i + 1..]];
          Log(agent, id, Deleted);
          return Removed;
        }
      }
      return NotFound;
    }

    method Audit(agent: string) returns (r: Output)
      ensures (View(), r) == Apply(lower, View(), Op.Audit(agent))
      ensures r == Trail(if agent in audit then audit[agent] else [])
    {
      return Trail(Of(audit, agent));
    }

    method TamperForTesting(agent: string, id: string, content: string) returns (r: Output)
      modifies this`entries
      ensures (View(), r) == Apply(lower, old(View()), Tamper(agent, id, content))
      ensures audit == old(audit)
      ensures (forall e :: e in Of(old(entries), agent) ==> e.id != id) ==>
                r == Tampered(false) && entries == old(entries)
      ensures forall i :: FirstWithId(Of(old(entries), agent), i, id) ==>
                var es := Of(old(entries), agent);
                r == Tampered(true) && entries == old(entries)[agent := es[i := es[i].(content := content)]]
    {
      var es := Of(entries, agent);
      for i := 0 to |es|
        invariant forall j :: 0 <= j < i ==> es[j].id != id
        invariant View() == old(View())
      {
        if es[i].id == id {
          assert FindId(es, id) == i;
          entries := entries[agent := es[i := es[i].(content := content)]];
          return Tampered(true);
        }
      }
      return Tampered(false);
    }
  }

  // ---------- runs ----------

  const EMPTY: Store := Store(map[], map[])

  function Run(lower: string -> string, s: Store, ops: seq<Op>): Store
    decreases |ops|
  {
    if ops == [] then s else Run(lower, Apply(lower, s, ops[0]).0, ops[1..])
  }

  /** The ids an audit trail says are stored: writes append, deletes take out the first occurrence. */
  function Replay(trail: seq<Record>): seq<string> {
    if trail == [] then []
    else
      var before := Replay(trail[..|trail| - 1]);
      var r := trail[|trail| - 1];
      match r.kind
      case Wrote => before + [r.id]
      case Deleted => RemoveFirst(before, r.id)
      case _ => before
  }

  function RemoveFirst(ids: seq<string>, id: string): seq<string> {
    if ids == [] then []
    else if ids[0] == id then ids[1..]
    else [ids[0]] + RemoveFirst(ids[1..], id)
  }

  function Ids(es: seq<Entry>): seq<string> {
    seq(|es|, i requires 0 <= i < |es| => es[i].id)
  }

  ghost predicate Replays(s: Store) {
    forall agent: string :: Replay(Of(s.audit, agent)) == Ids(Of(s.entries, agent))
  }

  lemma ReplayPush(trail: seq<Record>, r: Record)
    ensures Replay(trail + [r]) ==
            match r.kind
            case Wrote => Replay(trail) + [r.id]
            case Deleted => RemoveFirst(Replay(trail), r.id)
            case _ => Replay(trail)
  {
    assert (trail + [r])[..|trail|] == trail;
  }

  lemma {:induction false} RemoveFirstAt(ids: seq<string>, id: string, i: nat)
    requires i <= |ids| && (i < |ids| ==> ids[i] == id) && forall j :: 0 <= j < i ==> ids[j] != id
    ensures RemoveFirst(ids, id) == if i < |ids| then ids[..i] + ids[i + 1..] else ids
  {
    if i > 0 {
      var tail := ids[1..];
      RemoveFirstAt(tail, id, i - 1);
      if i < |ids| {
        assert [ids[0]] + (tail[..i - 1] + tail[i..]) == ids[..i] + ids[i + 1..];
      } else {
        assert [ids[0]] + tail == ids;
      }
    }
  }

  lemma RemoveFirstIsCut(es: seq<Entry>, id: string)
    ensures var i := FindId(es, id);
            RemoveFirst(Ids(es), id) == Ids(if i < |es| then es[..i] + es[i + 1..] else es)
  {
    var i := FindId(es, id);
    RemoveFirstAt(Ids(es), id, i);
    if i < |es| {
      assert Ids(es)[..i] + Ids(es)[i + 1..] == Ids(es[..i] + es[i + 1..]);
    }
  }

  /** append(entries[:i], entries[i+1:]...): everything behind i moves down by one in the backing array. */
  method ShiftDown(backing: array<Entry>, i: nat, len: nat)
    requires i < len <= backing.Length
    modifies backing
    ensures forall j :: 0 <= j < backing.Length ==>
              backing[j] == if i <= j < len - 1 then old(backing[j + 1]) else old(backing[j])
    ensures backing[..len - 1] == old(backing[..len])[..i] + old(backing[..len])[i + 1..]
  {
    for k := i to len - 1
      invariant forall j :: 0 <= j < backing.Length ==>
                  backing[j] == if i <= j < k then old(backing[j + 1]) else old(backing[j])
    {
      backing[k] := backing[k + 1];
    }
  }

  /** The first match leaves the slice, which ends one earlier; its ids are those with the first occurrence removed. */
  method RemoveInPlace(backing: array<Entry>, len: nat, id: string) returns (newLen: nat)
    requires len <= backing.Length
    modifies backing
    ensures newLen == if FindId(old(backing[..len]), id) < len then len - 1 else len
    ensures Ids(backing[..newLen]) == RemoveFirst(Ids(old(backing[..len])), id)
    ensures newLen < len ==> var i := FindId(old(backing[..len]), id);
              backing[..newLen] == old(backing[..len])[..i] + old(backing[..len])[i + 1..]
    ensures newLen == len ==> backing[..] == old(backing[..])
  {
    ghost var es := backing[..len];
    RemoveFirstIsCut(es, id);
    for i := 0 to len
      invariant backing[..] == old(backing[..]) && backing[..len] == es
      invariant forall j :: 0 <= j < i ==> es[j].id != id
    {
      if backing[i].id == id {
        assert FindId(es, id) == i;
        ShiftDown(backing, i, len);
        return len - 1;
      }
    }
    assert FindId(es, id) == len;
    return len;
  }

  /** The entries of the acting agent after op: appended to, cut, edited or as they were. */
  lemma SpaceAfter(lower: string -> string, s: Store, op: Op, agent: string)
    ensures var es := Of(s.entries, agent);
            var es' := Of(Apply(lower, s, op).0.entries, agent);
            if agent != op.agent || op.Read? || op.Audit? then es' == es
            else match op
              case Write(_, id, content, now) =>
                es' == if agent == "" || id == "" || Verdict(lower, content).Some? then es
                       else es + [NewEntry(agent, id, content, now)]
              case Delete(_, id) =>
                var i := FindId(es, id); es' == if i < |es| then es[..i] + es[i + 1..] else es
              case Tamper(_, id, content) =>
                var i := FindId(es, id); es' == if i < |es| then es[i := es[i].(content := content)] else es
  {
  }

  /** The trail an operation leaves for the acting agent. */
  lemma TrailAfter(lower: string -> string, s: Store, op: Op, agent: string)
    ensures var trail := Of(s.audit, agent);
            var trail' := Of(Apply(lower, s, op).0.audit, agent);
            if agent != op.agent then trail' == trail
            else match op
              case Write(_, id, content, _) =>
                if agent == "" || id == "" then trail' == trail
                else
                  var verdict := Verdict(lower, content);
                  trail' == trail + [Record(id, if verdict.Some? then Rejected(verdict.value) else Wrote)]
              case Delete(_, id) =>
                var es := Of(s.entries, agent);
                trail' == if FindId(es, id) < |es| then trail + [Record(id, Deleted)] else trail
              case Read(_) => trail' == trail || exists id :: trail' == trail + [Record(id, IntegrityFailed)]
              case _ => trail' == trail
  {}

  lemma WriteReplays(lower: string -> string, s: Store, op: Op, agent: string)
    requires op.Write? && op.agent == agent && Replay(Of(s.audit, agent)) == Ids(Of(s.entries, agent))
    ensures Replay(Of(Apply(lower, s, op).0.audit, agent)) == Ids(Of(Apply(lower, s, op).0.entries, agent))
  {
    var es, trail := Of(s.entries, agent), Of(s.audit, agent);
    SpaceAfter(lower, s, op, agent);
    TrailAfter(lower, s, op, agent);
    if agent != "" && op.id != "" {
      var verdict := Verdict(lower, op.content);
      ReplayPush(trail, Record(op.id, if verdict.Some? then Rejected(verdict.value) else Wrote));
      assert Ids(es + [NewEntry(agent, op.id, op.content, op.now)]) == Ids(es) + [op.id];
    }
  }

  lemma DeleteReplays(lower: string -> string, s: Store, op: Op, agent: string)
    requires op.Delete? && op.agent == agent && Replay(Of(s.audit, agent)) == Ids(Of(s.entries, agent))
    ensures Replay(Of(Apply(lower, s, op).0.audit, agent)) == Ids(Of(Apply(lower, s, op).0.entries, agent))
  {
    SpaceAfter(lower, s, op, agent);
    TrailAfter(lower, s, op, agent);
    ReplayPush(Of(s.audit, agent), Record(op.id, Deleted));
    RemoveFirstIsCut(Of(s.entries, agent), op.id);
  }

  /** Reading, auditing and tampering neither add nor remove ids; a failed read is on record but replays as nothing. */
  lemma OthersReplay(lower: string -> string, s: Store, op: Op, agent: string)
    requires (agent != op.agent || (!op.Write? && !op.Delete?)) &&
             Replay(Of(s.audit, agent)) == Ids(Of(s.entries, agent))
    ensures Replay(Of(Apply(lower, s, op).0.audit, agent)) == Ids(Of(Apply(lower, s, op).0.entries, agent))
  {
    var es, trail := Of(s.entries, agent), Of(s.audit, agent);
    var trail' := Of(Apply(lower, s, op).0.audit, agent);
    SpaceAfter(lower, s, op, agent);
    TrailAfter(lower, s, op, agent);
    if trail' != trail {
      var id :| trail' == trail + [Record(id, IntegrityFailed)];
      ReplayPush(trail, Record(id, IntegrityFailed));
    }
    if op.Tamper? && agent == op.agent {
      var i := FindId(es, op.id);
      assert i < |es| ==> Ids(es[i := es[i].(content := op.content)]) == Ids(es);
    }
  }

  lemma StepReplays(lower: string -> string, s: Store, op: Op)
    requires Replays(s)
    ensures Replays(Apply(lower, s, op).0)
  {
    forall agent: string
      ensures Replay(Of(Apply(lower, s, op).0.audit, agent)) == Ids(Of(Apply(lower, s, op).0.entries, agent))
    {
      if agent == op.agent && op.Write? {
        WriteReplays(lower, s, op, agent);
      } else if agent == op.agent && op.Delete? {
        DeleteReplays(lower, s, op, agent);
      } else {
        OthersReplay(lower, s, op, agent);
      }
    }
  }

  /** In every run, replaying an agent's audit trail gives exactly the ids of its entries, in order. */
  lemma {:induction false} AuditRebuildsIds(lower: string -> string, s: Store, ops: seq<Op>)
    requires Replays(s)
    ensures Replays(Run(lower, s, ops))
    decreases |ops|
  {
    if ops != [] {
      StepReplays(lower, s, ops[0]);
      AuditRebuildsIds(lower, Apply(lower, s, ops[0]).0, ops[1..]);
    }
  }

  // ---------- isolation ----------

  function OnlyBy(ops: seq<Op>, agent: string): seq<Op> {
    if ops == [] then []
    else (if ops[0].agent == agent then [ops[0]] else []) + OnlyBy(ops[1..], agent)
  }

  /** What agent sees over a run. */
  function Outputs(lower: string -> string, s: Store, ops: seq<Op>, agent: string): seq<Output>
    decreases |ops|
  {
    if ops == [] then []
    else
      var (s', out) := Apply(lower, s, ops[0]);
      (if ops[0].agent == agent then [out] else []) + Outputs(lower, s', ops[1..], agent)
  }

  predicate SameFor(s: Store, s': Store, agent: string) {
    Of(s.entries, agent) == Of(s'.entries, agent) && Of(s.audit, agent) == Of(s'.audit, agent)
  }

  lemma StepIsLocal(lower: string -> string, s: Store, s': Store, op: Op, agent: string)
    requires SameFor(s, s', agent)
    ensures op.agent != agent ==> SameFor(Apply(lower, s, op).0, s', agent)
    ensures op.agent == agent ==>
              SameFor(Apply(lower, s, op).0, Apply(lower, s', op).0, agent) &&
                Apply(lower, s, op).1 == Apply(lower, s', op).1
  {}

  /** An agent's outputs are those of the run in which every other agent's operations are erased. */
  lemma {:induction false} Isolation(lower: string -> string, s: Store, s': Store, ops: seq<Op>, agent: string)
    requires SameFor(s, s', agent)
    ensures Outputs(lower, s, ops, agent) == Outputs(lower, s', OnlyBy(ops, agent), agent)
    decreases |ops|
  {
    if ops != [] {
      var next := Apply(lower, s, ops[0]).0;
      StepIsLocal(lower, s, s', ops[0], agent);
      if ops[0].agent == agent {
        var kept := OnlyBy(ops, agent);
        assert kept[0] == ops[0] && kept[1..] == OnlyBy(ops[1..], agent);
        Isolation(lower, next, Apply(lower, s', ops[0]).0, ops[1..], agent);
      } else {
        assert OnlyBy(ops, agent) == OnlyBy(ops[1..], agent);
        assert Outputs(lower, s, ops, agent) == Outputs(lower, next, ops[1..], agent);
        Isolation(lower, next, s', ops[1..], agent);
      }
    }
  }

  // ---------- integrity ----------

  function Untampered(ops: seq<Op>): seq<Op> {
    if ops == [] then []
    else (if ops[0].Tamper? then [] else [ops[0]]) + Untampered(ops[1..])
  }

  /** s holds what honest holds, up to the contents; honest's own hashes are all good. */
  ghost predicate Shadows(s: Store, honest: Store) {
    forall agent: string :: ShadowSpace(Of(s.entries, agent), Of(honest.entries, agent))
  }

  lemma SameIdsSameFind(es: seq<Entry>, hs: seq<Entry>, id: string)
    requires |es| == |hs| && forall i :: 0 <= i < |es| ==> es[i].id == hs[i].id
    ensures FindId(es, id) == FindId(hs, id)
  {}

  ghost predicate ShadowSpace(es: seq<Entry>, hs: seq<Entry>) {
    && |es| == |hs|
    && forall i :: 0 <= i < |es| ==> Intact(hs[i]) && es[i] == hs[i].(content := es[i].content)
  }

  lemma CutAt(es: seq<Entry>, i: nat, j: nat)
    requires i < |es| && j < |es| - 1
    ensures (es[..i] + es[i + 1..])[j] == es[if j < i then j else j + 1]
  {}

  lemma CutShadows(es: seq<Entry>, hs: seq<Entry>, id: string)
    requires ShadowSpace(es, hs)
    ensures var i := FindId(es, id);
            i == FindId(hs, id) && (i < |es| ==> ShadowSpace(es[..i] + es[i + 1..], hs[..i] + hs[i + 1..]))
  {
    SameIdsSameFind(es, hs, id);
    var i := FindId(es, id);
    if i < |es| {
      var es', hs' := es[..i] + es[i + 1..], hs[..i] + hs[i + 1..];
      forall j | 0 <= j < |es'| ensures Intact(hs'[j]) && es'[j] == hs'[j].(content := es'[j].content) {
        CutAt(es, i, j);
        CutAt(hs, i, j);
      }
    }
  }

  lemma SpaceStepShadows(lower: string -> string, s: Store, honest: Store, op: Op, agent: string)
    requires ShadowSpace(Of(s.entries, agent), Of(honest.entries, agent))
    ensures var h' := if op.Tamper? then honest else Apply(lower, honest, op).0;
            ShadowSpace(Of(Apply(lower, s, op).0.entries, agent), Of(h'.entries, agent))
  {
    SpaceAfter(lower, s, op, agent);
    if !op.Tamper? {
      SpaceAfter(lower, honest, op, agent);
    }
    if op.Delete? {
      CutShadows(Of(s.entries, agent), Of(honest.entries, agent), op.id);
    }
  }

  lemma StepShadows(lower: string -> string, s: Store, honest: Store, op: Op)
    requires Shadows(s, honest)
    ensures Shadows(Apply(lower, s, op).0, if op.Tamper? then honest else Apply(lower, honest, op).0)
  {
    var h' := if op.Tamper? then honest else Apply(lower, honest, op).0;
    forall agent: string ensures ShadowSpace(Of(Apply(lower, s, op).0.entries, agent), Of(h'.entries, agent)) {
      SpaceStepShadows(lower, s, honest, op, agent);
    }
  }

  lemma {:induction false} RunShadows(lower: string -> string, s: Store, honest: Store, ops: seq<Op>)
    requires Shadows(s, honest)
    ensures Shadows(Run(lower, s, ops), Run(lower, honest, Untampered(ops)))
    decreases |ops|
  {
    if ops != [] {
      StepShadows(lower, s, honest, ops[0]);
      if ops[0].Tamper? {
        assert Untampered(ops) == Untampered(ops[1..]);
        RunShadows(lower, Apply(lower, s, ops[0]).0, honest, ops[1..]);
      } else {
        var kept := Untampered(ops);
        assert kept[0] == ops[0] && kept[1..] == Untampered(ops[1..]);
        RunShadows(lower, Apply(lower, s, ops[0]).0, Apply(lower, honest, ops[0]).0, ops[1..]);
      }
    }
  }

  /** Changing the content and nothing else always breaks the hash. */
  lemma ContentIsHashed(e: Entry, content: string)
    requires Intact(e)
    ensures Intact(e.(content := content)) <==> content == e.content
  {
    if content != e.content {
      var p := Preimage(e.sub, content, e.createdAt);
      var q := Preimage(e.sub, e.content, e.createdAt);
      var at := |e.sub| + 1;
      if |p| == |q| {
        assert p[at..at + |content|] == content && q[at..at + |e.content|] == e.content;
      }
    }
  }

  /**
   Tamper evidence: after any run, Read succeeds for an agent iff its entries are those of the run
   without the tampering, and otherwise names the first one that is not.
   */
  lemma ReadDetectsTampering(lower: string -> string, ops: seq<Op>, agent: string)
    ensures var es := Of(Run(lower, EMPTY, ops).entries, agent);
            var hs := Of(Run(lower, EMPTY, Untampered(ops)).entries, agent);
            var out := Apply(lower, Run(lower, EMPTY, ops), Op.Read(agent)).1;
            && |es| == |hs|
            && (out == Listed(es) <==> es == hs)
            && (es != hs ==>
                exists i :: 0 <= i < |es| && es[..i] == hs[..i] && es[i] != hs[i] && out == IntegrityError(es[i].id))
  {
    RunShadows(lower, EMPTY, EMPTY, ops);
    assert ShadowSpace(Of(Run(lower, EMPTY, ops).entries, agent),
                       Of(Run(lower, EMPTY, Untampered(ops)).entries, agent));
    var es := Of(Run(lower, EMPTY, ops).entries, agent);
    var hs := Of(Run(lower, EMPTY, Untampered(ops)).entries, agent);
    forall i | 0 <= i < |es| ensures Intact(es[i]) <==> es[i] == hs[i] {
      ContentIsHashed(hs[i], es[i].content);
    }
    var b := FindBroken(es);
    assert forall j :: 0 <= j < b ==> es[j] == hs[j];
    if b < |es| {
      assert es[..b] == hs[..b] && es[b] != hs[b];
    } else {
      assert es == hs;
    }
  }

  ghost predicate AllClean(lower: string -> string, s: Store) {
    forall agent: string, e :: e in Of(s.entries, agent) ==> e.sub == agent && Clean(lower, e.content)
  }

  /**
   Without tampering, nothing stored is oversized or contains an injection pattern, and every entry is its
   agent's own.
   */
  lemma {:induction false} StoredIsClean(lower: string -> string, s: Store, ops: seq<Op>)
    requires AllClean(lower, s) && forall i :: 0 <= i < |ops| ==> !ops[i].Tamper?
    ensures AllClean(lower, Run(lower, s, ops))
    decreases |ops|
  {
    if ops != [] {
      var s' := Apply(lower, s, ops[0]).0;
      forall agent: string, e | e in Of(s'.entries, agent) ensures e.sub == agent && Clean(lower, e.content) {
        if e !in Of(s.entries, agent) {
          VerdictExactly(lower, ops[0].content);
        }
      }
      StoredIsClean(lower, s', ops[1..]);
    }
  }
}
