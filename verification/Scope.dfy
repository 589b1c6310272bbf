/** Scope lists of on-behalf-of tokens: delegation hands on what was asked for, and never more than was granted. */
module Scope {
  import opened Wrappers

  /** The code points unicode.IsSpace counts as white space, at which strings.Fields cuts. */
  predicate IsSpace(c: char) {
    var u := c as int;
    || 9 <= u <= 13 || u == 0x20 || u == 0x85 || u == 0xA0 || u == 0x1680 || 0x2000 <= u <= 0x200A
    || u == 0x2028 || u == 0x2029 || u == 0x202F || u == 0x205F || u == 0x3000
  }

  /** The 25 code points with the property White_Space. */
  lemma WhiteSpaceExactly(c: char)
    ensures IsSpace(c) <==>
            c as int in
              { 9, 10, 11, 12, 13, 0x20, 0x85, 0xA0, 0x1680, 0x2000, 0x2001, 0x2002, 0x2003, 0x2004, 0x2005, 0x2006,
                0x2007, 0x2008, 0x2009, 0x200A, 0x2028, 0x2029, 0x202F, 0x205F, 0x3000 }
  {}

  /** Length of the leading run of characters that are all (or all not) white space. */
  function RunLength(s: string, space: bool): (n: nat)
    ensures n <= |s|
    ensures forall i :: 0 <= i < n ==> IsSpace(s[i]) == space
    ensures n < |s| ==> IsSpace(s[n]) != space
  {
    if s == [] || IsSpace(s[0]) != space then 0
    else
      var n := RunLength(s[1..], space);
      assert forall i :: 0 < i < n + 1 ==> s[i] == s[1..][i - 1];
      n + 1
  }

  /** The maximal runs of non-space characters, in order. */
  function Fields(s: string): seq<string>
    decreases |s|
  {
    var text := s[RunLength(s, true)..];
    if text == [] then []
    else
      var n := RunLength(text, false);
      if n == 0 then [] else [text[..n]] + Fields(text[n..])
  }

  function JoinSpace(parts: seq<string>): string {
    if parts == [] then "" else if |parts| == 1 then parts[0] else parts[0] + " " + JoinSpace(parts[1..])
  }

  ghost predicate Word(w: string) {
    w != [] && forall i :: 0 <= i < |w| ==> !IsSpace(w[i])
  }

  ghost predicate Words(parts: seq<string>) {
    forall i :: 0 <= i < |parts| ==> Word(parts[i])
  }

  lemma {:induction false} FieldsAreWords(s: string)
    ensures Words(Fields(s))
    decreases |s|
  {
    var text := s[RunLength(s, true)..];
    if text != [] {
      var n := RunLength(text, false);
      if n > 0 {
        FieldsAreWords(text[n..]);
      }
    }
  }

  lemma {:induction false} WordRun(w: string, rest: string)
    requires forall i :: 0 <= i < |w| ==> !IsSpace(w[i])
    requires rest == [] || IsSpace(rest[0])
    ensures RunLength(w + rest, false) == |w|
  {
    if w == [] {
      assert w + rest == rest;
    } else {
      assert (w + rest)[1..] == w[1..] + rest;
      WordRun(w[1..], rest);
    }
  }

  lemma FieldsOfWord(w: string, rest: string)
    requires Word(w) && (rest == [] || IsSpace(rest[0]))
    ensures Fields(w + rest) == [w] + Fields(rest)
  {
    var s := w + rest;
    assert s[0] == w[0] && RunLength(s, true) == 0 && s[0..] == s;
    WordRun(w, rest);
    assert s[..|w|] == w && s[|w|..] == rest;
  }

  /** Leading white space of any kind is skipped; with FieldsOfWord this says what Fields makes of every string. */
  lemma FieldsAfterSpace(c: char, rest: string)
    requires IsSpace(c)
    ensures Fields([c] + rest) == Fields(rest)
  {
    assert ([c] + rest)[1..] == rest;
    assert ([c] + rest)[1 + RunLength(rest, true)..] == rest[RunLength(rest, true)..];
  }

  lemma FieldsOfPair(w: string, rest: string)
    requires Word(w)
    ensures Fields(w + " " + rest) == [w] + Fields(rest)
  {
    assert w + " " + rest == w + (" " + rest);
    FieldsOfWord(w, " " + rest);
    FieldsAfterSpace(' ', rest);
  }

  lemma FieldsOfLast(w: string)
    requires Word(w)
    ensures Fields(w) == [w]
  {
    assert w + [] == w;
    FieldsOfWord(w, []);
    assert Fields([]) == [];
  }

  /** Fields undoes the join of any words. */
  lemma {:induction false} FieldsOfJoin(parts: seq<string>)
    requires Words(parts)
    ensures Fields(JoinSpace(parts)) == parts
  {
    if |parts| == 1 {
      FieldsOfLast(parts[0]);
      assert parts == [parts[0]];
    } else if |parts| > 1 {
      FieldsOfJoin(parts[1..]);
      FieldsOfPair(parts[0], JoinSpace(parts[1..]));
      assert parts == [parts[0]] + parts[1..];
    }
  }

  function ScopeSet(scope: string): set<string> {
    set s | s in Fields(scope)
  }

  /** The scope granted for a request, or the first requested scope that was not granted. */
  function ResolveScope(granted: string, requested: string): Result<string, string> {
    if requested == "" then Ok(granted)
    else
      var list := Fields(requested);
      var bad := FirstOutside(list, ScopeSet(granted));
      if bad < |list| then Err(list[bad]) else Ok(JoinSpace(list))
  }

  function FirstOutside(list: seq<string>, allowed: set<string>): (i: nat)
    ensures i <= |list|
    ensures i < |list| ==> list[i] !in allowed
    ensures forall j :: 0 <= j < i ==> list[j] in allowed
  {
    if list == [] || list[0] !in allowed then 0
    else
      var i := FirstOutside(list[1..], allowed);
      assert forall j :: 0 < j < i + 1 ==> list[j] == list[1..][j - 1];
      i + 1
  }

  method BuildScopeSet(scope: string) returns (m: set<string>)
    ensures m == ScopeSet(scope)
  {
    var list := Fields(scope);
    m := {};
    for i := 0 to |list|
      invariant m == set s | s in list[..i]
    {
      assert list[..i + 1] == list[..i] + [list[i]];
      m := m + {list[i]};
    }
    assert list[..|list|] == list;
  }

  method Resolve(granted: string, requested: string) returns (r: Result<string, string>)
    ensures r == ResolveScope(granted, requested)
  {
    if requested == "" {
      return Ok(granted);
    }
    var grantedSet := BuildScopeSet(granted);
    var list := Fields(requested);
    for i := 0 to |list|
      invariant forall j :: 0 <= j < i ==> list[j] in grantedSet
    {
      if list[i] !in grantedSet {
        assert FirstOutside(list, grantedSet) == i;
        return Err(list[i]);
      }
    }
    assert FirstOutside(list, grantedSet) == |list|;
    return Ok(JoinSpace(list));
  }

  /** Exactly what delegation grants: the requested list, when all of it was granted; never anything wider. */
  lemma ResolveExactly(granted: string, requested: string)
    ensures var r := ResolveScope(granted, requested);
            && (r.Ok? <==> requested == "" || ScopeSet(requested) <= ScopeSet(granted))
            && (r.Ok? ==> ScopeSet(r.value) <= ScopeSet(granted))
            && (r.Ok? && requested != "" ==> Fields(r.value) == Fields(requested))
            && (r.Ok? && requested == "" ==> r.value == granted)
            && (r.Err? ==> exists i :: 0 <= i < |Fields(requested)| && Fields(requested)[i] == r.error &&
                                       r.error !in ScopeSet(granted) &&
                                       forall j :: 0 <= j < i ==> Fields(requested)[j] in ScopeSet(granted))
  {
    var list := Fields(requested);
    FieldsAreWords(requested);
    FieldsOfJoin(list);
    var bad := FirstOutside(list, ScopeSet(granted));
    if bad < |list| {
      assert list[bad] in ScopeSet(requested);
    }
  }

  /**
   Asking again for the scope just granted grants the same list, unless the first request was blank
   without being empty: that one is granted nothing, and asking for nothing inherits everything.
   */
  lemma ResolveIdempotentExactly(granted: string, requested: string)
    requires ResolveScope(granted, requested).Ok?
    ensures var scope := ResolveScope(granted, requested).value;
            && ResolveScope(granted, scope).Ok?
            && (Fields(ResolveScope(granted, scope).value) == Fields(scope) <==>
                  requested == "" || Fields(requested) != [] || Fields(granted) == [])
  {
    ResolveExactly(granted, requested);
    var scope := ResolveScope(granted, requested).value;
    ResolveExactly(granted, scope);
    if requested != "" && Fields(requested) == [] {
      assert scope == "";
    }
  }

  /** The failing family at its smallest: a blank request is granted nothing, and the next one everything. */
  lemma BlankRequestRegainsAll()
    ensures ResolveScope("read", " ") == Ok("") && ResolveScope("read", "") == Ok("read")
    ensures Fields("") == [] && Fields("read") == ["read"]
  {
    FieldsAfterSpace(' ', "");
    assert [' '] + "" == " ";
    assert Fields("") == [];
    FieldsOfLast("read");
  }

  /** Delegating along a list of requests, each from the scope granted by the one before. */
  function Delegate(granted: string, requests: seq<string>): Result<string, string>
    decreases |requests|
  {
    if requests == [] then Ok(granted)
    else
      var r := ResolveScope(granted, requests[0]);
      if r.Err? then r else Delegate(r.value, requests[1..])
  }

  /** No sequence of delegations ends with a scope the first grant did not hold. */
  lemma {:induction false} DelegationNeverWidens(granted: string, requests: seq<string>)
    requires Delegate(granted, requests).Ok?
    ensures ScopeSet(Delegate(granted, requests).value) <= ScopeSet(granted)
    decreases |requests|
  {
    if requests != [] {
      ResolveExactly(granted, requests[0]);
      DelegationNeverWidens(ResolveScope(granted, requests[0]).value, requests[1..]);
    }
  }
}
