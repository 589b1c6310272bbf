/** Cutting strings at a separator and joining the pieces again. */
module Strings {

  /** Position of the first c in s, or |s| when there is none. */
  function IndexOf(s: string, c: char): (i: nat)
    ensures i <= |s|
    ensures c !in s[..i]
    ensures i < |s| ==> s[i] == c
  {
    if s == [] || s[0] == c then 0
    else
      var i := IndexOf(s[1..], c);
      assert s[..i + 1] == [s[0]] + s[1..][..i];
      i + 1
  }

  lemma {:induction false} FirstAt(head: string, c: char, tail: string)
    requires c !in head
    ensures IndexOf(head + [c] + tail, c) == |head|
  {
    var s := head + [c] + tail;
    if head != [] {
      assert s[1..] == head[1..] + [c] + tail;
      FirstAt(head[1..], c, tail);
    }
  }

  lemma NotFound(s: string, c: char)
    ensures IndexOf(s, c) == |s| <==> c !in s
  {
    assert s[..|s|] == s;
    if IndexOf(s, c) < |s| {
      assert s[IndexOf(s, c)] in s;
    }
  }

  function Split(s: string, sep: char): (parts: seq<string>)
    ensures parts != []
  {
    var i := IndexOf(s, sep);
    if i == |s| then [s] else [s[..i]] + Split(s[i + 1..], sep)
  }

  function Join(parts: seq<string>, sep: char): string {
    if parts == [] then ""
    else if |parts| == 1 then parts[0]
    else parts[0] + [sep] + Join(parts[1..], sep)
  }

  ghost predicate FreeOf(parts: seq<string>, sep: char) {
    forall i :: 0 <= i < |parts| ==> sep !in parts[i]
  }

  /** Joining the pieces of a string gives it back, and the pieces hold no separator. */
  lemma {:induction false} JoinSplit(s: string, sep: char)
    ensures Join(Split(s, sep), sep) == s && FreeOf(Split(s, sep), sep)
  {
    var i := IndexOf(s, sep);
    NotFound(s, sep);
    if i < |s| {
      var rest := s[i + 1..];
      JoinSplit(rest, sep);
      var parts := [s[..i]] + Split(rest, sep);
      assert parts[1..] == Split(rest, sep) && |parts| > 1;
      assert s == s[..i] + [sep] + rest;
    }
  }

  /** Splitting a join gives the pieces back, when none of them holds the separator. */
  lemma {:induction false} SplitJoin(parts: seq<string>, sep: char)
    requires parts != [] && FreeOf(parts, sep)
    ensures Split(Join(parts, sep), sep) == parts
  {
    var s := Join(parts, sep);
    if |parts| == 1 {
      NotFound(s, sep);
    } else {
      var tail := Join(parts[1..], sep);
      FirstAt(parts[0], sep, tail);
      assert s[..|parts[0]|] == parts[0] && s[|parts[0]| + 1..] == tail;
      SplitJoin(parts[1..], sep);
    }
  }

  /** Joining with one more piece puts the separator and the piece at the end. */
  lemma {:induction false} JoinSnoc(parts: seq<string>, last: string, sep: char)
    requires parts != []
    ensures Join(parts + [last], sep) == Join(parts, sep) + [sep] + last
  {
    if |parts| > 1 {
      assert (parts + [last])[1..] == parts[1..] + [last];
      JoinSnoc(parts[1..], last, sep);
    } else {
      assert (parts + [last])[1..] == [last];
    }
  }
}
