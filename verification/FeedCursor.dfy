/**
 The feed watcher: one guid is remembered between runs, and every matching post is reported once. The
 posts ever published are a list, oldest first; each fetch shows a stretch of it, newest first.
 */
module FeedCursor {
  import opened Wrappers

  datatype Item = Item(guid: string, title: string, link: string)

  /** Which items the keywords select; the keyword test itself is a parameter. */
  type Matcher = Item -> bool

  function Filter(items: seq<Item>, matches: Matcher): seq<Item> {
    if items == [] then [] else (if matches(items[0]) then [items[0]] else []) + Filter(items[1..], matches)
  }

  /** The items before the one with that guid; all of them when there is none. */
  function Until(items: seq<Item>, guid: string): seq<Item> {
    if items == [] || items[0].guid == guid then [] else [items[0]] + Until(items[1..], guid)
  }

  /** One run: what is reported, and the guid to remember. None for items is a failed fetch. */
  function Check(items: Option<seq<Item>>, matches: Matcher, last: Option<string>): (seq<Item>, Option<string>) {
    if items.None? then ([], last)
    else
      var matched := Filter(items.value, matches);
      if matched == [] then ([], last)
      else
        var latest := matched[0].guid;
        if last.None? then ([], Some(latest))
        else if latest == last.value then ([], last)
        else (Until(matched, last.value), Some(latest))
  }

  method CheckRssFeed(items: Option<seq<Item>>, matches: Matcher, last: Option<string>)
    returns (found: seq<Item>, cursor: Option<string>)
    ensures (found, cursor) == Check(items, matches, last)
  {
    if items.None? {
      return [], last;
    }
    var all := items.value;
    var matched: seq<Item> := [];
    for i := 0 to |all|
      invariant Filter(all, matches) == matched + Filter(all[i..], matches)
    {
      assert all[i..][1..] == all[i + 1..];
      if matches(all[i]) {
        matched := matched + [all[i]];
      }
    }
    assert matched == Filter(all, matches);
    if matched == [] {
      return [], last;
    }
    var latest := matched[0].guid;
    if last.None? {
      return [], Some(latest);
    }
    if latest == last.value {
      return [], last;
    }
    found := [];
    for i := 0 to |matched|
      invariant Until(matched, last.value) == found + Until(matched[i..], last.value)
    {
      assert matched[i..][1..] == matched[i + 1..];
      if matched[i].guid == last.value {
        assert Until(matched[i..], last.value) == [] && found + [] == found;
        return found, Some(latest);
      }
      found := found + [matched[i]];
    }
    assert Until(matched[|matched|..], last.value) == [] && found + [] == found;
    return found, Some(latest);
  }

  // ---------- a feed over time ----------

  /** What a fetch brings: nothing, or the posts from position tail to but not including head. */
  datatype Fetch = Failed | Shows(tail: nat, head: nat)

  ghost predicate UniqueGuids(posts: seq<Item>) {
    forall i, j :: 0 <= i < j < |posts| ==> posts[i].guid != posts[j].guid
  }

  /** Posts appear at the head and disappear at the tail, never the other way round. */
  ghost predicate Progressing(posts: seq<Item>, fetches: seq<Fetch>) {
    && (forall k :: 0 <= k < |fetches| && fetches[k].Shows? ==> fetches[k].tail <= fetches[k].head <= |posts|)
    && (forall j, k :: 0 <= j < k < |fetches| && fetches[j].Shows? && fetches[k].Shows? ==>
          fetches[j].tail <= fetches[k].tail && fetches[j].head <= fetches[k].head)
  }

  function Newest(posts: seq<Item>, tail: nat, head: nat): (items: seq<Item>)
    requires tail <= head <= |posts|
    decreases head - tail
  {
    if tail == head then [] else [posts[head - 1]] + Newest(posts, tail, head - 1)
  }

  function ItemsOf(posts: seq<Item>, f: Fetch): Option<seq<Item>>
    requires f.Shows? ==> f.tail <= f.head <= |posts|
  {
    if f.Failed? then None else Some(Newest(posts, f.tail, f.head))
  }

  /** The cursor after the first n fetches, starting with none. */
  function Cursor(posts: seq<Item>, matches: Matcher, fetches: seq<Fetch>, n: nat): Option<string>
    requires n <= |fetches| && Progressing(posts, fetches)
  {
    if n == 0 then None
    else Check(ItemsOf(posts, fetches[n - 1]), matches, Cursor(posts, matches, fetches, n - 1)).1
  }

  /** What fetch k reports. */
  function Report(posts: seq<Item>, matches: Matcher, fetches: seq<Fetch>, k: nat): seq<Item>
    requires k < |fetches| && Progressing(posts, fetches)
  {
    Check(ItemsOf(posts, fetches[k]), matches, Cursor(posts, matches, fetches, k)).0
  }

  ghost predicate Visible(fetches: seq<Fetch>, k: nat, i: nat)
    requires k < |fetches|
  {
    fetches[k].Shows? && fetches[k].tail <= i < fetches[k].head
  }

  /** Fetch k is the first to show post i. */
  ghost predicate FirstShown(fetches: seq<Fetch>, k: nat, i: nat)
    requires k < |fetches|
  {
    Visible(fetches, k, i) && forall j :: 0 <= j < k ==> !Visible(fetches, j, i)
  }

  /** Fetch j shows a matching post: the earliest such fetch is the silent baseline. */
  ghost predicate ShowsMatch(posts: seq<Item>, matches: Matcher, fetches: seq<Fetch>, j: nat)
    requires j < |fetches|
  {
    exists i :: 0 <= i < |posts| && Visible(fetches, j, i) && matches(posts[i])
  }

  lemma {:induction false} FilteredWindow(posts: seq<Item>, matches: Matcher, tail: nat, head: nat, x: Item)
    requires tail <= head <= |posts|
    ensures x in Filter(Newest(posts, tail, head), matches) <==>
              exists i :: tail <= i < head && posts[i] == x && matches(x)
    decreases head - tail
  {
    if tail < head {
      var items := Newest(posts, tail, head);
      assert items[1..] == Newest(posts, tail, head - 1);
      FilteredWindow(posts, matches, tail, head - 1, x);
    }
  }

  /** Cutting the matches of a window at post c leaves the matches newer than c. */
  lemma {:induction false} CutAtCursor(posts: seq<Item>, matches: Matcher, tail: nat, head: nat, c: nat)
    requires tail <= head <= |posts| && c < head && matches(posts[c]) && UniqueGuids(posts)
    ensures Until(Filter(Newest(posts, tail, head), matches), posts[c].guid) ==
            Filter(Newest(posts, if c < tail then tail else c + 1, head), matches)
    decreases head - tail
  {
    if tail < head {
      if c == head - 1 {
        FilterStep(posts, matches, tail, head);
        CutFirst(posts[c], Filter(Newest(posts, tail, head - 1), matches));
        assert Newest(posts, c + 1, head) == [] && Filter([], matches) == [];
      } else {
        CutAtCursor(posts, matches, tail, head - 1, c);
        CutStep(posts, matches, tail, head, if c < tail then tail else c + 1, posts[c].guid);
      }
    }
  }

  /** A newer post with another guid stays in front of the cut. */
  lemma CutStep(posts: seq<Item>, matches: Matcher, tail: nat, head: nat, low: nat, guid: string)
    requires tail < head <= |posts| && low < head && posts[head - 1].guid != guid
    requires Until(Filter(Newest(posts, tail, head - 1), matches), guid) ==
             Filter(Newest(posts, low, head - 1), matches)
    ensures Until(Filter(Newest(posts, tail, head), matches), guid) == Filter(Newest(posts, low, head), matches)
  {
    FilterStep(posts, matches, tail, head);
    FilterStep(posts, matches, low, head);
    if matches(posts[head - 1]) {
      CutLater(posts[head - 1], Filter(Newest(posts, tail, head - 1), matches), guid);
    }
  }

  lemma CutFirst(item: Item, rest: seq<Item>)
    ensures Until([item] + rest, item.guid) == []
  {}

  lemma CutLater(item: Item, rest: seq<Item>, guid: string)
    requires item.guid != guid
    ensures Until([item] + rest, guid) == [item] + Until(rest, guid)
  {
    assert ([item] + rest)[1..] == rest;
  }

  lemma FilterStep(posts: seq<Item>, matches: Matcher, tail: nat, head: nat)
    requires tail < head <= |posts|
    ensures var rest := Filter(Newest(posts, tail, head - 1), matches);
            Filter(Newest(posts, tail, head), matches) ==
            if matches(posts[head - 1]) then [posts[head - 1]] + rest else rest
  {
    assert Newest(posts, tail, head)[1..] == Newest(posts, tail, head - 1);
  }

  /** The first match of a window is its newest one. */
  lemma {:induction false} NewestMatch(posts: seq<Item>, matches: Matcher, tail: nat, head: nat) returns (m: nat)
    requires tail <= head <= |posts| && Filter(Newest(posts, tail, head), matches) != []
    ensures tail <= m < head && matches(posts[m]) && Filter(Newest(posts, tail, head), matches)[0] == posts[m]
    ensures forall i :: m < i < head ==> !matches(posts[i])
    decreases head - tail
  {
    var items := Newest(posts, tail, head);
    assert items[1..] == Newest(posts, tail, head - 1);
    if matches(posts[head - 1]) {
      m := head - 1;
    } else {
      assert Filter(items, matches) == Filter(items[1..], matches);
      m := NewestMatch(posts, matches, tail, head - 1);
    }
  }

  /** The cursor is at the newest matching post shown so far. */
  ghost predicate At(posts: seq<Item>, matches: Matcher, fetches: seq<Fetch>, n: nat, c: nat)
    requires n <= |fetches|
  {
    && c < |posts| && matches(posts[c])
    && (exists j :: 0 <= j < n && Visible(fetches, j, c))
    && forall j, i: nat :: 0 <= j < n && Visible(fetches, j, i) && i < |posts| && matches(posts[i]) ==> i <= c
  }

  lemma AtStays(posts: seq<Item>, matches: Matcher, fetches: seq<Fetch>, n: nat, c: nat)
    requires n < |fetches| && At(posts, matches, fetches, n, c) && !ShowsMatch(posts, matches, fetches, n)
    ensures At(posts, matches, fetches, n + 1, c)
  {
    var j :| 0 <= j < n && Visible(fetches, j, c);
  }

  lemma AtMoves(posts: seq<Item>, matches: Matcher, fetches: seq<Fetch>, n: nat, m: nat)
    requires n < |fetches| && m < |posts| && matches(posts[m]) && Visible(fetches, n, m)
    requires forall i :: m < i < |posts| && Visible(fetches, n, i) ==> !matches(posts[i])
    requires (forall j :: 0 <= j < n ==> !ShowsMatch(posts, matches, fetches, j)) ||
             exists c: nat :: c <= m && At(posts, matches, fetches, n, c)
    ensures At(posts, matches, fetches, n + 1, m) && ShowsMatch(posts, matches, fetches, n)
  {
    forall j, i: nat | 0 <= j < n + 1 && Visible(fetches, j, i) && i < |posts| && matches(posts[i]) ensures i <= m {
      assert j < n ==> ShowsMatch(posts, matches, fetches, j);
    }
  }

  lemma {:induction false} CursorAt(posts: seq<Item>, matches: Matcher, fetches: seq<Fetch>, n: nat) returns (c: nat)
    requires n <= |fetches| && Progressing(posts, fetches) && UniqueGuids(posts)
    ensures Tracks(posts, matches, fetches, n, c)
  {
    c := 0;
    if n > 0 {
      c := CursorAt(posts, matches, fetches, n - 1);
      var f := fetches[n - 1];
      if f.Failed? || Filter(Newest(posts, f.tail, f.head), matches) == [] {
        CursorStays(posts, matches, fetches, n - 1, c);
      } else {
        c := CursorMoves(posts, matches, fetches, n - 1, c);
      }
    }
  }

  /** The cursor is unset until a match is shown, and from then on the guid of the newest match shown. */
  ghost predicate Tracks(posts: seq<Item>, matches: Matcher, fetches: seq<Fetch>, n: nat, c: nat)
    requires n <= |fetches| && Progressing(posts, fetches)
  {
    match Cursor(posts, matches, fetches, n)
    case None => forall j :: 0 <= j < n ==> !ShowsMatch(posts, matches, fetches, j)
    case Some(guid) =>
      && At(posts, matches, fetches, n, c) && guid == posts[c].guid
      && exists j :: 0 <= j < n && ShowsMatch(posts, matches, fetches, j)
  }

  lemma CursorStays(posts: seq<Item>, matches: Matcher, fetches: seq<Fetch>, k: nat, c: nat)
    requires k < |fetches| && Progressing(posts, fetches) && Tracks(posts, matches, fetches, k, c)
    requires fetches[k].Failed? || Filter(Newest(posts, fetches[k].tail, fetches[k].head), matches) == []
    ensures Tracks(posts, matches, fetches, k + 1, c)
  {
    NothingNew(posts, matches, fetches, k);
    assert Cursor(posts, matches, fetches, k + 1) == Cursor(posts, matches, fetches, k);
    if Cursor(posts, matches, fetches, k).Some? {
      AtStays(posts, matches, fetches, k, c);
    }
  }

  lemma CursorMoves(posts: seq<Item>, matches: Matcher, fetches: seq<Fetch>, k: nat, c: nat) returns (m: nat)
    requires k < |fetches| && Progressing(posts, fetches) && Tracks(posts, matches, fetches, k, c)
    requires fetches[k].Shows? && Filter(Newest(posts, fetches[k].tail, fetches[k].head), matches) != []
    ensures Tracks(posts, matches, fetches, k + 1, m)
  {
    m := NewestMatch(posts, matches, fetches[k].tail, fetches[k].head);
    assert Cursor(posts, matches, fetches, k + 1) == Some(posts[m].guid);
    if Cursor(posts, matches, fetches, k).Some? {
      NeverBackwards(posts, matches, fetches, k, c, m);
    }
    AtMoves(posts, matches, fetches, k, m);
  }

  lemma NothingNew(posts: seq<Item>, matches: Matcher, fetches: seq<Fetch>, k: nat)
    requires k < |fetches| && Progressing(posts, fetches)
    requires fetches[k].Failed? || Filter(Newest(posts, fetches[k].tail, fetches[k].head), matches) == []
    ensures !ShowsMatch(posts, matches, fetches, k)
  {
    forall i: nat | i < |posts| && Visible(fetches, k, i) ensures !matches(posts[i]) {
      FilteredWindow(posts, matches, fetches[k].tail, fetches[k].head, posts[i]);
    }
  }

  /** The newest match of a later fetch is not older than the cursor. */
  lemma NeverBackwards(posts: seq<Item>, matches: Matcher, fetches: seq<Fetch>, k: nat, c: nat, m: nat)
    requires k < |fetches| && Progressing(posts, fetches) && At(posts, matches, fetches, k, c)
    requires Visible(fetches, k, m) && m < |posts| && forall i :: m < i < fetches[k].head ==> !matches(posts[i])
    ensures c <= m
  {
    var j :| 0 <= j < k && Visible(fetches, j, c);
    assert c < fetches[k].head;
  }

  /**
   Reported exactly once: a fetch reports a post iff the post matches, this fetch is the first to show
   it, and an earlier fetch has already set the baseline.
   */
  lemma ReportedExactly(posts: seq<Item>, matches: Matcher, fetches: seq<Fetch>, k: nat, i: nat)
    requires k < |fetches| && i < |posts| && Progressing(posts, fetches) && UniqueGuids(posts)
    ensures posts[i] in Report(posts, matches, fetches, k) <==>
            && matches(posts[i]) && FirstShown(fetches, k, i)
            && exists j :: 0 <= j < k && ShowsMatch(posts, matches, fetches, j)
  {
    var c := CursorAt(posts, matches, fetches, k);
    var f := fetches[k];
    var last := Cursor(posts, matches, fetches, k);
    if last.Some? && f.Shows? && matches(posts[i]) {
      FirstShownNewer(posts, matches, fetches, k, c, i);
    }
    if last.Some? && f.Shows? {
      ReportedWindow(posts, matches, fetches, k, c, i);
    }
  }

  /** After the baseline a fetch reports the matches it shows that are newer than the cursor. */
  lemma ReportedWindow(posts: seq<Item>, matches: Matcher, fetches: seq<Fetch>, k: nat, c: nat, i: nat)
    requires k < |fetches| && i < |posts| && Progressing(posts, fetches) && UniqueGuids(posts)
    requires At(posts, matches, fetches, k, c) && Cursor(posts, matches, fetches, k) == Some(posts[c].guid) &&
             fetches[k].Shows?
    ensures posts[i] in Report(posts, matches, fetches, k) <==> matches(posts[i]) && Visible(fetches, k, i) && i > c
  {
    var f := fetches[k];
    var matched := Filter(Newest(posts, f.tail, f.head), matches);
    var j :| 0 <= j < k && Visible(fetches, j, c);
    var lo := if c < f.tail then f.tail else c + 1;
    CutAtCursor(posts, matches, f.tail, f.head, c);
    FilteredWindow(posts, matches, lo, f.head, posts[i]);
    if matched == [] {
      FilteredWindow(posts, matches, f.tail, f.head, posts[i]);
    } else {
      assert matched[0].guid == posts[c].guid ==> Until(matched, posts[c].guid) == [];
    }
  }

  lemma FirstShownNewer(posts: seq<Item>, matches: Matcher, fetches: seq<Fetch>, k: nat, c: nat, i: nat)
    requires k < |fetches| && i < |posts| && Progressing(posts, fetches) && At(posts, matches, fetches, k, c) &&
             matches(posts[i])
    ensures FirstShown(fetches, k, i) <==> Visible(fetches, k, i) && i > c
  {
    var j :| 0 <= j < k && Visible(fetches, j, c);
    if FirstShown(fetches, k, i) {
      assert !Visible(fetches, j, i);
    }
  }

  /** Where the matches of a window stand among the posts, newest first. */
  function Positions(posts: seq<Item>, matches: Matcher, tail: nat, head: nat): (ps: seq<nat>)
    requires tail <= head <= |posts|
    ensures forall i :: 0 <= i < |ps| ==> tail <= ps[i] < head
    ensures forall i, j :: 0 <= i < j < |ps| ==> ps[j] < ps[i]
    decreases head - tail
  {
    if tail == head then []
    else
      var rest := Positions(posts, matches, tail, head - 1);
      if matches(posts[head - 1]) then [head - 1] + rest else rest
  }

  lemma {:induction false} FilteredAt(posts: seq<Item>, matches: Matcher, tail: nat, head: nat)
    requires tail <= head <= |posts|
    ensures var ps := Positions(posts, matches, tail, head);
            var items := Filter(Newest(posts, tail, head), matches);
            |items| == |ps| && forall i :: 0 <= i < |ps| ==> items[i] == posts[ps[i]]
    decreases head - tail
  {
    if tail < head {
      FilteredAt(posts, matches, tail, head - 1);
      FilterStep(posts, matches, tail, head);
    }
  }

  /** A report lists its posts newest first, each once. */
  lemma ReportNewestFirst(posts: seq<Item>, matches: Matcher, fetches: seq<Fetch>, k: nat) returns (ps: seq<nat>)
    requires k < |fetches| && Progressing(posts, fetches) && UniqueGuids(posts)
    ensures var report := Report(posts, matches, fetches, k);
            && |ps| == |report| && (forall i :: 0 <= i < |ps| ==> ps[i] < |posts| && report[i] == posts[ps[i]])
            && (forall i, j :: 0 <= i < j < |ps| ==> ps[j] < ps[i] && report[i].guid != report[j].guid)
  {
    var report := Report(posts, matches, fetches, k);
    if report == [] {
      ps := [];
    } else {
      var c := CursorAt(posts, matches, fetches, k);
      var f := fetches[k];
      var j :| 0 <= j < k && Visible(fetches, j, c);
      CutAtCursor(posts, matches, f.tail, f.head, c);
      var low := if c < f.tail then f.tail else c + 1;
      assert report == Filter(Newest(posts, low, f.head), matches);
      ps := Positions(posts, matches, low, f.head);
      FilteredAt(posts, matches, low, f.head);
    }
  }

  /** No post is reported by two runs. */
  lemma ReportedAtMostOnce(posts: seq<Item>, matches: Matcher, fetches: seq<Fetch>, j: nat, k: nat, i: nat)
    requires j < k < |fetches| && i < |posts| && Progressing(posts, fetches) && UniqueGuids(posts)
    ensures !(posts[i] in Report(posts, matches, fetches, j) && posts[i] in Report(posts, matches, fetches, k))
  {
    ReportedExactly(posts, matches, fetches, j, i);
    ReportedExactly(posts, matches, fetches, k, i);
  }
}
