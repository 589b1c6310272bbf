/** The scope that pays for a resource: "payment", the asset and the amount, joined by colons. */
module PaymentScope {
  import opened Sequences
  import opened Strings

  /** Cut s at separators into at most n pieces; the last piece keeps any further separators. */
  function SplitN(s: string, sep: char, n: nat): (parts: seq<string>)
    requires n > 0
    ensures 0 < |parts| <= n
  {
    var i := IndexOf(s, sep);
    if n == 1 || i == |s| then [s] else [s[..i]] + SplitN(s[i + 1..], sep, n - 1)
  }

  predicate CheckScope(asset: string, amount: string, scope: string) {
    var parts := SplitN(scope, ':', 3);
    |parts| == 3 && parts[0] == "payment" && parts[1] == asset && parts[2] == amount
  }

  /** Cutting at the first separator of a string that has one. */
  lemma SplitOnce(head: string, sep: char, tail: string, n: nat)
    requires sep !in head && n > 0
    ensures SplitN(head + [sep] + tail, sep, n + 1) == [head] + SplitN(tail, sep, n)
  {
    FirstAt(head, sep, tail);
    var s := head + [sep] + tail;
    assert s[..|head|] == head && s[|head| + 1..] == tail;
  }

  /** Joining the pieces with the separator gives the string back; all but the last are free of it. */
  lemma JoinTwo(s: string, sep: char, n: nat)
    requires n > 1 && |SplitN(s, sep, n)| > 1
    ensures var parts := SplitN(s, sep, n);
            var i := |parts[0]|;
            i < |s| && s == parts[0] + [sep] + s[i + 1..] && sep !in parts[0] &&
              parts[1..] == SplitN(s[i + 1..], sep, n - 1)
  {
    var i := IndexOf(s, sep);
    assert s == s[..i] + [s[i]] + s[i + 1..];
  }

  lemma AcceptedPair(s: string, asset: string, amount: string)
    requires SplitN(s, ':', 2) == [asset, amount]
    ensures ':' !in asset && s == asset + [':'] + amount
  {
    JoinTwo(s, ':', 2);
    var last := s[|asset| + 1..];
    assert SplitN(last, ':', 1) == [last];
    assert [asset, amount][1..] == [amount];
  }

  lemma AcceptedScope(asset: string, amount: string, scope: string)
    requires CheckScope(asset, amount, scope)
    ensures ':' !in asset && scope == "payment:" + asset + ":" + amount
  {
    var parts := SplitN(scope, ':', 3);
    JoinTwo(scope, ':', 3);
    assert parts[1..] == [asset, amount];
    var rest := scope[|parts[0]| + 1..];
    AcceptedPair(rest, asset, amount);
    Associative("payment:", asset + [':'], amount);
    Associative("payment:", asset, ":");
    assert "payment" + [':'] == "payment:" && scope == "payment:" + rest;
  }

  lemma PriceScope(asset: string, amount: string)
    requires ':' !in asset
    ensures CheckScope(asset, amount, "payment:" + asset + ":" + amount)
  {
    var scope := "payment:" + asset + ":" + amount;
    SplitOnce("payment", ':', asset + [':'] + amount, 2);
    SplitOnce(asset, ':', amount, 1);
    assert scope == "payment" + [':'] + (asset + [':'] + amount);
    assert SplitN(scope, ':', 3) == ["payment"] + ([asset] + [amount]);
  }

  /** The check accepts one string only, and none at all for an asset that contains a colon. */
  lemma CheckScopeExactly(asset: string, amount: string, scope: string)
    ensures CheckScope(asset, amount, scope) <==>
            ':' !in asset && scope == "payment:" + asset + ":" + amount
  {
    if CheckScope(asset, amount, scope) {
      AcceptedScope(asset, amount, scope);
    }
    if ':' !in asset {
      PriceScope(asset, amount);
    }
  }

  /** An asset with a colon cannot be bought at its own price. */
  lemma ColonAssetIsUnpayable(asset: string, amount: string)
    requires ':' in asset
    ensures !CheckScope(asset, amount, "payment:" + asset + ":" + amount)
  {
    CheckScopeExactly(asset, amount, "payment:" + asset + ":" + amount);
  }
}
