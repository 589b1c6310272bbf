/**
 Approval tiers: the shell globs of a policy rule, first-match evaluation, and an
 exact description of what the default rule set decides for every agent and scope.
 */
module Policy {
  import opened Sequences

  /** A literal character stands for itself; '*' stands for any run of characters without '/'. */
  predicate Glob(pattern: string, value: string)
    decreases |pattern|, |value|
  {
    if pattern == [] then value == []
    else if pattern[0] == '*' then
      Glob(pattern[1..], value) || (value != [] && value[0] != '/' && Glob(pattern, value[1..]))
    else
      value != [] && value[0] == pattern[0] && Glob(pattern[1..], value[1..])
  }

  predicate MatchPattern(pattern: string, value: string) {
    pattern == "*" || Glob(pattern, value)
  }

  datatype Tier = Auto | Hitl | Mfa

  datatype PolicyRule = PolicyRule(agentPattern: string, scopePattern: string, tier: Tier)

  predicate Applies(rule: PolicyRule, agent: string, scope: string) {
    MatchPattern(rule.agentPattern, agent) && MatchPattern(rule.scopePattern, scope)
  }

  /** The tier of the first rule that applies; human approval when none does. */
  function EvaluateTier(rules: seq<PolicyRule>, agent: string, scope: string): Tier {
    if rules == [] then Hitl
    else if Applies(rules[0], agent, scope) then rules[0].tier
    else EvaluateTier(rules[1..], agent, scope)
  }

  /** Rule i applies to the request, and no rule before it does. */
  ghost predicate AppliesFirst(rules: seq<PolicyRule>, i: int, agent: string, scope: string) {
    0 <= i < |rules| && Applies(rules[i], agent, scope) && forall j :: 0 <= j < i ==> !Applies(rules[j], agent, scope)
  }

  lemma {:induction false} FirstRuleDecides(rules: seq<PolicyRule>, i: int, agent: string, scope: string)
    requires AppliesFirst(rules, i, agent, scope)
    ensures EvaluateTier(rules, agent, scope) == rules[i].tier
  {
    if i > 0 {
      assert !Applies(rules[0], agent, scope);
      assert forall j :: 0 <= j < i ==> rules[1..][j] == rules[j + 1];
      FirstRuleDecides(rules[1..], i - 1, agent, scope);
    }
  }

  /** A request no rule covers needs a human. */
  lemma {:induction false} UncoveredNeedsAHuman(rules: seq<PolicyRule>, agent: string, scope: string)
    requires forall i :: 0 <= i < |rules| ==> !Applies(rules[i], agent, scope)
    ensures EvaluateTier(rules, agent, scope) == Hitl
  {
    if rules != [] {
      UncoveredNeedsAHuman(rules[1..], agent, scope);
    }
  }

  /** The loop of the source: scan the rules in order and return at the first that applies. */
  method FirstMatch(rules: seq<PolicyRule>, agent: string, scope: string) returns (tier: Tier)
    ensures forall i :: AppliesFirst(rules, i, agent, scope) ==> tier == rules[i].tier
    ensures (forall i :: 0 <= i < |rules| ==> !Applies(rules[i], agent, scope)) ==> tier == Hitl
    ensures tier == EvaluateTier(rules, agent, scope)
  {
    for i := 0 to |rules|
      invariant forall j :: 0 <= j < i ==> !Applies(rules[j], agent, scope)
    {
      if Applies(rules[i], agent, scope) {
        FirstRuleDecides(rules, i, agent, scope);
        return rules[i].tier;
      }
    }
    UncoveredNeedsAHuman(rules, agent, scope);
    return Hitl;
  }

  const ADMIN: PolicyRule := PolicyRule("spiffe://*/admin/*", "*", Mfa)
  const CI: PolicyRule := PolicyRule("spiffe://*/ci/*", "*", Hitl)
  const MICRO_PAYMENT := "payment:AGENT_CREDIT:50"

  function DefaultPolicyRules(): seq<PolicyRule> {
    [ ADMIN,
      CI,
      PolicyRule("*", "billing:*:write", Hitl),
      PolicyRule("*", "stripe:*:write", Hitl),
      PolicyRule("*", MICRO_PAYMENT, Auto),
      PolicyRule("*", "payment:*", Hitl),
      PolicyRule("*", "*:read", Auto),
      PolicyRule("*", "*:*:read", Auto),
      PolicyRule("*", "*", Hitl)
    ]
  }

  // ---------- globs, read as sets of strings ----------

  predicate SlashFree(s: string) {
    '/' !in s
  }

  predicate EndsWith(s: string, suffix: string) {
    |suffix| <= |s| && s[|s| - |suffix|..] == suffix
  }

  /** A star-free head of a pattern must be a prefix of the value. */
  lemma {:induction false} LiteralHead(lit: string, rest: string, value: string)
    requires '*' !in lit
    ensures Glob(lit + rest, value) <==> lit <= value && Glob(rest, value[|lit|..])
  {
    if lit == [] {
      assert lit + rest == rest;
    } else {
      assert (lit + rest)[1..] == lit[1..] + rest;
      assert lit <= value <==> value != [] && value[0] == lit[0] && lit[1..] <= value[1..];
      if value != [] {
        LiteralHead(lit[1..], rest, value[1..]);
      }
    }
  }

  /** A leading star consumes some slash-free prefix of the value. */
  lemma {:induction false} StarHead(rest: string, value: string)
    ensures Glob("*" + rest, value) <==>
            exists n :: 0 <= n <= |value| && SlashFree(value[..n]) && Glob(rest, value[n..])
    decreases |value|
  {
    var pattern := "*" + rest;
    assert pattern[1..] == rest;
    assert value[..0] == [] && value[0..] == value;
    if value != [] {
      StarHead(rest, value[1..]);
      forall n | 1 <= n <= |value|
        ensures SlashFree(value[..n]) <==> value[0] != '/' && SlashFree(value[1..][..n - 1])
        ensures value[n..] == value[1..][n - 1..]
      {
        assert value[..n] == [value[0]] + value[1..][..n - 1];
      }
      if Glob(pattern, value) && !Glob(rest, value) {
        var m :| 0 <= m <= |value[1..]| && SlashFree(value[1..][..m]) && Glob(rest, value[1..][m..]);
        assert SlashFree(value[..m + 1]) && Glob(rest, value[m + 1..]);
      }
      if n :| 0 <= n <= |value| && SlashFree(value[..n]) && Glob(rest, value[n..]) {
        if n > 0 {
          assert SlashFree(value[1..][..n - 1]) && Glob(rest, value[1..][n - 1..]);
        }
      }
    }
  }

  lemma StarAlone(value: string)
    ensures Glob("*", value) <==> SlashFree(value)
  {
    StarHead("", value);
    assert "*" + "" == "*";
    assert value[..|value|] == value && value[|value|..] == [];
    if n :| 0 <= n <= |value| && SlashFree(value[..n]) && Glob("", value[n..]) {
      assert value == value[..n];
    }
    if SlashFree(value) {
      assert SlashFree(value[..|value|]) && Glob("", value[|value|..]);
    }
  }

  lemma LiteralAlone(lit: string, value: string)
    requires '*' !in lit
    ensures Glob(lit, value) <==> value == lit
  {
    LiteralHead(lit, "", value);
    assert lit + "" == lit;
    if lit <= value && value[|lit|..] == [] {
      assert value == lit + value[|lit|..];
    }
  }

  /** head*tail matches exactly the strings that start with head, end with tail and have no slash between. */
  lemma PrefixStarSuffix(head: string, tail: string, value: string)
    requires '*' !in head && '*' !in tail
    ensures Glob(head + "*" + tail, value) <==>
            exists mid :: SlashFree(mid) && value == head + mid + tail
  {
    if Glob(head + "*" + tail, value) {
      var mid := SplitOneStar(head, tail, value);
    }
    forall mid | SlashFree(mid) && value == head + mid + tail ensures Glob(head + "*" + tail, value) {
      JoinOneStar(head, mid, tail);
    }
  }

  /** The run of characters a leading star consumes. */
  lemma StarRun(rest: string, value: string) returns (n: nat)
    requires Glob("*" + rest, value)
    ensures n <= |value| && SlashFree(value[..n]) && Glob(rest, value[n..])
  {
    StarHead(rest, value);
    n :| 0 <= n <= |value| && SlashFree(value[..n]) && Glob(rest, value[n..]);
  }

  lemma SplitOneStar(head: string, rest: string, value: string) returns (mid: string)
    requires '*' !in head && Glob(head + "*" + rest, value)
    ensures SlashFree(mid) && head + mid <= value && Glob(rest, value[|head + mid|..])
    ensures '*' !in rest ==> value == head + mid + rest
  {
    Associative(head, "*", rest);
    LiteralHead(head, "*" + rest, value);
    var n := StarRun(rest, value[|head|..]);
    mid := value[|head|..][..n];
    CutTwice(value, |head|, n);
    assert head == value[..|head|] && head + mid == value[..|head| + n];
    if '*' !in rest {
      LiteralAlone(rest, value[|head| + n..]);
      Together(value, |head| + n);
    }
  }

  lemma JoinOneStar(head: string, mid: string, tail: string)
    requires '*' !in head && SlashFree(mid) && '*' !in tail
    ensures Glob(head + "*" + tail, head + mid + tail)
  {
    LiteralAlone(tail, tail);
    JoinStar(head, mid, tail, tail);
  }

  lemma JoinStar(head: string, mid: string, rest: string, tail: string)
    requires '*' !in head && SlashFree(mid) && Glob(rest, tail)
    ensures Glob(head + "*" + rest, head + mid + tail)
  {
    var value := head + mid + tail;
    assert head + "*" + rest == head + ("*" + rest);
    LiteralHead(head, "*" + rest, value);
    var v := value[|head|..];
    assert v[..|mid|] == mid && v[|mid|..] == tail;
    StarHead(rest, v);
  }

  lemma SplitTwoStars(head: string, mid: string, value: string) returns (a: string, b: string)
    requires '*' !in head && '*' !in mid && Glob(head + "*" + (mid + "*"), value)
    ensures SlashFree(a) && SlashFree(b) && value == head + a + mid + b
  {
    a := SplitOneStar(head, mid + "*", value);
    var v := value[|head + a|..];
    LiteralHead(mid, "*", v);
    b := v[|mid|..];
    StarAlone(b);
    assert value == head + a + v && v == mid + b;
  }

  lemma JoinTwoStars(head: string, a: string, mid: string, b: string)
    requires '*' !in head && '*' !in mid && SlashFree(a) && SlashFree(b)
    ensures Glob(head + "*" + (mid + "*"), head + a + mid + b)
  {
    StarAlone(b);
    LiteralHead(mid, "*", mid + b);
    assert (mid + b)[|mid|..] == b;
    JoinStar(head, a, mid + "*", mid + b);
    assert head + a + (mid + b) == head + a + mid + b;
  }

  /** head*mid*: two slash-free runs around a literal. */
  lemma TwoStars(head: string, mid: string, value: string)
    requires '*' !in head && '*' !in mid
    ensures Glob(head + "*" + mid + "*", value) <==>
            exists a, b :: SlashFree(a) && SlashFree(b) && value == head + a + mid + b
  {
    assert head + "*" + mid + "*" == head + "*" + (mid + "*");
    if Glob(head + "*" + mid + "*", value) {
      var a, b := SplitTwoStars(head, mid, value);
    }
    if a, b :| SlashFree(a) && SlashFree(b) && value == head + a + mid + b {
      JoinTwoStars(head, a, mid, b);
    }
  }

  // ---------- what the default rules decide ----------

  /** spiffe://TRUST-DOMAIN/admin/NAME, with exactly one path segment after "admin". */
  ghost predicate AdminAgent(agent: string) {
    exists domain, name :: SlashFree(domain) && SlashFree(name) && agent == "spiffe://" + domain + "/admin/" + name
  }

  ghost predicate CiAgent(agent: string) {
    exists domain, name :: SlashFree(domain) && SlashFree(name) && agent == "spiffe://" + domain + "/ci/" + name
  }

  ghost predicate ReadScope(scope: string) {
    SlashFree(scope) && EndsWith(scope, ":read") && !("payment:" <= scope)
  }

  lemma AdminGlob(agent: string)
    ensures MatchPattern(ADMIN.agentPattern, agent) <==> AdminAgent(agent)
  {
    assert "spiffe://" + "*" + "/admin/" + "*" == "spiffe://*/admin/*";
    TwoStars("spiffe://", "/admin/", agent);
  }

  lemma CiGlob(agent: string)
    ensures MatchPattern(CI.agentPattern, agent) <==> CiAgent(agent)
  {
    assert "spiffe://" + "*" + "/ci/" + "*" == "spiffe://*/ci/*";
    TwoStars("spiffe://", "/ci/", agent);
  }

  lemma ReadGlob(scope: string)
    ensures Glob("*:read", scope) <==> SlashFree(scope) && EndsWith(scope, ":read")
  {
    assert "" + "*" + ":read" == "*:read";
    PrefixStarSuffix("", ":read", scope);
    if SlashFree(scope) && EndsWith(scope, ":read") {
      var mid := scope[..|scope| - 5];
      assert SlashFree(mid) && scope == "" + mid + ":read";
    }
  }

  lemma PaymentGlob(scope: string)
    ensures Glob("payment:*", scope) <==> "payment:" <= scope && SlashFree(scope)
  {
    assert "payment:" + "*" + "" == "payment:*";
    PrefixStarSuffix("payment:", "", scope);
    if "payment:" <= scope && SlashFree(scope) {
      var mid := scope[8..];
      assert SlashFree(mid) && scope == "payment:" + mid + "";
    }
  }

  lemma WriteGlobs(scope: string)
    ensures Glob("billing:*:write", scope) || Glob("stripe:*:write", scope) ==>
              EndsWith(scope, ":write") && !("payment:" <= scope)
  {
    assert "billing:" + "*" + ":write" == "billing:*:write";
    assert "stripe:" + "*" + ":write" == "stripe:*:write";
    PrefixStarSuffix("billing:", ":write", scope);
    PrefixStarSuffix("stripe:", ":write", scope);
    if Glob("billing:*:write", scope) {
      var mid :| SlashFree(mid) && scope == "billing:" + mid + ":write";
      assert scope[0] == 'b';
    } else if Glob("stripe:*:write", scope) {
      var mid :| SlashFree(mid) && scope == "stripe:" + mid + ":write";
      assert scope[0] == 's';
    }
  }

  /** The second read rule matches nothing the first does not. */
  lemma SecondReadGlobShadowed(scope: string)
    requires Glob("*:*:read", scope)
    ensures Glob("*:read", scope)
  {
    assert "*" + ":*:read" == "*:*:read" && ":" + "*:read" == ":*:read";
    StarHead(":*:read", scope);
    var n :| 0 <= n <= |scope| && SlashFree(scope[..n]) && Glob(":*:read", scope[n..]);
    var rest := scope[n..];
    LiteralHead(":", "*:read", rest);
    ReadGlob(rest[1..]);
    assert scope == scope[..n] + [':'] + rest[1..];
    ReadGlob(scope);
  }

  lemma OneRule(rules: seq<PolicyRule>, i: nat, agent: string, scope: string)
    requires i < |rules|
    ensures EvaluateTier(rules[i..], agent, scope) ==
            if Applies(rules[i], agent, scope) then rules[i].tier else EvaluateTier(rules[i + 1..], agent, scope)
  {
    assert rules[i..][1..] == rules[i + 1..];
  }

  /** From the third rule on every rule of the default set is for any agent. */
  lemma AnyAgentRule(rules: seq<PolicyRule>, i: nat, glob: string, tier: Tier, agent: string, scope: string)
    requires i < |rules| && rules[i] == PolicyRule("*", glob, tier) && glob != "*"
    ensures EvaluateTier(rules[i..], agent, scope) ==
            if Glob(glob, scope) then tier else EvaluateTier(rules[i + 1..], agent, scope)
  {
    OneRule(rules, i, agent, scope);
  }

  /** The read rules, and the last one that catches all. */
  lemma LastThreeUnrolled(agent: string, scope: string)
    ensures EvaluateTier(DefaultPolicyRules()[6..], agent, scope) ==
            if Glob("*:read", scope) || Glob("*:*:read", scope) then Auto else Hitl
  {
    var rules := DefaultPolicyRules();
    AnyAgentRule(rules, 6, "*:read", Auto, agent, scope);
    AnyAgentRule(rules, 7, "*:*:read", Auto, agent, scope);
    OneRule(rules, 8, agent, scope);
  }

  lemma TailUnrolled(agent: string, scope: string)
    ensures EvaluateTier(DefaultPolicyRules()[2..], agent, scope) ==
            if Glob("billing:*:write", scope) || Glob("stripe:*:write", scope) then Hitl
            else if Glob(MICRO_PAYMENT, scope) then Auto
            else if Glob("payment:*", scope) then Hitl
            else if Glob("*:read", scope) || Glob("*:*:read", scope) then Auto
            else Hitl
  {
    var rules := DefaultPolicyRules();
    AnyAgentRule(rules, 2, "billing:*:write", Hitl, agent, scope);
    AnyAgentRule(rules, 3, "stripe:*:write", Hitl, agent, scope);
    AnyAgentRule(rules, 4, MICRO_PAYMENT, Auto, agent, scope);
    AnyAgentRule(rules, 5, "payment:*", Hitl, agent, scope);
    LastThreeUnrolled(agent, scope);
  }

  /** The default rules unrolled: the scope rules seen by an agent that is neither admin nor CI. */
  lemma DefaultUnrolled(agent: string, scope: string)
    ensures EvaluateTier(DefaultPolicyRules(), agent, scope) ==
            if MatchPattern(ADMIN.agentPattern, agent) then Mfa
            else if MatchPattern(CI.agentPattern, agent) then Hitl
            else if Glob("billing:*:write", scope) || Glob("stripe:*:write", scope) then Hitl
            else if Glob(MICRO_PAYMENT, scope) then Auto
            else if Glob("payment:*", scope) then Hitl
            else if Glob("*:read", scope) || Glob("*:*:read", scope) then Auto
            else Hitl
  {
    var rules := DefaultPolicyRules();
    OneRule(rules, 0, agent, scope);
    OneRule(rules, 1, agent, scope);
    TailUnrolled(agent, scope);
    assert rules[0..] == rules;
  }

  lemma EndsApart(scope: string)
    ensures EndsWith(scope, ":read") ==> !EndsWith(scope, ":write") && scope != MICRO_PAYMENT
    ensures !EndsWith(MICRO_PAYMENT, ":write")
  {
    if EndsWith(scope, ":read") {
      assert scope[|scope| - 1] == 'd';
    }
    if EndsWith(scope, ":write") {
      assert scope[|scope| - 1] == 'e';
    }
    assert MICRO_PAYMENT[|MICRO_PAYMENT| - 1] == '0';
  }

  /** What the scope rules let through without a human. */
  lemma AutoScopes(scope: string)
    ensures scope == MICRO_PAYMENT || ReadScope(scope) <==>
            && !Glob("billing:*:write", scope) && !Glob("stripe:*:write", scope)
            && (Glob(MICRO_PAYMENT, scope) ||
                (!Glob("payment:*", scope) && (Glob("*:read", scope) || Glob("*:*:read", scope))))
  {
    WriteGlobs(scope);
    LiteralAlone(MICRO_PAYMENT, scope);
    PaymentGlob(scope);
    ReadGlob(scope);
    EndsApart(scope);
    if Glob("*:*:read", scope) {
      SecondReadGlobShadowed(scope);
    }
  }

  /** Exactly which requests the default policy approves without a human. */
  lemma DefaultAutoExactly(agent: string, scope: string)
    ensures EvaluateTier(DefaultPolicyRules(), agent, scope) == Auto <==>
            !AdminAgent(agent) && !CiAgent(agent) && (scope == MICRO_PAYMENT || ReadScope(scope))
  {
    DefaultUnrolled(agent, scope);
    AdminGlob(agent);
    CiGlob(agent);
    AutoScopes(scope);
  }

  /** Exactly which agents the default policy sends to the multi-factor tier, whatever the scope. */
  lemma DefaultMfaExactly(agent: string, scope: string)
    ensures EvaluateTier(DefaultPolicyRules(), agent, scope) == Mfa <==> AdminAgent(agent)
  {
    DefaultUnrolled(agent, scope);
    AdminGlob(agent);
  }

  /** An agent whose last '/' is not directly preceded by "admin" is no admin agent. */
  lemma LastSegment(agent: string, k: nat)
    requires 1 < k < |agent| && agent[k] == '/' && SlashFree(agent[k + 1..])
    requires agent[k - 1] != 'n'
    ensures !AdminAgent(agent)
  {
    forall domain, name | SlashFree(domain) && SlashFree(name)
      ensures agent != "spiffe://" + domain + "/admin/" + name
    {
      var other := "spiffe://" + domain + "/admin/" + name;
      var p := |other| - |name| - 1;
      assert other[p] == '/' && other[p - 1] == 'n';
      if p < k < |other| {
        assert other[k] == name[k - p - 1];
      }
      if k < p < |agent| {
        assert agent[p] == agent[k + 1..][p - k - 1];
      }
    }
  }

  /**
   The comment on the admin rule promises multi-factor approval for every admin identity. An admin
   workload one path segment deeper is not one the glob sees: a star does not cross '/'.
   */
  lemma NestedAdminIsNotMfa()
    ensures EvaluateTier(DefaultPolicyRules(), "spiffe://corp/admin/eu/root", "github:repos:write") == Hitl
  {
    var agent := "spiffe://corp/admin/eu/root";
    var scope := "github:repos:write";
    assert agent[22] == '/' && agent[21] == 'u' && SlashFree(agent[23..]);
    LastSegment(agent, 22);
    DefaultMfaExactly(agent, scope);
    DefaultAutoExactly(agent, scope);
    assert scope[|scope| - 1] == 'e' && scope[0] == 'g';
    assert scope[|scope| - 5..] == "write";
  }

  /** The comment on the micro-payment rule says up to fifty credits; ten of them still need a human. */
  lemma TenCreditsNeedAHuman(agent: string)
    requires !AdminAgent(agent)
    ensures EvaluateTier(DefaultPolicyRules(), agent, "payment:AGENT_CREDIT:10") == Hitl
  {
    var scope := "payment:AGENT_CREDIT:10";
    DefaultAutoExactly(agent, scope);
    DefaultMfaExactly(agent, scope);
    assert scope[21] == '1' && MICRO_PAYMENT[21] == '5';
    assert "payment:" <= scope;
  }

  /** Any rule that can only apply where an earlier rule already applies may be dropped. */
  lemma {:induction false} RedundantRule(rules: seq<PolicyRule>, j: nat, k: nat, agent: string, scope: string)
    requires j < k < |rules|
    requires Applies(rules[k], agent, scope) ==> Applies(rules[j], agent, scope)
    ensures EvaluateTier(rules[..k] + rules[k + 1..], agent, scope) == EvaluateTier(rules, agent, scope)
    decreases |rules|
  {
    var pruned := rules[..k] + rules[k + 1..];
    var tail := rules[1..];
    if Applies(rules[0], agent, scope) {
    } else if j == 0 {
      InapplicableRule(rules, k, agent, scope);
    } else {
      assert pruned[1..] == tail[..k - 1] + tail[k..];
      RedundantRule(tail, j - 1, k - 1, agent, scope);
    }
  }

  lemma {:induction false} InapplicableRule(rules: seq<PolicyRule>, k: nat, agent: string, scope: string)
    requires k < |rules| && !Applies(rules[k], agent, scope)
    ensures EvaluateTier(rules[..k] + rules[k + 1..], agent, scope) == EvaluateTier(rules, agent, scope)
    decreases |rules|
  {
    var pruned := rules[..k] + rules[k + 1..];
    var tail := rules[1..];
    if k == 0 {
      assert pruned == tail;
    } else {
      assert pruned[1..] == tail[..k - 1] + tail[k..];
      InapplicableRule(tail, k - 1, agent, scope);
    }
  }

  /** Dropping the shadowed rule "*:*:read" changes no decision. */
  lemma ShadowedRuleIsRedundant(agent: string, scope: string)
    ensures var rules := DefaultPolicyRules();
            rules[7].scopePattern == "*:*:read" &&
            EvaluateTier(rules[..7] + rules[8..], agent, scope) == EvaluateTier(rules, agent, scope)
  {
    if Glob("*:*:read", scope) {
      SecondReadGlobShadowed(scope);
    }
    RedundantRule(DefaultPolicyRules(), 6, 7, agent, scope);
  }
}
