/** How per-command rule matches are folded into one decision for a request. */
module ExecPolicy {
  import opened Basics
  import opened ShellGrammar

  datatype Decision = Allow | Prompt | Forbidden

  datatype RuleMatch = RuleMatch(matchedPrefix: Argv, decision: Decision, justification: Option<string>)

  /** The rule engine: which rules match a command. */
  type Policy = Argv -> seq<RuleMatch>

  datatype Evaluation = Evaluation(matchedRules: seq<RuleMatch>, decision: Option<Decision>)

  /** Order of severity of the rule engine: Allow, then Prompt, then Forbidden. */
  function Severity(d: Decision): nat {
    match d
    case Allow => 0
    case Prompt => 1
    case Forbidden => 2
  }

  /** The most severe decision among the matches of one command, if any rule matches. */
  function Highest(ms: seq<RuleMatch>): (d: Option<Decision>)
    ensures d.None? <==> ms == []
    ensures d.Some? ==> (exists m :: m in ms && m.decision == d.value)
    ensures forall m <- ms :: d.Some? && Severity(m.decision) <= Severity(d.value)
  {
    if ms == [] then None
    else
      var rest := Highest(ms[1..]);
      assert forall m <- ms :: m == ms[0] || m in ms[1..];
      if rest.Some? && Severity(rest.value) > Severity(ms[0].decision) then rest else Some(ms[0].decision)
  }

  function Verdict(policy: Policy, argv: Argv): Option<Decision> {
    Highest(policy(argv))
  }

  /** Order of weight between verdicts: Forbidden over Prompt over no match over Allow. */
  function Weight(d: Option<Decision>): nat {
    match d
    case Some(Allow) => 0
    case None => 1
    case Some(Prompt) => 2
    case Some(Forbidden) => 3
  }

  function Join(a: Option<Decision>, b: Option<Decision>): Option<Decision> {
    if Weight(a) >= Weight(b) then a else b
  }

  function JoinAll(policy: Policy, argvs: seq<Argv>): Option<Decision> {
    if argvs == [] then Some(Allow)
    else Join(JoinAll(policy, argvs[..|argvs| - 1]), Verdict(policy, argvs[|argvs| - 1]))
  }

  function AllMatches(policy: Policy, argvs: seq<Argv>): seq<RuleMatch> {
    if argvs == [] then []
    else AllMatches(policy, argvs[..|argvs| - 1]) + policy(argvs[|argvs| - 1])
  }

  /** The flags of the loop, read as a decision. */
  function Flagged(sawForbidden: bool, sawPrompt: bool, allAllowed: bool): Option<Decision> {
    if sawForbidden then Some(Forbidden)
    else if sawPrompt then Some(Prompt)
    else if allAllowed then Some(Allow)
    else None
  }

  /** How many matches some commands have. */
  function Matches(policy: Policy, argvs: seq<Argv>): nat {
    if argvs == [] then 0 else Matches(policy, argvs[..|argvs| - 1]) + |policy(argvs[|argvs| - 1])|
  }

  /** The matches of command i stand together, behind those of the commands before it. */
  predicate HasBlock(rules: seq<RuleMatch>, policy: Policy, argvs: seq<Argv>, i: nat)
    requires i < |argvs|
  {
    var from := Matches(policy, argvs[..i]);
    from + |policy(argvs[i])| <= |rules| && rules[from..from + |policy(argvs[i])|] == policy(argvs[i])
  }

  /** The rules reported are the matches of all commands, block by block and nothing else. */
  ghost predicate InBlocks(rules: seq<RuleMatch>, policy: Policy, argvs: seq<Argv>) {
    |rules| == Matches(policy, argvs) && forall i: nat :: i < |argvs| ==> HasBlock(rules, policy, argvs, i)
  }

  lemma {:induction false} MatchesInBlocks(policy: Policy, argvs: seq<Argv>)
    ensures InBlocks(AllMatches(policy, argvs), policy, argvs)
  {
    if argvs != [] {
      var n := |argvs| - 1;
      MatchesInBlocks(policy, argvs[..n]);
      var rules := AllMatches(policy, argvs);
      assert rules == AllMatches(policy, argvs[..n]) + policy(argvs[n]);
      forall i: nat | i < |argvs|
        ensures HasBlock(rules, policy, argvs, i)
      {
        if i < n {
          assert HasBlock(AllMatches(policy, argvs[..n]), policy, argvs[..n], i);
          assert argvs[..n][..i] == argvs[..i];
        }
      }
    }
  }

  /** There is only one list of rules in such blocks. */
  lemma {:induction false} BlocksDecide(rules: seq<RuleMatch>, policy: Policy, argvs: seq<Argv>)
    requires InBlocks(rules, policy, argvs)
    ensures rules == AllMatches(policy, argvs)
    decreases |argvs|
  {
    if argvs != [] {
      var n := |argvs| - 1;
      var from := Matches(policy, argvs[..n]);
      assert HasBlock(rules, policy, argvs, n);
      forall i: nat | i < n
        ensures HasBlock(rules[..from], policy, argvs[..n], i)
      {
        assert HasBlock(rules, policy, argvs, i) && argvs[..n][..i] == argvs[..i];
        BlocksFit(policy, argvs[..n], i);
      }
      BlocksDecide(rules[..from], policy, argvs[..n]);
      assert rules == rules[..from] + rules[from..];
    }
  }

  lemma {:induction false} BlocksFit(policy: Policy, argvs: seq<Argv>, i: nat)
    requires i < |argvs|
    ensures Matches(policy, argvs[..i]) + |policy(argvs[i])| <= Matches(policy, argvs)
  {
    var n := |argvs| - 1;
    if i < n {
      BlocksFit(policy, argvs[..n], i);
      assert argvs[..n][..i] == argvs[..i];
    }
  }

  method EvaluateNormalizedWithPolicy(policy: Policy, argvs: seq<Argv>) returns (e: Evaluation)
    ensures e == Evaluation(AllMatches(policy, argvs), JoinAll(policy, argvs))
    ensures InBlocks(e.matchedRules, policy, argvs)
  {
    MatchesInBlocks(policy, argvs);
    hide InBlocks;
    var matched: seq<RuleMatch> := [];
    var allAllowed, sawPrompt, sawForbidden := true, false, false;
    for i := 0 to |argvs|
      invariant matched == AllMatches(policy, argvs[..i])
      invariant Flagged(sawForbidden, sawPrompt, allAllowed) == JoinAll(policy, argvs[..i])
      invariant (sawForbidden || sawPrompt) ==> !allAllowed
    {
      assert argvs[..i + 1][..i] == argvs[..i];
      var perCommand := policy(argvs[i]);
      match Highest(perCommand) {
        case Some(Forbidden) => sawForbidden, allAllowed := true, false;
        case Some(Prompt) => sawPrompt, allAllowed := true, false;
        case Some(Allow) =>
        case None => allAllowed := false;
      }
      matched := matched + perCommand;
    }
    assert argvs[..|argvs|] == argvs;
    return Evaluation(matched, Flagged(sawForbidden, sawPrompt, allAllowed));
  }

  /** The evaluation of a request: nothing to judge means no decision. */
  function Judged(policy: Policy, argvs: seq<Argv>): Evaluation {
    if argvs == [] then Evaluation([], None) else Evaluation(AllMatches(policy, argvs), JoinAll(policy, argvs))
  }

  /** evaluate_normalized */
  method EvaluateNormalized(policy: Policy, argvs: seq<Argv>) returns (e: Evaluation)
    ensures e == Judged(policy, argvs) && InBlocks(e.matchedRules, policy, argvs)
    ensures argvs == [] ==> e == Evaluation([], None)
    ensures argvs != [] ==> e.decision == JoinAll(policy, argvs)
    ensures e.decision == Some(Allow) ==> |e.matchedRules| >= |argvs| > 0
  {
    if argvs == [] {
      return Evaluation([], None);
    }
    e := EvaluateNormalizedWithPolicy(policy, argvs);
    if e.decision == Some(Allow) {
      AllowedAreMatched(policy, argvs);
    }
  }

  /** Allow comes with at least one rule for each command. */
  lemma AllowedAreMatched(policy: Policy, argvs: seq<Argv>)
    requires JoinAll(policy, argvs) == Some(Allow)
    ensures Matches(policy, argvs) >= |argvs|
  {
    DecisionMeaning(policy, argvs);
    hide JoinAll;
    ClearedAreMatched(policy, argvs);
  }

  lemma {:induction false} ClearedAreMatched(policy: Policy, argvs: seq<Argv>)
    requires forall argv <- argvs :: Cleared(policy, argv)
    ensures Matches(policy, argvs) >= |argvs|
  {
    if argvs != [] {
      assert argvs[|argvs| - 1] in argvs && forall argv <- argvs[..|argvs| - 1] :: argv in argvs;
      ClearedAreMatched(policy, argvs[..|argvs| - 1]);
    }
  }

  // ----- what the fold means -----

  ghost predicate Draws(policy: Policy, argv: Argv, d: Decision) {
    exists m :: m in policy(argv) && m.decision == d
  }

  /** Every rule that matches argv allows it, and at least one does. */
  ghost predicate Cleared(policy: Policy, argv: Argv) {
    policy(argv) != [] && forall m <- policy(argv) :: m.decision.Allow?
  }

  /** The decision in terms of single rules. */
  lemma {:induction false} DecisionMeaning(policy: Policy, argvs: seq<Argv>)
    ensures JoinAll(policy, argvs) == Some(Forbidden) <==>
      exists argv :: argv in argvs && Draws(policy, argv, Forbidden)
    ensures JoinAll(policy, argvs) == Some(Prompt) <==>
      && (exists argv :: argv in argvs && Draws(policy, argv, Prompt))
      && !(exists argv :: argv in argvs && Draws(policy, argv, Forbidden))
    ensures JoinAll(policy, argvs) == Some(Allow) <==> forall argv <- argvs :: Cleared(policy, argv)
  {
    if argvs != [] {
      var front := argvs[..|argvs| - 1];
      var last := argvs[|argvs| - 1];
      DecisionMeaning(policy, front);
      VerdictMeaning(policy, last);
      assert forall argv :: argv in argvs <==> argv in front || argv == last;
      hide Draws, Cleared, Verdict;
    }
  }

  lemma VerdictMeaning(policy: Policy, argv: Argv)
    ensures Verdict(policy, argv) == Some(Forbidden) <==> Draws(policy, argv, Forbidden)
    ensures Verdict(policy, argv) == Some(Prompt) <==> Draws(policy, argv, Prompt) && !Draws(policy, argv, Forbidden)
    ensures Verdict(policy, argv) == Some(Allow) <==> Cleared(policy, argv)
  {
  }

  lemma JoinLaws(a: Option<Decision>, b: Option<Decision>, c: Option<Decision>)
    ensures Join(Join(a, b), c) == Join(a, Join(b, c))
    ensures Join(a, b) == Join(b, a) && Join(a, Some(Allow)) == a && Join(a, a) == a
  {
  }

  /** Folding over two lists of commands is joining the two decisions ... */
  lemma {:induction false} DecisionIsHomomorphic(policy: Policy, a: seq<Argv>, b: seq<Argv>)
    ensures JoinAll(policy, a + b) == Join(JoinAll(policy, a), JoinAll(policy, b))
  {
    if b == [] {
      assert a + b == a;
      JoinLaws(JoinAll(policy, a), None, None);
    } else {
      hide Join, Verdict;
      var front := b[..|b| - 1];
      var last := b[|b| - 1];
      assert (a + b)[..|a + b| - 1] == a + front && (a + b)[|a + b| - 1] == last;
      DecisionIsHomomorphic(policy, a, front);
      JoinLaws(JoinAll(policy, a), JoinAll(policy, front), Verdict(policy, last));
    }
  }

  /** ... with the matches of the one after the matches of the other. */
  lemma {:induction false} MatchesConcatenate(policy: Policy, a: seq<Argv>, b: seq<Argv>)
    ensures AllMatches(policy, a + b) == AllMatches(policy, a) + AllMatches(policy, b)
  {
    if b == [] {
      assert a + b == a;
    } else {
      var front := b[..|b| - 1];
      assert (a + b)[..|a + b| - 1] == a + front;
      MatchesConcatenate(policy, a, front);
    }
  }

  /** The decision depends only on which commands are asked about, not on order or repetition. */
  lemma DecisionIgnoresOrder(policy: Policy, a: seq<Argv>, b: seq<Argv>)
    requires forall argv :: argv in a <==> argv in b
    ensures JoinAll(policy, a) == JoinAll(policy, b)
  {
    DecisionMeaning(policy, a);
    DecisionMeaning(policy, b);
  }
}
