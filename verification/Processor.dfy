/** Applying the rules that match an event. */
module Processor {
  import opened Documents
  import opened FilterExpressions
  import opened DeMorgan
  import opened RuleParser
  import opened RuleTree

  /**
   * What applying a rule does to an event. It may depend on the rules applied before, by which any
   * cache, clock or resolver that the rule looks at is told; nothing is known about it.
   */
  type Effect = (seq<Rule>, Rule, Document) -> Document

  /** The event after the rules were applied in turn. */
  ghost function Applied(effect: Effect, event: Document, rules: seq<Rule>): Document {
    if rules == [] then event
    else
      var before := rules[..|rules| - 1];
      effect(before, rules[|rules| - 1], Applied(effect, event, before))
  }

  ghost predicate AreDifferent(rules: seq<Rule>) {
    forall i, j | 0 <= i < j < |rules| :: rules[i] != rules[j]
  }

  /** What loading does to a rule that had this filter. */
  ghost predicate IsLoaded(tree: RuleTree, rule: Rule, filter: Expr)
    reads tree`rules, rule
  {
    && (rule in tree.rules <==> ParseFilter(filter, tree.config).Ok?)
    && rule.filter == AfterResolve(filter)
  }

  /**
   * `load_rules`: the tree holds exactly the rules whose filter can be parsed, every one once. The
   * filters are rewritten, also those of the skipped rules.
   */
  method LoadRules(rules: seq<Rule>, config: Config) returns (tree: RuleTree)
    requires forall rule <- rules :: HasChildren(rule.filter)
    modifies rules
    ensures fresh(tree) && fresh(tree.nodes) && tree.Valid() && tree.config == config
    ensures forall rule <- tree.rules :: rule in rules
    ensures forall rule <- rules :: IsLoaded(tree, rule, old(rule.filter))
  {
    hide RuleTree.Valid, IsLoaded, HasChildren;
    tree := new RuleTree(config);
    for i := 0 to |rules|
      invariant fresh(tree) && fresh(tree.nodes) && tree.Valid() && tree.config == config
      invariant forall rule <- tree.rules :: rule in rules[..i]
      invariant forall rule <- rules[..i] :: IsLoaded(tree, rule, old(rule.filter))
      invariant forall rule <- rules :: HasChildren(rule.filter)
      invariant forall rule <- rules :: rule in rules[..i] || rule.filter == old(rule.filter)
    {
      AddOne(tree, rules, i, map rule | rule in rules :: old(rule.filter));
    }
    assert rules[..|rules|] == rules;
  }

  /** One iteration of the loop. */
  method AddOne(tree: RuleTree, rules: seq<Rule>, i: nat, ghost filters: map<Rule, Expr>)
    requires i < |rules| && tree.Valid() && filters.Keys == (set rule | rule in rules)
    requires forall rule <- tree.rules :: rule in rules[..i]
    requires forall rule <- rules[..i] :: rule in filters && IsLoaded(tree, rule, filters[rule])
    requires forall rule <- rules :: HasChildren(rule.filter) && HasChildren(filters[rule])
    requires forall rule <- rules :: rule in rules[..i] || rule.filter == filters[rule]
    modifies tree`nodes, tree`path, tree`known, tree`rules, tree`ruleIds, rules[i]
    modifies tree.nodes`children, tree.nodes`matchingRules
    ensures tree.Valid() && fresh(tree.nodes - old(tree.nodes))
    ensures forall rule <- tree.rules :: rule in rules[..i + 1]
    ensures forall rule <- rules[..i + 1] :: IsLoaded(tree, rule, filters[rule])
    ensures HasChildren(rules[i].filter)
  {
    hide RuleTree.Valid, ParseFilter, HasChildren, AfterResolve;
    var rule := rules[i];
    assert rules[..i + 1] == rules[..i] + [rule];
    Resolving(filters[rule], tree.config);
    tree.AddRule(rule);
  }

  lemma Resolving(filter: Expr, config: Config)
    requires HasChildren(filter)
    ensures HasChildren(AfterResolve(filter))
    ensures AfterResolve(AfterResolve(filter)) == AfterResolve(filter)
    ensures ParseFilter(AfterResolve(filter), config) == ParseFilter(filter, config)
  {
    ParsingAgain(filter, config);
    ResolveAgain(filter);
    ResolveResolves(filter);
  }

  // ------------------------------------------------------------------ applying

  ghost predicate AreRulesOf(rules: seq<Rule>, tree: RuleTree)
    reads tree`rules
  {
    forall rule <- rules :: rule in tree.rules
  }

  /** The rule at this place is one that the tree gives for this event. */
  ghost predicate IsGiven(tree: RuleTree, engine: Engine, i: nat, event: Document)
    requires i < |tree.rules|
    reads tree`rules, set rule | rule in tree.rules
  {
    && FirstOf(tree.rules, i) && ParseFilter(tree.rules[i].filter, tree.config).Ok?
    && SomeMatch(engine, ParseFilter(tree.rules[i].filter, tree.config).value, event)
  }

  /**
   * What the tree gives are rules that match; without tags, all that match and have not both the filter
   * and the configuration of a rule before.
   */
  lemma GivenIsMatching(tree: RuleTree, engine: Engine, i: nat, event: Document)
    requires tree.Valid() && i < |tree.rules|
    ensures IsGiven(tree, engine, i, event) ==> Matches(engine, tree.rules[i].filter, event)
    ensures tree.config.tags == map[] ==>
              (IsGiven(tree, engine, i, event)
               <==> && Matches(engine, tree.rules[i].filter, event)
                    && forall j | 0 <= j < i ::
                         tree.rules[j].filter != tree.rules[i].filter || tree.rules[j].config != tree.rules[i].config)
  {
    hide Index.Represents, ParseFilter, SomeMatch, Matches, FirstOf;
    FirstByFields(tree.rules, i);
    assert tree.IsParsed(tree.rules[i]);
    tree.FilterDecides(engine, event, tree.rules[i]);
  }

  /** No rule that matches equals one that was known before. */
  ghost predicate NoneRepeats(rules: seq<Rule>, engine: Engine, event: Document)
    reads set rule | rule in rules
  {
    forall i, j | 0 <= i < j < |rules| && rules[i].filter == rules[j].filter && rules[i].config == rules[j].config ::
      !Matches(engine, rules[j].filter, event)
  }

  /**
   * Without tags, the tree selects the rules whose own filter matches, as the path that bypasses it
   * does, exactly if no rule that matches equals an earlier one.
   */
  lemma TreeIsBypass(tree: RuleTree, engine: Engine, event: Document)
    requires tree.Valid() && tree.config.tags == map[]
    ensures NoneRepeats(tree.rules, engine, event)
       <==> forall i | 0 <= i < |tree.rules| ::
              IsGiven(tree, engine, i, event) <==> Matches(engine, tree.rules[i].filter, event)
  {
    hide Index.Represents, ParseFilter, SomeMatch, Matches, Rule.Equals, IsGiven, RuleTree.Valid;
    forall i | 0 <= i < |tree.rules|
      ensures IsGiven(tree, engine, i, event)
         <==> && Matches(engine, tree.rules[i].filter, event)
              && forall j | 0 <= j < i ::
                   tree.rules[j].filter != tree.rules[i].filter || tree.rules[j].config != tree.rules[i].config
    {
      GivenIsMatching(tree, engine, i, event);
    }
  }

  /** Two rules that are equal, though they are two: both are known, only the first one is ever given. */
  method TwoEqualRules(filter: Expr, content: string, config: Config)
    returns (tree: RuleTree, first: Rule, second: Rule)
    requires HasChildren(filter) && ParseFilter(filter, config).Ok? && config.tags == map[]
    ensures tree.Valid() && tree.config == config && first != second && tree.rules == [first, second]
    ensures forall engine: Engine, event: Document :: Matches(engine, filter, event) ==>
              && Matches(engine, first.filter, event) && Matches(engine, second.filter, event)
              && IsGiven(tree, engine, 0, event) && !IsGiven(tree, engine, 1, event)
  {
    hide RuleTree.Valid, ParseFilter, AfterResolve, SomeMatch, Matches, HasChildren, IsGiven;
    tree := new RuleTree(config);
    first := AddNew(tree, filter, content);
    second := AddNew(tree, filter, content);
    forall engine: Engine, event: Document | Matches(engine, filter, event)
      ensures Matches(engine, first.filter, event) && Matches(engine, second.filter, event)
      ensures IsGiven(tree, engine, 0, event) && !IsGiven(tree, engine, 1, event)
    {
      OnlyFirstIsGiven(tree, filter, engine, event);
    }
  }

  /** Two rules with one filter and different configurations: both are given. */
  method TwoConfigurations(filter: Expr, some: string, other: string, config: Config)
    returns (tree: RuleTree, first: Rule, second: Rule)
    requires HasChildren(filter) && ParseFilter(filter, config).Ok? && config.tags == map[] && some != other
    ensures tree.Valid() && tree.config == config && tree.rules == [first, second]
    ensures first.filter == second.filter && first.config == some && second.config == other
    ensures forall engine: Engine, event: Document :: Matches(engine, filter, event) ==>
              IsGiven(tree, engine, 0, event) && IsGiven(tree, engine, 1, event)
  {
    hide RuleTree.Valid, ParseFilter, AfterResolve, SomeMatch, Matches, HasChildren, IsGiven;
    tree := new RuleTree(config);
    first := AddNew(tree, filter, some);
    second := AddNew(tree, filter, other);
    forall engine: Engine, event: Document | Matches(engine, filter, event)
      ensures IsGiven(tree, engine, 0, event) && IsGiven(tree, engine, 1, event)
    {
      AfterResolveKeepsMeaning(engine, filter, event);
      GivenIsMatching(tree, engine, 0, event);
      GivenIsMatching(tree, engine, 1, event);
    }
  }

  method AddNew(tree: RuleTree, filter: Expr, content: string) returns (rule: Rule)
    requires tree.Valid() && HasChildren(filter) && ParseFilter(filter, tree.config).Ok?
    modifies tree`nodes, tree`path, tree`known, tree`rules, tree`ruleIds
    modifies tree.nodes`children, tree.nodes`matchingRules
    ensures tree.Valid() && fresh(rule) && fresh(tree.nodes - old(tree.nodes))
    ensures tree.rules == old(tree.rules) + [rule]
    ensures rule.filter == AfterResolve(filter) && rule.config == content
  {
    hide RuleTree.Valid, ParseFilter, AfterResolve, HasChildren;
    rule := new Rule(filter, content);
    tree.AddRule(rule);
  }

  lemma OnlyFirstIsGiven(tree: RuleTree, filter: Expr, engine: Engine, event: Document)
    requires tree.Valid() && tree.config.tags == map[] && |tree.rules| == 2 && tree.rules[0].Equals(tree.rules[1])
    requires tree.rules[0].filter == AfterResolve(filter) && Matches(engine, filter, event)
    ensures Matches(engine, tree.rules[0].filter, event) && Matches(engine, tree.rules[1].filter, event)
    ensures IsGiven(tree, engine, 0, event) && !IsGiven(tree, engine, 1, event)
  {
    hide RuleTree.Valid, ParseFilter, AfterResolve, SomeMatch, Matches, IsGiven;
    AfterResolveKeepsMeaning(engine, filter, event);
    GivenIsMatching(tree, engine, 0, event);
    GivenIsMatching(tree, engine, 1, event);
  }

  /** Filters that were written differently can become the same by being rewritten. */
  lemma RewritingMakesEqual()
    ensures var a, b, c := Exists(["a"]), Exists(["b"]), Exists(["c"]);
            var left, right := And([c, Not(Or([a, b]))]), And([c, And([Not(a), Not(b)])]);
            left != right && AfterResolve(left) == AfterResolve(right)
  {
    var a, b, c := Exists(["a"]), Exists(["b"]), Exists(["c"]);
    var left, right := And([c, Not(Or([a, b]))]), And([c, And([Not(a), Not(b)])]);
    assert left.children[1] != right.children[1];
    assert ResolveNot(Or([a, b])).children == [Not(a), Not(b)];
    assert Resolve(And([Not(a), Not(b)])).children == [Not(a), Not(b)];
    assert Resolve(left).children == Resolve(right).children == [c, And([Not(a), Not(b)])];
  }

  method GivenRules(tree: RuleTree, engine: Engine, event: Document) returns (rules: seq<Rule>)
    requires tree.Valid()
    ensures rules == tree.Walk(engine, event) && AreDifferent(rules) && AreRulesOf(rules, tree)
    ensures forall i | 0 <= i < |tree.rules| :: tree.rules[i] in rules <==> IsGiven(tree, engine, i, event)
  {
    hide RuleTree.Valid, ParseFilter, SomeMatch, Matches, FirstOf, RuleTree.Walk;
    rules := tree.GetMatchingRules(engine, event);
    forall i | 0 <= i < |tree.rules| ensures tree.rules[i] in rules <==> IsGiven(tree, engine, i, event) {
      tree.CanBeParsed(tree.rules[i]);
      FirstByFields(tree.rules, i);
    }
  }

  lemma AppliedMore(effect: Effect, event: Document, rules: seq<Rule>, rule: Rule)
    ensures Applied(effect, event, rules + [rule]) == effect(rules, rule, Applied(effect, event, rules))
  {
    assert (rules + [rule])[..|rules|] == rules;
  }

  /** The loop over the rules that match. */
  method ApplyAll(effect: Effect, event: Document, rules: seq<Rule>, ghost before: Document, trace: seq<Rule>)
    returns (result: Document)
    requires event == Applied(effect, before, trace)
    ensures result == Applied(effect, before, trace + rules)
  {
    result := event;
    assert trace + rules[..0] == trace;
    for i := 0 to |rules|
      invariant result == Applied(effect, before, trace + rules[..i])
    {
      AppliedMore(effect, before, trace + rules[..i], rules[i]);
      assert trace + rules[..i] + [rules[i]] == trace + rules[..i + 1];
      result := effect(trace + rules[..i], rules[i], result);
    }
    assert rules[..|rules|] == rules;
  }

  /** `_process_rule_tree_once`: applies the rules given for the event as it came in, in the order of the walk. */
  method ProcessOnce(tree: RuleTree, engine: Engine, effect: Effect, event: Document)
    returns (result: Document, trace: seq<Rule>)
    requires tree.Valid()
    ensures result == Applied(effect, event, trace) && trace == tree.Walk(engine, event)
    ensures AreDifferent(trace) && AreRulesOf(trace, tree)
    ensures forall i | 0 <= i < |tree.rules| :: tree.rules[i] in trace <==> IsGiven(tree, engine, i, event)
  {
    hide RuleTree.Valid, IsGiven;
    trace := GivenRules(tree, engine, event);
    result := ApplyAll(effect, event, trace, event, []);
    assert [] + trace == trace;
  }

  lemma NothingApplied(effect: Effect, event: Document)
    ensures Applied(effect, event, []) == event && AreDifferent([])
  {
  }

  lemma DifferentConcat(a: seq<Rule>, b: seq<Rule>)
    requires AreDifferent(a) && AreDifferent(b) && forall rule <- b :: rule !in a
    ensures AreDifferent(a + b)
  {
    forall i, j | 0 <= i < j < |a + b| ensures (a + b)[i] != (a + b)[j] {
      if i < |a| <= j {
        assert a[i] in a && b[j - |a|] in b;
      }
    }
  }

  // ------------------------------------------------------------ applying repeatedly

  /** The rules of all rounds, in turn. */
  ghost function InTurn(rounds: seq<seq<Rule>>): seq<Rule> {
    if rounds == [] then [] else InTurn(rounds[..|rounds| - 1]) + rounds[|rounds| - 1]
  }

  lemma {:induction false} InSomeRound(rounds: seq<seq<Rule>>, rule: Rule)
    ensures rule in InTurn(rounds) <==> exists round <- rounds :: rule in round
  {
    if rounds != [] {
      InSomeRound(rounds[..|rounds| - 1], rule);
      assert rounds == rounds[..|rounds| - 1] + [rounds[|rounds| - 1]];
    }
  }

  /** A round applies the rules that are given for the event and were not applied before, and no others. */
  ghost predicate IsRound(tree: RuleTree, engine: Engine, event: Document, before: seq<Rule>, round: seq<Rule>)
    reads tree`rules, set rule | rule in tree.rules
  {
    && round != [] && AreDifferent(round) && AreRulesOf(round, tree)
    && forall i | 0 <= i < |tree.rules| ::
         tree.rules[i] in round <==> IsGiven(tree, engine, i, event) && tree.rules[i] !in before
  }

  ghost predicate AreRounds(
    tree: RuleTree, engine: Engine, effect: Effect, event: Document, rounds: seq<seq<Rule>>)
    reads tree`rules, set rule | rule in tree.rules
  {
    forall k | 0 <= k < |rounds| ::
      IsRound(tree, engine, Applied(effect, event, InTurn(rounds[..k])), InTurn(rounds[..k]), rounds[k])
  }

  lemma OneMoreRound(
    tree: RuleTree, engine: Engine, effect: Effect, event: Document, rounds: seq<seq<Rule>>, round: seq<Rule>)
    requires AreRounds(tree, engine, effect, event, rounds)
    requires IsRound(tree, engine, Applied(effect, event, InTurn(rounds)), InTurn(rounds), round)
    ensures AreRounds(tree, engine, effect, event, rounds + [round])
    ensures InTurn(rounds + [round]) == InTurn(rounds) + round
  {
    hide IsRound, Applied;
    var more := rounds + [round];
    assert more[..|rounds|] == rounds;
    forall k | 0 <= k < |more|
      ensures IsRound(tree, engine, Applied(effect, event, InTurn(more[..k])), InTurn(more[..k]), more[k])
    {
      assert k < |rounds| ==> more[..k] == rounds[..k] && more[k] == rounds[k];
    }
  }

  /** Every rule of every round matches the event as the rounds before left it, and is in no round before. */
  lemma RoundsMatch(
    tree: RuleTree, engine: Engine, effect: Effect, event: Document, rounds: seq<seq<Rule>>, k: nat, rule: Rule)
    requires tree.Valid() && AreRounds(tree, engine, effect, event, rounds) && k < |rounds| && rule in rounds[k]
    ensures Matches(engine, rule.filter, Applied(effect, event, InTurn(rounds[..k])))
    ensures forall j | 0 <= j < k :: rule !in rounds[j]
  {
    hide RuleTree.Valid, IsGiven, Matches, Applied;
    var before := InTurn(rounds[..k]);
    assert IsRound(tree, engine, Applied(effect, event, before), before, rounds[k]);
    var i :| 0 <= i < |tree.rules| && tree.rules[i] == rule;
    GivenIsMatching(tree, engine, i, Applied(effect, event, before));
    InSomeRound(rounds[..k], rule);
    forall j | 0 <= j < k ensures rule !in rounds[j] {
      assert rounds[..k][j] in rounds[..k];
    }
  }

  /** The elements of a set, in no particular order. */
  method InSomeOrder(rules: set<Rule>) returns (list: seq<Rule>)
    ensures AreDifferent(list) && forall rule :: rule in list <==> rule in rules
  {
    list := [];
    var rest := rules;
    while rest != {}
      invariant rest <= rules && AreDifferent(list)
      invariant forall rule :: rule in list <==> rule in rules - rest
      decreases rest
    {
      var rule :| rule in rest;
      assert rule !in list;
      rest := rest - {rule};
      list := list + [rule];
    }
  }

  /**
   * `_process_rule_tree_multiple_times`: ends whatever the rules do to the event. Each round applies
   * exactly the rules that are given for the event at its beginning and were not applied before, until
   * there are none; the first round is in the order of the walk.
   */
  method ProcessMultipleTimes(tree: RuleTree, engine: Engine, effect: Effect, event: Document)
    returns (result: Document, trace: seq<Rule>, ghost rounds: seq<seq<Rule>>)
    requires tree.Valid()
    ensures result == Applied(effect, event, trace) && trace == InTurn(rounds)
    ensures AreDifferent(trace) && AreRulesOf(trace, tree)
    ensures AreRounds(tree, engine, effect, event, rounds)
    ensures tree.Walk(engine, event) == if rounds == [] then [] else rounds[0]
    ensures forall i | 0 <= i < |tree.rules| :: IsGiven(tree, engine, i, result) ==> tree.rules[i] in trace
  {
    hide RuleTree.Valid, IsGiven, RuleTree.Walk, IsLeft, Applied, AreDifferent, AreRounds;
    var applied: set<Rule> := {};
    var matching := GivenRules(tree, engine, event);
    ghost var first, all := matching, set rule | rule in tree.rules;
    result, trace, rounds := event, [], [];
    NothingApplied(effect, event);
    assert AreRounds(tree, engine, effect, event, []) by { NoRounds(tree, engine, effect, event); }
    assert IsLeft(tree, engine, event, [], matching) by { GivenAreLeft(tree, engine, event, [], matching, matching); }
    while matching != []
      invariant InProgress(tree, engine, effect, event, result, trace, applied, matching, rounds)
      invariant if rounds == [] then matching == first else rounds[0] == first
      decreases all - applied
    {
      ghost var now := matching;
      assert now[0] in now && now[0] in all - applied;
      result, applied, trace, matching, rounds :=
        ProcessRound(tree, engine, effect, event, result, trace, applied, matching, rounds);
    }
    NoneLeft(tree, engine, result, trace);
  }

  lemma NoRounds(tree: RuleTree, engine: Engine, effect: Effect, event: Document)
    ensures AreRounds(tree, engine, effect, event, [])
  {
  }

  /** What holds between two rounds of the loop. */
  ghost predicate InProgress(
    tree: RuleTree, engine: Engine, effect: Effect, event: Document, now: Document, trace: seq<Rule>,
    applied: set<Rule>, matching: seq<Rule>, rounds: seq<seq<Rule>>)
    reads tree`rules, set rule | rule in tree.rules
  {
    && now == Applied(effect, event, trace) && trace == InTurn(rounds)
    && AreDifferent(trace) && AreRulesOf(trace, tree) && AreDifferent(matching) && AreRulesOf(matching, tree)
    && applied == (set rule | rule in trace) && (forall rule <- matching :: rule !in trace)
    && IsLeft(tree, engine, now, trace, matching) && AreRounds(tree, engine, effect, event, rounds)
  }

  /** One round: applies the rules that match and looks which others match then. */
  method ProcessRound(
    tree: RuleTree, engine: Engine, effect: Effect, ghost event: Document, now: Document, trace: seq<Rule>,
    applied: set<Rule>, matching: seq<Rule>, ghost rounds: seq<seq<Rule>>)
    returns (result: Document, after: set<Rule>, longer: seq<Rule>, next: seq<Rule>, ghost more: seq<seq<Rule>>)
    requires tree.Valid() && matching != []
    requires InProgress(tree, engine, effect, event, now, trace, applied, matching, rounds)
    ensures InProgress(tree, engine, effect, event, result, longer, after, next, more)
    ensures longer == trace + matching && after == applied + (set rule | rule in matching)
    ensures more == rounds + [matching]
  {
    hide RuleTree.Valid, IsGiven, RuleTree.Walk, IsLeft, Applied, AreDifferent, AreRounds;
    result := ApplyAll(effect, now, matching, event, trace);
    DifferentConcat(trace, matching);
    longer := trace + matching;
    after := applied + set rule | rule in matching;
    LeftIsRound(tree, engine, now, trace, matching);
    more := rounds + [matching];
    OneMoreRound(tree, engine, effect, event, rounds, matching);
    var again := GivenRules(tree, engine, result);
    next := InSomeOrder((set rule | rule in again) - after);
    GivenAreLeft(tree, engine, result, longer, again, next);
  }

  /** The rules that are given for the event and were not applied. */
  ghost predicate IsLeft(tree: RuleTree, engine: Engine, event: Document, applied: seq<Rule>, left: seq<Rule>)
    reads tree`rules, set rule | rule in tree.rules
  {
    forall i | 0 <= i < |tree.rules| ::
      tree.rules[i] in left <==> IsGiven(tree, engine, i, event) && tree.rules[i] !in applied
  }

  lemma LeftIsRound(tree: RuleTree, engine: Engine, event: Document, applied: seq<Rule>, left: seq<Rule>)
    requires IsLeft(tree, engine, event, applied, left) && left != [] && AreDifferent(left) && AreRulesOf(left, tree)
    ensures IsRound(tree, engine, event, applied, left)
  {
    hide IsGiven;
  }

  lemma GivenAreLeft(
    tree: RuleTree, engine: Engine, event: Document, applied: seq<Rule>, given: seq<Rule>, left: seq<Rule>)
    requires forall i | 0 <= i < |tree.rules| :: tree.rules[i] in given <==> IsGiven(tree, engine, i, event)
    requires forall rule: Rule :: rule in left <==> rule in given && rule !in applied
    ensures IsLeft(tree, engine, event, applied, left)
  {
    hide IsGiven;
  }

  lemma NoneLeft(tree: RuleTree, engine: Engine, event: Document, applied: seq<Rule>)
    requires IsLeft(tree, engine, event, applied, [])
    ensures forall i | 0 <= i < |tree.rules| :: IsGiven(tree, engine, i, event) ==> tree.rules[i] in applied
  {
    hide IsGiven;
  }

  /** The rules that the bypass applies: each filter is asked about the event as the rules before left it. */
  ghost function Bypassed(effect: Effect, engine: Engine, event: Document, rules: seq<Rule>): seq<Rule>
    reads set rule | rule in rules
  {
    if rules == [] then []
    else
      var last, others := rules[|rules| - 1], Bypassed(effect, engine, event, rules[..|rules| - 1]);
      if Matches(engine, last.filter, Applied(effect, event, others)) then others + [last] else others
  }

  /** Where the bypass applies a rule, the rule changes what no filter says about the event. */
  ghost predicate LeavesFiltersAlone(effect: Effect, engine: Engine, event: Document, rules: seq<Rule>)
    reads set rule | rule in rules
  {
    forall i, rule | 0 <= i < |rules| && rule in rules && rules[i] in Bypassed(effect, engine, event, rules[..i + 1]) ::
      var before := Bypassed(effect, engine, event, rules[..i]);
      var now := Applied(effect, event, before);
      Matches(engine, rule.filter, effect(before, rules[i], now)) == Matches(engine, rule.filter, now)
  }

  lemma BypassedAre(effect: Effect, engine: Engine, event: Document, rules: seq<Rule>, n: nat)
    requires n <= |rules| && AreDifferent(rules)
    ensures var trace := Bypassed(effect, engine, event, rules[..n]);
            && AreDifferent(trace) && (forall rule <- trace :: rule in rules[..n])
            && (LeavesFiltersAlone(effect, engine, event, rules) ==>
                && (forall rule <- rules ::
                      Matches(engine, rule.filter, Applied(effect, event, trace))
                      == Matches(engine, rule.filter, event))
                && forall i | 0 <= i < n :: rules[i] in trace <==> Matches(engine, rules[i].filter, event))
    decreases n
  {
    hide Matches, Applied, Bypassed;
    NothingBypassed(effect, engine, event);
    NothingApplied(effect, event);
    if n > 0 {
      BypassedAre(effect, engine, event, rules, n - 1);
      BypassedNext(effect, engine, event, rules, n - 1);
      var others, last := Bypassed(effect, engine, event, rules[..n - 1]), rules[n - 1];
      assert rules[..n][..n - 1] == rules[..n - 1] && rules[..n] == rules[..n - 1] + [last];
      AppliedMore(effect, event, others, last);
      assert last !in rules[..n - 1] && last in rules;
    }
  }

  /**
   * `_process_all_rules`, which bypasses the tree. If the rules that it applies leave the answers of the
   * filters alone, then without tags it applies the rules that the tree gives exactly if no rule that
   * matches equals an earlier one.
   */
  method ProcessAll(tree: RuleTree, engine: Engine, effect: Effect, event: Document)
    returns (result: Document, trace: seq<Rule>)
    requires tree.Valid()
    ensures result == Applied(effect, event, trace) && trace == Bypassed(effect, engine, event, tree.rules)
    ensures AreDifferent(trace) && AreRulesOf(trace, tree)
    ensures LeavesFiltersAlone(effect, engine, event, tree.rules) && tree.config.tags == map[] ==>
              (NoneRepeats(tree.rules, engine, event)
               <==> forall i | 0 <= i < |tree.rules| :: tree.rules[i] in trace <==> IsGiven(tree, engine, i, event))
  {
    hide RuleTree.Valid, Matches, IsGiven, NoneRepeats, Bypassed, Applied;
    result, trace := event, [];
    NothingApplied(effect, event);
    NothingBypassed(effect, engine, event);
    assert tree.rules[..0] == [];
    for i := 0 to |tree.rules|
      invariant result == Applied(effect, event, trace)
      invariant trace == Bypassed(effect, engine, event, tree.rules[..i])
    {
      var rule := tree.rules[i];
      BypassedNext(effect, engine, event, tree.rules, i);
      if Matches(engine, rule.filter, result) {
        AppliedMore(effect, event, trace, rule);
        result := effect(trace, rule, result);
        trace := trace + [rule];
      }
    }
    assert tree.rules[..|tree.rules|] == tree.rules;
    BypassIsTree(tree, engine, effect, event);
  }

  lemma NothingBypassed(effect: Effect, engine: Engine, event: Document)
    ensures Bypassed(effect, engine, event, []) == []
  {
  }

  lemma BypassedNext(effect: Effect, engine: Engine, event: Document, rules: seq<Rule>, n: nat)
    requires n < |rules|
    ensures var others := Bypassed(effect, engine, event, rules[..n]);
            Bypassed(effect, engine, event, rules[..n + 1])
            == if Matches(engine, rules[n].filter, Applied(effect, event, others)) then others + [rules[n]] else others
  {
    hide Matches, Applied;
    assert rules[..n + 1][..n] == rules[..n];
  }

  /** The bypass applies a rule if and only if it matches the event as the rules applied before left it. */
  lemma {:induction false} BypassedExactly(effect: Effect, engine: Engine, event: Document, rules: seq<Rule>, i: nat)
    requires i < |rules| && AreDifferent(rules)
    ensures var before, all := Bypassed(effect, engine, event, rules[..i]), Bypassed(effect, engine, event, rules);
            && before <= all
            && (rules[i] in all <==> Matches(engine, rules[i].filter, Applied(effect, event, before)))
    decreases |rules|
  {
    hide Matches, Applied, Bypassed;
    var n := |rules| - 1;
    BypassedNext(effect, engine, event, rules, n);
    assert rules[..n + 1] == rules;
    if i < n {
      assert rules[..n][..i] == rules[..i] && rules[..n][i] == rules[i];
      BypassedExactly(effect, engine, event, rules[..n], i);
      assert rules[n] != rules[i];
    } else {
      BypassedAre(effect, engine, event, rules, n);
      assert rules[n] !in rules[..n];
    }
  }

  lemma BypassIsTree(tree: RuleTree, engine: Engine, effect: Effect, event: Document)
    requires tree.Valid()
    ensures var trace := Bypassed(effect, engine, event, tree.rules);
            && AreDifferent(trace) && AreRulesOf(trace, tree)
            && (LeavesFiltersAlone(effect, engine, event, tree.rules) && tree.config.tags == map[] ==>
                (NoneRepeats(tree.rules, engine, event)
                 <==> forall i | 0 <= i < |tree.rules| :: tree.rules[i] in trace <==> IsGiven(tree, engine, i, event)))
  {
    hide RuleTree.Valid, Matches, IsGiven, NoneRepeats, Bypassed, Applied, LeavesFiltersAlone;
    assert tree.rules[..|tree.rules|] == tree.rules;
    RulesAreDifferent(tree);
    BypassedAre(effect, engine, event, tree.rules, |tree.rules|);
    if tree.config.tags == map[] {
      TreeIsBypass(tree, engine, event);
    }
  }

  lemma RulesAreDifferent(tree: RuleTree)
    requires tree.Valid()
    ensures AreDifferent(tree.rules)
  {
  }
}
