/** The rule tree: a trie with rules attached. */
module RuleTree {
  import opened Common
  import opened Documents
  import opened FilterExpressions
  import opened DeMorgan
  import opened RuleParser
  import opened RuleParserInPlace
  import opened MutableLists
  import opened Segmenter
  import opened SegmenterInPlace

  /** A rule: its filter, which adding it to a tree rewrites in place, and its configuration. */
  class Rule {
    const config: string  // all of the configuration but the id and the description
    var filter: Expr

    constructor (filter: Expr, config: string)
      ensures this.filter == filter && this.config == config
    {
      this.filter := filter;
      this.config := config;
    }

    /** `__eq__`; dictionaries and sets tell rules apart by identity all the same, as `__hash__` does. */
    predicate Equals(other: Rule)
      reads this, other
    {
      filter == other.filter && config == other.config
    }
  }

  class Node {
    const expression: Option<Expr>
    var children: seq<Node>
    var matchingRules: seq<Rule>

    constructor (expression: Option<Expr>)
      ensures this.expression == expression && children == [] && matchingRules == []
    {
      this.expression := expression;
      children := [];
      matchingRules := [];
    }

    method GetChildWithExpression(e: Expr) returns (child: Node?)
      ensures child == null ==> forall c <- children :: c.expression != Some(e)
      ensures child != null ==> child in children && child.expression == Some(e)
    {
      for i := 0 to |children|
        invariant forall j | 0 <= j < i :: children[j].expression != Some(e)
      {
        if children[i].expression == Some(e) {
          return children[i];
        }
      }
      return null;
    }
  }

  /** The items without repetitions, each where it occurs first. */
  ghost function Deduplicated(items: seq<Rule>): seq<Rule> {
    if items == [] then []
    else
      var last := items[|items| - 1];
      var others := Deduplicated(items[..|items| - 1]);
      if last in others then others else others + [last]
  }

  /** Every item is kept once. */
  lemma {:induction false} DeduplicatedItems(items: seq<Rule>)
    ensures forall i, j | 0 <= i < j < |Deduplicated(items)| :: Deduplicated(items)[i] != Deduplicated(items)[j]
    ensures forall rule: Rule :: rule in Deduplicated(items) <==> rule in items
    ensures forall i | 0 <= i < |Deduplicated(items)| :: Deduplicated(items)[i] in items
  {
    if items != [] {
      var others := items[..|items| - 1];
      DeduplicatedItems(others);
      assert items == others + [items[|items| - 1]];
    }
  }

  /** The items that are kept are in the order of their first occurrences. */
  lemma {:induction false} DeduplicatedOrder(items: seq<Rule>, i: nat, j: nat)
    requires i < j < |Deduplicated(items)|
    ensures var kept := Deduplicated(items);
            exists p | 0 <= p < |items| :: items[p] == kept[i] && kept[j] !in items[..p + 1]
  {
    var n := |items| - 1;
    var others := items[..n];
    DeduplicatedItems(items);
    DeduplicatedItems(others);
    if j < |Deduplicated(others)| {
      DeduplicatedOrder(others, i, j);
      var p :| 0 <= p < n && others[p] == Deduplicated(others)[i] && Deduplicated(others)[j] !in others[..p + 1];
      assert others[..p + 1] == items[..p + 1] && items[p] == others[p];
    } else {
      assert Deduplicated(others)[i] in others;
      var p :| 0 <= p < n && others[p] == Deduplicated(others)[i];
      assert items[..p + 1] <= others && items[p] == others[p];
      assert forall rule <- items[..p + 1] :: rule in others;
    }
  }

  /** `deduplicate_with_order`. */
  method Deduplicate(items: seq<Rule>) returns (result: seq<Rule>)
    ensures result == Deduplicated(items)
  {
    result := [];
    for i := 0 to |items|
      invariant result == Deduplicated(items[..i])
    {
      assert items[..i + 1][..i] == items[..i];
      if items[i] !in result {
        result := result + [items[i]];
      }
    }
    assert items[..|items|] == items;
  }

  /** The nodes of a tree, the way to each and the children of each, as values. */
  datatype Trie = Trie(nodes: set<Node>, path: map<Node, seq<Expr>>, kids: map<Node, seq<Node>>)
  {
    ghost predicate IsChild(n: Node, c: Node)
      requires n in nodes && path.Keys == nodes
    {
      c in nodes && c.expression.Some? && path[c] == path[n] + [c.expression.value]
    }

    ghost predicate HaveOnePath(m: Node, n: Node)
      requires path.Keys == nodes && m in nodes && n in nodes
    {
      path[m] == path[n]
    }

    ghost predicate HasDistinctKids(n: Node)
      requires n in nodes && kids.Keys == nodes
    {
      forall i, j | 0 <= i < j < |kids[n]| :: kids[n][i] != kids[n][j]
    }

    ghost predicate HasParent(n: Node)
      requires kids.Keys == nodes
    {
      exists p <- nodes :: n in kids[p]
    }

    /** A node is determined by its path, and every node but the root has a parent. */
    ghost predicate Valid(root: Node) {
      && root in nodes && path.Keys == nodes == kids.Keys && path[root] == []
      && (forall m, n {:trigger HaveOnePath(m, n)} | m in nodes && n in nodes && HaveOnePath(m, n) :: m == n)
      && (forall n, c {:trigger IsChild(n, c)} | n in nodes && c in kids[n] :: IsChild(n, c))
      && (forall n {:trigger HasDistinctKids(n)} | n in nodes :: HasDistinctKids(n))
      && (forall n {:trigger HasParent(n)} | n in nodes && n != root :: HasParent(n))
    }

    /** The only way a node is reached is from its parent. */
    lemma ParentOf(root: Node, n: Node) returns (p: Node)
      requires Valid(root) && n in nodes && n != root
      ensures p in nodes && n in kids[p] && n.expression.Some?
      ensures path[n] == path[p] + [n.expression.value]
    {
      assert HasParent(n);
      p :| p in nodes && n in kids[p];
      assert IsChild(p, n);
    }

    lemma PathsOfAll(root: Node)
      requires Valid(root)
      ensures path.Keys == nodes == kids.Keys && root in nodes && path[root] == []
    {
    }

    lemma ChildOf(root: Node, n: Node, child: Node)
      requires Valid(root) && n in kids && child in kids[n]
      ensures path.Keys == nodes && n in nodes && IsChild(n, child)
    {
      assert IsChild(n, child);
    }

    /** If no child carries the expression, then no node has the extended path. */
    lemma NoNodeThere(root: Node, current: Node, e: Expr)
      requires Valid(root) && current in nodes
      requires forall c <- kids[current] :: c.expression != Some(e)
      ensures forall n <- nodes :: path[n] != path[current] + [e]
    {
      forall n <- nodes | n != root ensures path[n] != path[current] + [e] {
        var p := ParentOf(root, n);
        assert path[n][..|path[n]| - 1] == path[p];
        assert (path[current] + [e])[..|path[current]|] == path[current];
        assert HaveOnePath(p, current) ==> p == current && n.expression != Some(e);
      }
    }

    ghost function WithLeaf(current: Node, leaf: Node, e: Expr): Trie
      requires current in nodes && path.Keys == nodes == kids.Keys
    {
      Trie(nodes + {leaf}, path[leaf := path[current] + [e]], kids[current := kids[current] + [leaf]][leaf := []])
    }

    lemma AddLeaf(root: Node, current: Node, leaf: Node, e: Expr)
      requires Valid(root) && current in nodes && leaf !in nodes && leaf.expression == Some(e)
      requires forall c <- kids[current] :: c.expression != Some(e)
      ensures WithLeaf(current, leaf, e).Valid(root)
    {
      var t := WithLeaf(current, leaf, e);
      NoNodeThere(root, current, e);
      forall m, n | m in t.nodes && n in t.nodes && t.HaveOnePath(m, n) ensures m == n {
        if m != leaf && n != leaf {
          assert HaveOnePath(m, n);
        }
      }
      forall n, c | n in t.nodes && c in t.kids[n] ensures t.IsChild(n, c) {
        if n != leaf && c in kids[n] {
          assert IsChild(n, c);
        }
      }
      forall n | n in t.nodes ensures t.HasDistinctKids(n) {
        if n != leaf {
          assert HasDistinctKids(n);
          forall c <- kids[n] ensures c != leaf { assert IsChild(n, c); }
        }
      }
      forall n | n in t.nodes && n != root ensures t.HasParent(n) {
        var p := current;
        if n != leaf {
          p := ParentOf(root, n);
        }
        assert p in t.nodes && n in t.kids[p];
      }
    }

    /** Every node is on the way to the nodes whose path extends its own. */
    lemma {:induction false} Ancestor(root: Node, n: Node, k: nat) returns (a: Node)
      requires Valid(root) && n in nodes && k <= |path[n]|
      ensures a in nodes && path[a] == path[n][..k]
      decreases |path[n]|
    {
      if k == |path[n]| {
        a := n;
      } else {
        var p := ParentOf(root, n);
        a := Ancestor(root, p, k);
        assert path[n][..k] == path[p][..k];
      }
    }

    ghost function Below(n: Node): set<Node>
      requires path.Keys == nodes && n in nodes
    {
      set m | m in nodes && path[n] < path[m]
    }

    ghost function AtOrBelow(some: seq<Node>): set<Node>
      requires path.Keys == nodes
    {
      set m | m in nodes && exists c <- some :: c in nodes && path[c] <= path[m]
    }

    lemma NothingBelow()
      requires path.Keys == nodes
      ensures AtOrBelow([]) == {}
    {
    }

    lemma AtOrBelowKids(root: Node, n: Node)
      requires Valid(root) && n in nodes
      ensures AtOrBelow(kids[n]) == Below(n)
    {
      forall m | m in AtOrBelow(kids[n]) ensures m in Below(n) {
        var c :| c in kids[n] && c in nodes && path[c] <= path[m];
        assert IsChild(n, c);
      }
      forall m | m in Below(n) ensures m in AtOrBelow(kids[n]) {
        var c := Ancestor(root, m, |path[n]| + 1);
        var p := ParentOf(root, c);
        assert path[p] == path[c][..|path[n]|] && HaveOnePath(p, n);
        assert path[c] <= path[m];
      }
    }

    /** The subtrees of different children have no node in common. */
    lemma OneChildMore(root: Node, n: Node, k: nat)
      requires Valid(root) && n in nodes && k < |kids[n]| && kids[n][k] in nodes
      ensures |AtOrBelow(kids[n][..k + 1])| == |AtOrBelow(kids[n][..k])| + 1 + |Below(kids[n][k])|
    {
      var child := kids[n][k];
      var before, here := AtOrBelow(kids[n][..k]), Below(child);
      assert HasDistinctKids(n) && IsChild(n, child);
      forall m | m in before ensures m !in here && m != child {
        var c :| c in kids[n][..k] && c in nodes && path[c] <= path[m];
        assert IsChild(n, c);
        assert !HaveOnePath(c, child);
        assert path[c] == path[m][..|path[n]| + 1];
      }
      forall m | m in AtOrBelow(kids[n][..k + 1]) ensures m in before + {child} + here {
        var c :| c in kids[n][..k + 1] && c in nodes && path[c] <= path[m];
        if c == child {
          assert HaveOnePath(m, child) || path[child] < path[m];
        }
      }
      assert AtOrBelow(kids[n][..k + 1]) == before + {child} + here;
    }

    /** There are as many paths as there are nodes. */
    lemma CountPaths(root: Node, some: set<Node>)
      requires Valid(root) && some <= nodes
      ensures |set n | n in some :: path[n]| == |some|
      decreases |some|
    {
      if some != {} {
        var n :| n in some;
        var rest := some - {n};
        CountPaths(root, rest);
        forall m | m in rest ensures path[m] != path[n] {
          assert !HaveOnePath(m, n);
        }
        assert (set m | m in some :: path[m]) == (set m | m in rest :: path[m]) + {path[n]};
      }
    }
  }

  /** The expressions of a node's path that come after those of another node all match. */
  ghost predicate Reaches(engine: Engine, event: Document, trie: Trie, from: Node, n: Node)
    requires from in trie.path && n in trie.path
  {
    trie.path[from] <= trie.path[n] && AllMatch(engine, trie.path[n][|trie.path[from]|..], event)
  }

  /** All non-empty beginnings of conjunctions. */
  ghost function Prefixes(conjunctions: map<Rule, set<seq<Expr>>>): set<seq<Expr>> {
    set rule, es, k | rule in conjunctions && es in conjunctions[rule] && 0 < k <= |es| :: es[..k]
  }

  /** A trie with the rules attached to its nodes. */
  datatype Index = Index(trie: Trie, attached: map<Node, seq<Rule>>)
  {
    ghost predicate IsAttached(n: Node, conjunctions: map<Rule, set<seq<Expr>>>)
      requires n in attached && n in trie.path
    {
      && (forall i, j | 0 <= i < j < |attached[n]| :: attached[n][i] != attached[n][j])
      && forall rule <- attached[n] :: rule in conjunctions && trie.path[n] in conjunctions[rule]
    }

    ghost predicate HasEnd(rule: Rule, es: seq<Expr>)
      requires trie.path.Keys == attached.Keys == trie.nodes
    {
      exists n <- trie.nodes :: trie.path[n] == es && rule in attached[n]
    }

    ghost predicate IsUsed(n: Node, conjunctions: map<Rule, set<seq<Expr>>>)
      requires n in trie.path
    {
      exists rule <- conjunctions, es | es in conjunctions[rule] :: trie.path[n] <= es
    }

    /**
     * A rule is attached exactly to the ends of its conjunctions, at each of them once, and every
     * node but the root lies on the way to one.
     */
    ghost predicate Represents(root: Node, conjunctions: map<Rule, set<seq<Expr>>>) {
      && trie.Valid(root) && attached.Keys == trie.nodes
      && (forall n {:trigger IsAttached(n, conjunctions)} | n in trie.nodes :: IsAttached(n, conjunctions))
      && (forall rule, es {:trigger HasEnd(rule, es)} | rule in conjunctions && es in conjunctions[rule] ::
            HasEnd(rule, es))
      && (forall n {:trigger IsUsed(n, conjunctions)} | n in trie.nodes && n != root :: IsUsed(n, conjunctions))
    }

    /** Existing nodes stay where they are and keep their rules; at most `rule` is attached as well. */
    ghost predicate IsKeptIn(next: Index, rule: Rule) {
      && trie.nodes <= next.trie.nodes && attached.Keys == trie.nodes == trie.path.Keys
      && next.trie.path.Keys == next.attached.Keys == next.trie.nodes
      && (forall n <- trie.nodes :: next.trie.path[n] == trie.path[n])
      && (forall n <- trie.nodes :: next.attached[n] == attached[n] || next.attached[n] == attached[n] + [rule])
      && (forall n <- trie.nodes :: rule in attached[n] ==> next.attached[n] == attached[n])
    }

    lemma KnowsOneMore(root: Node, conjunctions: map<Rule, set<seq<Expr>>>, rule: Rule)
      requires Represents(root, conjunctions) && rule !in conjunctions
      ensures Represents(root, conjunctions[rule := {}])
    {
      var more := conjunctions[rule := {}];
      forall n | n in trie.nodes ensures IsAttached(n, more) {
        assert IsAttached(n, conjunctions);
      }
      forall n | n in trie.nodes && n != root ensures IsUsed(n, more) {
        assert IsUsed(n, conjunctions);
        var r: Rule, c :| r in conjunctions && c in conjunctions[r] && trie.path[n] <= c;
        assert c in more[r];
      }
      forall r, c | r in more && c in more[r] ensures HasEnd(r, c) {
        assert r in conjunctions && c in conjunctions[r];
      }
    }

    lemma KeptFurther(middle: Index, next: Index, rule: Rule)
      requires IsKeptIn(middle, rule) && middle.IsKeptIn(next, rule)
      ensures IsKeptIn(next, rule)
    {
    }

    /** Attaching the rule, or its leader being attached already. */
    lemma AttachedOnce(grown: Index, next: Index, end: Node, leader: Rule, rule: Rule, es: seq<Expr>)
      requires IsGrownTo(grown, es) && end in grown.trie.nodes && grown.trie.path[end] == es
      requires next.trie == grown.trie && (leader == rule || leader in grown.attached[end])
      requires var rules := grown.attached[end];
               next.attached == grown.attached[end := if leader in rules then rules else rules + [leader]]
      ensures IsExtendedTo(next, end, leader, es) && IsKeptIn(next, rule)
    {
    }

    /** What is attached behind a walk are known rules, and the leader if the conjunction is one of its own. */
    lemma AttachedAreKnown(
      root: Node, conjunctions: map<Rule, set<seq<Expr>>>, grown: Index, es: seq<Expr>, end: Node, leader: Rule)
      requires Represents(root, conjunctions) && IsGrownTo(grown, es) && grown.trie.Valid(root)
      requires end in grown.trie.nodes && grown.trie.path[end] == es
      ensures forall r <- grown.attached[end] :: r in conjunctions
      ensures leader in conjunctions && es in conjunctions[leader] ==> leader in grown.attached[end]
    {
      if end in trie.nodes {
        assert IsAttached(end, conjunctions);
      }
      if leader in conjunctions && es in conjunctions[leader] {
        assert HasEnd(leader, es);
        var n :| n in trie.nodes && trie.path[n] == es && leader in attached[n];
        assert grown.trie.HaveOnePath(n, end);
      }
    }

    lemma KeptAlready(rule: Rule)
      requires attached.Keys == trie.nodes == trie.path.Keys
      ensures IsKeptIn(this, rule)
    {
    }

    /** Nodes were added on the way along `es`; nothing else changed. */
    ghost predicate IsGrownTo(next: Index, es: seq<Expr>) {
      && trie.nodes <= next.trie.nodes && attached.Keys == trie.nodes == trie.path.Keys
      && next.trie.path.Keys == next.attached.Keys == next.trie.nodes
      && (forall n <- trie.nodes :: next.trie.path[n] == trie.path[n] && next.attached[n] == attached[n])
      && (forall n <- next.trie.nodes | n !in trie.nodes :: next.trie.path[n] <= es && next.attached[n] == [])
    }

    lemma NotGrown(es: seq<Expr>)
      requires attached.Keys == trie.nodes == trie.path.Keys
      ensures IsGrownTo(this, es)
    {
    }

    lemma GrownByLeaf(next: Index, parent: Node, leaf: Node, e: Expr)
      requires attached.Keys == trie.nodes == trie.path.Keys && parent in trie.nodes && leaf !in trie.nodes
      requires next.trie.nodes == trie.nodes + {leaf} && next.trie.path == trie.path[leaf := trie.path[parent] + [e]]
      requires next.attached == attached[leaf := []]
      ensures IsGrownTo(next, trie.path[parent] + [e])
    {
    }

    lemma GrownFurther(middle: Index, next: Index, shorter: seq<Expr>, es: seq<Expr>)
      requires IsGrownTo(middle, shorter) && middle.IsGrownTo(next, es) && shorter <= es
      ensures IsGrownTo(next, es)
    {
    }

    /** The index when the nodes on the way to `es` were added and the rule was attached to the last. */
    ghost predicate IsExtendedTo(next: Index, end: Node, rule: Rule, es: seq<Expr>) {
      && trie.nodes <= next.trie.nodes && attached.Keys == trie.nodes == trie.path.Keys
      && next.trie.path.Keys == next.attached.Keys == next.trie.nodes
      && end in next.trie.nodes && next.trie.path[end] == es
      && (forall n <- trie.nodes :: next.trie.path[n] == trie.path[n])
      && (forall n <- next.trie.nodes | n !in trie.nodes :: next.trie.path[n] <= es)
      && (forall n <- next.trie.nodes :: next.attached[n] == AttachedAfter(n, end, rule))
    }

    ghost function AttachedAfter(n: Node, end: Node, rule: Rule): seq<Rule>
      requires attached.Keys == trie.nodes
    {
      var before := if n in trie.nodes then attached[n] else [];
      if n == end && rule !in before then before + [rule] else before
    }

    lemma ExtendingAttaches(
      conjunctions: map<Rule, set<seq<Expr>>>, next: Index, end: Node, rule: Rule, es: seq<Expr>, n: Node)
      requires IsExtendedTo(next, end, rule, es) && rule in conjunctions && n in next.trie.nodes
      requires n in trie.nodes ==> IsAttached(n, conjunctions)
      ensures next.IsAttached(n, conjunctions[rule := conjunctions[rule] + {es}])
    {
    }

    lemma ExtendingEnds(next: Index, end: Node, rule: Rule, es: seq<Expr>, r: Rule, c: seq<Expr>)
      requires IsExtendedTo(next, end, rule, es)
      requires HasEnd(r, c) || (r == rule && c == es)
      ensures next.HasEnd(r, c)
    {
      if r == rule && c == es {
        assert rule in next.attached[end];
      } else {
        var n :| n in trie.nodes && trie.path[n] == c && r in attached[n];
        assert next.trie.path[n] == c && next.attached[n] == AttachedAfter(n, end, rule);
      }
    }

    lemma ExtendingUses(
      conjunctions: map<Rule, set<seq<Expr>>>, next: Index, end: Node, rule: Rule, es: seq<Expr>, n: Node)
      requires IsExtendedTo(next, end, rule, es) && rule in conjunctions && n in next.trie.nodes
      requires n in trie.nodes ==> IsUsed(n, conjunctions)
      ensures next.IsUsed(n, conjunctions[rule := conjunctions[rule] + {es}])
    {
      var more := conjunctions[rule := conjunctions[rule] + {es}];
      if n in trie.nodes {
        var r: Rule, c :| r in conjunctions && c in conjunctions[r] && trie.path[n] <= c;
        assert c in more[r];
      } else {
        assert es in more[rule];
      }
    }

    lemma ExtendingRepresents(
      root: Node, conjunctions: map<Rule, set<seq<Expr>>>, next: Index, end: Node, rule: Rule, es: seq<Expr>)
      requires Represents(root, conjunctions) && rule in conjunctions
      requires next.trie.Valid(root) && IsExtendedTo(next, end, rule, es)
      ensures next.Represents(root, conjunctions[rule := conjunctions[rule] + {es}])
    {
      var more := conjunctions[rule := conjunctions[rule] + {es}];
      forall n | n in next.trie.nodes ensures next.IsAttached(n, more) {
        assert n in trie.nodes ==> IsAttached(n, conjunctions);
        ExtendingAttaches(conjunctions, next, end, rule, es, n);
      }
      forall r, c | r in more && c in more[r] ensures next.HasEnd(r, c) {
        assert r in conjunctions && c in conjunctions[r] ==> HasEnd(r, c);
        ExtendingEnds(next, end, rule, es, r, c);
      }
      forall n | n in next.trie.nodes && n != root ensures next.IsUsed(n, more) {
        assert n in trie.nodes ==> IsUsed(n, conjunctions);
        ExtendingUses(conjunctions, next, end, rule, es, n);
      }
    }

    /** One more conjunction of the leader in the trie. */
    lemma ConjunctionAdded(
      root: Node, conjunctions: map<Rule, set<seq<Expr>>>, grown: Index, next: Index, end: Node, leader: Rule,
      rule: Rule, es: seq<Expr>)
      requires Represents(root, conjunctions) && leader in conjunctions
      requires IsGrownTo(grown, es) && end in grown.trie.nodes && grown.trie.path[end] == es
      requires grown.trie.Valid(root) && next.trie == grown.trie && (leader == rule || leader in grown.attached[end])
      requires var rules := grown.attached[end];
               next.attached == grown.attached[end := if leader in rules then rules else rules + [leader]]
      ensures next.Represents(root, conjunctions[leader := conjunctions[leader] + {es}]) && IsKeptIn(next, rule)
    {
      hide Represents, Trie.Valid, IsExtendedTo, IsKeptIn;
      AttachedOnce(grown, next, end, leader, rule, es);
      ExtendingRepresents(root, conjunctions, next, end, leader, es);
    }

    /** The rules attached below a node on ways that match the event. */
    ghost function Hits(engine: Engine, event: Document, from: Node): set<Rule>
      requires trie.path.Keys == attached.Keys == trie.nodes && from in trie.nodes
    {
      set n, rule | n in trie.nodes && n != from && Reaches(engine, event, trie, from, n) && rule in attached[n]
      :: rule
    }

    /** The rules that visiting one child adds. */
    ghost function HitsOf(engine: Engine, event: Document, child: Node): set<Rule>
      requires trie.path.Keys == attached.Keys == trie.nodes
    {
      if child in trie.nodes && child.expression.Some? && Matches(engine, child.expression.value, event)
      then (set rule | rule in attached[child]) + Hits(engine, event, child)
      else {}
    }

    ghost function HitsOfAll(engine: Engine, event: Document, children: seq<Node>): set<Rule>
      requires trie.path.Keys == attached.Keys == trie.nodes
    {
      set child, rule | child in children && rule in HitsOf(engine, event, child) :: rule
    }

    /** The longest way. */
    ghost function Depth(): (depth: nat)
      requires trie.path.Keys == trie.nodes
      ensures forall n <- trie.nodes :: |trie.path[n]| <= depth
    {
      Longest(trie.nodes)
    }

    ghost function Longest(some: set<Node>): (length: nat)
      requires some <= trie.path.Keys
      ensures forall n <- some :: |trie.path[n]| <= length
      decreases |some|
    {
      if some == {} then 0
      else
        var n :| n in some;
        var others := Longest(some - {n});
        if others < |trie.path[n]| then |trie.path[n]| else others
    }

    /** The depth-first walk: the rules of every child that matches, and then those found below it. */
    ghost function Found(engine: Engine, event: Document, children: seq<Node>, depth: nat): seq<Rule>
      decreases depth, |children|
    {
      if children == [] then []
      else
        var last := children[|children| - 1];
        Found(engine, event, children[..|children| - 1], depth)
        + if last.expression.None? || !Matches(engine, last.expression.value, event) || last !in attached then []
          else attached[last] + FoundBelow(engine, event, last, depth)
    }

    ghost function FoundBelow(engine: Engine, event: Document, n: Node, depth: nat): seq<Rule>
      decreases depth, 0
    {
      if depth == 0 || n !in trie.kids then [] else Found(engine, event, trie.kids[n], depth - 1)
    }

    lemma FoundNext(engine: Engine, event: Document, children: seq<Node>, child: Node, depth: nat)
      requires child.expression.Some? && child in attached
      ensures Found(engine, event, children + [child], depth)
           == Found(engine, event, children, depth)
              + if Matches(engine, child.expression.value, event) then
                  attached[child] + FoundBelow(engine, event, child, depth)
                else []
    {
      assert (children + [child])[..|children|] == children;
    }

    /** The walk finds the rules on all ways that match, and no others. */
    lemma FoundIsHits(engine: Engine, event: Document, root: Node, n: Node, depth: nat)
      requires trie.Valid(root) && attached.Keys == trie.nodes && n in trie.nodes
      requires forall m <- trie.nodes :: |trie.path[m]| <= |trie.path[n]| + depth
      ensures (set rule | rule in Found(engine, event, trie.kids[n], depth)) == Hits(engine, event, n)
      decreases depth, |trie.kids[n]| + 1
    {
      hide Found, Hits, HitsOfAll, Trie.Valid;
      trie.PathsOfAll(root);
      FoundIsHitsOf(engine, event, root, n, |trie.kids[n]|, depth);
      assert trie.kids[n][..|trie.kids[n]|] == trie.kids[n];
      HitsAreOfChildren(engine, event, root, n);
    }

    lemma FoundIsHitsOf(engine: Engine, event: Document, root: Node, n: Node, k: nat, depth: nat)
      requires trie.Valid(root) && attached.Keys == trie.nodes && n in trie.nodes && k <= |trie.kids[n]|
      requires forall m <- trie.nodes :: |trie.path[m]| <= |trie.path[n]| + depth
      ensures (set rule | rule in Found(engine, event, trie.kids[n][..k], depth))
           == HitsOfAll(engine, event, trie.kids[n][..k])
      decreases depth, k
    {
      hide Found, Hits, HitsOf, HitsOfAll, Trie.Valid, Matches;
      trie.PathsOfAll(root);
      var children := trie.kids[n][..k];
      if k == 0 {
        NothingFound(engine, event, depth);
        NoHitsOfNone(engine, event);
        assert children == [];
      } else {
        var others, child := trie.kids[n][..k - 1], trie.kids[n][k - 1];
        assert children == others + [child];
        trie.ChildOf(root, n, child);
        FoundIsHitsOf(engine, event, root, n, k - 1, depth);
        HitsOfOneMore(engine, event, others, child);
        FoundNext(engine, event, others, child, depth);
        if Matches(engine, child.expression.value, event) {
          FoundIsHits(engine, event, root, child, depth - 1);
          var here, below := attached[child], FoundBelow(engine, event, child, depth);
          assert (set rule | rule in here + below) == (set rule | rule in here) + set rule | rule in below;
        }
      }
    }

    lemma NothingFound(engine: Engine, event: Document, depth: nat)
      ensures Found(engine, event, [], depth) == []
    {
    }

    lemma NoHitsOfNone(engine: Engine, event: Document)
      requires trie.path.Keys == attached.Keys == trie.nodes
      ensures HitsOfAll(engine, event, []) == {}
    {
    }

    lemma HitsOfOneMore(engine: Engine, event: Document, children: seq<Node>, child: Node)
      requires trie.path.Keys == attached.Keys == trie.nodes && child in trie.nodes && child.expression.Some?
      ensures HitsOfAll(engine, event, children + [child])
           == HitsOfAll(engine, event, children) + HitsOf(engine, event, child)
      ensures HitsOf(engine, event, child)
           == if Matches(engine, child.expression.value, event)
              then (set rule | rule in attached[child]) + Hits(engine, event, child) else {}
    {
    }

    /** What is reached from a node is reached through one of its children. */
    lemma HitsAreOfChildren(engine: Engine, event: Document, root: Node, from: Node)
      requires trie.Valid(root) && attached.Keys == trie.nodes && from in trie.nodes
      ensures HitsOfAll(engine, event, trie.kids[from]) == Hits(engine, event, from)
    {
      var length := |trie.path[from]|;
      forall child, rule | child in trie.kids[from] && rule in HitsOf(engine, event, child)
        ensures rule in Hits(engine, event, from)
      {
        assert trie.IsChild(from, child);
        var n := child;
        if rule !in attached[child] {
          n :| n in trie.nodes && n != child && Reaches(engine, event, trie, child, n) && rule in attached[n];
        }
        ReachesThrough(engine, event, from, child, n);
      }
      forall rule | rule in Hits(engine, event, from) ensures rule in HitsOfAll(engine, event, trie.kids[from]) {
        var n :| n in trie.nodes && n != from && Reaches(engine, event, trie, from, n) && rule in attached[n];
        assert !trie.HaveOnePath(n, from) && trie.path[from] <= trie.path[n];
        var child := trie.Ancestor(root, n, length + 1);
        var p := trie.ParentOf(root, child);
        assert trie.path[p] == trie.path[child][..length] && trie.HaveOnePath(p, from);
        assert trie.path[n][length..][0] == trie.path[n][length] == child.expression.value;
        assert trie.path[n][length..][0] in trie.path[n][length..];
        assert forall e <- trie.path[n][length + 1..] :: e in trie.path[n][length..];
        assert rule in HitsOf(engine, event, child);
      }
    }

    lemma ReachesThrough(engine: Engine, event: Document, from: Node, child: Node, n: Node)
      requires trie.path.Keys == trie.nodes && from in trie.nodes && child in trie.nodes && n in trie.nodes
      requires trie.IsChild(from, child) && Matches(engine, child.expression.value, event)
      requires n == child || Reaches(engine, event, trie, child, n)
      ensures n != from && Reaches(engine, event, trie, from, n)
    {
      var length := |trie.path[from]|;
      var rest := trie.path[n][length..];
      assert trie.path[n][length + 1..] == rest[1..];
      assert rest == [child.expression.value] + rest[1..];
      assert AllMatch(engine, rest[1..], event);
    }

    /** The nodes below the root are the beginnings of the conjunctions, each once. */
    lemma NodesArePrefixes(root: Node, conjunctions: map<Rule, set<seq<Expr>>>)
      requires Represents(root, conjunctions)
      ensures root in trie.nodes && trie.nodes == trie.path.Keys
      ensures |trie.Below(root)| == |Prefixes(conjunctions)|
    {
      var below := trie.Below(root);
      forall n | n in trie.nodes ensures n in below <==> n != root {
        assert n != root ==> !trie.HaveOnePath(n, root);
      }
      forall n | n in below ensures trie.path[n] in Prefixes(conjunctions) {
        assert IsUsed(n, conjunctions);
        var rule: Rule, es :| rule in conjunctions && es in conjunctions[rule] && trie.path[n] <= es;
        assert trie.path[n] == es[..|trie.path[n]|];
      }
      forall prefix | prefix in Prefixes(conjunctions) ensures exists n <- below :: trie.path[n] == prefix {
        var rule: Rule, es, k :| rule in conjunctions && es in conjunctions[rule] && 0 < k <= |es| && prefix == es[..k];
        assert HasEnd(rule, es);
        var end :| end in trie.nodes && trie.path[end] == es && rule in attached[end];
        var n := trie.Ancestor(root, end, k);
        assert n in below;
      }
      assert (set n | n in below :: trie.path[n]) == Prefixes(conjunctions);
      trie.CountPaths(root, below);
    }

    lemma HitsAreKnown(engine: Engine, event: Document, root: Node, conjunctions: map<Rule, set<seq<Expr>>>)
      requires Represents(root, conjunctions)
      ensures forall rule <- Hits(engine, event, root) :: rule in conjunctions
    {
      hide Reaches;
      forall n <- trie.nodes, rule <- attached[n] ensures rule in conjunctions {
        assert IsAttached(n, conjunctions);
      }
    }

    /** All rules that the root gives are those with a conjunction that matches. */
    lemma HitsOfRoot(
      engine: Engine, event: Document, root: Node, conjunctions: map<Rule, set<seq<Expr>>>, rule: Rule)
      requires Represents(root, conjunctions)
      requires forall r <- conjunctions :: [] !in conjunctions[r]
      ensures rule in Hits(engine, event, root)
         <==> rule in conjunctions && exists es <- conjunctions[rule] :: AllMatch(engine, es, event)
    {
      assert forall n <- trie.nodes :: trie.path[n][0..] == trie.path[n];
      if rule in Hits(engine, event, root) {
        var n :| n in trie.nodes && n != root && Reaches(engine, event, trie, root, n) && rule in attached[n];
        assert IsAttached(n, conjunctions);
      }
      if rule in conjunctions && exists es <- conjunctions[rule] :: AllMatch(engine, es, event) {
        var es :| es in conjunctions[rule] && AllMatch(engine, es, event);
        assert HasEnd(rule, es);
        var n :| n in trie.nodes && trie.path[n] == es && rule in attached[n];
        assert Reaches(engine, event, trie, root, n);
      }
    }
  }

  ghost function AsSet(dnf: seq<seq<Expr>>): set<seq<Expr>> {
    set es | es in dnf
  }

  lemma AsSetSnoc(dnf: seq<seq<Expr>>)
    ensures AsSet(dnf[..0]) == {} && dnf[..|dnf|] == dnf
    ensures forall i | 0 <= i < |dnf| :: AsSet(dnf[..i + 1]) == AsSet(dnf[..i]) + {dnf[i]}
  {
  }

  /** No rule before equals this one. */
  ghost predicate FirstOf(rules: seq<Rule>, i: nat)
    requires i < |rules|
    reads set rule | rule in rules
  {
    forall j | 0 <= j < i :: !rules[j].Equals(rules[i])
  }

  /** Rules are told apart by their filter and by their configuration. */
  lemma FirstByFields(rules: seq<Rule>, i: nat)
    requires i < |rules|
    ensures FirstOf(rules, i)
       <==> forall j | 0 <= j < i :: rules[j].filter != rules[i].filter || rules[j].config != rules[i].config
  {
  }

  /** These are the rules of the list that equal no earlier one. */
  ghost predicate AreFirst(rules: seq<Rule>, some: set<Rule>)
    reads set rule | rule in rules
  {
    && some <= (set rule | rule in rules)
    && forall i | 0 <= i < |rules| :: rules[i] in some <==> FirstOf(rules, i)
  }

  ghost predicate AreDistinctRules(rules: seq<Rule>) {
    forall i, j | 0 <= i < j < |rules| :: rules[i] != rules[j]
  }

  lemma AppendFirst(rules: seq<Rule>, rule: Rule, some: set<Rule>)
    requires AreFirst(rules, some) && rule !in rules
    ensures (forall r <- rules :: !r.Equals(rule)) ==> AreFirst(rules + [rule], some + {rule})
    ensures (exists r <- rules :: r.Equals(rule)) ==> AreFirst(rules + [rule], some)
  {
    hide Rule.Equals;
    var more := rules + [rule];
    forall i | 0 <= i < |rules| ensures FirstOf(more, i) == FirstOf(rules, i) && more[i] in rules {
      assert forall j | 0 <= j <= i :: more[j] == rules[j];
    }
    assert FirstOf(more, |rules|) <==> forall r <- rules :: !r.Equals(rule) by {
      assert forall j | 0 <= j < |rules| :: more[j] == rules[j] && rules[j] in rules;
    }
  }

  class RuleTree {
    const config: Config
    const root: Node

    /** The keys of `_rule_mapping`, in the order of their insertion. */
    var rules: seq<Rule>

    /** `_rule_mapping`. */
    var ruleIds: map<Rule, nat>

    /** The nodes of the tree and, for each, the expressions on the way from the root to it. */
    ghost var nodes: set<Node>
    ghost var path: map<Node, seq<Expr>>

    /** The conjunctions of the rules that are attached. */
    ghost var known: map<Rule, set<seq<Expr>>>

    ghost function Shape(): Trie
      reads this`nodes, this`path, nodes`children
    {
      Trie(nodes, path, map n | n in nodes :: n.children)
    }

    ghost function Contents(): Index
      reads this`nodes, this`path, nodes`children, nodes`matchingRules
    {
      Index(Shape(), map n | n in nodes :: n.matchingRules)
    }

    /** The rule's filter was rewritten, and can be parsed. */
    ghost predicate IsParsed(rule: Rule)
      reads rule
    {
      HasChildren(rule.filter) && AfterResolve(rule.filter) == rule.filter && ParseFilter(rule.filter, config).Ok?
    }

    ghost function Conjunctions(rule: Rule): set<seq<Expr>>
      requires IsParsed(rule)
      reads rule
    {
      AsSet(ParseFilter(rule.filter, config).value)
    }

    ghost predicate IsTrie()
      reads this`nodes, this`path, nodes`children
    {
      Shape().Valid(root)
    }

    ghost predicate HoldConjunctions(some: map<Rule, set<seq<Expr>>>)
      reads some.Keys
    {
      forall rule <- some :: IsParsed(rule) && some[rule] == Conjunctions(rule)
    }

    /** The mapping has these rules, once each; attached are the first ones of equal rules. */
    ghost predicate Maps(rules: seq<Rule>, ids: set<Rule>, some: map<Rule, set<seq<Expr>>>)
      reads (set rule | rule in rules), some.Keys
    {
      && AreDistinctRules(rules) && ids == (set rule | rule in rules)
      && (forall rule {:trigger IsParsed(rule)} | rule in rules :: IsParsed(rule))
      && AreFirst(rules, some.Keys) && HoldConjunctions(some)
    }

    ghost predicate HasRules()
      reads this`rules, this`ruleIds, this`known, (set rule | rule in rules), known.Keys
    {
      Maps(rules, ruleIds.Keys, known)
    }

    /** What every `add_rule` keeps. */
    ghost predicate Valid()
      reads this, nodes, (set rule | rule in rules), known.Keys
    {
      HasRules() && Contents().Represents(root, known)
    }

    constructor (config: Config)
      ensures Valid() && this.config == config
      ensures rules == [] && fresh(nodes)
    {
      this.config := config;
      var node := new Node(None);
      root := node;
      rules := [];
      ruleIds := map[];
      known := map[];
      nodes := {node};
      path := map[node := []];
    }

    /** Every known rule equals a first one, with the same conjunctions. */
    lemma FirstEqual(i: nat) returns (k: nat)
      requires i < |rules|
      ensures k <= i && FirstOf(rules, k) && rules[k].Equals(rules[i])
      decreases i
    {
      if FirstOf(rules, i) {
        k := i;
      } else {
        var j :| 0 <= j < i && rules[j].Equals(rules[i]);
        k := FirstEqual(j);
      }
    }

    /** One step down the trie: the child with this expression, which is added if there is none. */
    method Descend(current: Node, e: Expr) returns (child: Node)
      requires IsTrie() && current in nodes && path.Keys == nodes
      modifies this`nodes, this`path, current`children
      ensures IsTrie() && path.Keys == nodes
      ensures child in nodes && path[child] == old(path[current]) + [e]
      ensures old(Contents()).IsGrownTo(Contents(), path[child])
      ensures fresh(nodes - old(nodes))
    {
      hide Trie.Valid, Index.IsGrownTo;
      var existing := current.GetChildWithExpression(e);
      if existing == null {
        child := AddChild(current, e);
      } else {
        child := existing;
        Shape().ChildOf(root, current, existing);
        Contents().NotGrown(path[existing]);
      }
    }

    method AddChild(current: Node, e: Expr) returns (child: Node)
      requires IsTrie() && current in nodes && path.Keys == nodes
      requires forall c <- current.children :: c.expression != Some(e)
      modifies this`nodes, this`path, current`children
      ensures IsTrie() && path.Keys == nodes
      ensures child in nodes && path[child] == old(path[current]) + [e]
      ensures old(Contents()).IsGrownTo(Contents(), path[child])
      ensures fresh(nodes - old(nodes))
    {
      hide Trie.Valid, Index.IsGrownTo, Contents;
      ghost var before, start := Shape(), Contents();
      PartsOfIndex();
      child := new Node(Some(e));
      before.AddLeaf(root, current, child, e);
      Attach(current, child, e);
      PartsOfIndex();
      start.GrownByLeaf(Contents(), current, child, e);
    }

    method Attach(current: Node, leaf: Node, e: Expr)
      requires path.Keys == nodes && current in nodes && leaf !in nodes
      requires leaf.children == [] && leaf.matchingRules == []
      modifies this`nodes, this`path, current`children
      ensures Shape() == old(Shape()).WithLeaf(current, leaf, e)
      ensures Contents().attached == old(Contents()).attached[leaf := []]
    {
      ghost var before := Shape();
      current.children := current.children + [leaf];
      nodes := nodes + {leaf};
      path := path[leaf := path[current] + [e]];
      assert Shape().kids == before.WithLeaf(current, leaf, e).kids;
    }

    lemma RootIsNode()
      requires IsTrie()
      ensures root in nodes && path.Keys == nodes && path[root] == []
    {
    }

    /** `_add_parsed_rule`: walks the conjunction down the trie and returns its end. */
    method AddParsedRule(es: seq<Expr>) returns (end: Node)
      requires IsTrie()
      modifies this`nodes, this`path, nodes`children
      ensures IsTrie()
      ensures end in nodes && path[end] == es
      ensures old(Contents()).IsGrownTo(Contents(), es)
      ensures fresh(nodes - old(nodes))
    {
      hide Trie.Valid, Index.IsGrownTo;
      ghost var start := Contents();
      RootIsNode();
      start.NotGrown([]);
      end := root;
      assert es[..0] == [];
      for i := 0 to |es|
        invariant IsTrie() && path.Keys == nodes
        invariant end in nodes && path[end] == es[..i]
        invariant start.IsGrownTo(Contents(), es[..i])
        invariant fresh(nodes - old(nodes))
      {
        ghost var middle := Contents();
        assert es[..i] + [es[i]] == es[..i + 1];
        end := Descend(end, es[i]);
        start.GrownFurther(middle, Contents(), es[..i], es[..i + 1]);
      }
      assert es[..|es|] == es;
    }

    /** `rule in matching_rules`. */
    method HasEqual(rules: seq<Rule>, rule: Rule) returns (found: bool)
      ensures found <==> exists r <- rules :: r.Equals(rule)
    {
      for i := 0 to |rules|
        invariant forall r <- rules[..i] :: !r.Equals(rule)
      {
        if rules[i].Equals(rule) {
          return true;
        }
      }
      assert rules[..|rules|] == rules;
      return false;
    }

    /** Attaches the rule, unless an equal one is attached: its leader. */
    method AttachAt(end: Node, rule: Rule, ghost leader: Rule)
      requires end in nodes && (leader == rule || leader in end.matchingRules)
      requires leader.Equals(rule) && forall r <- end.matchingRules | r.Equals(rule) :: r == leader
      modifies end`matchingRules
      ensures Contents().trie == old(Contents()).trie
      ensures var rules := old(Contents()).attached[end];
              Contents().attached
              == old(Contents()).attached[end := if leader in rules then rules else rules + [leader]]
    {
      ghost var before := Contents();
      var found := HasEqual(end.matchingRules, rule);
      if !found {
        end.matchingRules := end.matchingRules + [rule];
      }
      assert Shape().kids == before.trie.kids;
    }

    lemma PartsOfIndex()
      ensures Contents().trie == Shape() && Contents().trie.nodes == nodes && Contents().trie.path == path
      ensures Contents().attached.Keys == nodes
    {
    }

    lemma TrieOfIndex()
      requires Contents().Represents(root, known)
      ensures IsTrie() && nodes == path.Keys
      ensures Contents().attached.Keys == nodes && Contents().trie.path == path && Contents().trie.nodes == nodes
      ensures Contents().trie == Shape()
    {
    }

    /** The one attached rule that equals the rule, or the rule itself. */
    ghost predicate Leads(leader: Rule, rule: Rule, some: set<Rule>)
      reads leader, rule, some
    {
      leader in some && leader.Equals(rule) && forall r <- some | r.Equals(rule) :: r == leader
    }

    /** Adds one conjunction of a rule. */
    method AddConjunction(es: seq<Expr>, rule: Rule, ghost leader: Rule)
      requires Contents().Represents(root, known) && Leads(leader, rule, known.Keys)
      requires leader == rule || es in known[leader]
      modifies this`nodes, this`path, this`known
      modifies nodes`children
      modifies nodes`matchingRules
      ensures Contents().Represents(root, known) && Leads(leader, rule, known.Keys)
      ensures known == old(known)[leader := old(known)[leader] + {es}]
      ensures old(Contents()).IsKeptIn(Contents(), rule)
      ensures fresh(nodes - old(nodes))
    {
      hide Index.Represents, Trie.Valid, Index.IsGrownTo, Index.IsExtendedTo, Index.IsKeptIn, Contents, Shape;
      hide Leads, Rule.Equals;
      ghost var before := Contents();
      TrieOfIndex();
      LeaderIsKnown(leader, rule);
      var end := AddParsedRule(es);
      ghost var grown := Contents();
      PartsOfIndex();
      before.AttachedAreKnown(root, known, grown, es, end, leader);
      AttachedHere(end);
      LeaderIsOnly(end.matchingRules, leader, rule);
      AttachAt(end, rule, leader);
      before.ConjunctionAdded(root, known, grown, Contents(), end, leader, rule, es);
      known := known[leader := known[leader] + {es}];
      assert known.Keys == old(known).Keys;
    }

    lemma LeaderIsOnly(some: seq<Rule>, leader: Rule, rule: Rule)
      requires Leads(leader, rule, known.Keys) && forall r <- some :: r in known
      ensures leader.Equals(rule) && forall r <- some | r.Equals(rule) :: r == leader
    {
    }

    lemma AttachedHere(n: Node)
      requires n in nodes
      ensures n in Contents().attached && Contents().attached[n] == n.matchingRules
    {
    }

    /** Adds all conjunctions of a rule. */
    method AddConjunctions(
      lists: seq<MutableList<Segment>>, rule: Rule, ghost leader: Rule, ghost dnf: seq<seq<Expr>>)
      requires Contents().Represents(root, known) && Leads(leader, rule, known.Keys) && Hold(lists, dnf)
      requires leader == rule || AsSet(dnf) <= known[leader]
      modifies this`nodes, this`path, this`known
      modifies nodes`children
      modifies nodes`matchingRules
      ensures Contents().Represents(root, known)
      ensures known == old(known)[leader := old(known)[leader] + AsSet(dnf)]
      ensures old(Contents()).IsKeptIn(Contents(), rule)
      ensures fresh(nodes - old(nodes))
    {
      hide *;
      ghost var start := Contents();
      TrieOfIndex();
      start.KeptAlready(rule);
      AsSetSnoc(dnf);
      LeaderIsKnown(leader, rule);
      SameLength(lists, dnf);
      for i := 0 to |lists|
        invariant Contents().Represents(root, known) && Leads(leader, rule, known.Keys) && Hold(lists, dnf)
        invariant known.Keys == old(known).Keys && leader in known
        invariant known[leader] == old(known)[leader] + AsSet(dnf[..i])
        invariant forall r <- known | r != leader :: known[r] == old(known)[r]
        invariant start.IsKeptIn(Contents(), rule) && fresh(nodes - old(nodes))
        invariant leader == rule || AsSet(dnf) <= known[leader]
      {
        ghost var middle := Contents();
        ItemsOf(lists, dnf, i);
        ElementOf(dnf, i);
        var es := ExpressionsOf(lists[i], dnf[i]);
        AddConjunction(es, rule, leader);
        start.KeptFurther(middle, Contents(), rule);
      }
      assert dnf[..|dnf|] == dnf;
    }

    lemma LeaderIsKnown(leader: Rule, rule: Rule)
      requires Leads(leader, rule, known.Keys)
      ensures leader in known
    {
    }

    lemma SameLength(lists: seq<MutableList<Segment>>, dnf: seq<seq<Expr>>)
      requires Hold(lists, dnf)
      ensures |lists| == |dnf|
    {
    }

    lemma ElementOf(dnf: seq<seq<Expr>>, i: nat)
      requires i < |dnf|
      ensures dnf[i] in AsSet(dnf)
    {
    }

    lemma ItemsOf(lists: seq<MutableList<Segment>>, dnf: seq<seq<Expr>>, i: nat)
      requires Hold(lists, dnf) && i < |lists|
      ensures |lists| == |dnf| && lists[i].items == Singles(dnf[i])
    {
    }

    /** The rule to which the conjunctions are attached: the first one that equals it, or itself. */
    lemma FindLeader(rule: Rule) returns (leader: Rule)
      requires HasRules()
      ensures leader.Equals(rule) && forall r <- known | r.Equals(rule) :: r == leader
      ensures leader !in known ==> leader == rule && rule !in rules && forall r <- rules :: !r.Equals(rule)
    {
      hide IsParsed, Conjunctions, HoldConjunctions, FirstOf;
      SomeAreRules(known);
      if i :| 0 <= i < |rules| && rules[i].Equals(rule) {
        var k := FirstEqual(i);
        leader := rules[k];
        forall r <- known | r.Equals(rule) ensures r == leader {
          var j :| 0 <= j < |rules| && rules[j] == r;
          OneFirst(k, j);
        }
      } else {
        leader := rule;
      }
    }

    lemma OneFirst(j: nat, k: nat)
      requires j < |rules| && k < |rules| && FirstOf(rules, j) && FirstOf(rules, k) && rules[j].Equals(rules[k])
      ensures j == k
    {
    }

    /** Resolving rewrites the filter of the rule; that of a known one was rewritten before. */
    method RewriteFilter(rule: Rule)
      requires HasRules() && HasChildren(rule.filter)
      modifies rule
      ensures HasRules()
      ensures rule.filter == AfterResolve(old(rule.filter)) && HasChildren(rule.filter)
      ensures ParseFilter(rule.filter, config) == ParseFilter(old(rule.filter), config)
      ensures AfterResolve(rule.filter) == rule.filter
      ensures rule in rules ==> rule.filter == old(rule.filter)
    {
      hide AfterResolve, ParseFilter, HasChildren, AsSet;
      ParsingAgain(rule.filter, config);
      StaysParsed(rule.filter);
      assert rule in rules ==> IsParsed(rule);
      if AfterResolve(rule.filter) != rule.filter {
        Rewrite(rule, AfterResolve(rule.filter));
      }
    }

    method Rewrite(rule: Rule, filter: Expr)
      requires HasRules() && rule !in rules
      modifies rule
      ensures HasRules() && rule.filter == filter
    {
      rule.filter := filter;
    }

    lemma StaysParsed(filter: Expr)
      requires HasChildren(filter)
      ensures HasChildren(AfterResolve(filter)) && AfterResolve(AfterResolve(filter)) == AfterResolve(filter)
    {
      ResolveResolves(filter);
      ResolveAgain(filter);
    }

    /** The mapping behind another rule. */
    lemma MapsOneMore(some: map<Rule, set<seq<Expr>>>, rule: Rule, leader: Rule)
      requires Maps(rules, ruleIds.Keys, some) && IsParsed(rule)
      requires leader.Equals(rule) && forall r <- some | r.Equals(rule) :: r == leader
      requires leader !in some ==> leader == rule && rule !in rules && forall r <- rules :: !r.Equals(rule)
      ensures var more := some[leader := (if leader in some then some[leader] else {}) + Conjunctions(rule)];
              Maps(if rule in rules then rules else rules + [rule], ruleIds.Keys + {rule}, more)
    {
      hide AreFirst, IsParsed, Rule.Equals, Conjunctions, HoldConjunctions;
      var more := some[leader := (if leader in some then some[leader] else {}) + Conjunctions(rule)];
      SomeAreRules(some);
      HoldOneMore(some, leader, rule);
      if rule in rules {
        assert more.Keys == some.Keys && ruleIds.Keys + {rule} == ruleIds.Keys;
      } else {
        AppendFirst(rules, rule, some.Keys);
        assert more.Keys == if leader in some then some.Keys else some.Keys + {rule};
        assert leader in some ==> leader in rules;
      }
    }

    lemma HoldOneMore(some: map<Rule, set<seq<Expr>>>, leader: Rule, rule: Rule)
      requires HoldConjunctions(some) && IsParsed(rule) && leader.Equals(rule)
      requires leader !in some ==> leader == rule
      ensures HoldConjunctions(some[leader := (if leader in some then some[leader] else {}) + Conjunctions(rule)])
      ensures leader in some ==> some[leader] == Conjunctions(rule)
    {
      hide ParseFilter, AsSet, HasChildren, AfterResolve;
      if leader in some {
        assert IsParsed(leader) && Conjunctions(leader) == Conjunctions(rule);
      }
    }

    lemma SomeAreRules(some: map<Rule, set<seq<Expr>>>)
      requires AreFirst(rules, some.Keys)
      ensures forall r <- some :: r in rules
    {
    }

    /** The mapping part of `add_rule`. */
    method Register(rule: Rule)
      requires Maps(if rule in rules then rules else rules + [rule], ruleIds.Keys + {rule}, known)
      modifies this`rules, this`ruleIds
      ensures HasRules()
      ensures rules == (if rule in old(rules) then old(rules) else old(rules) + [rule])
      ensures ruleIds == old(ruleIds)[rule := |old(rules)|]
    {
      hide Maps;
      ruleIds := ruleIds[rule := |rules|];
      assert ruleIds.Keys == old(ruleIds).Keys + {rule};
      if rule !in rules {
        rules := rules + [rule];
      }
    }

    /**
     * `add_rule`: attaches the rule at the end of each of its conjunctions, where no equal rule is
     * attached, or skips it when its filter cannot be parsed. Either way the filter was rewritten in
     * place.
     */
    method AddRule(rule: Rule)
      requires Valid() && HasChildren(rule.filter)
      modifies this`nodes, this`path, this`known, this`rules, this`ruleIds, rule
      modifies nodes`children
      modifies nodes`matchingRules
      ensures Valid()
      ensures rule.filter == AfterResolve(old(rule.filter))
      ensures ParseFilter(old(rule.filter), config).Err? ==>
                Contents() == old(Contents()) && rules == old(rules) && ruleIds == old(ruleIds)
      ensures ParseFilter(old(rule.filter), config).Ok? ==>
                && rules == (if rule in old(rules) then old(rules) else old(rules) + [rule])
                && ruleIds == old(ruleIds)[rule := |old(rules)|]
      ensures old(Contents()).IsKeptIn(Contents(), rule)
      ensures fresh(nodes - old(nodes))
    {
      hide Index.Represents, Trie.Valid, Index.IsKeptIn, Contents, Shape, ParseFilter, HasChildren, AfterResolve;
      hide HasRules;
      TrieOfIndex();
      Contents().KeptAlready(rule);
      var parsed := ParseRule(rule.filter, config);
      RewriteFilter(rule);
      if parsed.Ok? {
        InsertRule(parsed.value, rule);
      }
    }

    lemma CanBeParsed(rule: Rule)
      requires IsParsed(rule)
      ensures HasChildren(rule.filter) && ParseFilter(rule.filter, config).Ok?
      ensures Conjunctions(rule) == AsSet(ParseFilter(rule.filter, config).value)
      ensures forall other: Rule | IsParsed(other) && other.Equals(rule) :: Conjunctions(other) == Conjunctions(rule)
    {
    }

    /** The part of `add_rule` that is not skipped. */
    method InsertRule(lists: seq<MutableList<Segment>>, rule: Rule)
      requires Valid() && IsParsed(rule) && Hold(lists, ParseFilter(rule.filter, config).value)
      modifies this`nodes, this`path, this`known, this`rules, this`ruleIds
      modifies nodes`children
      modifies nodes`matchingRules
      ensures Valid()
      ensures rules == (if rule in old(rules) then old(rules) else old(rules) + [rule])
      ensures ruleIds == old(ruleIds)[rule := |old(rules)|]
      ensures old(Contents()).IsKeptIn(Contents(), rule)
      ensures fresh(nodes - old(nodes))
    {
      hide Index.Represents, Trie.Valid, Index.IsKeptIn, Contents, Shape, IsParsed, Hold, Maps;
      AttachRule(lists, rule);
      Register(rule);
    }

    /** The loop over the conjunctions of a rule. */
    method AttachRule(lists: seq<MutableList<Segment>>, rule: Rule)
      requires Valid() && IsParsed(rule) && Hold(lists, ParseFilter(rule.filter, config).value)
      modifies this`nodes, this`path, this`known
      modifies nodes`children
      modifies nodes`matchingRules
      ensures Contents().Represents(root, known)
      ensures Maps(if rule in rules then rules else rules + [rule], ruleIds.Keys + {rule}, known)
      ensures old(Contents()).IsKeptIn(Contents(), rule)
      ensures fresh(nodes - old(nodes))
    {
      hide Index.Represents, Trie.Valid, Index.IsKeptIn, Contents, Shape, IsParsed, AsSet, Hold, Rule.Equals;
      hide Maps, Leads, Conjunctions, ParseFilter;
      CanBeParsed(rule);
      ghost var before, dnf := known, ParseFilter(rule.filter, config).value;
      ghost var leader := FindLeader(rule);
      EnterLeader(rule, leader);
      AddConjunctions(lists, rule, leader, dnf);
      MapsOneMore(before, rule, leader);
      assert known == before[leader := (if leader in before then before[leader] else {}) + AsSet(dnf)];
    }

    /** A rule that is its own leader is known from now on. */
    ghost method EnterLeader(rule: Rule, leader: Rule)
      requires Contents().Represents(root, known) && HasRules() && IsParsed(rule)
      requires leader.Equals(rule) && forall r <- known | r.Equals(rule) :: r == leader
      requires leader !in known ==> leader == rule
      modifies this`known
      ensures Contents().Represents(root, known) && Contents() == old(Contents())
      ensures Leads(leader, rule, known.Keys)
      ensures known == if leader in old(known) then old(known) else old(known)[leader := {}]
      ensures leader == rule || Conjunctions(rule) <= known[leader]
    {
      hide Index.Represents, Trie.Valid, Contents, Shape, IsParsed, Conjunctions, Rule.Equals, Maps;
      if leader !in known {
        Contents().KnowsOneMore(root, known, rule);
        known := known[rule := {}];
      } else {
        MapsHold();
        HoldOneMore(known, leader, rule);
      }
    }

    lemma MapsHold()
      requires HasRules()
      ensures HoldConjunctions(known)
    {
    }

    // ------------------------------------------------------------------ matching

    /** `_retrieve_matching_rules`; no way is longer than the one to here and the depth. */
    method RetrieveMatchingRules(
      engine: Engine, event: Document, current: Node, matches: seq<Rule>, ghost depth: nat)
      returns (result: seq<Rule>)
      requires IsTrie() && path.Keys == nodes && current in nodes
      requires forall n <- nodes :: |path[n]| <= |path[current]| + depth
      ensures result == matches + Contents().Found(engine, event, current.children, depth)
      decreases depth
    {
      hide Trie.Valid, Index.Found, Matches;
      ghost var index := Contents();
      result := matches;
      index.NothingFound(engine, event, depth);
      assert current.children[..0] == [];
      for i := 0 to |current.children|
        invariant result == matches + index.Found(engine, event, current.children[..i], depth)
      {
        var child := current.children[i];
        index.trie.ChildOf(root, current, child);
        index.FoundNext(engine, event, current.children[..i], child, depth);
        assert current.children[..i + 1] == current.children[..i] + [child];
        if Matches(engine, child.expression.value, event) {
          result := result + child.matchingRules;
          result := RetrieveMatchingRules(engine, event, child, result, depth - 1);
        }
      }
      assert current.children[..|current.children|] == current.children;
    }

    /** Which rules the tree gives, in terms of the conjunctions of their filters. */
    lemma RulesGiven(engine: Engine, event: Document)
      requires Valid()
      ensures Contents().trie.path.Keys == Contents().attached.Keys == Contents().trie.nodes
      ensures root in Contents().trie.nodes
      ensures forall rule <- Contents().Hits(engine, event, root) :: rule in rules
      ensures forall i | 0 <= i < |rules| ::
                IsParsed(rules[i]) &&
                (rules[i] in Contents().Hits(engine, event, root)
                 <==> FirstOf(rules, i) && SomeMatch(engine, ParseFilter(rules[i].filter, config).value, event))
    {
      hide ParseFilter, AfterResolve, HasChildren, Index.Represents, Index.Hits, SomeMatch, FirstOf, AllMatch;
      forall r | r in known ensures [] !in known[r] {
        ParsedNotEmpty(r.filter, config);
        assert IsParsed(r);
      }
      PartsOfIndex();
      TrieOfIndex();
      RootOfIndex();
      forall rule: Rule
        ensures rule in Contents().Hits(engine, event, root)
           <==> rule in known && exists es <- known[rule] :: AllMatch(engine, es, event)
      {
        Contents().HitsOfRoot(engine, event, root, known, rule);
      }
      SomeAreRules(known);
      Contents().HitsAreKnown(engine, event, root, known);
      forall i | 0 <= i < |rules|
        ensures IsParsed(rules[i])
        ensures rules[i] in Contents().Hits(engine, event, root)
           <==> FirstOf(rules, i) && SomeMatch(engine, ParseFilter(rules[i].filter, config).value, event)
      {
        GivenAt(engine, event, i);
      }
    }

    lemma GivenAt(engine: Engine, event: Document, i: nat)
      requires HasRules() && i < |rules|
      ensures IsParsed(rules[i])
      ensures rules[i] in known && (exists es <- known[rules[i]] :: AllMatch(engine, es, event))
         <==> FirstOf(rules, i) && SomeMatch(engine, ParseFilter(rules[i].filter, config).value, event)
    {
      hide ParseFilter, AfterResolve, HasChildren, SomeMatch, AsSet, AllMatch, FirstOf;
      assert IsParsed(rules[i]) && (rules[i] in known <==> FirstOf(rules, i));
      SomeOfSet(engine, event, ParseFilter(rules[i].filter, config).value);
    }

    lemma SomeOfSet(engine: Engine, event: Document, dnf: seq<seq<Expr>>)
      ensures SomeMatch(engine, dnf, event) <==> exists es <- AsSet(dnf) :: AllMatch(engine, es, event)
    {
      hide AllMatch;
      assert forall es :: es in AsSet(dnf) <==> es in dnf;
    }

    /** The rules that the depth-first walk finds, each where it is found first. */
    ghost function Walk(engine: Engine, event: Document): seq<Rule>
      requires Valid()
      reads this, nodes, (set rule | rule in rules), known.Keys
    {
      PartsOfIndex();
      RootOfIndex();
      Deduplicated(Contents().Found(engine, event, root.children, Contents().Depth()))
    }

    lemma RootOfIndex()
      requires Contents().Represents(root, known)
      ensures root in nodes && path.Keys == nodes
    {
    }

    /**
     * `get_matching_rules`: the rules on the depth-first walk, each once. These are the rules one of
     * whose conjunctions matches and that equal no rule known before; without tags, the rules of that
     * kind whose own filter matches.
     */
    method GetMatchingRules(engine: Engine, event: Document) returns (result: seq<Rule>)
      requires Valid()
      ensures result == Walk(engine, event)
      ensures forall i, j | 0 <= i < j < |result| :: result[i] != result[j]
      ensures forall rule <- result :: rule in rules && Matches(engine, rule.filter, event)
      ensures forall i | 0 <= i < |rules| ::
                IsParsed(rules[i]) &&
                (rules[i] in result
                 <==> && SomeMatch(engine, ParseFilter(rules[i].filter, config).value, event)
                      && forall j | 0 <= j < i ::
                           rules[j].filter != rules[i].filter || rules[j].config != rules[i].config)
      ensures config.tags == map[] ==>
                forall i | 0 <= i < |rules| ::
                  rules[i] in result
                  <==> && Matches(engine, rules[i].filter, event)
                       && forall j | 0 <= j < i ::
                            rules[j].filter != rules[i].filter || rules[j].config != rules[i].config
    {
      hide Index.Represents, Index.Hits, Index.Found, Trie.Valid, ParseFilter, SomeMatch, Matches, AfterResolve;
      hide HasChildren, Index.Longest, AllMatch, FirstOf;
      PartsOfIndex();
      TrieOfIndex();
      RootIsNode();
      ghost var depth := Contents().Depth();
      var all := RetrieveMatchingRules(engine, event, root, [], depth);
      assert all == Contents().Found(engine, event, root.children, depth);
      result := Deduplicate(all);
      DeduplicatedItems(all);
      Contents().FoundIsHits(engine, event, root, root, depth);
      RulesGiven(engine, event);
      assert forall rule: Rule :: rule in result <==> rule in Contents().Hits(engine, event, root);
      GivenByFilter(engine, event, result);
    }

    /** The rules that are given, in terms of filters and configurations. */
    lemma GivenByFilter(engine: Engine, event: Document, given: seq<Rule>)
      requires HasRules()
      requires forall i | 0 <= i < |rules| ::
                 IsParsed(rules[i]) &&
                 (rules[i] in given
                  <==> FirstOf(rules, i) && SomeMatch(engine, ParseFilter(rules[i].filter, config).value, event))
      ensures forall i | 0 <= i < |rules| ::
                && (rules[i] in given ==> Matches(engine, rules[i].filter, event))
                && (rules[i] in given
                    <==> && SomeMatch(engine, ParseFilter(rules[i].filter, config).value, event)
                         && forall j | 0 <= j < i ::
                              rules[j].filter != rules[i].filter || rules[j].config != rules[i].config)
                && (config.tags == map[] ==>
                    (rules[i] in given
                     <==> && Matches(engine, rules[i].filter, event)
                          && forall j | 0 <= j < i ::
                               rules[j].filter != rules[i].filter || rules[j].config != rules[i].config))
    {
      hide ParseFilter, SomeMatch, Matches, AfterResolve, HasChildren, FirstOf, IsParsed;
      forall i | 0 <= i < |rules|
        ensures FirstOf(rules, i)
           <==> forall j | 0 <= j < i :: rules[j].filter != rules[i].filter || rules[j].config != rules[i].config
        ensures rules[i] in given ==> Matches(engine, rules[i].filter, event)
        ensures config.tags == map[] ==>
                  (rules[i] in given <==> FirstOf(rules, i) && Matches(engine, rules[i].filter, event))
      {
        FirstByFields(rules, i);
        FilterDecides(engine, event, rules[i]);
      }
    }

    lemma FilterDecides(engine: Engine, event: Document, rule: Rule)
      requires IsParsed(rule)
      ensures var some := SomeMatch(engine, ParseFilter(rule.filter, config).value, event);
              && (some ==> Matches(engine, rule.filter, event))
              && (config.tags == map[] ==> (some <==> Matches(engine, rule.filter, event)))
    {
      hide ParseFilter, SomeMatch, Matches, AfterResolve, HasChildren;
      if SomeMatch(engine, ParseFilter(rule.filter, config).value, event) {
        TaggingOnlyNarrows(engine, rule.filter, config, event);
      }
      if config.tags == map[] {
        ParsingKeepsMeaning(engine, rule.filter, config, event);
      }
    }

    // ---------------------------------------------------------------------- size

    /** `get_size` of a subtree, without its own root. */
    method GetSizeBelow(current: Node, ghost limit: nat) returns (size: nat)
      requires IsTrie() && current in nodes && path.Keys == nodes
      requires forall n <- nodes :: |path[n]| <= limit
      ensures size == |Shape().Below(current)|
      decreases limit - |path[current]|
    {
      hide Trie.Valid, Trie.Below, Trie.AtOrBelow;
      ghost var trie := Shape();
      size := |current.children|;
      trie.NothingBelow();
      assert current.children[..0] == [];
      for k := 0 to |current.children|
        invariant size == |current.children| - k + |trie.AtOrBelow(current.children[..k])|
      {
        var child := current.children[k];
        trie.ChildOf(root, current, child);
        var more := GetSizeBelow(child, limit);
        trie.OneChildMore(root, current, k);
        size := size + more;
      }
      assert current.children[..|current.children|] == current.children;
      trie.AtOrBelowKids(root, current);
    }

    ghost function AllConjunctions(): map<Rule, set<seq<Expr>>>
      requires HasRules()
      reads this, set rule | rule in rules
    {
      map rule | rule in rules :: Conjunctions(rule)
    }

    /** Rules that are not attached have the conjunctions of one that is. */
    lemma PrefixesOfAll()
      requires HasRules()
      ensures Prefixes(AllConjunctions()) == Prefixes(known)
    {
      hide IsParsed, AsSet;
      forall prefix | prefix in Prefixes(AllConjunctions()) ensures prefix in Prefixes(known) {
        var rule: Rule, es, k :| rule in rules && es in Conjunctions(rule) && 0 < k <= |es| && prefix == es[..k];
        var i :| 0 <= i < |rules| && rules[i] == rule;
        var first := FirstEqual(i);
        assert rules[first] in known && es in known[rules[first]];
      }
      forall prefix | prefix in Prefixes(known) ensures prefix in Prefixes(AllConjunctions()) {
        var rule: Rule, es, k :| rule in known && es in known[rule] && 0 < k <= |es| && prefix == es[..k];
        assert es in AllConjunctions()[rule];
      }
    }

    /** `get_size`: the number of different non-empty beginnings of the conjunctions of all rules. */
    method GetSize() returns (size: nat)
      requires Valid()
      ensures size == |Prefixes(AllConjunctions())|
    {
      hide Index.Represents, Trie.Valid, ParseFilter, Index.Longest;
      TrieOfIndex();
      PartsOfIndex();
      RootIsNode();
      ghost var limit := Contents().Depth();
      size := GetSizeBelow(root, limit);
      Contents().NodesArePrefixes(root, known);
      PrefixesOfAll();
    }
  }
}
