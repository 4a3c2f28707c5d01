/** From filters to conjunctions. */
module RuleParser {
  import opened Common
  import opened Documents
  import opened FilterExpressions
  import opened DeMorgan
  import opened Segmenter
  import opened SegmenterProofs
  import opened Acceptance
  import opened Sorter
  import opened Tagger
  import DottedFields

  datatype ParseError =
    | NotSegmented(segmenter: SegmenterError)
    | NotSorted(sorter: SorterError)
    | NotTagged(tagger: TaggerError)

  /** The configuration of a tree. */
  datatype Config = Config(priorities: map<string, string>, tags: map<string, string>)

  function GuardAll(dnf: seq<seq<Expr>>): (guarded: seq<seq<Expr>>)
    ensures |guarded| == |dnf| && forall i | 0 <= i < |dnf| :: guarded[i] == Guard([], dnf[i])
  {
    seq(|dnf|, i requires 0 <= i < |dnf| => Guard([], dnf[i]))
  }

  function TagAll(dnf: seq<seq<Expr>>, tags: map<string, string>): Result<seq<seq<Expr>>, TaggerError> {
    if dnf == [] then Ok([])
    else
      var first :- AddTags(dnf[0], dnf[0], tags);
      var others :- TagAll(dnf[1..], tags);
      Ok([first] + others)
  }

  /** `parse_rule`, as a function of the filter. */
  function ParseFilter(filter: Expr, config: Config): Result<seq<seq<Expr>>, ParseError> {
    match SegmentIntoDnf(Resolve(filter))
    case Err(error) => Err(NotSegmented(error))
    case Ok(dnf) =>
      match SortRuleSegments(dnf, config.priorities)
      case Err(error) => Err(NotSorted(error))
      case Ok(sorted) =>
        if config.tags == map[] then Ok(GuardAll(sorted))
        else
          match TagAll(GuardAll(sorted), config.tags)
          case Err(error) => Err(NotTagged(error))
          case Ok(tagged) => Ok(tagged)
  }

  /** The lists after sorting and guarding, before any tags. */
  lemma ParsedBeforeTags(engine: Engine, filter: Expr, config: Config, document: Document)
    requires HasChildren(filter)
    requires SegmentIntoDnf(Resolve(filter)).Ok?
    requires SortRuleSegments(SegmentIntoDnf(Resolve(filter)).value, config.priorities).Ok?
    ensures var sorted := SortRuleSegments(SegmentIntoDnf(Resolve(filter)).value, config.priorities).value;
            SomeMatch(engine, GuardAll(sorted), document) <==> Matches(engine, filter, document)
  {
    var dnf := SegmentIntoDnf(Resolve(filter)).value;
    var sorted := SortRuleSegments(dnf, config.priorities).value;
    ResolveResolves(filter);
    ResolveKeepsMeaning(engine, filter, document);
    SegmentIntoDnfMeaning(engine, Resolve(filter), document);
    SortingPermutes(dnf, config.priorities);
    forall i | 0 <= i < |dnf|
      ensures AllMatch(engine, GuardAll(sorted)[i], document) <==> AllMatch(engine, dnf[i], document)
    {
      PermutationMeaning(engine, dnf[i], sorted[i], document);
      GuardKeepsMeaning(engine, [], sorted[i], document);
      assert [] + sorted[i] == sorted[i];
    }
    SameSome(engine, dnf, GuardAll(sorted), document);
  }

  lemma PermutationMeaning(engine: Engine, es: seq<Expr>, fs: seq<Expr>, document: Document)
    requires multiset(es) == multiset(fs)
    ensures AllMatch(engine, es, document) <==> AllMatch(engine, fs, document)
  {
    assert forall e <- es :: e in multiset(fs);
    assert forall e <- fs :: e in multiset(es);
  }

  lemma SameSome(engine: Engine, a: seq<seq<Expr>>, b: seq<seq<Expr>>, document: Document)
    requires |a| == |b|
    requires forall i | 0 <= i < |a| :: AllMatch(engine, b[i], document) <==> AllMatch(engine, a[i], document)
    ensures SomeMatch(engine, a, document) <==> SomeMatch(engine, b, document)
  {
    assert forall i | 0 <= i < |a| :: a[i] in a && b[i] in b;
  }

  /** Without tags the parsed rule matches exactly the documents that the filter matches. */
  lemma {:induction false} ParsingKeepsMeaning(engine: Engine, filter: Expr, config: Config, document: Document)
    requires HasChildren(filter) && config.tags == map[] && ParseFilter(filter, config).Ok?
    ensures SomeMatch(engine, ParseFilter(filter, config).value, document) <==> Matches(engine, filter, document)
  {
    ParsedBeforeTags(engine, filter, config, document);
  }

  /** With tags the parsed rule matches no document that the filter does not match. */
  lemma {:induction false} TaggingOnlyNarrows(engine: Engine, filter: Expr, config: Config, document: Document)
    requires HasChildren(filter) && ParseFilter(filter, config).Ok?
    requires SomeMatch(engine, ParseFilter(filter, config).value, document)
    ensures Matches(engine, filter, document)
  {
    ParsedBeforeTags(engine, filter, config, document);
    if config.tags != map[] {
      var sorted := SortRuleSegments(SegmentIntoDnf(Resolve(filter)).value, config.priorities).value;
      TagAllOnlyNarrows(engine, GuardAll(sorted), config.tags, document);
    }
  }

  lemma {:induction false} TagAllOnlyNarrows(
    engine: Engine, dnf: seq<seq<Expr>>, tags: map<string, string>, document: Document)
    requires TagAll(dnf, tags).Ok? && SomeMatch(engine, TagAll(dnf, tags).value, document)
    ensures SomeMatch(engine, dnf, document)
  {
    var tagged := TagAll(dnf, tags).value;
    if dnf != [] {
      assert tagged[1..] == TagAll(dnf[1..], tags).value && dnf == [dnf[0]] + dnf[1..];
      if AllMatch(engine, tagged[0], document) {
        TagsOnlyNarrow(engine, dnf[0], tags, document);
      } else {
        var es :| es in tagged && AllMatch(engine, es, document);
        assert es in tagged[1..];
        TagAllOnlyNarrows(engine, dnf[1..], tags, document);
      }
    }
  }

  /** No conjunction of a parsed rule is empty. */
  lemma {:induction false} ParsedNotEmpty(filter: Expr, config: Config)
    requires HasChildren(filter) && ParseFilter(filter, config).Ok?
    ensures forall es <- ParseFilter(filter, config).value :: es != []
  {
    var dnf := SegmentIntoDnf(Resolve(filter)).value;
    var sorted := SortRuleSegments(dnf, config.priorities).value;
    ResolveResolves(filter);
    SegmentIntoDnfLiterals(filter, Resolve(filter));
    SortingPermutes(dnf, config.priorities);
    forall i | 0 <= i < |sorted| ensures GuardAll(sorted)[i] != [] {
      assert dnf[i] in dnf;
      assert |multiset(sorted[i])| == |sorted[i]| && |multiset(dnf[i])| == |dnf[i]|;
      GuardGuards([], sorted[i]);
      assert sorted[i][0] in [] + sorted[i];
    }
    if config.tags != map[] {
      TagAllNotEmpty(GuardAll(sorted), config.tags);
    }
  }

  lemma {:induction false} TagAllNotEmpty(dnf: seq<seq<Expr>>, tags: map<string, string>)
    requires TagAll(dnf, tags).Ok? && forall es <- dnf :: es != []
    ensures forall es <- TagAll(dnf, tags).value :: es != []
  {
    if dnf != [] {
      assert dnf[0] in dnf && forall es <- dnf[1..] :: es in dnf;
      TagsArePrefixed(dnf[0], dnf[0], tags);
      TagAllNotEmpty(dnf[1..], tags);
    }
  }

  /** What sorting and guarding leave in a list: its expressions, and guards of them. */
  lemma GuardedElements(dnf: seq<seq<Expr>>, sorted: seq<seq<Expr>>, i: nat)
    requires IsPermuted(dnf, sorted) && i < |dnf|
    ensures forall e <- Guard([], sorted[i]) ::
              e in dnf[i] || exists x <- dnf[i] :: x.IsKeyBased() && e == Exists(x.key)
    ensures dnf[i] != [] ==> Guard([], sorted[i]) != []
  {
    GuardGuards([], sorted[i]);
    assert [] + sorted[i] == sorted[i] && multiset(dnf[i]) == multiset(sorted[i]);
    forall e ensures e in sorted[i] <==> e in dnf[i] {
      assert e in sorted[i] <==> e in multiset(sorted[i]);
      assert e in dnf[i] <==> e in multiset(dnf[i]);
    }
    assert dnf[i] != [] ==> dnf[i][0] in sorted[i];
  }

  /** In no list a tag is met that cannot be split. */
  predicate AreTaken(dnf: seq<seq<Expr>>, tags: map<string, string>) {
    forall es <- dnf :: es != [] && !IsRefused(es, es, tags)
  }

  lemma {:induction false} TagAllFails(dnf: seq<seq<Expr>>, tags: map<string, string>)
    requires forall es <- dnf :: es != [] && forall e <- es :: HasKeys(e)
    ensures TagAll(dnf, tags).Ok? <==> AreTaken(dnf, tags)
  {
    hide AddTags, HasKeys, IsRefused;
    if dnf != [] {
      assert dnf[0] in dnf && dnf == [dnf[0]] + dnf[1..] && forall es <- dnf[1..] :: es in dnf;
      TaggingFails(dnf[0], dnf[0], tags);
      TagAllFails(dnf[1..], tags);
    }
  }

  /** The lists before tagging. */
  function Untagged(filter: Expr, priorities: map<string, string>): Result<seq<seq<Expr>>, ParseError> {
    ParseFilter(filter, Config(priorities, map[]))
  }

  /** In the lists that the filter leads to no tag is met that cannot be split. */
  predicate MeetsNoBadTag(filter: Expr, config: Config) {
    var untagged := Untagged(filter, config.priorities);
    untagged.Ok? ==> AreTaken(untagged.value, config.tags)
  }

  /** With tags a filter is parsed if it is parsed without them and no list is refused. */
  lemma TagsDecide(filter: Expr, config: Config)
    requires HasChildren(filter) && HasKeys(filter)
    ensures ParseFilter(filter, config).Ok?
       <==> Untagged(filter, config.priorities).Ok? && MeetsNoBadTag(filter, config)
  {
    hide HasKeys, HasChildren, SortRuleSegments, TagAll, IsRefused, SegmentIntoDnf, Resolve, GuardAll;
    var resolved := Resolve(filter);
    if SegmentIntoDnf(resolved).Ok? && SortRuleSegments(SegmentIntoDnf(resolved).value, config.priorities).Ok? {
      var sorted := SortRuleSegments(SegmentIntoDnf(resolved).value, config.priorities).value;
      ParsedNotEmpty(filter, Config(config.priorities, map[]));
      GuardedKeys(filter, config.priorities);
      TagAllFails(GuardAll(sorted), config.tags);
      if config.tags == map[] {
        forall es <- GuardAll(sorted) ensures !IsRefused(es, es, map[]) {
          SafeTagsAreTaken(es, es, map[]);
        }
      }
    }
  }

  lemma GuardedKeys(filter: Expr, priorities: map<string, string>)
    requires HasChildren(filter) && HasKeys(filter) && Untagged(filter, priorities).Ok?
    ensures forall es <- Untagged(filter, priorities).value, e <- es :: HasKeys(e)
  {
    hide HasKeys, HasChildren, SortRuleSegments, SegmentIntoDnf, Resolve;
    var dnf := SegmentIntoDnf(Resolve(filter)).value;
    var sorted := SortRuleSegments(dnf, priorities).value;
    SortingPermutes(dnf, priorities);
    SegmentsHaveKeys(filter);
    forall es <- GuardAll(sorted), e <- es ensures HasKeys(e) {
      var i :| 0 <= i < |sorted| && es == GuardAll(sorted)[i];
      GuardedElements(dnf, sorted, i);
      assert dnf[i] in dnf;
      if e !in dnf[i] {
        var x: Expr :| x in dnf[i] && x.IsKeyBased() && e == Exists(x.key);
        KeysOfGuard(x);
      }
    }
  }

  lemma KeysOfGuard(x: Expr)
    requires x.IsKeyBased() && HasKeys(x)
    ensures HasKeys(Exists(x.key))
  {
  }

  lemma SegmentsHaveKeys(filter: Expr)
    requires HasChildren(filter) && HasKeys(filter) && SegmentIntoDnf(Resolve(filter)).Ok?
    ensures forall es <- SegmentIntoDnf(Resolve(filter)).value, e <- es :: HasKeys(e)
  {
    hide HasKeys, HasChildren, SegmentIntoDnf, Resolve;
    var resolved := Resolve(filter);
    ResolveResolves(filter);
    var dnf := SegmentIntoDnf(resolved).value;
    forall es <- dnf, e <- es ensures HasKeys(e) {
      SegmentIntoDnfLiterals(e, resolved);
      assert Occurs(e, dnf);
      LeafHasKeys(e, resolved);
    }
  }

  /**
   * Whether a filter is accepted does not depend on the priorities if tags can be split; else exactly
   * if no priority leads to a tag that cannot be.
   */
  lemma PrioritiesDoNotDecide(filter: Expr, p: map<string, string>, q: map<string, string>, tags: map<string, string>)
    requires tags == map[] || (HasChildren(filter) && HasKeys(filter))
    ensures tags == map[] || AreSafeTags(tags) ==>
              ParseFilter(filter, Config(p, tags)).Ok? == ParseFilter(filter, Config(q, tags)).Ok?
    ensures HasChildren(filter) && HasKeys(filter) ==>
              (ParseFilter(filter, Config(p, tags)).Ok? == ParseFilter(filter, Config(q, tags)).Ok?
               <==> (IsAcceptable(filter) ==>
                       MeetsNoBadTag(filter, Config(p, tags)) == MeetsNoBadTag(filter, Config(q, tags))))
  {
    hide HasKeys, HasChildren, AreSafeTags, SegmentIntoDnf, Resolve, SortRuleSegments, TagAll, MeetsNoBadTag;
    hide IsAcceptable;
    if tags == map[] && SegmentIntoDnf(Resolve(filter)).Ok? {
      PrioritiesDoNotMatter(SegmentIntoDnf(Resolve(filter)).value, p, q);
    }
    if HasChildren(filter) && HasKeys(filter) {
      hide ParseFilter;
      AcceptedFilters(filter, Config(p, tags));
      AcceptedFilters(filter, Config(q, tags));
    }
  }

  /** With tags of at most one colon a filter is parsed if it is parsed without tags. */
  lemma SafeTagsDoNotDecide(filter: Expr, config: Config)
    requires HasChildren(filter) && HasKeys(filter) && AreSafeTags(config.tags)
    ensures ParseFilter(filter, config).Ok? <==> Untagged(filter, config.priorities).Ok?
  {
    hide HasKeys, HasChildren, AreSafeTags, IsRefused, ParseFilter;
    TagsDecide(filter, config);
    if Untagged(filter, config.priorities).Ok? {
      ParsedNotEmpty(filter, Config(config.priorities, map[]));
      forall es <- Untagged(filter, config.priorities).value ensures !IsRefused(es, es, config.tags) {
        SafeTagsAreTaken(es, es, config.tags);
      }
    }
  }

  /** Parsing the filter again, as rewritten by the first time, gives the same result. */
  lemma ParsingAgain(filter: Expr, config: Config)
    ensures ParseFilter(AfterResolve(filter), config) == ParseFilter(filter, config)
  {
    ResolveAgain(filter);
  }

  // ------------------------------------------------------------- what is accepted

  /** No double negation stands before a compound; a negation passes on to all children. */
  predicate HasPlainNegations(e: Expr, negated: bool) {
    match e
    case Not(child) => if negated then !Base(child).IsCompound() else HasPlainNegations(child, true)
    case And(children) => forall child <- children :: HasPlainNegations(child, negated)
    case Or(children) => forall child <- children :: HasPlainNegations(child, negated)
    case _ => true
  }

  predicate MentionsAlways(e: Expr) {
    match e
    case Not(child) => MentionsAlways(child)
    case And(children) => exists child <- children :: MentionsAlways(child)
    case Or(children) => exists child <- children :: MentionsAlways(child)
    case _ => e.Always?
  }

  /** No `Always` is a conjunct among others; under a negation it is the disjunctions that conjoin. */
  predicate IsolatesAlways(e: Expr, negated: bool) {
    match e
    case Not(child) => child.IsCompound() ==> IsolatesAlways(child, !negated)
    case And(children) =>
      if !negated && |children| != 1 then !MentionsAlways(e)
      else forall child <- children :: IsolatesAlways(child, negated)
    case Or(children) =>
      if negated && |children| != 1 then !MentionsAlways(e)
      else forall child <- children :: IsolatesAlways(child, negated)
    case _ => true
  }

  /** The condition on a filter under which `add_rule` does not skip its rule. */
  predicate IsAcceptable(filter: Expr) {
    HasPlainNegations(filter, false) && IsolatesAlways(filter, false)
  }

  /** What stands behind all the negations of every leaf is no compound. */
  predicate LeavesArePlain(e: Expr) {
    match e
    case And(children) => forall child <- children :: LeavesArePlain(child)
    case Or(children) => forall child <- children :: LeavesArePlain(child)
    case _ => !Base(e).IsCompound()
  }

  function ResolveAs(e: Expr, negated: bool): Expr {
    if negated then ResolveNot(e) else Resolve(e)
  }

  lemma {:induction false} PlainAfterResolve(e: Expr, negated: bool)
    ensures LeavesArePlain(ResolveAs(e, negated)) <==> HasPlainNegations(e, negated)
  {
    if e.IsCompound() {
      var resolved := ResolveAs(e, negated).children;
      forall i | 0 <= i < |e.children|
        ensures LeavesArePlain(resolved[i]) <==> HasPlainNegations(e.children[i], negated)
      {
        PlainAfterResolve(e.children[i], negated);
      }
      assert forall i | 0 <= i < |resolved| :: resolved[i] in resolved && e.children[i] in e.children;
    } else if e.Not? && !negated {
      PlainAfterResolve(e.child, true);
    } else if e.Not? {
      assert ResolveAs(e, negated) == Not(e);
      assert Base(Not(e)) == Base(e) && Base(e) == Base(e.child);
    } else {
      assert Base(Not(e)) == e;
    }
  }

  lemma {:induction false} AlwaysAfterResolve(e: Expr, negated: bool)
    requires HasPlainNegations(e, negated)
    ensures HasAlways(ResolveAs(e, negated)) <==> MentionsAlways(e)
  {
    if e.IsCompound() {
      var resolved := ResolveAs(e, negated).children;
      forall i | 0 <= i < |e.children|
        ensures HasAlways(resolved[i]) <==> MentionsAlways(e.children[i])
      {
        assert e.children[i] in e.children;
        AlwaysAfterResolve(e.children[i], negated);
      }
      assert forall i | 0 <= i < |resolved| :: resolved[i] in resolved && e.children[i] in e.children;
    } else if e.Not? && !negated {
      AlwaysAfterResolve(e.child, true);
    } else if e.Not? {
      assert ResolveAs(e, negated) == Not(e);
      assert Base(Not(e)) == Base(e) && Base(e) == Base(e.child);
      MentionsInBase(e.child);
    } else {
      assert Base(Not(e)) == e;
    }
  }

  lemma {:induction false} MentionsInBase(e: Expr)
    requires !Base(e).IsCompound()
    ensures MentionsAlways(e) <==> Base(e).Always?
  {
    if e.Not? {
      MentionsInBase(e.child);
    }
  }

  lemma {:induction false} IsolatedAfterResolve(e: Expr, negated: bool)
    requires HasPlainNegations(e, negated)
    ensures AlwaysStandsAlone(ResolveAs(e, negated)) <==> IsolatesAlways(e, negated)
  {
    if e.IsCompound() {
      var resolved := ResolveAs(e, negated).children;
      AlwaysAfterResolve(e, negated);
      forall i | 0 <= i < |e.children|
        ensures AlwaysStandsAlone(resolved[i]) <==> IsolatesAlways(e.children[i], negated)
      {
        assert e.children[i] in e.children;
        IsolatedAfterResolve(e.children[i], negated);
      }
      assert forall i | 0 <= i < |resolved| :: resolved[i] in resolved && e.children[i] in e.children;
    } else if e.Not? && !negated {
      IsolatedAfterResolve(e.child, true);
    }
  }

  lemma {:induction false} LeavesGiveLiterals(e: Expr)
    ensures LeavesArePlain(e) <==> forall x | IsLeafOf(x, e) :: !Base(x).IsCompound()
    ensures LeavesArePlain(e) ==> LeavesAreSegmentable(e)
  {
    if e.IsCompound() {
      forall child <- e.children
        ensures LeavesArePlain(child) <==> forall x | IsLeafOf(x, child) :: !Base(x).IsCompound()
        ensures LeavesArePlain(child) ==> LeavesAreSegmentable(child)
      {
        LeavesGiveLiterals(child);
      }
      if LeavesArePlain(e) {
        forall x | IsLeafOf(x, e) ensures !Base(x).IsCompound() {
          var child :| child in e.children && IsLeafOf(x, child);
        }
      } else {
        var child :| child in e.children && !LeavesArePlain(child);
        var x :| IsLeafOf(x, child) && Base(x).IsCompound();
        assert IsLeafOf(x, e);
      }
    } else {
      assert IsLeafOf(e, e);
      if !Base(e).IsCompound() {
        NoDisjunctionInPlain(e);
      }
    }
  }

  lemma {:induction false} NoDisjunctionInPlain(e: Expr)
    requires !Base(e).IsCompound()
    ensures !HasDisjunction(e)
  {
    if e.Not? {
      NoDisjunctionInPlain(e.child);
    }
  }

  lemma {:induction false} LeafHasKeys(x: Expr, e: Expr)
    requires IsLeafOf(x, e) && HasKeys(e)
    ensures HasKeys(x)
  {
    if e.IsCompound() {
      var child :| child in e.children && IsLeafOf(x, child);
      LeafHasKeys(x, child);
    }
  }

  /**
   * A rule is skipped exactly if its filter puts a double negation before a compound, makes an
   * `Always` one of several conjuncts, or leads to a list in which a tag is met that cannot be split.
   * Tags of at most one colon can be.
   */
  lemma AcceptedFilters(filter: Expr, config: Config)
    requires HasChildren(filter) && HasKeys(filter)
    ensures Untagged(filter, config.priorities).Ok? <==> IsAcceptable(filter)
    ensures ParseFilter(filter, config).Ok?
       <==> IsAcceptable(filter) && MeetsNoBadTag(filter, config)
    ensures AreSafeTags(config.tags) ==> (ParseFilter(filter, config).Ok? <==> IsAcceptable(filter))
  {
    hide AreSafeTags, ParseFilter, IsAcceptable, HasKeys, HasChildren, MeetsNoBadTag;
    AcceptedWithoutTags(filter, config.priorities);
    TagsDecide(filter, config);
    if AreSafeTags(config.tags) {
      SafeTagsDoNotDecide(filter, config);
    }
  }

  /** Two different fields that must be there, in the order of their keys. */
  lemma TwoFields(e: Expr, f: Expr, priorities: map<string, string>)
    requires e.Exists? && f.Exists? && Repr(e) != Repr(f)
    ensures var first, second := KeyOf(e, priorities).value.value, KeyOf(f, priorities).value.value;
            Untagged(And([e, f]), priorities) == Ok([if TextLeq(first, second) then [e, f] else [f, e]])
  {
    hide Repr, TextLeq, SegmentIntoDnf, Resolve, SortRuleSegments, Guard;
    var es := if TextLeq(KeyOf(e, priorities).value.value, KeyOf(f, priorities).value.value) then [e, f] else [f, e];
    SegmentedFields(e, f);
    SortedFields(e, f, priorities);
    NothingToGuard(es[0], es[1]);
    assert GuardAll([es]) == [es];
  }

  lemma SegmentedFields(e: Expr, f: Expr)
    requires e.Exists? && f.Exists?
    ensures SegmentIntoDnf(Resolve(And([e, f]))) == Ok([[e, f]])
  {
    var filter, es := And([e, f]), [e, f];
    assert Resolve(filter).children == es;
    assert es[1..] == [f] && [f][1..] == [];
    assert Conjuncts(es) == [e] + Conjuncts([f]) == es;
    assert !HasDisjunction(filter) by { assert forall child <- es :: child.Exists?; }
  }

  lemma SortedFields(e: Expr, f: Expr, priorities: map<string, string>)
    requires e.Exists? && f.Exists? && Repr(e) != Repr(f)
    ensures var first, second := KeyOf(e, priorities).value.value, KeyOf(f, priorities).value.value;
            SortRuleSegments([[e, f]], priorities) == Ok([if TextLeq(first, second) then [e, f] else [f, e]])
  {
    hide Repr, TextLeq, KeyOf, AddKeys, StableSort, SortLists, Concat, SortRuleSegments;
    assert KeyOf(e, priorities).Ok? && KeyOf(e, priorities).value.Some? by { FieldHasKey(e, priorities); }
    assert KeyOf(f, priorities).Ok? && KeyOf(f, priorities).value.Some? by { FieldHasKey(f, priorities); }
    var es, dnf := [e, f], [[e, f]];
    var one := map[Repr(e) := KeyOf(e, priorities).value];
    var keys := one[Repr(f) := KeyOf(f, priorities).value];
    assert es == [e] + [f] && [f] == [f] + [];
    assert Concat(dnf) == es by { ConcatOne(es); }
    AddedKey(e, [f], priorities, map[]);
    AddedKey(f, [], priorities, one);
    assert AddKeys([], priorities, keys) == Ok(keys) by { AddedAll(priorities, keys); }
    SortTwo(e, f, keys);
    SortOneList(es, keys);
    SortedWith(es, priorities, keys);
  }

  lemma SortedWith(es: seq<Expr>, priorities: map<string, string>, keys: KeyTable)
    requires (forall e <- es :: Repr(e) in keys) && Concat([es]) == es && AddKeys(es, priorities, map[]) == Ok(keys)
    ensures SortRuleSegments([es], priorities) == SortLists([es], keys)
  {
    hide Repr, AddKeys, SortLists, Concat;
  }

  lemma AddedKey(e: Expr, es: seq<Expr>, priorities: map<string, string>, keys: KeyTable)
    requires Repr(e) !in keys && KeyOf(e, priorities).Ok?
    ensures AddKeys([e] + es, priorities, keys)
         == AddKeys(es, priorities, keys[Repr(e) := KeyOf(e, priorities).value])
  {
    hide Repr, KeyOf;
    assert ([e] + es)[1..] == es;
  }

  lemma AddedAll(priorities: map<string, string>, keys: KeyTable)
    ensures AddKeys([], priorities, keys) == Ok(keys)
  {
  }

  lemma ConcatOne(es: seq<Expr>)
    ensures Concat([es]) == es
  {
    assert [es][1..] == [] && es + [] == es;
  }

  lemma SortTwo(e: Expr, f: Expr, keys: KeyTable)
    ensures StableSort([e, f], keys) == if TextLeq(TextKey(e, keys), TextKey(f, keys)) then [e, f] else [f, e]
  {
    hide TextLeq, TextKey;
    assert [e, f][1..] == [f] && [f][1..] == [];
    assert StableSort([f], keys) == [f];
    assert Insert(e, [], keys) == [e];
  }

  lemma FieldHasKey(e: Expr, priorities: map<string, string>)
    requires e.Exists?
    ensures KeyOf(e, priorities).Ok? && KeyOf(e, priorities).value.Some?
  {
  }

  lemma SortOneList(es: seq<Expr>, keys: KeyTable)
    requires |es| == 2 && HasTextKeys(es, keys)
    ensures SortLists([es], keys) == Ok([StableSort(es, keys)])
  {
    hide StableSort, SortList;
    var dnf := [es];
    assert SortList(es, keys) == Ok(StableSort(es, keys)) by { SortedList(es, keys); }
    assert dnf[0] == es && dnf[1..] == [] && SortLists(dnf[1..], keys) == Ok([]);
    var sorted := StableSort(es, keys);
    assert [sorted] + [] == [sorted];
    assert SortLists(dnf, keys) == Ok([sorted] + []);
  }

  lemma SortedList(es: seq<Expr>, keys: KeyTable)
    requires |es| == 2 && HasTextKeys(es, keys)
    ensures SortList(es, keys) == Ok(StableSort(es, keys))
  {
  }

  lemma NothingToGuard(e: Expr, f: Expr)
    requires e.Exists? && f.Exists?
    ensures Guard([], [e, f]) == [e, f]
  {
    var es := [e, f];
    assert es[1..] == [f] && [f][1..] == [] && [] + [e] == [e] && [e] + [f] == es;
    assert [] + es == es;
    assert Guard([], es) == Guard([e], [f]) == Guard(es, []);
  }

  /** A tag with two colons that the first expression says, unless a priority puts another one first. */
  lemma PrioritiesCanDecide()
    ensures var filter := And([Exists(["a:b:c", "d"]), Exists(["z"])]);
            var tags := map["a:b:c" := "a:b:c.d"];
            && ParseFilter(filter, Config(map[], tags)).Ok?
            && ParseFilter(filter, Config(map["z" := "0"], tags)).Err?
  {
    var e, f := Exists(["a:b:c", "d"]), Exists(["z"]);
    var filter, tags := And([e, f]), map["a:b:c" := "a:b:c.d"];
    OrderOfFields();
    FirstSaysTag();
    hide IsRefused, Untagged, ParseFilter, IsAcceptable, HasChildren, HasKeys;
    AcceptedFields();
    AcceptedFilters(filter, Config(map[], tags));
    AcceptedFilters(filter, Config(map["z" := "0"], tags));
    assert [f, e] in [[f, e]];
  }

  lemma AcceptedFields()
    ensures var filter := And([Exists(["a:b:c", "d"]), Exists(["z"])]);
            HasChildren(filter) && HasKeys(filter) && IsAcceptable(filter)
  {
  }

  lemma OrderOfFields()
    ensures var e, f := Exists(["a:b:c", "d"]), Exists(["z"]);
            && Untagged(And([e, f]), map[]) == Ok([[e, f]])
            && Untagged(And([e, f]), map["z" := "0"]) == Ok([[f, e]])
  {
    hide Untagged, Repr, DottedFields.ToDotted;
    var e, f := Exists(["a:b:c", "d"]), Exists(["z"]);
    PrintedFields();
    TwoFields(e, f, map[]);
    TwoFields(e, f, map["z" := "0"]);
  }

  lemma FirstSaysTag()
    ensures var e, f, tags := Exists(["a:b:c", "d"]), Exists(["z"]), map["a:b:c" := "a:b:c.d"];
            !IsRefused([e, f], [e, f], tags) && IsRefused([f, e], [f, e], tags)
  {
    hide StripEnd, Repr, CountColons;
    var e, f, tags := Exists(["a:b:c", "d"]), Exists(["z"]), map["a:b:c" := "a:b:c.d"];
    PrintedFields();
    StrippedFields();
    var es := [f, e];
    assert IsNewTag(es[1], es, tags) && IsBadTag(es[1], es, tags);
    assert IsRefused(es, es, tags);
  }

  lemma PrintedFields()
    ensures DottedFields.ToDotted(["a:b:c", "d"]) == "a:b:c.d" && DottedFields.ToDotted(["z"]) == "z"
    ensures Repr(Exists(["a:b:c", "d"])) == "a:b:c.d: *" && Repr(Exists(["z"])) == "z: *"
  {
    var key := ["a:b:c", "d"];
    assert key[1..] == ["d"];
    assert DottedFields.EscapeDots("a:b:c") == "a:b:c" by { assert DottedFields.EscapeDots("b:c") == "b:c"; }
  }

  lemma StrippedFields()
    ensures StripEnd("a:b:c.d: *") == "a:b:c.d" && CountColons("a:b:c.d") == 2 && StripEnd("z: *") == "z"
  {
    assert "a:b:c.d" + ": *" == "a:b:c.d: *" && "z" + ": *" == "z: *";
    StrippedField("a:b:c.d");
    StrippedField("z");
    ColonsAdd("a:b:", "c.d");
  }

  lemma AcceptedWithoutTags(filter: Expr, priorities: map<string, string>)
    requires HasChildren(filter) && HasKeys(filter)
    ensures ParseFilter(filter, Config(priorities, map[])).Ok? <==> IsAcceptable(filter)
  {
    var resolved := Resolve(filter);
    ResolveResolves(filter);
    SegmentIntoDnfSucceeds(resolved);
    PlainAfterResolve(filter, false);
    LeavesGiveLiterals(resolved);
    if SegmentIntoDnf(resolved).Ok? {
      var dnf := SegmentIntoDnf(resolved).value;
      forall x ensures Occurs(x, dnf) <==> IsLeafOf(x, resolved) {
        SegmentIntoDnfLiterals(x, resolved);
      }
      SegmentsHaveKeys(filter);
      SortingSucceeds(dnf, priorities);
      SegmentIntoDnfMixes(resolved);
      if HasPlainNegations(filter, false) {
        IsolatedAfterResolve(filter, false);
      }
      LiteralsArePlain(dnf, resolved);
    }
  }

  lemma LiteralsArePlain(dnf: seq<seq<Expr>>, e: Expr)
    requires forall x :: Occurs(x, dnf) <==> IsLeafOf(x, e)
    ensures (forall es <- dnf, x <- es :: !Base(x).IsCompound()) <==> LeavesArePlain(e)
  {
    LeavesGiveLiterals(e);
    assert forall es <- dnf, x <- es :: Occurs(x, dnf);
  }

  /** No compound, nor a negated one. */
  predicate IsLiteral(e: Expr) {
    !e.IsCompound() && (e.Not? ==> !e.child.IsCompound())
  }

  /** All that is in a parsed rule are literals, guards and tags among them. */
  lemma ParsedLiterals(filter: Expr, config: Config, es: seq<Expr>, x: Expr)
    requires HasChildren(filter) && ParseFilter(filter, config).Ok?
    requires es in ParseFilter(filter, config).value && x in es
    ensures IsLiteral(x)
  {
    hide HasChildren, SegmentIntoDnf, SortRuleSegments, TagAll, Resolve, IsLiteral;
    var dnf := SegmentIntoDnf(Resolve(filter)).value;
    var sorted := SortRuleSegments(dnf, config.priorities).value;
    SortingPermutes(dnf, config.priorities);
    SegmentedLiterals(filter);
    forall list <- GuardAll(sorted), e <- list ensures IsLiteral(e) {
      var i :| 0 <= i < |sorted| && list == GuardAll(sorted)[i];
      GuardedElements(dnf, sorted, i);
      assert dnf[i] in dnf;
      assert e !in dnf[i] ==> IsLiteral(e) by { LeavesAreLiterals(); }
    }
    if config.tags != map[] {
      TagAllLiterals(GuardAll(sorted), config.tags);
    }
  }

  lemma LeavesAreLiterals()
    ensures forall e: Expr | e.Exists? || e.StringIs? :: IsLiteral(e)
  {
  }

  lemma SegmentedLiterals(filter: Expr)
    requires HasChildren(filter) && SegmentIntoDnf(Resolve(filter)).Ok?
    ensures forall es <- SegmentIntoDnf(Resolve(filter)).value, x <- es :: IsLiteral(x)
  {
    hide HasChildren, SegmentIntoDnf, Resolve;
    ResolveResolves(filter);
    forall es <- SegmentIntoDnf(Resolve(filter)).value, x <- es ensures IsLiteral(x) {
      SegmentIntoDnfLiterals(x, Resolve(filter));
      assert Occurs(x, SegmentIntoDnf(Resolve(filter)).value);
      ResolvedLeaf(x, Resolve(filter));
    }
  }

  lemma {:induction false} TagAllLiterals(dnf: seq<seq<Expr>>, tags: map<string, string>)
    requires TagAll(dnf, tags).Ok? && forall es <- dnf, e <- es :: IsLiteral(e)
    ensures forall es <- TagAll(dnf, tags).value, e <- es :: IsLiteral(e)
  {
    hide AddTags, IsLiteral;
    if dnf != [] {
      assert dnf[0] in dnf && forall es <- dnf[1..] :: es in dnf;
      LeavesAreLiterals();
      TagsAreLiterals(dnf[0], dnf[0], tags);
      TagAllLiterals(dnf[1..], tags);
    }
  }

  lemma {:induction false} ResolvedLeaf(x: Expr, e: Expr)
    requires IsLeafOf(x, e) && IsResolved(e)
    ensures !x.IsCompound() && IsResolved(x)
  {
    if e.IsCompound() {
      var child :| child in e.children && IsLeafOf(x, child);
      ResolvedLeaf(x, child);
    }
  }
}
