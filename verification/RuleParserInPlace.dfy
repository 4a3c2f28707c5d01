/** The passes of the rule parser as they are run, over lists that they edit in place, one after the other. */
module RuleParserInPlace {
  import opened Common
  import opened FilterExpressions
  import opened DeMorgan
  import opened Segmenter
  import opened SegmenterProofs
  import opened SegmenterInPlace
  import opened Sorter
  import opened Tagger
  import opened RuleParser
  import opened MutableLists

  // ------------------------------------------------------------------ segmenting

  /** What the recursion returns: an expression, a tuple of them, or a list of list objects. */
  datatype Built = One(e: Expr) | Tuple(es: seq<Expr>) | Lists(lists: seq<MutableList<Segment>>)

  function ListsOf(built: Built): seq<MutableList<Segment>> {
    if built.Lists? then built.lists else []
  }

  /** The result stands for the segment. */
  ghost predicate IsBuilt(built: Built, segment: Segment)
    reads set list | list in ListsOf(built)
  {
    match segment
    case Single(e) => built == One(e)
    case Group(es) => built == Tuple(es)
    case Choice(dnf) => built.Lists? && Hold(built.lists, dnf)
  }

  ghost predicate AreBuilt(all: seq<Built>, segments: seq<Segment>)
    reads set built, list | built in all && list in ListsOf(built) :: list
  {
    |all| == |segments| && forall i | 0 <= i < |all| :: IsBuilt(all[i], segments[i])
  }

  /** No list object occurs twice, be it in one result or in two. */
  ghost predicate AllDistinct(all: seq<Built>) {
    && (forall i | 0 <= i < |all| :: AreDistinct(ListsOf(all[i])))
    && forall i, j | 0 <= i < j < |all| :: forall list <- ListsOf(all[i]) :: list !in ListsOf(all[j])
  }

  method ExpressionsOf(list: MutableList<Segment>, ghost es: seq<Expr>) returns (expressions: seq<Expr>)
    requires list.items == Singles(es)
    ensures expressions == es
  {
    NoChoices(list.items);
    expressions := Literals(list.items);
    assert forall i | 0 <= i < |es| :: Singles(es)[i] == Singles(expressions)[i];
  }

  /** The segments themselves, in which lists of lists are values. */
  method ValuesOf(all: seq<Built>, ghost segments: seq<Segment>) returns (values: seq<Segment>)
    requires AreBuilt(all, segments)
    ensures values == segments
  {
    values := [];
    for i := 0 to |all|
      invariant values == segments[..i]
    {
      assert IsBuilt(all[i], segments[i]);
      match all[i] {
        case One(e) => values := values + [Single(e)];
        case Tuple(es) => values := values + [Group(es)];
        case Lists(lists) =>
          var dnf: seq<seq<Expr>> := [];
          for j := 0 to |lists|
            invariant dnf == segments[i].dnf[..j]
          {
            var es := ExpressionsOf(lists[j], segments[i].dnf[j]);
            dnf := dnf + [es];
          }
          assert dnf == segments[i].dnf;
          values := values + [Choice(dnf)];
      }
    }
  }

  /** `_convert_expression_to_list`, and what is appended of its result. */
  method ListsToAppend(built: Built, ghost segment: Segment) returns (lists: seq<MutableList<Segment>>)
    requires IsBuilt(built, segment) && AreDistinct(ListsOf(built))
    ensures Hold(lists, AlternativesOf(segment)) && AreDistinct(lists)
    ensures forall list <- lists :: list in ListsOf(built) || fresh(list)
  {
    match built
    case One(e) =>
      var list := new MutableList([Single(e)]);
      assert Singles([e]) == [Single(e)];
      return [list];
    case Tuple(es) =>
      if es == [] {
        return [];
      }
      var list := new MutableList(Singles(es));
      return [list];
    case Lists(all) => return all;
  }

  /** `_segment_disjunctive_expression`, once the children are segmented. */
  method ResultList(all: seq<Built>, ghost segments: seq<Segment>) returns (lists: seq<MutableList<Segment>>)
    requires AreBuilt(all, segments) && AllDistinct(all)
    ensures Hold(lists, Alternatives(segments)) && AreDistinct(lists)
    ensures forall list <- lists :: fresh(list) || exists i :: 0 <= i < |all| && list in ListsOf(all[i])
  {
    hide AlternativesOf, Hold, AreDistinct, IsBuilt, Alternatives;
    lists := [];
    ghost var dnf: seq<seq<Expr>> := [];
    NoLists();
    assert segments[0..] == segments && [] + Alternatives(segments) == Alternatives(segments);
    for i := 0 to |all|
      invariant Hold(lists, dnf) && AreDistinct(lists)
      invariant dnf + Alternatives(segments[i..]) == Alternatives(segments)
      invariant forall list <- lists :: fresh(list) || exists j :: 0 <= j < i && list in ListsOf(all[j])
    {
      UnfoldAlternatives(segments, i);
      var more := ListsToAppend(all[i], segments[i]);
      forall list <- more ensures list !in lists {
        assert list in ListsOf(all[i]) ==> forall j | 0 <= j < i :: list !in ListsOf(all[j]);
      }
      AppendDistinct(lists, more);
      HoldBoth(lists, more, dnf, AlternativesOf(segments[i]));
      assert dnf + (AlternativesOf(segments[i]) + Alternatives(segments[i + 1..]))
          == dnf + AlternativesOf(segments[i]) + Alternatives(segments[i + 1..]);
      lists, dnf := lists + more, dnf + AlternativesOf(segments[i]);
    }
    assert segments[|all|..] == [] && dnf + [] == dnf;
  }

  lemma UnfoldAlternatives(segments: seq<Segment>, i: nat)
    requires i < |segments|
    ensures Alternatives(segments[i..]) == AlternativesOf(segments[i]) + Alternatives(segments[i + 1..])
  {
    assert segments[i..][1..] == segments[i + 1..];
  }

  lemma NoLists()
    ensures Hold([], []) && AreDistinct<Segment>([]) && Alternatives([]) == []
  {
  }

  lemma AppendDistinct<T>(a: seq<MutableList<T>>, b: seq<MutableList<T>>)
    requires AreDistinct(a) && AreDistinct(b) && forall list <- b :: list !in a
    ensures AreDistinct(a + b)
  {
    forall i, j | 0 <= i < j < |a + b| ensures (a + b)[i] != (a + b)[j] {
      if i < |a| <= j {
        assert a[i] in a && b[j - |a|] in b;
      }
    }
  }

  /** `_segment_expression`: all lists that it returns are new and different objects. */
  method Segmented(e: Expr) returns (result: Result<Built, SegmenterError>)
    requires HasChildren(e)
    ensures match SegmentExpression(e)
            case Err(error) => result == Err(error)
            case Ok(segment) => result.Ok? && IsBuilt(result.value, segment)
    ensures result.Ok? ==> AreDistinct(ListsOf(result.value)) && forall list <- ListsOf(result.value) :: fresh(list)
    decreases e, 1
  {
    hide IsBuilt, AreBuilt, Convert, Flatten, Alternatives;
    if !HasDisjunction(e) {
      result := Ok(if e.And? then Tuple(Conjuncts(e.children)) else One(e));
      assert IsBuilt(result.value, SegmentExpression(e).value) by { LeafIsBuilt(e); }
      return;
    }
    if !e.IsCompound() {
      return Err(CouldNotSegment(e));
    }
    var all := SegmentedAll(e.children);
    if all.Err? {
      return Err(all.error);
    }
    ghost var segments := SegmentAll(e.children).value;
    var lists: seq<MutableList<Segment>>;
    if e.Or? {
      lists := ResultList(all.value, segments);
      ListsAreBuilt(lists, Alternatives(segments));
    } else {
      var values := ValuesOf(all.value, segments);
      NoTupleIsEmpty(e.children);
      var list := new MutableList(values);
      FlattenTuples(list);
      lists := ConvertCnfToDnf(list);
      FlattenIsFlat([], segments);
      ListsAreBuilt(lists, Convert(Flatten([], segments)));
    }
    return Ok(Lists(lists));
  }

  lemma LeafIsBuilt(e: Expr)
    requires !HasDisjunction(e)
    ensures IsBuilt(if e.And? then Tuple(Conjuncts(e.children)) else One(e), SegmentExpression(e).value)
  {
  }

  lemma ListsAreBuilt(lists: seq<MutableList<Segment>>, dnf: seq<seq<Expr>>)
    requires Hold(lists, dnf)
    ensures IsBuilt(Lists(lists), Choice(dnf))
  {
  }

  lemma {:induction false} NoTupleIsEmpty(es: seq<Expr>)
    requires (forall e <- es :: HasChildren(e)) && SegmentAll(es).Ok?
    ensures NoEmptyTuple(SegmentAll(es).value)
  {
    if es != [] {
      assert forall e <- es[1..] :: e in es;
      NoTupleIsEmpty(es[1..]);
      assert HasChildren(es[0]) by { assert es[0] in es; }
      if es[0].And? {
        ConjunctsNotEmpty(es[0].children);
      }
    }
  }

  method SegmentedAll(es: seq<Expr>) returns (result: Result<seq<Built>, SegmenterError>)
    requires forall e <- es :: HasChildren(e)
    ensures match SegmentAll(es)
            case Err(error) => result == Err(error)
            case Ok(segments) => result.Ok? && AreBuilt(result.value, segments)
    ensures result.Ok? ==>
              AllDistinct(result.value) && forall built <- result.value, list <- ListsOf(built) :: fresh(list)
    decreases es, 0
  {
    hide IsBuilt, AreBuilt, AllDistinct, AreDistinct, SegmentExpression;
    if es == [] {
      NothingBuilt();
      return Ok([]);
    }
    var first := Segmented(es[0]);
    if first.Err? {
      return Err(first.error);
    }
    var others := SegmentedAll(es[1..]);
    if others.Err? {
      return Err(others.error);
    }
    OneMoreBuilt(first.value, others.value, SegmentExpression(es[0]).value, SegmentAll(es[1..]).value);
    return Ok([first.value] + others.value);
  }

  lemma NothingBuilt()
    ensures AreBuilt([], []) && AllDistinct([])
  {
  }

  lemma OneMoreBuilt(first: Built, others: seq<Built>, segment: Segment, segments: seq<Segment>)
    requires IsBuilt(first, segment) && AreBuilt(others, segments)
    requires AreDistinct(ListsOf(first)) && AllDistinct(others)
    requires forall built <- others, list <- ListsOf(built) :: list !in ListsOf(first)
    ensures AreBuilt([first] + others, [segment] + segments) && AllDistinct([first] + others)
  {
    hide IsBuilt, AreDistinct;
    forall j | 0 <= j < |others| ensures forall list <- ListsOf(first) :: list !in ListsOf(others[j]) {
      assert others[j] in others;
    }
  }

  /** `segment_into_dnf`. */
  method SegmentedIntoDnf(e: Expr) returns (result: Result<seq<MutableList<Segment>>, SegmenterError>)
    requires HasChildren(e)
    ensures match SegmentIntoDnf(e)
            case Err(error) => result == Err(error)
            case Ok(dnf) => result.Ok? && Hold(result.value, dnf)
    ensures result.Ok? ==> AreDistinct(result.value) && forall list <- result.value :: fresh(list)
  {
    hide SegmentExpression, Conjuncts;
    if HasDisjunction(e) {
      var built := Segmented(e);
      if built.Err? {
        return Err(built.error);
      }
      return Ok(built.value.lists);
    }
    var list := new MutableList(if e.And? then Singles(Conjuncts(e.children)) else Singles([e]));
    return Ok([list]);
  }

  // --------------------------------------------------------------------- sorting

  lemma {:induction false} AddKeysConcat(a: seq<Expr>, b: seq<Expr>, p: map<string, string>, keys: KeyTable)
    ensures AddKeys(a + b, p, keys) ==
            (match AddKeys(a, p, keys)
             case Ok(next) => AddKeys(b, p, next)
             case Err(error) => Err(error))
  {
    if a == [] {
      assert a + b == b;
    } else {
      assert (a + b)[1..] == a[1..] + b;
      if Repr(a[0]) in keys {
        AddKeysConcat(a[1..], b, p, keys);
      } else if KeyOf(a[0], p).Ok? {
        AddKeysConcat(a[1..], b, p, keys[Repr(a[0]) := KeyOf(a[0], p).value]);
      }
    }
  }

  /** The first loop of `sort_rule_segments`, over one of the lists. */
  method CollectKeys(es: seq<Expr>, priorities: map<string, string>, start: KeyTable)
    returns (result: Result<KeyTable, SorterError>)
    ensures result == AddKeys(es, priorities, start)
  {
    var keys := start;
    for i := 0 to |es|
      invariant AddKeys(es[i..], priorities, keys) == AddKeys(es, priorities, start)
    {
      assert es[i..][0] == es[i] && es[i..][1..] == es[i + 1..];
      if Repr(es[i]) !in keys {
        var key := KeyOf(es[i], priorities);
        if key.Err? {
          return Err(key.error);
        }
        keys := keys[Repr(es[i]) := key.value];
      }
    }
    return Ok(keys);
  }

  method CollectAllKeys(lists: seq<MutableList<Segment>>, priorities: map<string, string>, ghost dnf: seq<seq<Expr>>)
    returns (result: Result<KeyTable, SorterError>)
    requires Hold(lists, dnf)
    ensures result == AddKeys(Concat(dnf), priorities, map[])
  {
    hide AddKeys, Singles;
    var keys: KeyTable := map[];
    assert dnf[0..] == dnf;
    for i := 0 to |lists|
      invariant AddKeys(Concat(dnf[i..]), priorities, keys) == AddKeys(Concat(dnf), priorities, map[])
    {
      assert dnf[i..][1..] == dnf[i + 1..];
      AddKeysConcat(dnf[i], Concat(dnf[i + 1..]), priorities, keys);
      var es := ExpressionsOf(lists[i], dnf[i]);
      var next := CollectKeys(es, priorities, keys);
      if next.Err? {
        return next;
      }
      keys := next.value;
    }
    assert dnf[|lists|..] == [];
    NoKeysToAdd(priorities, keys);
    return Ok(keys);
  }

  lemma NoKeysToAdd(priorities: map<string, string>, keys: KeyTable)
    ensures AddKeys(Concat([]), priorities, keys) == Ok(keys)
  {
  }

  lemma {:induction false} SortListsAt(dnf: seq<seq<Expr>>, keys: KeyTable, n: nat)
    requires (forall es <- dnf, e <- es :: Repr(e) in keys) && n < |dnf|
    requires forall j | 0 <= j < n :: SortList(dnf[j], keys).Ok?
    ensures SortList(dnf[n], keys).Err? ==> SortLists(dnf, keys) == Err(SortList(dnf[n], keys).error)
  {
    if n > 0 {
      SortListsAt(dnf[1..], keys, n - 1);
    }
  }

  lemma {:induction false} SortListsAll(dnf: seq<seq<Expr>>, keys: KeyTable)
    requires forall es <- dnf, e <- es :: Repr(e) in keys
    requires forall j | 0 <= j < |dnf| :: SortList(dnf[j], keys).Ok?
    ensures SortLists(dnf, keys).Ok? && |SortLists(dnf, keys).value| == |dnf|
    ensures forall j | 0 <= j < |dnf| :: SortLists(dnf, keys).value[j] == SortList(dnf[j], keys).value
  {
    if dnf != [] {
      SortListsAll(dnf[1..], keys);
    }
  }

  /** `sort_rule_segments`: on failure some of the lists may be sorted already. */
  method SortInPlace(lists: seq<MutableList<Segment>>, priorities: map<string, string>, ghost dnf: seq<seq<Expr>>)
    returns (result: Result<(), SorterError>)
    requires AreDistinct(lists) && Hold(lists, dnf)
    modifies lists
    ensures match SortRuleSegments(dnf, priorities)
            case Ok(sorted) => result == Ok(()) && Hold(lists, sorted)
            case Err(error) => result == Err(error)
  {
    hide AddKeys, Singles, SortList;
    var collected := CollectAllKeys(lists, priorities, dnf);
    if collected.Err? {
      return Err(collected.error);
    }
    var keys := collected.value;
    AddKeysAddsAll(Concat(dnf), priorities, map[]);
    InConcat(dnf);
    for i := 0 to |lists|
      invariant forall j | i <= j < |lists| :: lists[j].items == Singles(dnf[j])
      invariant forall j | 0 <= j < i :: SortList(dnf[j], keys).Ok?
      invariant forall j | 0 <= j < i :: lists[j].items == Singles(SortList(dnf[j], keys).value)
    {
      var es := ExpressionsOf(lists[i], dnf[i]);
      var sorted := SortList(es, keys);
      if sorted.Err? {
        SortListsAt(dnf, keys, i);
        return Err(sorted.error);
      }
      lists[i].items := Singles(sorted.value);
    }
    SortListsAll(dnf, keys);
    return Ok(());
  }

  // ------------------------------------------------------------- guards and tags

  lemma UnfoldGuard(done: seq<Expr>, todo: seq<Expr>)
    ensures Guard(done, todo)
         == if todo == [] then done
            else if NeedsNoGuard(todo[0]) || Exists(todo[0].key) in done + todo then
              Guard(done + [todo[0]], todo[1..])
            else Guard(done + [Exists(todo[0].key), todo[0]], todo[1..])
  {
  }

  lemma SinglesIn(es: seq<Expr>)
    ensures forall e :: Single(e) in Singles(es) <==> e in es
  {
    forall e | e in es ensures Single(e) in Singles(es) {
      var i :| 0 <= i < |es| && es[i] == e;
      assert Singles(es)[i] == Single(e);
    }
  }

  /** `_add_exists_filter` on one list: a running offset accounts for the guards inserted so far. */
  method GuardList(list: MutableList<Segment>, ghost es: seq<Expr>)
    requires list.items == Singles(es)
    modifies list
    ensures list.items == Singles(Guard([], es))
  {
    hide Guard, Singles, NeedsNoGuard;
    var copy := ExpressionsOf(list, es);
    var added := 0;
    ghost var done: seq<Expr> := [];
    assert [] + copy == copy && copy[0..] == copy;
    for i := 0 to |copy|
      invariant |done| == i + added && list.items == Singles(done + copy[i..])
      invariant Guard(done, copy[i..]) == Guard([], copy)
    {
      var segment := copy[i];
      UnfoldGuard(done, copy[i..]);
      SinglesIn(done + copy[i..]);
      GuardNext(done, copy, i);
      var isGuarded := IsGuarded(list, segment);
      if isGuarded {
        done := done + [segment];
      } else {
        var at := i + added;
        list.items := list.items[..at] + [Single(Exists(segment.key))] + list.items[at..];
        added := added + 1;
        done := done + [Exists(segment.key), segment];
      }
    }
    UnfoldGuard(done, copy[|copy|..]);
    assert done + copy[|copy|..] == done;
  }

  /** The two reasons for which the loop leaves a segment alone. */
  method IsGuarded(list: MutableList<Segment>, segment: Expr) returns (guarded: bool)
    ensures guarded == (NeedsNoGuard(segment) || Single(Exists(segment.key)) in list.items)
    ensures !guarded ==> segment.IsKeyBased()
  {
    return NeedsNoGuard(segment) || Single(Exists(segment.key)) in list.items;
  }

  /** What the two branches of the loop leave in the list. */
  lemma GuardNext(done: seq<Expr>, copy: seq<Expr>, i: nat)
    requires i < |copy|
    ensures copy[i..][0] == copy[i] && copy[i..][1..] == copy[i + 1..]
    ensures done + copy[i..] == done + [copy[i]] + copy[i + 1..]
    ensures forall guard: Expr ::
              Singles(done + copy[i..])[..|done|] + [Single(guard)] + Singles(done + copy[i..])[|done|..]
              == Singles(done + [guard, copy[i]] + copy[i + 1..])
  {
    forall guard: Expr
      ensures Singles(done + copy[i..])[..|done|] + [Single(guard)] + Singles(done + copy[i..])[|done|..]
           == Singles(done + [guard, copy[i]] + copy[i + 1..])
    {
      var all := done + [guard, copy[i]] + copy[i + 1..];
      assert forall k | 0 <= k < |all| ::
          all[k] == if k < |done| then done[k] else if k == |done| then guard else copy[i..][k - |done| - 1];
    }
  }

  method GuardInPlace(lists: seq<MutableList<Segment>>, ghost dnf: seq<seq<Expr>>)
    requires AreDistinct(lists) && Hold(lists, dnf)
    modifies lists
    ensures Hold(lists, GuardAll(dnf))
  {
    hide Guard, Singles;
    for i := 0 to |lists|
      invariant forall j | i <= j < |lists| :: lists[j].items == Singles(dnf[j])
      invariant forall j | 0 <= j < i :: lists[j].items == Singles(Guard([], dnf[j]))
    {
      GuardList(lists[i], dnf[i]);
    }
  }

  /** `_add_tags_to_rule_expressions` on one list. */
  method TagList(list: MutableList<Segment>, tags: map<string, string>, ghost es: seq<Expr>)
    returns (result: Result<(), TaggerError>)
    requires list.items == Singles(es)
    modifies list
    ensures match AddTags(es, es, tags)
            case Ok(tagged) => result == Ok(()) && list.items == Singles(tagged)
            case Err(error) => result == Err(error)
  {
    var copy := ExpressionsOf(list, es);
    ghost var now := copy;
    for i := 0 to |copy|
      invariant list.items == Singles(now) && (copy != [] ==> now != [])
      invariant AddTags(copy[i..], now, tags) == AddTags(copy, copy, tags)
    {
      var source := TagSource(copy[i]);
      assert copy[i..][0] == copy[i] && copy[i..][1..] == copy[i + 1..];
      if source.IsKeyBased() {
        if source.key == [] {
          return Err(TaggerError.EmptyKey);
        }
        SinglesIn(now);
        if source.key[0] in tags && Single(Exists([tags[source.key[0]]])) !in list.items {
          var items := ExpressionsOf(list, now);
          var tagged := AddTag(items, tags[source.key[0]]);
          if tagged.Err? {
            return Err(tagged.error);
          }
          list.items, now := Singles(tagged.value), tagged.value;
        }
      }
    }
    return Ok(());
  }

  lemma {:induction false} TagAllAt(dnf: seq<seq<Expr>>, tags: map<string, string>, n: nat)
    requires n < |dnf| && forall j | 0 <= j < n :: AddTags(dnf[j], dnf[j], tags).Ok?
    ensures AddTags(dnf[n], dnf[n], tags).Err? ==>
              TagAll(dnf, tags) == Err(AddTags(dnf[n], dnf[n], tags).error)
  {
    if n > 0 {
      TagAllAt(dnf[1..], tags, n - 1);
    }
  }

  lemma {:induction false} TagAllAll(dnf: seq<seq<Expr>>, tags: map<string, string>)
    requires forall j | 0 <= j < |dnf| :: AddTags(dnf[j], dnf[j], tags).Ok?
    ensures TagAll(dnf, tags).Ok? && |TagAll(dnf, tags).value| == |dnf|
    ensures forall j | 0 <= j < |dnf| :: TagAll(dnf, tags).value[j] == AddTags(dnf[j], dnf[j], tags).value
  {
    if dnf != [] {
      TagAllAll(dnf[1..], tags);
    }
  }

  method TagInPlace(lists: seq<MutableList<Segment>>, tags: map<string, string>, ghost dnf: seq<seq<Expr>>)
    returns (result: Result<(), TaggerError>)
    requires AreDistinct(lists) && Hold(lists, dnf)
    modifies lists
    ensures match TagAll(dnf, tags)
            case Ok(tagged) => result == Ok(()) && Hold(lists, tagged)
            case Err(error) => result == Err(error)
  {
    hide AddTags, Singles;
    for i := 0 to |lists|
      invariant forall j | i <= j < |lists| :: lists[j].items == Singles(dnf[j])
      invariant forall j | 0 <= j < i :: AddTags(dnf[j], dnf[j], tags).Ok?
      invariant forall j | 0 <= j < i :: lists[j].items == Singles(AddTags(dnf[j], dnf[j], tags).value)
    {
      var tagged := TagList(lists[i], tags, dnf[i]);
      if tagged.Err? {
        TagAllAt(dnf, tags, i);
        return tagged;
      }
    }
    TagAllAll(dnf, tags);
    return Ok(());
  }

  // --------------------------------------------------------------------- parsing

  /** `parse_rule`: the lists of the result are the ones that segmenting made, all new and different. */
  method ParseRule(filter: Expr, config: Config) returns (result: Result<seq<MutableList<Segment>>, ParseError>)
    requires HasChildren(filter)
    ensures match ParseFilter(filter, config)
            case Ok(dnf) => result.Ok? && Hold(result.value, dnf)
            case Err(error) => result == Err(error)
    ensures result.Ok? ==> AreDistinct(result.value) && forall list <- result.value :: fresh(list)
  {
    hide SegmentIntoDnf, SortRuleSegments, GuardAll, TagAll, Hold, Resolve, HasChildren;
    ResolveResolves(filter);
    var resolved := Resolve(filter);
    var lists := SegmentedIntoDnf(resolved);
    if lists.Err? {
      return Err(NotSegmented(lists.error));
    }
    forall i | 0 <= i < |lists.value| ensures fresh(lists.value[i]) {
      assert lists.value[i] in lists.value;
    }
    ghost var dnf := SegmentIntoDnf(resolved).value;
    var sorted := SortInPlace(lists.value, config.priorities, dnf);
    if sorted.Err? {
      return Err(NotSorted(sorted.error));
    }
    dnf := SortRuleSegments(dnf, config.priorities).value;
    GuardInPlace(lists.value, dnf);
    dnf := GuardAll(dnf);
    if config.tags != map[] {
      var tagged := TagInPlace(lists.value, config.tags, dnf);
      if tagged.Err? {
        return Err(NotTagged(tagged.error));
      }
    }
    return Ok(lists.value);
  }
}
