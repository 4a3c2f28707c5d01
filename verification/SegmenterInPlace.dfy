/** The list edits of the segmenter and its converter, against the functions that say what they amount to. */
module SegmenterInPlace {
  import opened FilterExpressions
  import opened Segmenter
  import opened MutableLists

  lemma ReversedSnoc(segments: seq<Segment>, segment: Segment)
    ensures Reversed(segments + [segment]) == [segment] + Reversed(segments)
  {
    if segments != [] {
      assert (segments + [segment])[1..] == segments[1..] + [segment];
      ReversedSnoc(segments[1..], segment);
    } else {
      assert segments + [segment] == [segment];
    }
  }

  lemma NoneReversed(rest: seq<Segment>)
    ensures Reversed(Singles([])) + rest == rest
  {
  }

  lemma OneMoreReversed(es: seq<Expr>, j: nat, rest: seq<Segment>)
    requires j < |es|
    ensures Reversed(Singles(es[..j + 1])) + rest == [Single(es[j])] + (Reversed(Singles(es[..j])) + rest)
  {
    assert Singles(es[..j + 1]) == Singles(es[..j]) + [Single(es[j])];
    ReversedSnoc(Singles(es[..j]), Single(es[j]));
  }

  /** Removes a tuple and inserts its elements, one by one, in front of everything. */
  method ReplaceTuple(expressions: MutableList<Segment>, expression: Segment)
    requires expression.Group? && expression in expressions.items
    modifies expressions
    ensures expressions.items
         == Reversed(Singles(expression.es)) + RemoveFirst(old(expressions.items), expression)
  {
    hide Reversed, Singles, RemoveFirst;
    expressions.Remove(expression);
    ghost var rest := expressions.items;
    NoneReversed(rest);
    assert expression.es[..0] == [];
    for j := 0 to |expression.es|
      invariant expressions.items == Reversed(Singles(expression.es[..j])) + rest
    {
      OneMoreReversed(expression.es, j, rest);
      expressions.PushFront(Single(expression.es[j]));
    }
    assert expression.es[..|expression.es|] == expression.es;
  }

  ghost predicate NoEmptyTuple(segments: seq<Segment>) {
    forall segment <- segments :: segment != Group([])
  }

  /**
   * `_flatten_tuples_in_list`: removes tuples from the list it iterates over and inserts their
   * elements in front. The iterator is a position, and since no tuple is empty the insertions move
   * the unread items at least as far as it does: none is skipped.
   */
  method FlattenTuples(expressions: MutableList<Segment>)
    requires NoEmptyTuple(expressions.items)
    modifies expressions
    ensures expressions.items == Flatten([], old(expressions.items))
    ensures IsFlat(expressions.items)
  {
    hide Flatten, Reversed, Singles, IsFlat, NoEmptyTuple;
    NothingDone(expressions.items);
    var position := 0;
    ghost var done: seq<Segment>, todo := [], expressions.items;
    while position < |expressions.items|
      invariant expressions.items == done + todo && position <= |done| && IsFlat(done) && NoEmptyTuple(todo)
      invariant Flatten(done, todo) == Flatten([], old(expressions.items))
      decreases |todo|, |expressions.items| - position
    {
      var expression := expressions.items[position];
      if expression.Group? {
        TupleAtFront(done, todo, position);
        ReplaceTuple(expressions, expression);
        TupleTaken(done, todo);
        done, todo := Reversed(Singles(expression.es)) + done, todo[1..];
        assert expressions.items == done + todo;
      } else if position == |done| {
        NextTaken(done, todo);
        done, todo := done + [todo[0]], todo[1..];
      }
      position := position + 1;
    }
    assert todo == [] && expressions.items == done;
    NothingLeft(done);
  }

  lemma NothingDone(todo: seq<Segment>)
    ensures IsFlat([]) && [] + todo == todo
  {
  }

  lemma NothingLeft(done: seq<Segment>)
    ensures Flatten(done, []) == done
  {
  }

  /** A tuple gives way to its elements, of which there is at least one. */
  lemma TupleTaken(done: seq<Segment>, todo: seq<Segment>)
    requires todo != [] && todo[0].Group? && NoEmptyTuple(todo)
    ensures Flatten(done, todo) == Flatten(Reversed(Singles(todo[0].es)) + done, todo[1..])
    ensures NoEmptyTuple(todo[1..]) && |todo[0].es| > 0
  {
    hide Reversed, Singles;
    assert todo[0] in todo && forall segment <- todo[1..] :: segment in todo;
    assert todo[0] == Group(todo[0].es);
  }

  /** What is no tuple stays where it is. */
  lemma NextTaken(done: seq<Segment>, todo: seq<Segment>)
    requires todo != [] && !todo[0].Group? && IsFlat(done) && NoEmptyTuple(todo)
    ensures Flatten(done, todo) == Flatten(done + [todo[0]], todo[1..])
    ensures IsFlat(done + [todo[0]]) && NoEmptyTuple(todo[1..])
  {
    hide Reversed, Singles;
    assert forall segment <- todo[1..] :: segment in todo;
  }

  /** A tuple that the iterator meets is the first one left. */
  lemma {:induction false} TupleAtFront(done: seq<Segment>, todo: seq<Segment>, position: nat)
    requires IsFlat(done) && position <= |done| && position < |done + todo| && (done + todo)[position].Group?
    ensures position == |done| && todo != [] && (done + todo)[position] == todo[0]
    ensures RemoveFirst(done + todo, todo[0]) == done + todo[1..]
    ensures |Reversed(Singles(todo[0].es))| == |todo[0].es|
    ensures IsFlat(Reversed(Singles(todo[0].es)) + done)
  {
    assert forall i | 0 <= i < |done| :: done[i] in done;
    assert (done + todo)[..position] == done;
    RemoveFirstAt(done + todo, position, todo[0]);
    ReversedElements(Singles(todo[0].es));
  }

  /** `_pop_disjunctive_segment`: takes the first list of alternatives out of the conjunction. */
  method PopDisjunctiveSegment(expressions: MutableList<Segment>) returns (orSegment: seq<seq<Expr>>)
    modifies expressions
    ensures Choices(old(expressions.items)) == 0 ==>
              orSegment == [] && expressions.items == old(expressions.items)
    ensures Choices(old(expressions.items)) > 0 ==>
              var k := FirstChoice(old(expressions.items));
              && orSegment == old(expressions.items)[k].dnf
              && expressions.items == old(expressions.items)[..k] + old(expressions.items)[k + 1..]
  {
    var items := expressions.items;
    for i := 0 to |items|
      invariant expressions.items == items
      invariant Choices(items[..i]) == 0
    {
      NoChoices(items[..i]);
      if items[i].Choice? {
        FirstChoiceAt(items, i);
        RemoveFirstAt(items, i, items[i]);
        expressions.Remove(items[i]);
        return items[i].dnf;
      }
      NoChoices(items[..i + 1]);
    }
    assert items[..|items|] == items;
    return [];
  }

  lemma {:induction false} FirstChoiceAt(segments: seq<Segment>, k: nat)
    requires k < |segments| && segments[k].Choice? && Choices(segments[..k]) == 0
    ensures Choices(segments) > 0 && FirstChoice(segments) == k
  {
    NoChoices(segments);
    assert segments[k] in segments;
    var first := FirstChoice(segments);
    NoChoices(segments[..k]);
    NoChoices(segments[..first]);
    assert forall i | 0 <= i < k :: segments[i] in segments[..k];
    assert forall i | 0 <= i < first :: segments[i] in segments[..first];
  }

  lemma {:induction false} DistributeSnoc(dnf: seq<seq<Expr>>, n: nat, rest: seq<Segment>)
    requires IsFlat(rest) && n < |dnf|
    ensures Distribute(dnf[..n + 1], rest) == Distribute(dnf[..n], rest) + Settle(Extend(rest, dnf[n]))
    decreases n
  {
    if n == 0 {
      assert dnf[..1][1..] == [] && dnf[..0] == [];
    } else {
      assert dnf[..n + 1][1..] == dnf[1..][..n] && dnf[..n][1..] == dnf[1..][..n - 1];
      DistributeSnoc(dnf[1..], n - 1, rest);
    }
  }

  /** The lists hold nothing but expressions, namely those of `dnf`. */
  ghost predicate Hold(lists: seq<MutableList<Segment>>, dnf: seq<seq<Expr>>)
    reads set list | list in lists
  {
    && |lists| == |dnf|
    && forall i | 0 <= i < |lists| :: lists[i].items == Singles(dnf[i])
  }

  /** The state of `dnf` when the first `idx` of its `initial` lists were looked at. */
  ghost predicate Slots(
    dnf: seq<MutableList?<Segment>>, initial: seq<MutableList<Segment>>, idx: nat, nested: bool,
    resolved: seq<MutableList<Segment>>)
  {
    && idx <= |initial|
    && |dnf| == |initial| + |resolved|
    && (forall j | 0 <= j < |initial| :: dnf[j] == if nested && j < idx then null else initial[j])
    && (forall j | 0 <= j < |resolved| :: dnf[|initial| + j] == resolved[j])
    && (!nested ==> resolved == [])
  }

  /**
   * `convert_cnf_to_dnf`: distributes the first list of alternatives over the rest, and every
   * result that still has alternatives is replaced by its own conversion. It ends, since each
   * conversion has one list of alternatives less, and all lists it returns are new.
   */
  method ConvertCnfToDnf(cnf: MutableList<Segment>) returns (result: seq<MutableList<Segment>>)
    requires IsFlat(cnf.items)
    modifies cnf
    ensures Hold(result, Convert(old(cnf.items)))
    ensures AreDistinct(result) && forall i | 0 <= i < |result| :: fresh(result[i])
    decreases Choices(cnf.items), 1
  {
    var orSegment := PopDisjunctiveSegment(cnf);
    var initial := ResolveDisjunctiveSegment(orSegment, cnf.items);
    ghost var rest := cnf.items;
    var dnf, resolved := ResolveNested(initial, orSegment, rest);
    result := WithoutNone(dnf, initial, Choices(rest) > 0, resolved);
    if Choices(rest) == 0 {
      DistributeSettled(orSegment, rest);
    }
  }

  /** The loop over the lists that distributing has produced. */
  method ResolveNested(
    initial: seq<MutableList<Segment>>, ghost orSegment: seq<seq<Expr>>, ghost rest: seq<Segment>)
    returns (dnf: seq<MutableList?<Segment>>, ghost resolvedAll: seq<MutableList<Segment>>)
    requires IsFlat(rest) && |initial| == |orSegment| && AreDistinct(initial)
    requires forall i | 0 <= i < |initial| :: initial[i].items == Extend(rest, orSegment[i])
    modifies initial
    ensures Slots(dnf, initial, |initial|, Choices(rest) > 0, resolvedAll)
    ensures Choices(rest) == 0 ==> forall list <- initial :: list.items == old(list.items)
    ensures Choices(rest) > 0 ==> Hold(resolvedAll, Distribute(orSegment, rest))
    ensures AreDistinct(resolvedAll) && forall i | 0 <= i < |resolvedAll| :: fresh(resolvedAll[i])
    decreases Choices(rest), if Choices(rest) > 0 then 3 else 0
  {
    ghost var nested := Choices(rest) > 0;
    dnf, resolvedAll := initial, [];
    assert orSegment[..0] == [];
    for idx := 0 to |initial|
      invariant Slots(dnf, initial, idx, nested, resolvedAll)
      invariant nested ==> Hold(resolvedAll, Distribute(orSegment[..idx], rest))
      invariant AreDistinct(resolvedAll) && forall i | 0 <= i < |resolvedAll| :: fresh(resolvedAll[i])
      invariant forall j | (if nested then idx else 0) <= j < |initial| ::
                  initial[j].items == old(initial[j].items)
    {
      NoChoices(initial[idx].items);
      if exists segment <- initial[idx].items :: segment.Choice? {
        ghost var resolved;
        dnf, resolved := ResolveSlot(dnf, idx, initial, resolvedAll);
        DistributeSnoc(orSegment, idx, rest);
        HoldBoth(resolvedAll, resolved, Distribute(orSegment[..idx], rest), Settle(Extend(rest, orSegment[idx])));
        resolvedAll := resolvedAll + resolved;
      }
    }
    assert orSegment[..|orSegment|] == orSegment;
  }

  lemma HoldBoth(a: seq<MutableList<Segment>>, b: seq<MutableList<Segment>>, c: seq<seq<Expr>>, d: seq<seq<Expr>>)
    requires Hold(a, c) && Hold(b, d)
    ensures Hold(a + b, c + d)
  {
  }

  /** Replaces one list that has alternatives by the lists that it converts to. */
  method ResolveSlot(
    dnf: seq<MutableList?<Segment>>, idx: nat, initial: seq<MutableList<Segment>>,
    ghost resolvedAll: seq<MutableList<Segment>>)
    returns (replaced: seq<MutableList?<Segment>>, ghost resolved: seq<MutableList<Segment>>)
    requires idx < |initial| && Slots(dnf, initial, idx, true, resolvedAll)
    requires AreDistinct(initial) && IsFlat(initial[idx].items) && Choices(initial[idx].items) > 0
    modifies initial[idx]
    ensures Slots(replaced, initial, idx + 1, true, resolvedAll + resolved)
    ensures Hold(resolved, Settle(old(initial[idx].items)))
    ensures AreDistinct(resolved) && forall i | 0 <= i < |resolved| :: fresh(resolved[i])
    ensures AreDistinct(resolvedAll) ==> AreDistinct(resolvedAll + resolved)
    decreases Choices(initial[idx].items), 2
  {
    replaced := dnf;
    if initial[idx] in replaced {
      replaced := replaced[idx := null];
    }
    var lists := ConvertCnfToDnf(initial[idx]);
    replaced := replaced + lists;
    resolved := lists;
  }

  /** The comprehension that drops the slots whose list was replaced. */
  method WithoutNone(
    dnf: seq<MutableList?<Segment>>, ghost initial: seq<MutableList<Segment>>, ghost nested: bool,
    ghost resolved: seq<MutableList<Segment>>)
    returns (result: seq<MutableList<Segment>>)
    requires Slots(dnf, initial, |initial|, nested, resolved)
    ensures result == if nested then resolved else initial
  {
    result := [];
    for i := 0 to |dnf|
      invariant !nested ==> result == initial[..i]
      invariant nested ==> result == resolved[..if i < |initial| then 0 else i - |initial|]
    {
      assert i >= |initial| ==> dnf[|initial| + (i - |initial|)] == resolved[i - |initial|];
      if dnf[i] != null {
        result := result + [dnf[i]];
      }
    }
  }

  /** With nothing nested in the rest, distributing is done after one step. */
  lemma {:induction false} DistributeSettled(dnf: seq<seq<Expr>>, rest: seq<Segment>)
    requires IsFlat(rest) && Choices(rest) == 0
    ensures |Distribute(dnf, rest)| == |dnf|
    ensures forall i | 0 <= i < |dnf| :: Extend(rest, dnf[i]) == Singles(Distribute(dnf, rest)[i])
  {
    if dnf != [] {
      DistributeSettled(dnf[1..], rest);
    }
  }

  /** `_resolve_disjunctive_segment`: a new list for every alternative. */
  method ResolveDisjunctiveSegment(orSegment: seq<seq<Expr>>, rest: seq<Segment>)
    returns (dnf: seq<MutableList<Segment>>)
    ensures |dnf| == |orSegment| && AreDistinct(dnf)
    ensures forall i | 0 <= i < |dnf| :: fresh(dnf[i]) && dnf[i].items == Extend(rest, orSegment[i])
  {
    dnf := [];
    for i := 0 to |orSegment|
      invariant |dnf| == i && AreDistinct(dnf)
      invariant forall j | 0 <= j < i :: fresh(dnf[j]) && dnf[j].items == Extend(rest, orSegment[j])
    {
      var extended := new MutableList(Extend(rest, orSegment[i]));
      dnf := dnf + [extended];
    }
  }
}
