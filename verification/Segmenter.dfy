/** Segmenting a resolved filter into its disjunctive normal form. */
module Segmenter {
  import opened Common
  import opened FilterExpressions

  /** What a sub-expression becomes: itself, a tuple of conjuncts, or a list of alternatives. */
  datatype Segment =
    | Single(e: Expr)
    | Group(es: seq<Expr>)
    | Choice(dnf: seq<seq<Expr>>)

  /** `Could not segment`: a disjunction that only a negation leads to. */
  datatype SegmenterError = CouldNotSegment(e: Expr)

  predicate HasDisjunction(e: Expr) {
    match e
    case Or(_) => true
    case And(children) => exists child <- children :: HasDisjunction(child)
    case Not(child) => HasDisjunction(child)
    case _ => false
  }

  /** The conjuncts of nested conjunctions, in order. */
  function Conjuncts(es: seq<Expr>): seq<Expr> {
    if es == [] then []
    else (if es[0].And? then Conjuncts(es[0].children) else [es[0]]) + Conjuncts(es[1..])
  }

  function Singles(es: seq<Expr>): (segments: seq<Segment>)
    ensures |segments| == |es| && forall i | 0 <= i < |es| :: segments[i] == Single(es[i])
  {
    seq(|es|, i requires 0 <= i < |es| => Single(es[i]))
  }

  function Reversed(segments: seq<Segment>): seq<Segment> {
    if segments == [] then [] else Reversed(segments[1..]) + [segments[0]]
  }

  /** The list with each tuple, in turn, taken out and its elements pushed to the front. */
  function Flatten(done: seq<Segment>, todo: seq<Segment>): seq<Segment>
    decreases |todo|
  {
    if todo == [] then done
    else if todo[0].Group? then Flatten(Reversed(Singles(todo[0].es)) + done, todo[1..])
    else Flatten(done + [todo[0]], todo[1..])
  }

  /** `_convert_expression_to_list`: what one child of a disjunction contributes. */
  function AlternativesOf(segment: Segment): seq<seq<Expr>> {
    match segment
    case Single(e) => [[e]]
    case Group(es) => if es == [] then [] else [es]
    case Choice(dnf) => dnf
  }

  /** The alternatives of a disjunction, given its segmented children. */
  function Alternatives(segments: seq<Segment>): seq<seq<Expr>> {
    if segments == [] then [] else AlternativesOf(segments[0]) + Alternatives(segments[1..])
  }

  predicate IsFlat(segments: seq<Segment>) {
    forall segment <- segments :: !segment.Group?
  }

  function Choices(segments: seq<Segment>): nat {
    if segments == [] then 0 else (if segments[0].Choice? then 1 else 0) + Choices(segments[1..])
  }

  function FirstChoice(segments: seq<Segment>): (k: nat)
    requires Choices(segments) > 0
    ensures k < |segments| && segments[k].Choice? && Choices(segments[..k]) == 0
    ensures Choices(segments[..k] + segments[k + 1..]) == Choices(segments) - 1
  {
    if segments[0].Choice? then
      assert segments[..0] + segments[1..] == segments[1..];
      0
    else
      var k := FirstChoice(segments[1..]);
      var rest := segments[1..][..k] + segments[1..][k + 1..];
      assert segments[..k + 1] + segments[k + 2..] == [segments[0]] + rest;
      assert ([segments[0]] + rest)[1..] == rest;
      assert segments[..k + 1][1..] == segments[1..][..k];
      k + 1
  }

  lemma {:induction false} ChoicesConcat(a: seq<Segment>, b: seq<Segment>)
    ensures Choices(a + b) == Choices(a) + Choices(b)
  {
    if a == [] {
      assert a + b == b;
    } else {
      assert (a + b)[1..] == a[1..] + b;
      ChoicesConcat(a[1..], b);
    }
  }

  lemma {:induction false} NoChoices(segments: seq<Segment>)
    ensures Choices(segments) == 0 <==> forall segment <- segments :: !segment.Choice?
  {
    if segments != [] {
      NoChoices(segments[1..]);
      assert segments == [segments[0]] + segments[1..];
    }
  }

  /** `cnf + or_element`. */
  function Extend(cnf: seq<Segment>, alternative: seq<Expr>): (extended: seq<Segment>)
    ensures Choices(extended) == Choices(cnf)
    ensures IsFlat(cnf) ==> IsFlat(extended)
  {
    ChoicesConcat(cnf, Singles(alternative));
    NoChoices(Singles(alternative));
    cnf + Singles(alternative)
  }

  /** The expressions of a list that has nothing nested in it. */
  function Literals(segments: seq<Segment>): (es: seq<Expr>)
    requires IsFlat(segments) && Choices(segments) == 0
    ensures |es| == |segments| && forall i | 0 <= i < |es| :: segments[i] == Single(es[i])
  {
    NoChoices(segments);
    assert forall i | 0 <= i < |segments| :: segments[i] in segments && segments[i].Single?;
    seq(|segments|, i requires 0 <= i < |segments| => segments[i].e)
  }

  /** `convert_cnf_to_dnf`: take out the first list of alternatives and distribute it over the rest. */
  function Convert(cnf: seq<Segment>): seq<seq<Expr>>
    requires IsFlat(cnf)
    decreases Choices(cnf), 0
  {
    if Choices(cnf) == 0 then []
    else
      var k := FirstChoice(cnf);
      Distribute(cnf[k].dnf, cnf[..k] + cnf[k + 1..])
  }

  function Distribute(dnf: seq<seq<Expr>>, rest: seq<Segment>): seq<seq<Expr>>
    requires IsFlat(rest)
    decreases Choices(rest), |dnf| + 1
  {
    if dnf == [] then []
    else Settle(Extend(rest, dnf[0])) + Distribute(dnf[1..], rest)
  }

  /** A list of the distributed form: finished, or to be converted again. */
  function Settle(segments: seq<Segment>): seq<seq<Expr>>
    requires IsFlat(segments)
    decreases Choices(segments), 1
  {
    if Choices(segments) == 0 then [Literals(segments)] else Convert(segments)
  }

  lemma {:induction false} FlattenIsFlat(done: seq<Segment>, todo: seq<Segment>)
    requires IsFlat(done)
    ensures IsFlat(Flatten(done, todo))
    decreases |todo|
  {
    if todo != [] {
      if todo[0].Group? {
        ReversedElements(Singles(todo[0].es));
        FlattenIsFlat(Reversed(Singles(todo[0].es)) + done, todo[1..]);
      } else {
        FlattenIsFlat(done + [todo[0]], todo[1..]);
      }
    }
  }

  lemma {:induction false} ReversedElements(segments: seq<Segment>)
    ensures |Reversed(segments)| == |segments|
    ensures forall segment :: segment in Reversed(segments) <==> segment in segments
  {
    if segments != [] {
      ReversedElements(segments[1..]);
      assert segments == [segments[0]] + segments[1..];
    }
  }

  /** `_segment_expression`. */
  function SegmentExpression(e: Expr): (result: Result<Segment, SegmenterError>)
    ensures result.Ok? && HasDisjunction(e) ==> result.value.Choice?
    decreases e, 1
  {
    if !HasDisjunction(e) then
      Ok(if e.And? then Group(Conjuncts(e.children)) else Single(e))
    else
      match e
      case Or(children) =>
        var segments :- SegmentAll(children);
        Ok(Choice(Alternatives(segments)))
      case And(children) =>
        var segments :- SegmentAll(children);
        FlattenIsFlat([], segments);
        Ok(Choice(Convert(Flatten([], segments))))
      case _ => Err(CouldNotSegment(e))
  }

  /** `_segment_sub_expressions`. */
  function SegmentAll(es: seq<Expr>): Result<seq<Segment>, SegmenterError>
    decreases es, 0
  {
    if es == [] then Ok([])
    else
      var first :- SegmentExpression(es[0]);
      var others :- SegmentAll(es[1..]);
      Ok([first] + others)
  }

  /** `segment_into_dnf`. */
  function SegmentIntoDnf(e: Expr): Result<seq<seq<Expr>>, SegmenterError> {
    if HasDisjunction(e) then
      var segment :- SegmentExpression(e);
      Ok(segment.dnf)
    else if e.And? then Ok([Conjuncts(e.children)])
    else Ok([[e]])
  }

  /** The documented example: `(A and (B or C)) or D`. */
  lemma DocumentedExample(a: Expr, b: Expr, c: Expr, d: Expr)
    requires forall e <- [a, b, c, d] :: e.IsKeyBased()
    ensures SegmentIntoDnf(Or([And([a, Or([b, c])]), d])) == Ok([[a, b], [a, c], [d]])
  {
    hide SegmentExpression, HasDisjunction, Alternatives, SegmentAll, Flatten, Convert;
    var or, alternatives := Or([b, c]), Choice([[b], [c]]);
    var both := And([a, or]);
    LeafSegment(a);
    LeafSegment(b);
    LeafSegment(c);
    LeafSegment(d);
    TwoChildren(b, c, Single(b), Single(c));
    OrOfTwo(b, c, Single(b), Single(c));
    assert AlternativesOf(Single(b)) + AlternativesOf(Single(c)) == [[b], [c]];
    OrHasDisjunction([b, c]);
    assert or in both.children;
    ChildHasDisjunction(both, or);
    TwoChildren(a, or, Single(a), alternatives);
    assert SegmentExpression(both) == Ok(Choice([[a, b], [a, c]])) by { AndOfAlternatives(a, or, b, c); }
    TwoChildren(both, d, Choice([[a, b], [a, c]]), Single(d));
    OrOfTwo(both, d, Choice([[a, b], [a, c]]), Single(d));
    OrHasDisjunction([both, d]);
    assert [[a, b], [a, c]] + [[d]] == [[a, b], [a, c], [d]];
  }

  lemma LeafSegment(e: Expr)
    requires e.IsKeyBased()
    ensures SegmentExpression(e) == Ok(Single(e))
  {
  }

  lemma OrHasDisjunction(es: seq<Expr>)
    ensures HasDisjunction(Or(es))
  {
  }

  lemma ChildHasDisjunction(e: Expr, child: Expr)
    requires e.And? && child in e.children && HasDisjunction(child)
    ensures HasDisjunction(e)
  {
  }

  lemma TwoChildren(e: Expr, f: Expr, one: Segment, other: Segment)
    requires SegmentExpression(e) == Ok(one) && SegmentExpression(f) == Ok(other)
    ensures SegmentAll([e, f]) == Ok([one, other])
  {
    hide SegmentExpression;
    var es, last := [e, f], [f];
    assert es[1..] == last && last[1..] == [];
    assert SegmentAll([]) == Ok([]);
    assert SegmentAll(last) == Ok([other] + []);
    assert [other] + [] == [other] && [one] + [other] == [one, other];
    assert SegmentAll(es) == Ok([one] + [other]);
  }

  lemma OrOfTwo(e: Expr, f: Expr, one: Segment, other: Segment)
    requires SegmentAll([e, f]) == Ok([one, other])
    ensures SegmentExpression(Or([e, f])) == Ok(Choice(AlternativesOf(one) + AlternativesOf(other)))
  {
    hide SegmentAll, AlternativesOf;
    OrHasDisjunction([e, f]);
    assert [one, other][1..] == [other] && [other][1..] == [];
    assert Alternatives([other]) == AlternativesOf(other) + [] == AlternativesOf(other);
  }

  lemma AndOfAlternatives(a: Expr, or: Expr, b: Expr, c: Expr)
    requires HasDisjunction(And([a, or])) && SegmentAll([a, or]) == Ok([Single(a), Choice([[b], [c]])])
    ensures SegmentExpression(And([a, or])) == Ok(Choice([[a, b], [a, c]]))
  {
    hide SegmentAll, HasDisjunction, Convert, Flatten;
    var cnf := [Single(a), Choice([[b], [c]])];
    assert Flatten([], cnf) == cnf by { NothingToFlatten(cnf[0], cnf[1]); }
    FlattenIsFlat([], cnf);
    assert Convert(cnf) == [[a, b], [a, c]] by { ConvertTwo(a, b, c); }
  }

  lemma NothingToFlatten(one: Segment, other: Segment)
    requires !one.Group? && !other.Group?
    ensures Flatten([], [one, other]) == [one, other]
  {
    var cnf := [one, other];
    assert cnf[1..] == [other] && [other][1..] == [] && [] + [one] == [one] && [one] + [other] == cnf;
    assert Flatten([], cnf) == Flatten([one], [other]) == Flatten(cnf, []);
  }

  lemma ConvertTwo(a: Expr, b: Expr, c: Expr)
    ensures IsFlat([Single(a), Choice([[b], [c]])])
    ensures Convert([Single(a), Choice([[b], [c]])]) == [[a, b], [a, c]]
  {
    hide Settle;
    var cnf, rest, dnf := [Single(a), Choice([[b], [c]])], [Single(a)], [[b], [c]];
    assert cnf[1..] == [cnf[1]] && [cnf[1]][1..] == [] && rest[1..] == [];
    assert Choices([cnf[1]]) == 1 && Choices(cnf) == 1 && Choices(rest) == 0;
    assert FirstChoice(cnf) == 1;
    assert cnf[..1] + cnf[2..] == rest;
    assert dnf[1..] == [[c]] && [[c]][1..] == [];
    Settled(a, b);
    Settled(a, c);
    assert Distribute([[c]], rest) == [[a, c]] + [] == [[a, c]];
    assert [[a, b]] + [[a, c]] == [[a, b], [a, c]];
  }

  lemma Settled(a: Expr, b: Expr)
    ensures IsFlat([Single(a)]) && Settle(Extend([Single(a)], [b])) == [[a, b]]
  {
    var extended := Extend([Single(a)], [b]);
    assert extended == [Single(a), Single(b)] && [Single(a)][1..] == [];
    assert Choices([Single(a)]) == 0;
    assert Literals(extended) == [a, b];
  }
}
