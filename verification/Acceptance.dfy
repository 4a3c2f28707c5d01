/** Which filters are accepted. */
module Acceptance {
  import opened FilterExpressions
  import opened Segmenter
  import opened SegmenterProofs

  // --------------------------------------------------------- number of alternatives

  function Weight(segment: Segment): nat {
    if segment.Choice? then |segment.dnf| else 1
  }

  /** The number of ways to pick one alternative from every list of alternatives. */
  function Product(segments: seq<Segment>): nat {
    if segments == [] then 1 else Weight(segments[0]) * Product(segments[1..])
  }

  lemma MulAssociates(a: nat, b: nat, c: nat)
    ensures a * (b * c) == a * b * c
  {
  }

  lemma {:induction false} ProductConcat(a: seq<Segment>, b: seq<Segment>)
    ensures Product(a + b) == Product(a) * Product(b)
  {
    if a == [] {
      assert a + b == b;
    } else {
      assert (a + b)[1..] == a[1..] + b;
      ProductConcat(a[1..], b);
      MulAssociates(Weight(a[0]), Product(a[1..]), Product(b));
    }
  }

  lemma {:induction false} ProductOfSingles(segments: seq<Segment>)
    requires IsFlat(segments) && Choices(segments) == 0
    ensures Product(segments) == 1
  {
    if segments != [] {
      ProductOfSingles(segments[1..]);
    }
  }

  /** The weight of one segment can be taken out of the product. */
  lemma ProductWithout(segments: seq<Segment>, k: nat)
    requires k < |segments|
    ensures Product(segments) == Weight(segments[k]) * Product(segments[..k] + segments[k + 1..])
  {
    var before, after := Product(segments[..k]), Product(segments[k + 1..]);
    calc {
      Product(segments);
      { assert segments == segments[..k] + segments[k..]; ProductConcat(segments[..k], segments[k..]); }
      before * Product(segments[k..]);
      { assert segments[k..][1..] == segments[k + 1..]; }
      before * (Weight(segments[k]) * after);
      { MulAssociates(before, Weight(segments[k]), after); MulAssociates(Weight(segments[k]), before, after); }
      Weight(segments[k]) * (before * after);
      { ProductConcat(segments[..k], segments[k + 1..]); }
      Weight(segments[k]) * Product(segments[..k] + segments[k + 1..]);
    }
  }

  /** Converting yields one conjunction for every way to pick alternatives. */
  lemma {:induction false} ConvertSize(cnf: seq<Segment>)
    requires IsFlat(cnf) && Choices(cnf) > 0
    ensures |Convert(cnf)| == Product(cnf)
    decreases Choices(cnf), 0
  {
    var k := FirstChoice(cnf);
    DistributeSize(cnf[k].dnf, cnf[..k] + cnf[k + 1..]);
    ProductWithout(cnf, k);
  }

  lemma {:induction false} SettleSize(rest: seq<Segment>, alternative: seq<Expr>)
    requires IsFlat(rest)
    ensures |Settle(Extend(rest, alternative))| == Product(rest)
    decreases Choices(rest), 1
  {
    var extended := Extend(rest, alternative);
    NoChoices(Singles(alternative));
    ProductOfSingles(Singles(alternative));
    ProductConcat(rest, Singles(alternative));
    assert Product(extended) == Product(rest) * 1;
    if Choices(extended) == 0 {
      ProductOfSingles(extended);
    } else {
      ConvertSize(extended);
    }
  }

  lemma {:induction false} DistributeSize(dnf: seq<seq<Expr>>, rest: seq<Segment>)
    requires IsFlat(rest)
    ensures |Distribute(dnf, rest)| == |dnf| * Product(rest)
    decreases Choices(rest), |dnf| + 1
  {
    if dnf != [] {
      SettleSize(rest, dnf[0]);
      DistributeSize(dnf[1..], rest);
      MulSuccessor(|dnf[1..]|, Product(rest));
    }
  }

  lemma MulSuccessor(n: nat, m: nat)
    ensures (n + 1) * m == m + n * m
  {
  }

  // ------------------------------------------------------------ what is accepted

  /** No leaf hides a disjunction behind its negations. */
  predicate LeavesAreSegmentable(e: Expr) {
    match e
    case And(children) => forall child <- children :: LeavesAreSegmentable(child)
    case Or(children) => forall child <- children :: LeavesAreSegmentable(child)
    case _ => !HasDisjunction(e)
  }

  lemma {:induction false} NothingToSegment(e: Expr)
    requires !HasDisjunction(e)
    ensures LeavesAreSegmentable(e)
  {
    if e.And? {
      forall child <- e.children ensures LeavesAreSegmentable(child) {
        NothingToSegment(child);
      }
    }
  }

  lemma {:induction false} SegmentExpressionSucceeds(e: Expr)
    ensures SegmentExpression(e).Ok? <==> LeavesAreSegmentable(e)
    decreases e, 1
  {
    if !HasDisjunction(e) {
      NothingToSegment(e);
    } else if e.IsCompound() {
      SegmentAllSucceeds(e.children);
    }
  }

  lemma {:induction false} SegmentAllSucceeds(es: seq<Expr>)
    ensures SegmentAll(es).Ok? <==> forall e <- es :: LeavesAreSegmentable(e)
    decreases es, 0
  {
    if es != [] {
      assert es == [es[0]] + es[1..];
      SegmentExpressionSucceeds(es[0]);
      SegmentAllSucceeds(es[1..]);
    }
  }

  lemma SegmentIntoDnfSucceeds(e: Expr)
    ensures SegmentIntoDnf(e).Ok? <==> LeavesAreSegmentable(e)
  {
    SegmentExpressionSucceeds(e);
    if !HasDisjunction(e) {
      NothingToSegment(e);
    }
  }

  predicate HasAlways(e: Expr) {
    match e
    case And(children) => exists child <- children :: HasAlways(child)
    case Or(children) => exists child <- children :: HasAlways(child)
    case _ => Base(e).Always?
  }

  lemma {:induction false} AlwaysLeaf(e: Expr) returns (x: Expr)
    requires HasAlways(e)
    ensures IsLeafOf(x, e) && Base(x).Always?
  {
    if e.IsCompound() {
      var child :| child in e.children && HasAlways(child);
      x := AlwaysLeaf(child);
    } else {
      x := e;
    }
  }

  lemma {:induction false} LeafGivesAlways(x: Expr, e: Expr)
    requires IsLeafOf(x, e) && Base(x).Always?
    ensures HasAlways(e)
  {
    if e.IsCompound() {
      var child :| child in e.children && IsLeafOf(x, child);
      LeafGivesAlways(x, child);
    }
  }

  /** No conjunction of two or more holds an `Always`. */
  predicate AlwaysStandsAlone(e: Expr) {
    match e
    case And(children) =>
      if |children| == 1 then AlwaysStandsAlone(children[0]) else !HasAlways(e)
    case Or(children) => forall child <- children :: AlwaysStandsAlone(child)
    case _ => true
  }

  /** A list that cannot be sorted, since the sorting key of an `Always` compares with nothing. */
  predicate IsMixed(es: seq<Expr>) {
    |es| >= 2 && exists e <- es :: Base(e).Always?
  }

  ghost predicate SomeMixed(dnf: seq<seq<Expr>>) {
    exists es <- dnf :: IsMixed(es)
  }

  ghost predicate SegmentMixed(segment: Segment) {
    match segment
    case Single(_) => false
    case Group(es) => IsMixed(es)
    case Choice(dnf) => SomeMixed(dnf)
  }

  lemma SomeMixedConcat(a: seq<seq<Expr>>, b: seq<seq<Expr>>)
    ensures SomeMixed(a + b) <==> SomeMixed(a) || SomeMixed(b)
  {
  }

  /** When every list has at least two elements, any `Always` makes one of them mixed. */
  lemma LongListsMix(e: Expr, dnf: seq<seq<Expr>>)
    requires forall x :: Occurs(x, dnf) <==> IsLeafOf(x, e)
    requires forall es <- dnf :: |es| >= 2
    ensures SomeMixed(dnf) <==> HasAlways(e)
  {
    if HasAlways(e) {
      var x := AlwaysLeaf(e);
      assert Occurs(x, dnf);
    }
    if SomeMixed(dnf) {
      var es :| es in dnf && IsMixed(es);
      var x :| x in es && Base(x).Always?;
      assert Occurs(x, dnf);
      LeafGivesAlways(x, e);
    }
  }

  lemma {:induction false} DistributeOverNothing(dnf: seq<seq<Expr>>)
    ensures Distribute(dnf, []) == dnf
  {
    if dnf != [] {
      DistributeOverNothing(dnf[1..]);
      var extended := Extend([], dnf[0]);
      assert extended == Singles(dnf[0]);
      NoChoices(extended);
      assert Literals(extended) == dnf[0];
    }
  }

  lemma {:induction false} AlternativesMixed(segments: seq<Segment>)
    ensures SomeMixed(Alternatives(segments)) <==> exists segment <- segments :: SegmentMixed(segment)
  {
    if segments != [] {
      var first := AlternativesOf(segments[0]);
      assert segments == [segments[0]] + segments[1..];
      SomeMixedConcat(first, Alternatives(segments[1..]));
      assert SomeMixed(first) <==> SegmentMixed(segments[0]) by {
        match segments[0]
        case Single(e) => assert !IsMixed([e]);
        case Group(es) => assert es in [es];
        case Choice(_) =>
      }
      AlternativesMixed(segments[1..]);
    }
  }

  lemma {:induction false} SegmentMixes(e: Expr)
    requires HasChildren(e) && SegmentExpression(e).Ok?
    ensures SegmentMixed(SegmentExpression(e).value) <==> !AlwaysStandsAlone(e)
    decreases e, 1
  {
    if e.Or? {
      SegmentAllMixes(e.children);
      AlternativesMixed(SegmentAll(e.children).value);
    } else if e.And? && |e.children| == 1 {
      OnlyConjunct(e);
    } else if e.And? {
      ManyConjuncts(e);
    }
  }

  lemma {:induction false} SegmentAllMixes(es: seq<Expr>)
    requires (forall e <- es :: HasChildren(e)) && SegmentAll(es).Ok?
    ensures (exists segment <- SegmentAll(es).value :: SegmentMixed(segment))
       <==> !forall e <- es :: AlwaysStandsAlone(e)
    decreases es, 0
  {
    if es != [] {
      assert es == [es[0]] + es[1..] && es[0] in es;
      SegmentMixes(es[0]);
      SegmentAllMixes(es[1..]);
    }
  }

  lemma {:induction false} OnlyConjunct(e: Expr)
    requires HasChildren(e) && SegmentExpression(e).Ok?
    requires e.And? && |e.children| == 1
    ensures SegmentMixed(SegmentExpression(e).value) <==> !AlwaysStandsAlone(e)
    decreases e, 0
  {
    var child := e.children[0];
    assert child in e.children && e.children == [child];
    assert e.children[1..] == [];
    if HasDisjunction(e) {
      var segment := SegmentExpression(child).value;
      SegmentMixes(child);
      assert SegmentAll(e.children).value == [segment];
      FlattenIsFlat([], [segment]);
      assert Flatten([], [segment]) == [segment];
      assert [segment][..0] + [segment][1..] == [];
      DistributeOverNothing(segment.dnf);
    } else if child.And? {
      SegmentMixes(child);
      assert Conjuncts(e.children) == Conjuncts(child.children);
    } else {
      assert Conjuncts(e.children) == [child] && !HasDisjunction(child);
    }
  }

  lemma {:induction false} ManyConjuncts(e: Expr)
    requires HasChildren(e) && SegmentExpression(e).Ok?
    requires e.And? && |e.children| >= 2
    ensures SegmentMixed(SegmentExpression(e).value) <==> HasAlways(e)
  {
    forall x ensures OccursIn(x, SegmentExpression(e).value) <==> IsLeafOf(x, e) {
      SegmentLiterals(x, e);
    }
    if HasDisjunction(e) {
      var segments := SegmentAll(e.children).value;
      var flat := Flatten([], segments);
      var x := e;
      SegmentAllLiterals(x, e.children);
      FlattenIsFlat([], segments);
      FlattenLiterals(x, [], segments);
      SomeChoice(e.children);
      FlattenChoices([], segments);
      ConvertLiterals(x, flat);
      LongListsMix(e, Convert(flat));
    } else {
      var es := Conjuncts(e.children);
      ConjunctsNotEmpty(e.children);
      forall x ensures Occurs(x, [es]) <==> IsLeafOf(x, e) {
        assert Occurs(x, [es]) <==> x in es;
      }
      LongListsMix(e, [es]);
      assert SegmentExpression(e).value == Group(es) && es in [es];
    }
  }

  lemma SegmentIntoDnfMixes(e: Expr)
    requires HasChildren(e) && SegmentIntoDnf(e).Ok?
    ensures SomeMixed(SegmentIntoDnf(e).value) <==> !AlwaysStandsAlone(e)
  {
    SegmentExpressionSucceeds(e);
    SegmentIntoDnfSucceeds(e);
    SegmentMixes(e);
    if !HasDisjunction(e) {
      var dnf := SegmentIntoDnf(e).value;
      assert SomeMixed(dnf) <==> IsMixed(dnf[0]);
    }
  }
}
