/** What segmenting a filter keeps. */
module SegmenterProofs {
  import opened Documents
  import opened FilterExpressions
  import opened Segmenter

  // ---------------------------------------------------------------- meaning

  ghost predicate SegmentMatches(engine: Engine, segment: Segment, document: Document) {
    match segment
    case Single(e) => Matches(engine, e, document)
    case Group(es) => AllMatch(engine, es, document)
    case Choice(dnf) => SomeMatch(engine, dnf, document)
  }

  ghost predicate CnfMatches(engine: Engine, cnf: seq<Segment>, document: Document) {
    forall segment <- cnf :: SegmentMatches(engine, segment, document)
  }

  lemma CnfConcat(engine: Engine, a: seq<Segment>, b: seq<Segment>, document: Document)
    ensures CnfMatches(engine, a + b, document)
       <==> CnfMatches(engine, a, document) && CnfMatches(engine, b, document)
  {
  }

  lemma SinglesMeaning(engine: Engine, es: seq<Expr>, document: Document)
    ensures CnfMatches(engine, Singles(es), document) <==> AllMatch(engine, es, document)
  {
    if CnfMatches(engine, Singles(es), document) {
      forall e <- es ensures Matches(engine, e, document) {
        var i :| 0 <= i < |es| && es[i] == e;
        assert Singles(es)[i] in Singles(es);
      }
    }
  }

  lemma {:induction false} ConvertMeaning(engine: Engine, cnf: seq<Segment>, document: Document)
    requires IsFlat(cnf) && Choices(cnf) > 0
    ensures SomeMatch(engine, Convert(cnf), document) <==> CnfMatches(engine, cnf, document)
    decreases Choices(cnf), 0
  {
    hide Distribute, SomeMatch, CnfMatches, Choices, FirstChoice;
    var k := FirstChoice(cnf);
    assert forall segment <- cnf[..k] + cnf[k + 1..] :: segment in cnf;
    DistributeMeaning(engine, cnf[k].dnf, cnf[..k] + cnf[k + 1..], document);
    CnfAround(engine, cnf, k, document);
  }

  lemma CnfAround(engine: Engine, cnf: seq<Segment>, k: nat, document: Document)
    requires k < |cnf| && cnf[k].Choice?
    ensures CnfMatches(engine, cnf, document)
       <==> CnfMatches(engine, cnf[..k] + cnf[k + 1..], document) && SomeMatch(engine, cnf[k].dnf, document)
  {
    CnfConcat(engine, cnf[..k], cnf[k + 1..], document);
    CnfConcat(engine, cnf[..k], cnf[k..], document);
    CnfConcat(engine, [cnf[k]], cnf[k + 1..], document);
    assert cnf == cnf[..k] + cnf[k..] && cnf[k..] == [cnf[k]] + cnf[k + 1..];
    assert CnfMatches(engine, [cnf[k]], document) <==> SegmentMatches(engine, cnf[k], document);
  }

  lemma {:induction false} DistributeMeaning(
    engine: Engine, dnf: seq<seq<Expr>>, rest: seq<Segment>, document: Document)
    requires IsFlat(rest)
    ensures SomeMatch(engine, Distribute(dnf, rest), document)
       <==> CnfMatches(engine, rest, document) && SomeMatch(engine, dnf, document)
    decreases Choices(rest), |dnf| + 1
  {
    if dnf != [] {
      var extended := Extend(rest, dnf[0]);
      CnfConcat(engine, rest, Singles(dnf[0]), document);
      SinglesMeaning(engine, dnf[0], document);
      if Choices(extended) == 0 {
        assert Singles(Literals(extended)) == extended;
        SinglesMeaning(engine, Literals(extended), document);
        assert SomeMatch(engine, Settle(extended), document) <==> AllMatch(engine, Literals(extended), document);
      } else {
        ConvertMeaning(engine, extended, document);
      }
      DistributeMeaning(engine, dnf[1..], rest, document);
      SomeConcat(engine, Settle(extended), Distribute(dnf[1..], rest), document);
      SomeConcat(engine, [dnf[0]], dnf[1..], document);
      assert [dnf[0]] + dnf[1..] == dnf;
      assert SomeMatch(engine, [dnf[0]], document) <==> AllMatch(engine, dnf[0], document);
    }
  }

  lemma SomeConcat(engine: Engine, a: seq<seq<Expr>>, b: seq<seq<Expr>>, document: Document)
    ensures SomeMatch(engine, a + b, document)
       <==> SomeMatch(engine, a, document) || SomeMatch(engine, b, document)
  {
  }

  lemma {:induction false} FlattenMeaning(
    engine: Engine, done: seq<Segment>, todo: seq<Segment>, document: Document)
    ensures CnfMatches(engine, Flatten(done, todo), document)
       <==> CnfMatches(engine, done, document) && CnfMatches(engine, todo, document)
    decreases |todo|
  {
    if todo != [] {
      CnfConcat(engine, [todo[0]], todo[1..], document);
      assert todo == [todo[0]] + todo[1..];
      assert CnfMatches(engine, [todo[0]], document) <==> SegmentMatches(engine, todo[0], document);
      if todo[0].Group? {
        var singles := Singles(todo[0].es);
        ReversedElements(singles);
        SinglesMeaning(engine, todo[0].es, document);
        CnfConcat(engine, Reversed(singles), done, document);
        assert CnfMatches(engine, Reversed(singles), document) <==> CnfMatches(engine, singles, document);
        FlattenMeaning(engine, Reversed(singles) + done, todo[1..], document);
      } else {
        CnfConcat(engine, done, [todo[0]], document);
        FlattenMeaning(engine, done + [todo[0]], todo[1..], document);
      }
    }
  }

  lemma AllConcat(engine: Engine, a: seq<Expr>, b: seq<Expr>, document: Document)
    ensures AllMatch(engine, a + b, document)
       <==> AllMatch(engine, a, document) && AllMatch(engine, b, document)
  {
  }

  lemma {:induction false} ConjunctsMeaning(engine: Engine, es: seq<Expr>, document: Document)
    ensures AllMatch(engine, Conjuncts(es), document) <==> AllMatch(engine, es, document)
  {
    if es != [] {
      var first := if es[0].And? then Conjuncts(es[0].children) else [es[0]];
      if es[0].And? {
        ConjunctsMeaning(engine, es[0].children, document);
      }
      ConjunctsMeaning(engine, es[1..], document);
      assert AllMatch(engine, first, document) <==> Matches(engine, es[0], document);
      AllConcat(engine, first, Conjuncts(es[1..]), document);
      AllConcat(engine, [es[0]], es[1..], document);
      assert es == [es[0]] + es[1..];
    }
  }

  /** The tuples that a conjunction without disjunctions becomes are not empty. */
  lemma {:induction false} ConjunctsNotEmpty(es: seq<Expr>)
    requires es != [] && forall e <- es :: HasChildren(e)
    ensures Conjuncts(es) != [] && |Conjuncts(es)| >= |es|
  {
    assert HasChildren(es[0]) by { assert es[0] in es; }
    if es[0].And? {
      ConjunctsNotEmpty(es[0].children);
    }
    if |es| > 1 {
      ConjunctsNotEmpty(es[1..]);
    }
  }

  lemma {:induction false} SegmentMeaning(engine: Engine, e: Expr, document: Document)
    requires HasChildren(e) && SegmentExpression(e).Ok?
    ensures SegmentMatches(engine, SegmentExpression(e).value, document) <==> Matches(engine, e, document)
    ensures SegmentExpression(e).value != Group([])
    decreases e, 1
  {
    hide Convert, Flatten;
    if !HasDisjunction(e) {
      if e.And? {
        ConjunctsMeaning(engine, e.children, document);
        ConjunctsNotEmpty(e.children);
      }
    } else {
      SegmentAllMeaning(engine, e.children, document);
      var segments := SegmentAll(e.children).value;
      if e.Or? {
        AlternativesMeaning(engine, segments, document);
        assert forall i | 0 <= i < |segments| :: segments[i] in segments && e.children[i] in e.children;
      } else {
        FlattenIsFlat([], segments);
        FlattenMeaning(engine, [], segments, document);
        SomeChoice(e.children);
        FlattenChoices([], segments);
        ConvertMeaning(engine, Flatten([], segments), document);
        assert forall i | 0 <= i < |segments| :: segments[i] in segments && e.children[i] in e.children;
      }
    }
  }

  lemma {:induction false} SegmentAllMeaning(engine: Engine, es: seq<Expr>, document: Document)
    requires (forall e <- es :: HasChildren(e)) && SegmentAll(es).Ok?
    ensures var segments := SegmentAll(es).value;
            && |segments| == |es|
            && (forall i | 0 <= i < |es| ::
                  && (SegmentMatches(engine, segments[i], document) <==> Matches(engine, es[i], document))
                  && segments[i] != Group([]))
    decreases es, 0
  {
    if es != [] {
      SegmentMeaning(engine, es[0], document);
      SegmentAllMeaning(engine, es[1..], document);
    }
  }

  lemma {:induction false} AlternativesMeaning(engine: Engine, segments: seq<Segment>, document: Document)
    requires forall segment <- segments :: segment != Group([])
    ensures SomeMatch(engine, Alternatives(segments), document)
       <==> exists segment <- segments :: SegmentMatches(engine, segment, document)
  {
    if segments != [] {
      var first := AlternativesOf(segments[0]);
      assert segments[0] in segments;
      assert SomeMatch(engine, first, document) <==> SegmentMatches(engine, segments[0], document) by {
        if segments[0].Single? {
          assert AllMatch(engine, [segments[0].e], document) <==> Matches(engine, segments[0].e, document);
        }
      }
      assert forall segment <- segments[1..] :: segment in segments;
      AlternativesMeaning(engine, segments[1..], document);
      SomeConcat(engine, first, Alternatives(segments[1..]), document);
      assert Alternatives(segments) == first + Alternatives(segments[1..]);
      assert segments == [segments[0]] + segments[1..];
    }
  }

  /** A conjunction with a disjunction inside gives the converter something to pop. */
  lemma {:induction false} SomeChoice(es: seq<Expr>)
    requires (exists e <- es :: HasDisjunction(e)) && SegmentAll(es).Ok?
    ensures Choices(SegmentAll(es).value) > 0
  {
    var segments := SegmentAll(es).value;
    assert segments == [SegmentExpression(es[0]).value] + SegmentAll(es[1..]).value;
    assert segments[1..] == SegmentAll(es[1..]).value;
    if !HasDisjunction(es[0]) {
      assert es == [es[0]] + es[1..];
      SomeChoice(es[1..]);
    }
  }

  lemma {:induction false} FlattenChoices(done: seq<Segment>, todo: seq<Segment>)
    ensures Choices(Flatten(done, todo)) == Choices(done) + Choices(todo)
    decreases |todo|
  {
    if todo != [] {
      if todo[0].Group? {
        var singles := Singles(todo[0].es);
        ReversedElements(singles);
        NoChoices(Reversed(singles));
        ChoicesConcat(Reversed(singles), done);
        FlattenChoices(Reversed(singles) + done, todo[1..]);
      } else {
        ChoicesConcat(done, [todo[0]]);
        assert [todo[0]][1..] == [];
        FlattenChoices(done + [todo[0]], todo[1..]);
      }
    }
  }

  /** The disjunctive normal form matches exactly the documents that the filter matches. */
  lemma SegmentIntoDnfMeaning(engine: Engine, e: Expr, document: Document)
    requires HasChildren(e) && SegmentIntoDnf(e).Ok?
    ensures SomeMatch(engine, SegmentIntoDnf(e).value, document) <==> Matches(engine, e, document)
  {
    var dnf := SegmentIntoDnf(e).value;
    if HasDisjunction(e) {
      SegmentMeaning(engine, e, document);
    } else {
      if e.And? {
        ConjunctsMeaning(engine, e.children, document);
      }
      assert dnf[0] in dnf;
      assert SomeMatch(engine, dnf, document) <==> AllMatch(engine, dnf[0], document);
      assert !e.And? ==> dnf[0] == [e] && e in dnf[0];
    }
  }

  // --------------------------------------------------------------- literals

  /** Whether `x` is reached from `e` through conjunctions and disjunctions only. */
  predicate IsLeafOf(x: Expr, e: Expr) {
    match e
    case And(children) => exists child <- children :: IsLeafOf(x, child)
    case Or(children) => exists child <- children :: IsLeafOf(x, child)
    case _ => x == e
  }

  ghost predicate Occurs(x: Expr, dnf: seq<seq<Expr>>) {
    exists es <- dnf :: x in es
  }

  ghost predicate OccursIn(x: Expr, segment: Segment) {
    match segment
    case Single(e) => x == e
    case Group(es) => x in es
    case Choice(dnf) => Occurs(x, dnf)
  }

  ghost predicate OccursInCnf(x: Expr, cnf: seq<Segment>) {
    exists segment <- cnf :: OccursIn(x, segment)
  }

  /** A segment that stands for at least one conjunct, and whose alternatives all do. */
  ghost predicate IsInhabited(segment: Segment) {
    match segment
    case Single(_) => true
    case Group(es) => es != []
    case Choice(dnf) => dnf != [] && forall es <- dnf :: es != []
  }

  ghost predicate AreInhabited(segments: seq<Segment>) {
    forall segment <- segments :: IsInhabited(segment)
  }

  lemma OccursConcat(x: Expr, a: seq<seq<Expr>>, b: seq<seq<Expr>>)
    ensures Occurs(x, a + b) <==> Occurs(x, a) || Occurs(x, b)
  {
  }

  lemma OccursCnfConcat(x: Expr, a: seq<Segment>, b: seq<Segment>)
    ensures OccursInCnf(x, a + b) <==> OccursInCnf(x, a) || OccursInCnf(x, b)
  {
  }

  lemma OccursInSingles(x: Expr, es: seq<Expr>)
    ensures OccursInCnf(x, Singles(es)) <==> x in es
  {
    if x in es {
      var i :| 0 <= i < |es| && es[i] == x;
      assert Singles(es)[i] in Singles(es);
    }
  }

  /** No literal is lost, and every alternative keeps one literal of every conjunct. */
  lemma {:induction false} ConvertLiterals(x: Expr, cnf: seq<Segment>)
    requires IsFlat(cnf) && Choices(cnf) > 0 && AreInhabited(cnf)
    ensures Occurs(x, Convert(cnf)) <==> OccursInCnf(x, cnf)
    ensures Convert(cnf) != [] && forall es <- Convert(cnf) :: |es| >= |cnf|
    decreases Choices(cnf), 0
  {
    hide Distribute, Occurs, OccursIn, OccursInCnf, Choices, FirstChoice;
    var k := FirstChoice(cnf);
    var rest := cnf[..k] + cnf[k + 1..];
    assert cnf[k] in cnf && IsInhabited(cnf[k]) && forall segment <- rest :: segment in cnf;
    DistributeLiterals(x, cnf[k].dnf, rest);
    OccursAround(x, cnf, k);
  }

  lemma OccursAround(x: Expr, cnf: seq<Segment>, k: nat)
    requires k < |cnf| && cnf[k].Choice?
    ensures OccursInCnf(x, cnf) <==> OccursInCnf(x, cnf[..k] + cnf[k + 1..]) || Occurs(x, cnf[k].dnf)
  {
    OccursCnfConcat(x, cnf[..k], cnf[k + 1..]);
    OccursCnfConcat(x, cnf[..k], cnf[k..]);
    OccursCnfConcat(x, [cnf[k]], cnf[k + 1..]);
    assert cnf == cnf[..k] + cnf[k..] && cnf[k..] == [cnf[k]] + cnf[k + 1..];
    assert OccursInCnf(x, [cnf[k]]) <==> OccursIn(x, cnf[k]);
  }

  lemma {:induction false} DistributeLiterals(x: Expr, dnf: seq<seq<Expr>>, rest: seq<Segment>)
    requires IsFlat(rest) && AreInhabited(rest) && dnf != [] && forall es <- dnf :: es != []
    ensures Occurs(x, Distribute(dnf, rest)) <==> OccursInCnf(x, rest) || Occurs(x, dnf)
    ensures Distribute(dnf, rest) != [] && forall es <- Distribute(dnf, rest) :: |es| > |rest|
    decreases Choices(rest), |dnf| + 1
  {
    var extended := Extend(rest, dnf[0]);
    assert dnf[0] in dnf && dnf == [dnf[0]] + dnf[1..];
    OccursCnfConcat(x, rest, Singles(dnf[0]));
    OccursInSingles(x, dnf[0]);
    if Choices(extended) == 0 {
      assert Singles(Literals(extended)) == extended;
      OccursInSingles(x, Literals(extended));
      assert Occurs(x, Settle(extended)) <==> x in Literals(extended);
    } else {
      ConvertLiterals(x, extended);
    }
    OccursConcat(x, Settle(extended), Distribute(dnf[1..], rest));
    OccursConcat(x, [dnf[0]], dnf[1..]);
    assert Occurs(x, [dnf[0]]) <==> x in dnf[0];
    if dnf[1..] == [] {
      assert Distribute(dnf, rest) == Settle(extended);
    } else {
      assert forall es <- dnf[1..] :: es in dnf;
      DistributeLiterals(x, dnf[1..], rest);
    }
  }

  lemma {:induction false} FlattenLiterals(x: Expr, done: seq<Segment>, todo: seq<Segment>)
    requires AreInhabited(done) && AreInhabited(todo)
    ensures OccursInCnf(x, Flatten(done, todo)) <==> OccursInCnf(x, done) || OccursInCnf(x, todo)
    ensures AreInhabited(Flatten(done, todo)) && |Flatten(done, todo)| >= |done| + |todo|
    decreases |todo|
  {
    if todo != [] {
      OccursCnfConcat(x, [todo[0]], todo[1..]);
      assert todo == [todo[0]] + todo[1..] && todo[0] in todo;
      assert OccursInCnf(x, [todo[0]]) <==> OccursIn(x, todo[0]);
      if todo[0].Group? {
        var singles := Singles(todo[0].es);
        ReversedElements(singles);
        OccursInSingles(x, todo[0].es);
        OccursCnfConcat(x, Reversed(singles), done);
        assert OccursInCnf(x, Reversed(singles)) <==> OccursInCnf(x, singles);
        FlattenLiterals(x, Reversed(singles) + done, todo[1..]);
      } else {
        OccursCnfConcat(x, done, [todo[0]]);
        FlattenLiterals(x, done + [todo[0]], todo[1..]);
      }
    }
  }

  lemma {:induction false} ConjunctsLiterals(x: Expr, es: seq<Expr>)
    requires !exists e <- es :: HasDisjunction(e)
    ensures x in Conjuncts(es) <==> exists e <- es :: IsLeafOf(x, e)
  {
    if es != [] {
      assert es == [es[0]] + es[1..] && es[0] in es;
      if es[0].And? {
        ConjunctsLiterals(x, es[0].children);
      }
      ConjunctsLiterals(x, es[1..]);
    }
  }

  lemma {:induction false} AlternativesLiterals(x: Expr, segments: seq<Segment>)
    requires segments != [] && AreInhabited(segments)
    ensures Occurs(x, Alternatives(segments)) <==> OccursInCnf(x, segments)
    ensures IsInhabited(Choice(Alternatives(segments)))
  {
    var first := AlternativesOf(segments[0]);
    assert segments == [segments[0]] + segments[1..] && segments[0] in segments;
    OccursCnfConcat(x, [segments[0]], segments[1..]);
    OccursConcat(x, first, Alternatives(segments[1..]));
    assert OccursInCnf(x, [segments[0]]) <==> OccursIn(x, segments[0]);
    assert IsInhabited(segments[0]);
    assert Occurs(x, first) <==> OccursIn(x, segments[0]) by {
      match segments[0]
      case Single(e) => assert Occurs(x, [[e]]) <==> x in [e];
      case Group(es) => assert Occurs(x, [es]) <==> x in es;
      case Choice(_) =>
    }
    if segments[1..] != [] {
      assert forall segment <- segments[1..] :: segment in segments;
      AlternativesLiterals(x, segments[1..]);
    } else {
      assert Alternatives(segments) == first;
    }
  }

  lemma {:induction false} SegmentLiterals(x: Expr, e: Expr)
    requires HasChildren(e) && SegmentExpression(e).Ok?
    ensures OccursIn(x, SegmentExpression(e).value) <==> IsLeafOf(x, e)
    ensures IsInhabited(SegmentExpression(e).value)
    decreases e, 1
  {
    if !HasDisjunction(e) {
      if e.And? {
        ConjunctsLiterals(x, e.children);
        ConjunctsNotEmpty(e.children);
      }
    } else {
      SegmentAllLiterals(x, e.children);
      var segments := SegmentAll(e.children).value;
      if e.Or? {
        AlternativesLiterals(x, segments);
      } else {
        FlattenIsFlat([], segments);
        FlattenLiterals(x, [], segments);
        SomeChoice(e.children);
        FlattenChoices([], segments);
        ConvertLiterals(x, Flatten([], segments));
        assert forall es <- Convert(Flatten([], segments)) :: |es| >= 1;
      }
    }
  }

  lemma {:induction false} SegmentAllLiterals(x: Expr, es: seq<Expr>)
    requires (forall e <- es :: HasChildren(e)) && SegmentAll(es).Ok?
    ensures var segments := SegmentAll(es).value;
            && |segments| == |es|
            && AreInhabited(segments)
            && (OccursInCnf(x, segments) <==> exists e <- es :: IsLeafOf(x, e))
    decreases es, 0
  {
    if es != [] {
      var first := SegmentExpression(es[0]).value;
      var others := SegmentAll(es[1..]).value;
      assert es == [es[0]] + es[1..] && es[0] in es;
      SegmentLiterals(x, es[0]);
      SegmentAllLiterals(x, es[1..]);
      OccursCnfConcat(x, [first], others);
      assert OccursInCnf(x, [first]) <==> OccursIn(x, first);
    }
  }

  /** The normal form holds the literals of the filter, all of them and no others. */
  lemma SegmentIntoDnfLiterals(x: Expr, e: Expr)
    requires HasChildren(e) && SegmentIntoDnf(e).Ok?
    ensures Occurs(x, SegmentIntoDnf(e).value) <==> IsLeafOf(x, e)
    ensures IsInhabited(Choice(SegmentIntoDnf(e).value))
  {
    var dnf := SegmentIntoDnf(e).value;
    if HasDisjunction(e) {
      SegmentLiterals(x, e);
    } else {
      if e.And? {
        ConjunctsLiterals(x, e.children);
        ConjunctsNotEmpty(e.children);
      }
      assert dnf == [dnf[0]];
      assert Occurs(x, dnf) <==> x in dnf[0];
    }
  }
}
