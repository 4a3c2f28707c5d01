/** Pushing negations inwards by De Morgan's laws. */
module DeMorgan {
  import opened Documents
  import opened FilterExpressions

  /** `resolve`; a negation is left alone unless it stands directly before And or Or. */
  function Resolve(e: Expr): Expr {
    match e
    case Not(child) => ResolveNot(child)
    case And(children) => And(seq(|children|, i requires 0 <= i < |children| => Resolve(children[i])))
    case Or(children) => Or(seq(|children|, i requires 0 <= i < |children| => Resolve(children[i])))
    case _ => e
  }

  /** The result for `Not(child)`: a flipped compound whose negated children are resolved in turn. */
  function ResolveNot(child: Expr): Expr {
    match child
    case And(children) => Or(seq(|children|, i requires 0 <= i < |children| => ResolveNot(children[i])))
    case Or(children) => And(seq(|children|, i requires 0 <= i < |children| => ResolveNot(children[i])))
    case _ => Not(child)
  }

  /**
   * What the caller's own expression has become: the children of a compound are replaced in place,
   * whereas under a negation new compounds are built and the old ones stay as they were.
   */
  function AfterResolve(e: Expr): Expr {
    if e.IsCompound() then Resolve(e) else e
  }

  /** A negation of a compound becomes a compound where it is a child, and stays where it is the whole filter. */
  lemma NegationsAtTheTop(a: Expr, b: Expr, c: Expr)
    requires !a.IsCompound() && !b.IsCompound() && !c.IsCompound() && !a.Not? && !b.Not? && !c.Not?
    ensures var negated := Not(Or([a, b]));
            && Resolve(negated) == And([Not(a), Not(b)]) && AfterResolve(negated) == negated
            && AfterResolve(And([c, negated])) == And([c, And([Not(a), Not(b)])])
            && AfterResolve(Or([negated, c])) == Or([And([Not(a), Not(b)]), c])
  {
    var negated := Not(Or([a, b]));
    assert ResolveNot(a) == Not(a) && ResolveNot(b) == Not(b);
    assert ResolveNot(Or([a, b])).children == [Not(a), Not(b)];
    assert Resolve(c) == c;
    assert Resolve(And([c, negated])).children == [c, Resolve(negated)];
    assert Resolve(Or([negated, c])).children == [Resolve(negated), c];
  }

  lemma {:induction false} ResolveKeepsMeaning(engine: Engine, e: Expr, document: Document)
    ensures Matches(engine, Resolve(e), document) == Matches(engine, e, document)
  {
    match e
    case Not(child) => ResolveNotNegates(engine, child, document);
    case And(children) =>
      forall i | 0 <= i < |children| { ResolveKeepsMeaning(engine, children[i], document); }
      AllOrNone(engine, children, Resolve(e).children, document, true);
    case Or(children) =>
      forall i | 0 <= i < |children| { ResolveKeepsMeaning(engine, children[i], document); }
      AllOrNone(engine, children, Resolve(e).children, document, true);
    case _ =>
  }

  lemma {:induction false} ResolveNotNegates(engine: Engine, child: Expr, document: Document)
    ensures Matches(engine, ResolveNot(child), document) == !Matches(engine, child, document)
  {
    match child
    case And(children) =>
      forall i | 0 <= i < |children| { ResolveNotNegates(engine, children[i], document); }
      AllOrNone(engine, children, ResolveNot(child).children, document, false);
    case Or(children) =>
      forall i | 0 <= i < |children| { ResolveNotNegates(engine, children[i], document); }
      AllOrNone(engine, children, ResolveNot(child).children, document, false);
    case _ =>
  }

  /** Conjunction and disjunction of lists that agree, or disagree, place by place. */
  lemma AllOrNone(engine: Engine, es: seq<Expr>, fs: seq<Expr>, document: Document, same: bool)
    requires |es| == |fs|
    requires forall i | 0 <= i < |es| ::
               Matches(engine, fs[i], document) == (Matches(engine, es[i], document) == same)
    ensures same ==> Matches(engine, And(fs), document) == Matches(engine, And(es), document)
    ensures same ==> Matches(engine, Or(fs), document) == Matches(engine, Or(es), document)
    ensures !same ==> Matches(engine, And(fs), document) == !Matches(engine, Or(es), document)
    ensures !same ==> Matches(engine, Or(fs), document) == !Matches(engine, And(es), document)
  {
    assert forall i | 0 <= i < |es| :: es[i] in es && fs[i] in fs;
  }

  /** After resolving, And and Or occur only above negations, or below a double one. */
  predicate IsResolved(e: Expr) {
    match e
    case Not(child) => !child.IsCompound()
    case And(children) => forall child <- children :: IsResolved(child)
    case Or(children) => forall child <- children :: IsResolved(child)
    case _ => true
  }

  lemma {:induction false} ResolveResolves(e: Expr)
    ensures IsResolved(Resolve(e))
    ensures HasChildren(e) ==> HasChildren(Resolve(e))
    ensures HasKeys(e) ==> HasKeys(Resolve(e))
  {
    match e
    case Not(child) => ResolveNotResolves(child);
    case And(children) => forall i | 0 <= i < |children| { ResolveResolves(children[i]); }
    case Or(children) => forall i | 0 <= i < |children| { ResolveResolves(children[i]); }
    case _ =>
  }

  lemma {:induction false} ResolveNotResolves(child: Expr)
    ensures IsResolved(ResolveNot(child))
    ensures HasChildren(child) ==> HasChildren(ResolveNot(child))
    ensures HasKeys(child) ==> HasKeys(ResolveNot(child))
  {
    match child
    case And(children) => forall i | 0 <= i < |children| { ResolveNotResolves(children[i]); }
    case Or(children) => forall i | 0 <= i < |children| { ResolveNotResolves(children[i]); }
    case _ =>
  }

  lemma {:induction false} ResolvedIsFixed(e: Expr)
    requires IsResolved(e)
    ensures Resolve(e) == e
  {
    if e.IsCompound() {
      forall i | 0 <= i < |e.children| ensures Resolve(e.children[i]) == e.children[i] {
        assert e.children[i] in e.children;
        ResolvedIsFixed(e.children[i]);
      }
      assert Resolve(e).children == e.children;
    }
  }

  /** Resolving an expression that was already rewritten in place gives the same again. */
  lemma ResolveAgain(e: Expr)
    ensures Resolve(AfterResolve(e)) == Resolve(e)
    ensures AfterResolve(AfterResolve(e)) == AfterResolve(e)
  {
    ResolveResolves(e);
    ResolvedIsFixed(Resolve(e));
  }

  /** The caller's expression still means what it meant. */
  lemma AfterResolveKeepsMeaning(engine: Engine, e: Expr, document: Document)
    ensures Matches(engine, AfterResolve(e), document) == Matches(engine, e, document)
  {
    ResolveKeepsMeaning(engine, e, document);
  }
}
