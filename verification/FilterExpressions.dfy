/** Filter expressions: matching and printing. */
module FilterExpressions {
  import opened Common
  import opened Documents
  import DottedFields

  /**
   * Expressions whose test is foreign code (a regular expression, a number parser) carry the text
   * they were built from; `Engine.Tests` stands for that code.
   */
  datatype Opaque =
    | Wildcard
    | Sigma
    | RegEx
    | NumericRange(includeLower: bool, includeUpper: bool)
    | StringRange(includeLower: bool, includeUpper: bool)

  datatype Expr =
    | Always(value: bool)
    | Not(child: Expr)
    | And(children: seq<Expr>)
    | Or(children: seq<Expr>)
    | Exists(key: seq<string>)
    | IsNull(key: seq<string>)
    | StringIs(key: seq<string>, expected: string)
    | IntegerIs(key: seq<string>, number: int)
    | Other(key: seq<string>, kind: Opaque, text: string)
  {
    predicate IsCompound() { And? || Or? }

    predicate IsKeyBased() { Exists? || IsNull? || StringIs? || IntegerIs? || Other? }
  }

  /** Everything the filters take from outside: `str(value)` and the foreign tests. */
  datatype Engine = Engine(ToText: Value -> string, Tests: (Opaque, string, Value) -> bool)

  /** The test that a key based expression makes once its field was found. */
  predicate Test(engine: Engine, e: Expr, value: Value)
    requires e.IsKeyBased()
  {
    match e
    case Exists(_) => true
    case IsNull(_) => value.Null?
    case StringIs(_, expected) =>
      if value.List? then Str(expected) in value.items else engine.ToText(value) == expected
    case IntegerIs(_, number) =>
      // a Python bool compares equal to 0 or 1
      value == Int(number) || (value.Bool? && number == if value.b then 1 else 0)
    case Other(_, kind, text) => engine.Tests(kind, text, value)
  }

  /** `matches`: a missing key makes the expression, not its parent, false. */
  predicate Matches(engine: Engine, e: Expr, document: Document) {
    match e
    case Always(value) => value
    case Not(child) => !Matches(engine, child, document)
    case And(children) => forall child <- children :: Matches(engine, child, document)
    case Or(children) => exists child <- children :: Matches(engine, child, document)
    case _ =>
      match FieldValue(e.key, document)
      case Some(value) => Test(engine, e, value)
      case None => false
  }

  /** A list of expressions read as a conjunction. */
  ghost predicate AllMatch(engine: Engine, es: seq<Expr>, document: Document) {
    forall e <- es :: Matches(engine, e, document)
  }

  /** A list of such lists read as a disjunction. */
  ghost predicate SomeMatch(engine: Engine, dnf: seq<seq<Expr>>, document: Document) {
    exists es <- dnf :: AllMatch(engine, es, document)
  }

  /** Every conjunction has a conjunct, as the filter language guarantees. */
  predicate HasChildren(e: Expr) {
    match e
    case Not(child) => HasChildren(child)
    case And(children) => children != [] && forall child <- children :: HasChildren(child)
    case Or(children) => children != [] && forall child <- children :: HasChildren(child)
    case _ => true
  }

  /** Every key names a field, as `get_dotted_field_list` guarantees. */
  predicate HasKeys(e: Expr) {
    match e
    case Not(child) => HasKeys(child)
    case And(children) => forall child <- children :: HasKeys(child)
    case Or(children) => forall child <- children :: HasKeys(child)
    case Always(_) => true
    case _ => e.key != []
  }

  /** A literal that matches finds its field. */
  lemma MatchNeedsKey(engine: Engine, e: Expr, document: Document)
    requires e.IsKeyBased() && Matches(engine, e, document)
    ensures Matches(engine, Exists(e.key), document)
  {
  }

  function JoinRepr(es: seq<Expr>, separator: string): string {
    if es == [] then ""
    else if |es| == 1 then Repr(es[0])
    else Repr(es[0]) + separator + JoinRepr(es[1..], separator)
  }

  /** What a key based expression prints after its key and colon. */
  function TestRepr(e: Expr): string
    requires e.IsKeyBased()
  {
    match e
    case Exists(_) => " *"
    case IsNull(_) => "None"
    case StringIs(_, expected) => "\"" + expected + "\""
    case IntegerIs(_, number) => IntText(number)
    case Other(_, kind, text) =>
      match kind
      case Wildcard => "\"" + text + "\""
      case Sigma => "\"" + text + "\""
      case RegEx => "/" + text + "/"
      case _ =>
        (if kind.includeLower then "[" else "{") + text + (if kind.includeUpper then "]" else "}")
  }

  /** `repr` of an expression. */
  function Repr(e: Expr): string {
    match e
    case Always(value) => if value then "*" else ""
    case Not(child) => "NOT (" + Repr(child) + ")"
    case And(children) => "(" + JoinRepr(children, " AND ") + ")"
    case Or(children) => "(" + JoinRepr(children, " OR ") + ")"
    case _ => DottedFields.ToDotted(e.key) + ":" + TestRepr(e)
  }

  /** How expressions on a field are printed. */
  lemma FieldsPrint(key: seq<string>, text: string, number: int)
    ensures var start, quoted := DottedFields.ToDotted(key) + ":", "\"" + text + "\"";
            && Repr(Exists(key)) == start + " *" && Repr(IsNull(key)) == start + "None"
            && Repr(StringIs(key, text)) == start + quoted && Repr(IntegerIs(key, number)) == start + IntText(number)
            && Repr(Other(key, Wildcard, text)) == start + quoted && Repr(Other(key, Sigma, text)) == start + quoted
            && Repr(Other(key, RegEx, text)) == start + ("/" + text + "/")
            && Repr(Other(key, NumericRange(true, false), text)) == start + ("[" + text + "}")
            && Repr(Other(key, StringRange(false, true), text)) == start + ("{" + text + "]")
  {
    hide DottedFields.ToDotted, IntText;
  }

  /** How the other expressions are printed. */
  lemma CompoundsPrint(a: Expr, b: Expr)
    ensures Repr(Always(true)) == "*" && Repr(Always(false)) == "" && Repr(Not(a)) == "NOT (" + Repr(a) + ")"
    ensures Repr(And([a, b])) == "(" + (Repr(a) + " AND " + Repr(b)) + ")"
    ensures Repr(Or([a, b])) == "(" + (Repr(a) + " OR " + Repr(b)) + ")"
  {
    TwoJoined(a, b, " AND ");
    TwoJoined(a, b, " OR ");
  }

  lemma TwoJoined(a: Expr, b: Expr, separator: string)
    ensures JoinRepr([a, b], separator) == Repr(a) + separator + Repr(b)
  {
    assert [a, b][1..] == [b];
  }

  /** What remains of an expression when its negations are taken off. */
  function Base(e: Expr): Expr {
    if e.Not? then Base(e.child) else e
  }

  /** Expressions that print alike differ at most in the test of one field. */
  lemma {:induction false} ReprShowsBase(a: Expr, b: Expr)
    requires Repr(a) == Repr(b)
    ensures Base(a).Always? == Base(b).Always?
    ensures Base(a).IsCompound() == Base(b).IsCompound()
    ensures a.Not? == b.Not?
    decreases a, b
  {
    ReprEnds(a);
    ReprEnds(b);
    if a.Not? && b.Not? {
      var inner := Repr(a)[5..|Repr(a)| - 1];
      assert Repr(a.child) == inner == Repr(b.child);
      ReprShowsBase(a.child, b.child);
    }
  }

  /** The first and the last character tell the kinds of expressions apart. */
  lemma {:induction false} ReprEnds(e: Expr)
    ensures e.IsKeyBased() ==> ':' in Repr(e) && Repr(e)[|Repr(e)| - 1] != ')'
    ensures e.IsCompound() ==> |Repr(e)| >= 2 && Repr(e)[0] == '(' && Repr(e)[|Repr(e)| - 1] == ')'
    ensures e.Not? ==> |Repr(e)| >= 6 && Repr(e)[0] == 'N' && Repr(e)[|Repr(e)| - 1] == ')'
    ensures e.Always? ==> |Repr(e)| < 2 && ':' !in Repr(e) && (Repr(e) != "" ==> Repr(e)[0] == '*')
  {
    if e.IsKeyBased() {
      var dotted := DottedFields.ToDotted(e.key);
      assert Repr(e) == dotted + ":" + TestRepr(e);
      assert Repr(e)[|dotted|] == ':';
      var last := TestRepr(e)[|TestRepr(e)| - 1];
      assert Repr(e)[|Repr(e)| - 1] == last;
      assert last != ')';
    }
  }
}
