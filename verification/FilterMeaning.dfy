/** What filters say about known fields. */
module FilterMeaning {
  import opened Common
  import opened Documents
  import opened FilterExpressions
  import opened EventFields

  /** What an expression on a field says where the field has this value. */
  lemma FieldDecides(engine: Engine, e: Expr, document: Document)
    requires e.IsKeyBased()
    ensures FieldValue(e.key, document).None? ==> !Matches(engine, e, document)
    ensures FieldValue(e.key, document).Some? ==>
              var value := FieldValue(e.key, document).value;
              && (e.Exists? ==> Matches(engine, e, document))
              && (e.IsNull? ==> (Matches(engine, e, document) <==> value == Null))
              && (e.StringIs? && value.List? ==>
                    (Matches(engine, e, document)
                     <==> exists i :: 0 <= i < |value.items| && value.items[i] == Str(e.expected)))
              && (e.StringIs? && !value.List? ==>
                    (Matches(engine, e, document) <==> engine.ToText(value) == e.expected))
              && (e.IntegerIs? ==>
                    (Matches(engine, e, document)
                     <==> || value == Int(e.number)
                          || (value == Bool(true) && e.number == 1) || (value == Bool(false) && e.number == 0)))
              && (e.Other? ==> (Matches(engine, e, document) <==> engine.Tests(e.kind, e.text, value)))
  {
  }

  /** Negations, conjunctions and disjunctions are those of their children; `Always` says what it holds. */
  lemma PartsDecide(engine: Engine, e: Expr, document: Document)
    ensures e.Always? ==> (Matches(engine, e, document) <==> e.value)
    ensures e.Not? ==> (Matches(engine, e, document) <==> !Matches(engine, e.child, document))
    ensures e.And? ==>
              (Matches(engine, e, document)
               <==> forall i | 0 <= i < |e.children| :: Matches(engine, e.children[i], document))
    ensures e.Or? ==>
              (Matches(engine, e, document)
               <==> exists i :: 0 <= i < |e.children| && Matches(engine, e.children[i], document))
  {
    if e.And? && forall i | 0 <= i < |e.children| :: Matches(engine, e.children[i], document) {
      assert forall child <- e.children :: Matches(engine, child, document);
    }
    if e.Or? && exists i :: 0 <= i < |e.children| && Matches(engine, e.children[i], document) {
      var i :| 0 <= i < |e.children| && Matches(engine, e.children[i], document);
      assert e.children[i] in e.children;
    }
  }

  /** An added field exists and has the added value; a popped one does not exist. */
  lemma AddedFieldMatches(engine: Engine, fields: Document, path: seq<string>, content: Value, expected: string)
    requires path != [] && Add(fields, path, content, false, false).Ok? && !content.List?
    ensures var after := Add(fields, path, content, false, false).value;
            && Matches(engine, Exists(path), after)
            && (Matches(engine, StringIs(path, expected), after) <==> engine.ToText(content) == expected)
            && !Matches(engine, Exists(path), Pop(after, path).left)
  {
    hide Add, Pop, Walk;
    AddReadsBack(fields, path, content, false);
    PopTakesOut(Add(fields, path, content, false, false).value, path, []);
  }
}
