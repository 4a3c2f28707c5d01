/** Adding fields to events and popping them. */
module EventFields {
  import opened Common
  import opened Documents

  datatype AddError = ConflictingFlags | FieldExists

  predicate IsScalar(value: Value) { value.Bool? || value.Int? || value.Str? }

  /** Python's truth value. */
  predicate IsTruthy(value: Value) {
    match value
    case Null => false
    case Bool(b) => b
    case Int(n) => n != 0
    case Str(s) => s != ""
    case List(items) => items != []
    case Dict(fields) => fields != map[]
  }

  /** What merging leaves in the target, if the types allow it. */
  function Merged(existing: Value, content: Value): Option<Value> {
    if existing.Dict? && content.Dict? then Some(Dict(existing.fields + content.fields))
    else if existing.List? && content.List? then Some(List(existing.items + content.items))
    else if existing.List? && IsScalar(content) then Some(List(existing.items + [content]))
    else if IsScalar(existing) && content.List? then Some(List([existing] + content.items))
    else None
  }

  /**
   * Of dictionaries the content's entries win; lists follow one another; a scalar is added to a list at
   * its end, or in front of one that is added to it. Nothing else can be merged.
   */
  lemma MergedExactly(existing: Value, content: Value)
    ensures existing.Dict? && content.Dict? ==>
              var merged := Merged(existing, content);
              && merged.Some? && merged.value.Dict?
              && merged.value.fields.Keys == existing.fields.Keys + content.fields.Keys
              && forall key <- merged.value.fields ::
                   merged.value.fields[key]
                   == if key in content.fields then content.fields[key] else existing.fields[key]
    ensures existing.List? || content.List? ==>
              var front, end := if existing.List? then existing.items else [existing],
                                if content.List? then content.items else [content];
              Merged(existing, content)
              == if (existing.List? || IsScalar(existing)) && (content.List? || IsScalar(content)) then
                   Some(List(front + end))
                 else None
    ensures !(existing.Dict? && content.Dict?) && !existing.List? && !content.List? ==>
              Merged(existing, content) == None
  {
  }

  /** The last step of `_add_field_to`, in the dictionary that holds the target. */
  function AddLeaf(fields: Document, key: string, content: Value, merge: bool, overwrite: bool)
    : Result<Document, AddError>
  {
    if overwrite || key !in fields || fields[key].Null? then Ok(fields[key := content])
    else if merge && Merged(fields[key], content).Some? then Ok(fields[key := Merged(fields[key], content).value])
    else Err(FieldExists)
  }

  /** `_add_field_to`, behind the check of the flags. */
  function Add(fields: Document, path: seq<string>, content: Value, merge: bool, overwrite: bool)
    : Result<Document, AddError>
    requires path != []
    decreases |path|
  {
    var key := path[0];
    if |path| == 1 then AddLeaf(fields, key, content, merge, overwrite)
    else if key in fields && !fields[key].Dict? && !overwrite then Err(FieldExists)
    else
      var parent := if key in fields && fields[key].Dict? then fields[key].fields else map[];
      var sub :- Add(parent, path[1..], content, merge, overwrite);
      Ok(fields[key := Dict(sub)])
  }

  /** A popped value, and what is left. */
  datatype Popped = Popped(value: Option<Value>, left: Document)

  /** `_pop_field_value_and_drop_empty`. */
  function Pop(fields: Document, path: seq<string>): Popped
    requires path != []
    decreases |path|
  {
    var key := path[0];
    if key !in fields then Popped(None, fields)
    else if |path| == 1 then Popped(Some(fields[key]), fields - {key})
    else
      var popped := if fields[key].Dict? then Pop(fields[key].fields, path[1..]) else Popped(None, map[]);
      var value := if fields[key].Dict? then Dict(popped.left) else fields[key];
      Popped(popped.value, if IsTruthy(value) then fields[key := value] else fields - {key})
  }

  // ---------------------------------------------------------------------- adding

  predicate IsPrefix(p: seq<string>, q: seq<string>) { p <= q }

  /** Neither path leads through the other. */
  predicate AreApart(p: seq<string>, q: seq<string>) { !IsPrefix(p, q) && !IsPrefix(q, p) }

  lemma ApartBehindFirst(p: seq<string>, q: seq<string>)
    requires AreApart(p, q) && p[0] == q[0]
    ensures AreApart(p[1..], q[1..])
  {
    assert p == [p[0]] + p[1..] && q == [q[0]] + q[1..];
  }

  lemma {:induction false} AddReadsBack(fields: Document, path: seq<string>, content: Value, overwrite: bool)
    requires path != [] && Add(fields, path, content, false, overwrite).Ok?
    ensures Walk(path, Dict(Add(fields, path, content, false, overwrite).value)) == Some(content)
    decreases |path|
  {
    if |path| == 1 {
      assert path[1..] == [];
    } else {
      var parent := if path[0] in fields && fields[path[0]].Dict? then fields[path[0]].fields else map[];
      AddReadsBack(parent, path[1..], content, overwrite);
    }
  }

  /** With merging, what is at the target is the content where nothing or none was, else the two merged. */
  lemma {:induction false} AddMerges(fields: Document, path: seq<string>, content: Value)
    requires path != [] && Add(fields, path, content, true, false).Ok?
    ensures var before := Walk(path, Dict(fields));
            Walk(path, Dict(Add(fields, path, content, true, false).value))
            == if before.None? || before.value.Null? then Some(content) else Merged(before.value, content)
    decreases |path|
  {
    hide Merged;
    if |path| == 1 {
      assert path[1..] == [];
    } else {
      var isDict := path[0] in fields && fields[path[0]].Dict?;
      var parent := if isDict then fields[path[0]].fields else map[];
      AddMerges(parent, path[1..], content);
      if !isDict {
        NothingInEmpty(path[1..]);
      }
    }
  }

  /** With overwriting a field is always added, whatever is in its way. */
  lemma {:induction false} OverwritingAdds(fields: Document, path: seq<string>, content: Value, merge: bool)
    requires path != []
    ensures Add(fields, path, content, merge, true).Ok?
    ensures Walk(path, Dict(Add(fields, path, content, merge, true).value)) == Some(content)
    decreases |path|
  {
    if |path| == 1 {
      assert path[1..] == [];
    } else {
      var parent := if path[0] in fields && fields[path[0]].Dict? then fields[path[0]].fields else map[];
      OverwritingAdds(parent, path[1..], content, merge);
    }
  }

  /** Adding, merging and overwriting leave every field alone that is neither above nor below the target. */
  lemma {:induction false} AddLeavesOthers(
    fields: Document, path: seq<string>, content: Value, merge: bool, overwrite: bool, other: seq<string>)
    requires path != [] && Add(fields, path, content, merge, overwrite).Ok? && AreApart(path, other)
    ensures Walk(other, Dict(Add(fields, path, content, merge, overwrite).value)) == Walk(other, Dict(fields))
    decreases |path|
  {
    assert other != [];
    if other[0] == path[0] {
      ApartBehindFirst(path, other);
      if |path| > 1 {
        var isDict := path[0] in fields && fields[path[0]].Dict?;
        var parent := if isDict then fields[path[0]].fields else map[];
        AddLeavesOthers(parent, path[1..], content, merge, overwrite, other[1..]);
        assert other[1..] != [];
      }
    }
  }

  /** Every part of the path that is there is a dictionary, but for the target, which may be none. */
  ghost predicate HasRoom(fields: Document, path: seq<string>) {
    && (forall n | 0 < n < |path| && Walk(path[..n], Dict(fields)).Some? :: Walk(path[..n], Dict(fields)).value.Dict?)
    && (Walk(path, Dict(fields)).Some? ==> Walk(path, Dict(fields)).value.Null?)
  }

  lemma {:induction false} PathInside(fields: Document, path: seq<string>, n: nat)
    requires 0 < n <= |path|
    ensures Walk(path[..n], Dict(fields))
         == if path[0] in fields then Walk(path[1..][..n - 1], fields[path[0]]) else None
  {
    assert path[..n][1..] == path[1..][..n - 1];
  }

  /** Without merging and overwriting, a field is added exactly if there is room for it. */
  lemma {:induction false} AddsExactly(fields: Document, path: seq<string>, content: Value)
    requires path != []
    ensures Add(fields, path, content, false, false).Ok? <==> HasRoom(fields, path)
    decreases |path|
  {
    var key, rest := path[0], path[1..];
    assert path[..|path|] == path;
    PathInside(fields, path, 1);
    assert rest[..0] == [] && rest[..|rest|] == rest;
    if |path| > 1 && (key in fields ==> fields[key].Dict?) {
      var parent := if key in fields then fields[key].fields else map[];
      AddsExactly(parent, rest, content);
      forall n | 0 < n <= |path|
        ensures Walk(path[..n], Dict(fields)) == if key in fields then Walk(rest[..n - 1], Dict(parent)) else None
      {
        PathInside(fields, path, n);
      }
      forall n | 0 < n <= |rest| ensures key !in fields ==> Walk(rest[..n], Dict(parent)).None? {
      }
      InsideHasRoom(fields, path, parent);
    }
  }

  lemma InsideHasRoom(fields: Document, path: seq<string>, parent: Document)
    requires |path| > 1
    requires forall n | 0 < n <= |path| ::
               Walk(path[..n], Dict(fields))
               == if path[0] in fields then Walk(path[1..][..n - 1], Dict(parent)) else None
    requires path[0] !in fields ==> parent == map[]
    ensures HasRoom(fields, path) <==> HasRoom(parent, path[1..])
  {
    var rest := path[1..];
    assert path[..|path|] == path && rest[..|rest|] == rest && rest[..0] == [];
    if HasRoom(fields, path) {
      forall n | 0 < n < |rest| && Walk(rest[..n], Dict(parent)).Some?
        ensures Walk(rest[..n], Dict(parent)).value.Dict?
      {
        assert Walk(path[..n + 1], Dict(fields)) == Walk(rest[..n], Dict(parent));
      }
    }
    if HasRoom(parent, rest) {
      forall n | 0 < n < |path| && Walk(path[..n], Dict(fields)).Some?
        ensures Walk(path[..n], Dict(fields)).value.Dict?
      {
        assert Walk(path[..n], Dict(fields)) == Walk(rest[..n - 1], Dict(parent));
      }
    }
  }

  // --------------------------------------------------------------------- popping

  /** What is popped is what was there, and then it is gone; fields apart from it stay. */
  lemma {:induction false} PopTakesOut(fields: Document, path: seq<string>, other: seq<string>)
    requires path != []
    ensures Pop(fields, path).value == Walk(path, Dict(fields))
    ensures Walk(path, Dict(Pop(fields, path).left)).None?
    ensures AreApart(path, other) ==> Walk(other, Dict(Pop(fields, path).left)) == Walk(other, Dict(fields))
    decreases |path|
  {
    var key := path[0];
    if |path| == 1 {
      assert path[1..] == [];
      if AreApart(path, other) {
        assert other[0] == key ==> IsPrefix(path, other);
      }
    } else if key in fields && fields[key].Dict? {
      if AreApart(path, other) && other[0] == key {
        ApartBehindFirst(path, other);
      }
      PopTakesOut(fields[key].fields, path[1..], other[if other == [] then 0 else 1..]);
    } else if AreApart(path, other) && other[0] == key {
      ApartBehindFirst(path, other);
    }
  }

  /** The deepest value that the path leads to is the event, or is not empty in Python's sense. */
  predicate EndsTruthy(fields: Document, path: seq<string>)
    requires path != []
    decreases |path|
  {
    |path| == 1 || path[0] !in fields
    || (IsTruthy(fields[path[0]]) && (fields[path[0]].Dict? ==> EndsTruthy(fields[path[0]].fields, path[1..])))
  }

  /** Popping a field that is not there changes nothing exactly if the path ends at something truthy. */
  lemma {:induction false} PopOfAbsent(fields: Document, path: seq<string>)
    requires path != [] && Walk(path, Dict(fields)).None?
    ensures Pop(fields, path).left == fields <==> EndsTruthy(fields, path)
    decreases |path|
  {
    if |path| == 1 {
      assert path[1..] == [];
    } else if path[0] in fields && fields[path[0]].Dict? {
      PopOfAbsent(fields[path[0]].fields, path[1..]);
    }
  }

  /** An event of one field that holds a zero: popping a field below it, which cannot be there, deletes it. */
  lemma PopDeletesOther()
    ensures var event := map["a" := Int(0)];
            Walk(["a", "b"], Dict(event)).None? && Pop(event, ["a", "b"]) == Popped(None, map[])
  {
    var event := map["a" := Int(0)];
    assert event - {"a"} == map[];
  }

  /** What is lost by popping a field below a value: the value, if it is none, false, zero or empty. */
  lemma PopBelowExactly(value: Value)
    requires !value.Dict?
    ensures Pop(map["a" := value], ["a", "b"]).left
         == if value in {Null, Bool(false), Int(0), Str(""), List([])} then map[] else map["a" := value]
  {
    var event := map["a" := value];
    assert event - {"a"} == map[] && event["a" := value] == event;
  }

  /**
   * Popping a field that was just added restores the event exactly if the field was not there, and
   * if the deepest dictionary that was there is not empty or is the event itself.
   */
  lemma {:induction false} AddThenPop(fields: Document, path: seq<string>, content: Value)
    requires path != [] && Add(fields, path, content, false, false).Ok?
    ensures Pop(Add(fields, path, content, false, false).value, path).value == Some(content)
    ensures Pop(Add(fields, path, content, false, false).value, path).left == fields
            <==> Walk(path, Dict(fields)).None? && EndsTruthy(fields, path)
    decreases |path|
  {
    var key := path[0];
    if |path| == 1 {
      assert path[1..] == [];
    } else {
      var parent := if key in fields then fields[key].fields else map[];
      AddThenPop(parent, path[1..], content);
      var sub := Add(parent, path[1..], content, false, false).value;
      if key !in fields {
        NothingInEmpty(path[1..]);
      }
    }
  }

  lemma NothingInEmpty(path: seq<string>)
    requires path != []
    ensures Walk(path, Dict(map[])).None? && EndsTruthy(map[], path)
  {
  }

  // --------------------------------------------------------------- several fields

  datatype Target = Target(path: seq<string>, content: Value)

  /** The targets that could not be written, and the event behind the attempts. */
  datatype Batch = Batch(failed: seq<seq<string>>, event: Document)

  /** None is not added. */
  function WithoutNone(targets: seq<Target>): (some: seq<Target>)
    ensures forall target <- some :: target in targets && !target.content.Null?
  {
    if targets == [] then []
    else (if targets[0].content.Null? then [] else [targets[0]]) + WithoutNone(targets[1..])
  }

  /** One attempt for each target. */
  function AddEach(event: Document, targets: seq<Target>, merge: bool, overwrite: bool): Batch
    requires forall target <- targets :: target.path != []
  {
    if targets == [] then Batch([], event)
    else
      var last, before := targets[|targets| - 1], AddEach(event, targets[..|targets| - 1], merge, overwrite);
      match Add(before.event, last.path, last.content, merge, overwrite)
      case Ok(after) => Batch(before.failed, after)
      case Err(_) => Batch(before.failed + [last.path], before.event)
  }

  /** The targets for which there is no room in the event. */
  ghost function WithoutRoom(event: Document, targets: seq<Target>): seq<seq<string>> {
    if targets == [] then []
    else
      var last, before := targets[|targets| - 1], WithoutRoom(event, targets[..|targets| - 1]);
      if HasRoom(event, last.path) then before else before + [last.path]
  }

  ghost predicate AllApart(targets: seq<Target>) {
    forall i, j | 0 <= i < j < |targets| :: AreApart(targets[i].path, targets[j].path)
  }

  /** The path leads through dictionaries to the field. */
  lemma {:induction false} AddMakesDicts(fields: Document, path: seq<string>, content: Value, n: nat)
    requires n < |path| && Add(fields, path, content, false, false).Ok?
    ensures var walk := Walk(path[..n], Dict(Add(fields, path, content, false, false).value));
            walk.Some? && walk.value.Dict?
    decreases n
  {
    if n > 0 {
      var parent := if path[0] in fields then fields[path[0]].fields else map[];
      AddMakesDicts(parent, path[1..], content, n - 1);
      assert path[..n][1..] == path[1..][..n - 1];
    }
  }

  /** Adding a field neither makes nor takes room for a field apart from it. */
  lemma AddKeepsRoom(fields: Document, path: seq<string>, content: Value, other: seq<string>)
    requires path != [] && Add(fields, path, content, false, false).Ok? && AreApart(path, other)
    ensures HasRoom(Add(fields, path, content, false, false).value, other) <==> HasRoom(fields, other)
  {
    hide Add, Walk;
    var after := Add(fields, path, content, false, false).value;
    AddsExactly(fields, path, content);
    AddLeavesOthers(fields, path, content, false, false, other);
    forall n | 0 < n < |other|
      ensures Walk(other[..n], Dict(after)) == Walk(other[..n], Dict(fields))
           || (Walk(other[..n], Dict(after)).Some? && Walk(other[..n], Dict(after)).value.Dict?
               && (Walk(other[..n], Dict(fields)).Some? ==> Walk(other[..n], Dict(fields)).value.Dict?))
    {
      if AreApart(path, other[..n]) {
        AddLeavesOthers(fields, path, content, false, false, other[..n]);
      } else {
        assert IsPrefix(other[..n], path) && !IsPrefix(path, other[..n]);
        assert path[..n] == other[..n];
        AddMakesDicts(fields, path, content, n);
      }
    }
  }

  /**
   * Adding several fields apart from one another, in whatever order: those fail, and are reported,
   * for which there was no room to begin with; all others read back, and nothing else changes.
   */
  lemma {:induction false} BatchIsIndependent(event: Document, targets: seq<Target>)
    requires (forall target <- targets :: target.path != []) && AllApart(targets)
    ensures AddEach(event, targets, false, false).failed == WithoutRoom(event, targets)
    ensures forall target <- targets | HasRoom(event, target.path) ::
              Walk(target.path, Dict(AddEach(event, targets, false, false).event)) == Some(target.content)
    ensures forall other | forall target <- targets :: AreApart(target.path, other) ::
              Walk(other, Dict(AddEach(event, targets, false, false).event)) == Walk(other, Dict(event))
              && (HasRoom(AddEach(event, targets, false, false).event, other) <==> HasRoom(event, other))
  {
    hide Add, Walk, HasRoom, AreApart;
    if targets != [] {
      var last, others := targets[|targets| - 1], targets[..|targets| - 1];
      var before := AddEach(event, others, false, false).event;
      BatchIsIndependent(event, others);
      assert forall target <- others :: AreApart(target.path, last.path);
      AddsExactly(before, last.path, last.content);
      if Add(before, last.path, last.content, false, false).Ok? {
        AddReadsBack(before, last.path, last.content, false);
        var after := Add(before, last.path, last.content, false, false).value;
        forall other | AreApart(last.path, other)
          ensures Walk(other, Dict(after)) == Walk(other, Dict(before))
          ensures HasRoom(after, other) <==> HasRoom(before, other)
        {
          AddLeavesOthers(before, last.path, last.content, false, false, other);
          AddKeepsRoom(before, last.path, last.content, other);
        }
        forall target <- others ensures AreApart(last.path, target.path) {
          ApartIsSymmetric(target.path, last.path);
        }
      }
    }
  }

  lemma ApartIsSymmetric(p: seq<string>, q: seq<string>)
    ensures AreApart(p, q) == AreApart(q, p)
  {
  }
}
