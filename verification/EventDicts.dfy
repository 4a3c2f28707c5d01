/** Nested dictionaries as objects: adding and popping fields in place, as the functions on documents say. */
module EventDicts {
  import opened Common
  import opened Documents
  import opened EventFields

  /** Lists are told by their contents, dictionaries are objects. */
  datatype Item = Leaf(value: Value) | Sub(dict: JsonDict)

  class JsonDict {
    var fields: map<string, Item>
    ghost var contents: Document
    ghost var Repr: set<object>

    /** The dictionaries below form a tree, and `contents` is what they say. */
    ghost predicate Valid()
      reads this, Repr
      decreases Repr
    {
      && this in Repr
      && fields.Keys == contents.Keys
      && (forall key <- fields :: Holds(key))
      && forall a, b | a in fields && b in fields && a != b && fields[a].Sub? && fields[b].Sub? ::
           fields[a].dict.Repr !! fields[b].dict.Repr
    }

    ghost predicate Holds(key: string)
      requires this in Repr && key in fields && fields.Keys == contents.Keys
      reads this, Repr
      decreases Repr, 0
    {
      match fields[key]
      case Leaf(value) => !value.Dict? && contents[key] == value
      case Sub(dict) =>
        && dict in Repr && dict.Repr <= Repr - {this} && dict.Valid()
        && contents[key] == Dict(dict.contents)
    }

    constructor ()
      ensures Valid() && fresh(Repr) && contents == map[] && Repr == {this}
    {
      fields, contents, Repr := map[], map[], {this};
    }

    /** `d[key] = item`, for an item that the dictionary does not yet hold. */
    method Put(key: string, item: Item, ghost value: Value)
      requires Valid() && IsItem(item, value)
      requires item.Sub? ==> item.dict.Repr !! Repr
      modifies this
      ensures Valid() && contents == old(contents)[key := value]
      ensures fields == old(fields)[key := item]
      ensures Repr == old(Repr) + ItemRepr(item)
    {
      fields := fields[key := item];
      contents := contents[key := value];
      Repr := Repr + ItemRepr(item);
    }

    /** All is well but for the dictionary at the key, which was updated in place. */
    ghost predicate ValidBut(key: string)
      reads this, Repr
    {
      && this in Repr && key in fields && fields[key].Sub?
      && fields.Keys == contents.Keys
      && (forall other <- fields | other != key :: Holds(other))
      && forall a, b | a in fields && b in fields && a != b && a != key && b != key
             && fields[a].Sub? && fields[b].Sub? ::
           fields[a].dict.Repr !! fields[b].dict.Repr
    }

    /** Takes note of an update of the dictionary at the key. */
    ghost method Note(key: string)
      requires ValidBut(key) && fields[key].dict.Valid() && this !in fields[key].dict.Repr
      requires forall other <- fields | other != key && fields[other].Sub? ::
                 fields[other].dict.Repr !! fields[key].dict.Repr
      modifies this`contents, this`Repr
      ensures Valid() && Repr == old(Repr) + fields[key].dict.Repr
      ensures contents == old(contents)[key := Dict(fields[key].dict.contents)]
    {
      contents := contents[key := Dict(fields[key].dict.contents)];
      Repr := Repr + fields[key].dict.Repr;
    }

    /** `del d[key]`. */
    method Delete(key: string)
      requires Valid() && key in fields
      modifies this
      ensures Valid() && contents == old(contents) - {key} && Repr == old(Repr)
    {
      fields := fields - {key};
      contents := contents - {key};
    }
  }

  ghost predicate IsItem(item: Item, value: Value)
    reads if item.Sub? then {item.dict} else {}, if item.Sub? then item.dict.Repr else {}
  {
    match item
    case Leaf(leaf) => !leaf.Dict? && leaf == value
    case Sub(dict) => dict.Valid() && value == Dict(dict.contents)
  }

  ghost function ItemRepr(item: Item): set<object>
    reads if item.Sub? then {item.dict} else {}
  {
    if item.Sub? then item.dict.Repr else {}
  }

  /** `deepcopy` of a value. */
  method NewItem(value: Value) returns (item: Item)
    ensures IsItem(item, value) && fresh(ItemRepr(item))
    decreases value, 1
  {
    if value.Dict? {
      var dict := new JsonDict();
      UpdateWith(dict, value.fields, value);
      return Sub(dict);
    }
    return Leaf(value);
  }

  function Except(fields: Document, keys: set<string>): Document {
    map key | key in fields && key !in keys :: fields[key]
  }

  lemma NoneExcept(fields: Document)
    ensures Except(fields, fields.Keys) == map[]
  {
  }

  lemma AllExcept(fields: Document)
    ensures Except(fields, {}) == fields
  {
  }

  lemma OneMore(before: Document, fields: Document, keys: set<string>, key: string)
    requires key in keys && key in fields
    ensures (before + Except(fields, keys))[key := fields[key]] == before + Except(fields, keys - {key})
  {
  }

  /** `dict.update(fields)`, with copies of the values of some larger value. */
  method UpdateWith(dict: JsonDict, fields: Document, ghost whole: Value)
    requires dict.Valid() && whole == Dict(fields)
    modifies dict
    ensures dict.Valid() && dict.contents == old(dict.contents) + fields && fresh(dict.Repr - old(dict.Repr))
    decreases whole, 0
  {
    hide Except;
    var keys := fields.Keys;
    assert Except(fields, keys) == map[] by { NoneExcept(fields); }
    while keys != {}
      invariant keys <= fields.Keys
      invariant dict.Valid() && fresh(dict.Repr - old(dict.Repr))
      invariant dict.contents == old(dict.contents) + Except(fields, keys)
      decreases keys
    {
      var key :| key in keys;
      var item := NewItem(fields[key]);
      dict.Put(key, item, fields[key]);
      OneMore(old(dict.contents), fields, keys, key);
      keys := keys - {key};
    }
    AllExcept(fields);
  }

  /** The last step of `_add_field_to`. */
  method AddToParent(parent: JsonDict, key: string, content: Value, merge: bool, overwrite: bool) returns (ok: bool)
    requires parent.Valid()
    modifies parent.Repr
    ensures parent.Valid() && fresh(parent.Repr - old(parent.Repr))
    ensures match AddLeaf(old(parent.contents), key, content, merge, overwrite)
            case Ok(contents) => ok && parent.contents == contents
            case Err(_) => !ok && parent.contents == old(parent.contents)
  {
    if overwrite || key !in parent.fields || parent.fields[key] == Leaf(Null) {
      var item := NewItem(content);
      parent.Put(key, item, content);
      return true;
    }
    if !merge {
      return false;
    }
    match parent.fields[key]
    case Sub(existing) =>
      if !content.Dict? {
        return false;
      }
      UpdateWith(existing, content.fields, content);
      parent.Note(key);
      return true;
    case Leaf(existing) =>
      var merged := Merged(existing, content);
      if merged.None? {
        return false;
      }
      parent.Put(key, Leaf(merged.value), merged.value);
      return true;
  }

  lemma UnfoldAdd(fields: Document, path: seq<string>, content: Value, merge: bool, overwrite: bool)
    requires path != []
    ensures |path| == 1 ==>
              Add(fields, path, content, merge, overwrite) == AddLeaf(fields, path[0], content, merge, overwrite)
    ensures |path| > 1 ==>
              var isDict := path[0] in fields && fields[path[0]].Dict?;
              var sub := Add(if isDict then fields[path[0]].fields else map[], path[1..], content, merge, overwrite);
              Add(fields, path, content, merge, overwrite)
              == if path[0] in fields && !isDict && !overwrite then Err(FieldExists)
                 else if sub.Err? then Err(sub.error)
                 else Ok(fields[path[0] := Dict(sub.value)])
  {
    hide AddLeaf;
  }

  lemma EmptyHasRoom(path: seq<string>, content: Value, merge: bool, overwrite: bool)
    requires path != []
    ensures Add(map[], path, content, merge, overwrite).Ok?
    decreases |path|
  {
    if |path| > 1 {
      EmptyHasRoom(path[1..], content, merge, overwrite);
    }
  }

  /**
   * `_add_field_to`: intermediate dictionaries are created on the way, and yet nothing is changed
   * when the field cannot be added.
   */
  method AddPath(event: JsonDict, path: seq<string>, content: Value, merge: bool, overwrite: bool) returns (ok: bool)
    requires event.Valid() && path != []
    modifies event.Repr
    ensures event.Valid() && fresh(event.Repr - old(event.Repr))
    ensures match Add(old(event.contents), path, content, merge, overwrite)
            case Ok(contents) => ok && event.contents == contents
            case Err(_) => !ok && event.contents == old(event.contents)
    decreases |path|, 0
  {
    hide JsonDict.Valid, AddLeaf, Add;
    UnfoldAdd(event.contents, path, content, merge, overwrite);
    var key := path[0];
    if |path| == 1 {
      ok := AddToParent(event, key, content, merge, overwrite);
      return;
    }
    KindAt(event, key);
    if key in event.fields && event.fields[key].Leaf? && !overwrite {
      return false;
    }
    ok := AddThrough(event, key, path[1..], content, merge, overwrite);
  }

  /** The next step of the walk, at which nothing is in the way. */
  method AddThrough(
    event: JsonDict, key: string, path: seq<string>, content: Value, merge: bool, overwrite: bool)
    returns (ok: bool)
    requires event.Valid() && path != []
    requires key in event.contents && !event.contents[key].Dict? ==> overwrite
    modifies event.Repr
    ensures event.Valid() && fresh(event.Repr - old(event.Repr))
    ensures var before := old(event.contents);
            var isDict := key in before && before[key].Dict?;
            var sub := Add(if isDict then before[key].fields else map[], path, content, merge, overwrite);
            && ok == sub.Ok?
            && event.contents == if ok then before[key := Dict(sub.value)] else before
    decreases |path|, 2
  {
    hide JsonDict.Valid, Add;
    KindAt(event, key);
    EmptyHasRoom(path, content, merge, overwrite);
    EnterDict(event, key);
    ok := AddBelow(event, key, path, content, merge, overwrite);
  }

  /** `_add_and_overwrite_key`, and `_add_and_not_overwrite_key` where it does not raise. */
  method EnterDict(event: JsonDict, key: string)
    requires event.Valid()
    modifies event
    ensures event.Valid() && fresh(event.Repr - old(event.Repr))
    ensures key in event.fields && event.fields[key].Sub?
    ensures event.contents
         == if key in old(event.contents) && old(event.contents)[key].Dict? then old(event.contents)
            else old(event.contents)[key := Dict(map[])]
  {
    KindAt(event, key);
    if key !in event.fields || event.fields[key].Leaf? {
      var child := new JsonDict();
      event.Put(key, Sub(child), Dict(map[]));
    }
  }

  lemma KindAt(event: JsonDict, key: string)
    requires event.Valid()
    ensures event in event.Repr && (key in event.fields <==> key in event.contents)
    ensures key in event.fields ==> (event.fields[key].Sub? <==> event.contents[key].Dict?)
  {
    assert key in event.fields ==> event.Holds(key);
  }

  /** Goes on in the dictionary at the key. */
  method AddBelow(
    event: JsonDict, key: string, path: seq<string>, content: Value, merge: bool, overwrite: bool)
    returns (ok: bool)
    requires event.Valid() && path != [] && key in event.fields && event.fields[key].Sub?
    requires event.contents[key].Dict?
    modifies event.Repr
    ensures event.Valid() && fresh(event.Repr - old(event.Repr))
    ensures var result := Add(old(event.contents)[key].fields, path, content, merge, overwrite);
            && ok == result.Ok?
            && event.contents == if ok then old(event.contents)[key := Dict(result.value)] else old(event.contents)
    decreases |path|, 1
  {
    assert event.Holds(key);
    var child := event.fields[key].dict;
    ok := AddPath(child, path, content, merge, overwrite);
    forall other <- event.fields | other != key
      ensures event.Holds(other)
      ensures event.fields[other].Sub? ==> event.fields[other].dict.Repr == old(event.fields[other].dict.Repr)
    {
      assert old(event.Holds(other));
      if event.fields[other].Sub? {
        var dict := event.fields[other].dict;
        assert old(dict.Valid());
        assert old(dict.Repr) !! old(child.Repr);
      }
    }
    event.Note(key);
  }

  lemma EmptyTogether(dict: JsonDict)
    requires dict.Valid()
    ensures dict.fields == map[] <==> dict.contents == map[]
  {
    assert dict.fields == map[] <==> dict.fields.Keys == {};
    assert dict.contents == map[] <==> dict.contents.Keys == {};
  }

  /** `_pop_field_value_and_drop_empty`. */
  method PopPath(event: JsonDict, path: seq<string>) returns (popped: Option<Item>)
    requires event.Valid() && path != []
    modifies event.Repr
    ensures event.Valid() && event.Repr == old(event.Repr)
    ensures event.contents == Pop(old(event.contents), path).left
    ensures match Pop(old(event.contents), path).value
            case Some(value) =>
              popped.Some? && IsItem(popped.value, value) && ItemRepr(popped.value) <= event.Repr - {event}
            case None => popped.None?
    decreases |path|, 0
  {
    var key := path[0];
    if key !in event.fields {
      return None;
    }
    var item := event.fields[key];
    assert event.Holds(key);
    if |path| == 1 {
      event.Delete(key);
      return Some(item);
    }
    var isEmpty: bool;
    match item {
      case Sub(child) =>
        popped := PopBelow(event, key, path[1..]);
        assert event.Holds(key);
        EmptyTogether(child);
        isEmpty := child.fields == map[];
      case Leaf(value) =>
        popped := None;
        isEmpty := !IsTruthy(value);
    }
    if isEmpty {
      event.Delete(key);
    }
  }

  method PopBelow(event: JsonDict, key: string, path: seq<string>) returns (popped: Option<Item>)
    requires event.Valid() && path != [] && key in event.fields && event.fields[key].Sub?
    requires event.contents[key].Dict?
    modifies event.Repr
    ensures event.Valid() && event.Repr == old(event.Repr) && event.fields == old(event.fields)
    ensures var result := Pop(old(event.contents)[key].fields, path);
            && event.contents == old(event.contents)[key := Dict(result.left)]
            && (result.value.Some? <==> popped.Some?)
            && (popped.Some? ==>
                IsItem(popped.value, result.value.value) && ItemRepr(popped.value) <= event.Repr - {event})
    decreases |path|, 1
  {
    assert event.Holds(key);
    var child := event.fields[key].dict;
    popped := PopPath(child, path);
    forall other <- event.fields | other != key
      ensures event.Holds(other)
      ensures event.fields[other].Sub? ==> event.fields[other].dict.Repr == old(event.fields[other].dict.Repr)
    {
      assert old(event.Holds(other));
      if event.fields[other].Sub? {
        var dict := event.fields[other].dict;
        assert old(dict.Valid());
        assert old(dict.Repr) !! old(child.Repr);
      }
    }
    event.Note(key);
  }

  /** `add_fields_to`: adds one field after the other; those that could not be added are reported. */
  method AddFields(event: JsonDict, targets: seq<Target>, merge: bool, overwrite: bool, skipNone: bool)
    returns (result: Result<seq<seq<string>>, AddError>)
    requires event.Valid() && forall target <- targets :: target.path != []
    modifies event.Repr
    ensures event.Valid() && fresh(event.Repr - old(event.Repr))
    ensures var fields := if skipNone then WithoutNone(targets) else targets;
            if merge && overwrite && fields != [] then
              result == Err(ConflictingFlags) && event.contents == old(event.contents)
            else
              result == Ok(AddEach(old(event.contents), fields, merge, overwrite).failed)
              && event.contents == AddEach(old(event.contents), fields, merge, overwrite).event
  {
    hide JsonDict.Valid, Add, WithoutNone;
    var fields := if skipNone then WithoutNone(targets) else targets;
    if merge && overwrite && fields != [] {
      return Err(ConflictingFlags);
    }
    var failed: seq<seq<string>> := [];
    assert fields[..0] == [];
    for i := 0 to |fields|
      invariant event.Valid() && fresh(event.Repr - old(event.Repr))
      invariant AddEach(old(event.contents), fields[..i], merge, overwrite) == Batch(failed, event.contents)
    {
      var target := fields[i];
      assert fields[..i + 1][..i] == fields[..i];
      var ok := AddPath(event, target.path, target.content, merge, overwrite);
      if !ok {
        failed := failed + [target.path];
      }
    }
    assert fields[..|fields|] == fields;
    return Ok(failed);
  }
}
