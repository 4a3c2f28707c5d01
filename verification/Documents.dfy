/** Events, and how filters read them. */
module Documents {
  import opened Common

  datatype Value =
    | Null
    | Bool(b: bool)
    | Int(n: int)
    | Str(s: string)
    | List(items: seq<Value>)
    | Dict(fields: map<string, Value>)

  type Document = map<string, Value>

  /** The value that a path leads to, every step but the last being a dictionary. */
  function Walk(path: seq<string>, value: Value): Option<Value> {
    if path == [] then Some(value)
    else if value.Dict? && path[0] in value.fields then Walk(path[1..], value.fields[path[0]])
    else None
  }

  /** The value of a field; the empty path names no field. */
  function FieldValue(path: seq<string>, document: Document): Option<Value> {
    if path == [] then None else Walk(path, Dict(document))
  }

  lemma {:induction false} WalkStep(path: seq<string>, n: nat, value: Value)
    requires n < |path|
    ensures Walk(path[..n + 1], value) ==
            (match Walk(path[..n], value)
             case Some(v) => if v.Dict? && path[n] in v.fields then Some(v.fields[path[n]]) else None
             case None => None)
  {
    if n == 0 {
      assert path[..1][1..] == [];
    } else {
      assert path[..n + 1][1..] == path[1..][..n];
      assert path[..n][1..] == path[1..][..n - 1];
      assert path[..n + 1][0] == path[..n][0] == path[0];
      if value.Dict? && path[0] in value.fields {
        WalkStep(path[1..], n - 1, value.fields[path[0]]);
      }
    }
  }

  lemma {:induction false} WalkPrefix(path: seq<string>, n: nat, value: Value)
    requires n <= |path| && Walk(path[..n], value).None?
    ensures Walk(path, value).None?
    decreases |path| - n
  {
    if n == |path| {
      assert path[..n] == path;
    } else {
      WalkStep(path, n, value);
      WalkPrefix(path, n + 1, value);
    }
  }

  /** The field of a path that is longer by a key is that key of the dictionary that the path names. */
  lemma FieldSteps(path: seq<string>, key: string, document: Document)
    ensures FieldValue([], document) == None
    ensures FieldValue([key], document) == if key in document then Some(document[key]) else None
    ensures path != [] ==>
              var there := FieldValue(path, document);
              FieldValue(path + [key], document)
              == if there.Some? && there.value.Dict? && key in there.value.fields then Some(there.value.fields[key])
                 else None
  {
    assert [key][1..] == [];
    assert key in document ==> Walk([key][1..], document[key]) == Some(document[key]);
    var longer := path + [key];
    assert longer[..|path|] == path && longer[..|path| + 1] == longer;
    WalkStep(longer, |path|, Dict(document));
  }

  /** `_get_value`: a missing key is `None` here and an exception there. */
  method GetValue(path: seq<string>, document: Document) returns (result: Option<Value>)
    ensures result == FieldValue(path, document)
  {
    if path == [] {
      return None;
    }
    var current := Dict(document);
    for i := 0 to |path|
      invariant Walk(path[..i], Dict(document)) == Some(current)
    {
      WalkStep(path, i, Dict(document));
      if !current.Dict? || path[i] !in current.fields {
        WalkPrefix(path, i + 1, Dict(document));
        return None;
      }
      current := current.fields[path[i]];
    }
    assert path[..|path|] == path;
    return Some(current);
  }

  /** The walk of the `Exists` expression, which only reports whether the path is there. */
  method PathExists(path: seq<string>, document: Document) returns (found: bool)
    ensures found <==> FieldValue(path, document).Some?
  {
    if path == [] {
      return false;
    }
    var current := Dict(document);
    for i := 0 to |path|
      invariant Walk(path[..i], Dict(document)) == Some(current)
    {
      WalkStep(path, i, Dict(document));
      if !current.Dict? || path[i] !in current.fields {
        WalkPrefix(path, i + 1, Dict(document));
        return false;
      }
      current := current.fields[path[i]];
    }
    assert path[..|path|] == path;
    return true;
  }
}
