/** What template operations mean. */
module TemplateMeaning {
  import opened Common
  import opened TemplateOperations
  import opened TemplateProofs

  // -------------------------------------------------------------------- following a path

  /** An item of a value: the field of a dictionary, or what indexing a list gives. */
  lemma ItemExactly(value: Value, key: string, indexer: Indexer)
    ensures value.Dict? && key in value.fields ==> GetItem(value, key, indexer) == Some(value.fields[key])
    ensures value.Dict? && key !in value.fields ==> GetItem(value, key, indexer) == None
    ensures value.List? ==> GetItem(value, key, indexer) == indexer(value.items, key)
    ensures !value.Dict? && !value.List? ==> GetItem(value, key, indexer) == None
  {
  }

  /** A path that is longer by a segment leads to that item of what the path leads to. */
  lemma {:induction false} PathOneMore(value: Value, path: seq<string>, key: string, indexer: Indexer)
    ensures GetFieldValue(value, [], indexer) == Some(value)
    ensures var there := GetFieldValue(value, path, indexer);
            GetFieldValue(value, path + [key], indexer)
            == if there.Some? then GetItem(there.value, key, indexer) else None
    decreases |path|
  {
    hide GetItem;
    if path == [] {
      assert path + [key] == [key] && [key][1..] == [];
    } else {
      assert (path + [key])[0] == path[0] && (path + [key])[1..] == path[1..] + [key];
      var next := GetItem(value, path[0], indexer);
      if next.Some? {
        PathOneMore(next.value, path[1..], key, indexer);
      }
    }
  }

  /** A path leads somewhere if and only if every segment of it does. */
  lemma {:induction false} PathLeadsExactly(value: Value, path: seq<string>, indexer: Indexer)
    ensures GetFieldValue(value, path, indexer).Some?
       <==> forall k | 0 <= k < |path| ::
              var there := GetFieldValue(value, path[..k], indexer);
              there.Some? && GetItem(there.value, path[k], indexer).Some?
    decreases |path|
  {
    hide GetItem, GetFieldValue;
    if path == [] {
      PathOneMore(value, [], "", indexer);
    } else {
      var n := |path| - 1;
      PathLeadsExactly(value, path[..n], indexer);
      PathOneMore(value, path[..n], path[n], indexer);
      assert path[..n] + [path[n]] == path;
      assert forall k | 0 <= k < n :: path[..n][..k] == path[..k] && path[..n][k] == path[k];
    }
  }

  /** Dictionaries in dictionaries, with a value put at the path; what is in the way is replaced. */
  function Put(fields: map<string, Value>, path: seq<string>, value: Value): map<string, Value>
    requires path != []
    decreases |path|
  {
    var key := path[0];
    if |path| == 1 then fields[key := value]
    else
      var inner := if key in fields && fields[key].Dict? then fields[key].fields else map[];
      fields[key := Dict(Runtime, Put(inner, path[1..], value))]
  }

  /** What was put at a path is what the path leads to. */
  lemma {:induction false} PutIsFound(
    origin: Origin, fields: map<string, Value>, path: seq<string>, value: Value, indexer: Indexer)
    requires path != []
    ensures GetFieldValue(Dict(origin, Put(fields, path, value)), path, indexer) == Some(value)
    decreases |path|
  {
    if |path| == 1 {
      assert path[1..] == [];
    } else {
      var inner := if path[0] in fields && fields[path[0]].Dict? then fields[path[0]].fields else map[];
      PutIsFound(Runtime, inner, path[1..], value, indexer);
    }
  }

  /** A path that parts from it leads to what it led to. */
  lemma {:induction false} PutLeavesOthers(
    origin: Origin, fields: map<string, Value>, path: seq<string>, value: Value, key: string, other: seq<string>,
    indexer: Indexer)
    requires path != [] && key != path[0]
    ensures GetFieldValue(Dict(origin, Put(fields, path, value)), [key] + other, indexer)
         == GetFieldValue(Dict(origin, fields), [key] + other, indexer)
  {
    assert ([key] + other)[1..] == other;
  }

  // ------------------------------------------------------------------------- evaluation

  /**
   * A lookup evaluates to what is at its path: a copy of it, or the value itself where the copy is
   * spared. It fails if nobody has the root, or if a segment of the path leads nowhere.
   */
  lemma LookupEvaluates(op: Operation, env: Env, history: seq<Invocation>)
    requires op.Lookup?
    ensures var result := Eval(op, env, history).result;
            && Eval(op, env, history).history == history
            && (op.context !in env.statics && op.context !in env.runtime ==> result == Err(MissingRoot))
            && (op.context in env.statics || op.context in env.runtime ==>
                  var root := if op.context in env.statics then env.statics[op.context] else env.runtime[op.context];
                  && (result == Err(MissingPath)
                      <==> exists k | 0 <= k < |op.path| ::
                             var there := GetFieldValue(root, op.path[..k], env.indexer);
                             there.Some? && GetItem(there.value, op.path[k], env.indexer).None?)
                  && (result != Err(MissingPath) ==>
                        var there := GetFieldValue(root, op.path, env.indexer);
                        there.Some? && result == Ok(if op.copyResult then Copy(there.value) else there.value)))
  {
    hide GetItem, GetFieldValue, Copy;
    if op.context in env.statics || op.context in env.runtime {
      var root := if op.context in env.statics then env.statics[op.context] else env.runtime[op.context];
      PathLeadsExactly(root, op.path, env.indexer);
      SomewhereNot(root, op.path, env.indexer);
    }
  }

  /** If not all segments lead somewhere, then one is the first that does not. */
  lemma {:induction false} SomewhereNot(value: Value, path: seq<string>, indexer: Indexer)
    ensures GetFieldValue(value, path, indexer).None?
       <==> exists k | 0 <= k < |path| ::
              var there := GetFieldValue(value, path[..k], indexer);
              there.Some? && GetItem(there.value, path[k], indexer).None?
    decreases |path|
  {
    hide GetItem, GetFieldValue;
    if path == [] {
      PathOneMore(value, [], "", indexer);
    } else {
      var n := |path| - 1;
      SomewhereNot(value, path[..n], indexer);
      PathOneMore(value, path[..n], path[n], indexer);
      assert path[..n] + [path[n]] == path;
      assert forall k | 0 <= k < n :: path[..n][..k] == path[..k] && path[..n][k] == path[k];
    }
  }

  /** What was put at a path of a context is what a lookup of the path evaluates to. */
  lemma LookupFindsPut(
    context: string, path: seq<string>, origin: Origin, fields: map<string, Value>, value: Value, env: Env,
    history: seq<Invocation>)
    requires path != [] && context !in env.statics && context in env.runtime
    requires env.runtime[context] == Dict(origin, Put(fields, path, value))
    ensures Eval(Lookup(context, path, true), env, history) == Outcome(Ok(Copy(value)), history)
  {
    hide GetFieldValue, Copy, Put;
    PutIsFound(origin, fields, path, value, env.indexer);
  }

  /** Operands are evaluated in order, each behind the calls of those before it; the first error ends it. */
  lemma {:induction false} OneMoreOperand(ops: seq<Operation>, op: Operation, env: Env, history: seq<Invocation>)
    ensures EvalAll([], env, history) == Outcomes(Ok([]), history)
    ensures var before := EvalAll(ops, env, history);
            EvalAll(ops + [op], env, history)
            == if before.results.Err? then before
               else
                 var last := Eval(op, env, before.history);
                 Outcomes(if last.result.Err? then Err(last.result.error)
                          else Ok(before.results.value + [last.result.value]), last.history)
    decreases |ops|
  {
    hide Eval;
    if ops == [] {
      assert ops + [op] == [op] && [op][1..] == [];
      var only := Eval(op, env, history);
      if only.result.Ok? {
        assert EvalAll([op][1..], env, only.history) == Outcomes(Ok([]), only.history);
        assert [only.result.value] + [] == [] + [only.result.value];
      }
    } else {
      var all := ops + [op];
      assert all[0] == ops[0] && all[1..] == ops[1..] + [op];
      var first := Eval(ops[0], env, history);
      if first.result.Ok? {
        OneMoreOperand(ops[1..], op, env, first.history);
        var others := EvalAll(ops[1..], env, first.history);
        if others.results.Ok? && Eval(op, env, others.history).result.Ok? {
          var value, last := first.result.value, Eval(op, env, others.history).result.value;
          assert [value] + (others.results.value + [last]) == [value] + others.results.value + [last];
        }
      }
    }
  }

  /** The entry behind others: its key is a new text, and its value is added under it. */
  function WithEntry(before: Outcome, entry: Entry, env: Env): Outcome
    requires before.result.Ok? && before.result.value.Dict?
  {
    var fields, key := before.result.value.fields, Eval(entry.key, env, before.history);
    if key.result.Err? then key
    else if !key.result.value.Str? then Outcome(Err(KeyNotString), key.history)
    else if key.result.value.s in fields then Outcome(Err(DuplicateKey), key.history)
    else
      var value := Eval(entry.value, env, key.history);
      if value.result.Err? then value
      else Outcome(Ok(Dict(Fresh, fields[key.result.value.s := value.result.value])), value.history)
  }

  lemma {:induction false} EntriesGiveDict(
    entries: seq<Entry>, done: map<string, Value>, env: Env, history: seq<Invocation>)
    ensures var result := EvalEntries(entries, done, env, history).result;
            result.Ok? ==> result.value.Dict? && result.value.origin == Fresh
    decreases |entries|
  {
    hide Eval;
    if entries != [] {
      var key := EvalKey(entries[0], env, history);
      if key.result.Ok? && key.result.value.Str? && key.result.value.s !in done {
        var value := EvalValue(entries[0], env, key.history);
        if value.result.Ok? {
          EntriesGiveDict(entries[1..], done[key.result.value.s := value.result.value], env, value.history);
        }
      }
    }
  }

  /** Entries are evaluated in order, the key before the value; the first error ends it. */
  lemma {:induction false} OneMoreEntry(
    entries: seq<Entry>, entry: Entry, done: map<string, Value>, env: Env, history: seq<Invocation>)
    ensures EvalEntries([], done, env, history) == Outcome(Ok(Dict(Fresh, done)), history)
    ensures var before := EvalEntries(entries, done, env, history);
            && (before.result.Ok? ==> before.result.value.Dict?)
            && EvalEntries(entries + [entry], done, env, history)
               == if before.result.Err? then before else WithEntry(before, entry, env)
    decreases |entries|
  {
    hide Eval;
    EntriesGiveDict(entries, done, env, history);
    if entries == [] {
      assert entries + [entry] == [entry] && [entry][1..] == [];
    } else {
      var all := entries + [entry];
      assert all[0] == entries[0] && all[1..] == entries[1..] + [entry];
      var key := EvalKey(entries[0], env, history);
      if key.result.Ok? && key.result.value.Str? && key.result.value.s !in done {
        var value := EvalValue(entries[0], env, key.history);
        if value.result.Ok? {
          OneMoreEntry(entries[1..], entry, done[key.result.value.s := value.result.value], env, value.history);
        }
      }
    }
  }

  /** Constants, calls, lists and mappings, in terms of their parts. */
  lemma PartsEvaluate(op: Operation, env: Env, history: seq<Invocation>)
    ensures op.Constant? ==> Eval(op, env, history) == Outcome(Ok(Copy(op.value)), history)
    ensures op.Mapping? ==> Eval(op, env, history) == EvalEntries(op.entries, map[], env, history)
    ensures op.ListOf? ==>
              var all := EvalAll(op.elements, env, history);
              Eval(op, env, history)
              == Outcome(if all.results.Err? then Err(all.results.error) else Ok(List(Fresh, all.results.value)),
                         all.history)
    ensures (if env.parsed then op.ParsedCall? else op.Call?) && op.name in env.functions ==>
              var all, function_ := EvalAll(op.operands, env, history), env.functions[op.name];
              if all.results.Err? then Eval(op, env, history) == Outcome(Err(all.results.error), all.history)
              else
                var called := function_.fn(all.history, all.results.value, op.keywords);
                && Eval(op, env, history).result
                   == (if called.Ok? then Ok(called.value) else Err(FunctionRaised(called.error)))
                && Eval(op, env, history).history
                   == all.history + if function_.foldable then []
                                    else [Invocation(op.name, CopyAll(all.results.value), op.keywords)]
  {
    hide Copy;
  }

  // ------------------------------------------------------------------------- validation

  /** The operation itself, or a part of it. */
  ghost predicate IsPart(part: Operation, op: Operation)
    decreases op, 1
  {
    part == op ||
    match op
    case ParsedCall(_, operands, _) => exists operand <- operands :: IsPart(part, operand)
    case Call(_, operands, _) => exists operand <- operands :: IsPart(part, operand)
    case Mapping(entries) => exists entry <- entries :: IsPartOfEntry(part, entry)
    case ListOf(elements) => exists element <- elements :: IsPart(part, element)
    case _ => false
  }

  ghost predicate IsPartOfEntry(part: Operation, entry: Entry)
    decreases entry, 2
  {
    IsPart(part, entry.key) || IsPart(part, entry.value)
  }

  /** What may be wrong with one operation, its parts aside. */
  predicate Has(op: Operation, error: ConfigError, setup: Setup) {
    match error
    case UnknownRoot => op.Lookup? && op.context !in setup.statics && op.context !in setup.runtimeRoots
    case StaticPathMissing =>
      && op.Lookup? && op.context in setup.statics && op.context !in setup.runtimeRoots
      && GetFieldValue(setup.statics[op.context], op.path, setup.indexer).None?
    case UnknownFunction => op.ParsedCall? && op.name !in setup.functions
    case ArgumentsDoNotBind =>
      && op.ParsedCall? && op.name in setup.functions
      && (|op.keywords| > |op.operands|
          || !setup.functions[op.name].binds(|op.operands| - |op.keywords|, op.keywords))
    case CallBeforeCompilation => op.Call?
    case _ => false
  }

  /** An operation is valid if and only if no part of it has an error; an error is that of some part. */
  lemma {:induction false} ValidExactly(op: Operation, setup: Setup)
    ensures Validate(op, setup).None? <==> forall part, error | IsPart(part, op) :: !Has(part, error, setup)
    ensures Validate(op, setup).Some? ==>
              exists part | IsPart(part, op) :: Has(part, Validate(op, setup).value, setup)
    decreases op, 1
  {
    hide GetFieldValue;
    assert IsPart(op, op);
    match op
    case Constant(_) =>
    case Lookup(_, _, _) =>
      assert Validate(op, setup).Some? ==> Has(op, Validate(op, setup).value, setup);
      assert forall error | Has(op, error, setup) :: Validate(op, setup) == Some(error);
    case ParsedCall(name, operands, _) =>
      ValidAll(operands, setup);
      if Validate(op, setup).Some? && ValidateAll(operands, setup) != Validate(op, setup) {
        assert Has(op, Validate(op, setup).value, setup);
      }
    case Call(_, _, _) => assert Has(op, CallBeforeCompilation, setup);
    case Mapping(entries) => ValidEntries(entries, setup);
    case ListOf(elements) => ValidAll(elements, setup);
  }

  lemma {:induction false} ValidAll(ops: seq<Operation>, setup: Setup)
    ensures ValidateAll(ops, setup).None?
       <==> forall op, part, error | op in ops && IsPart(part, op) :: !Has(part, error, setup)
    ensures ValidateAll(ops, setup).Some? ==>
              exists op, part | op in ops && IsPart(part, op) :: Has(part, ValidateAll(ops, setup).value, setup)
    decreases ops, 0
  {
    hide Has, IsPart, Validate;
    if ops != [] {
      assert ops[0] in ops && ops == [ops[0]] + ops[1..];
      ValidExactly(ops[0], setup);
      ValidAll(ops[1..], setup);
    }
  }

  lemma {:induction false} ValidEntries(entries: seq<Entry>, setup: Setup)
    ensures ValidateEntries(entries, setup).None?
       <==> forall entry, part, error | entry in entries && IsPartOfEntry(part, entry) :: !Has(part, error, setup)
    ensures ValidateEntries(entries, setup).Some? ==>
              exists entry, part | entry in entries && IsPartOfEntry(part, entry) ::
                Has(part, ValidateEntries(entries, setup).value, setup)
    decreases entries, 0
  {
    hide Has, IsPartOfEntry, ValidateEntry;
    if entries != [] {
      assert entries[0] in entries && entries == [entries[0]] + entries[1..];
      ValidEntry(entries[0], setup);
      ValidEntries(entries[1..], setup);
    }
  }

  lemma {:induction false} ValidEntry(entry: Entry, setup: Setup)
    ensures ValidateEntry(entry, setup).None?
       <==> forall part, error | IsPartOfEntry(part, entry) :: !Has(part, error, setup)
    ensures ValidateEntry(entry, setup).Some? ==>
              exists part | IsPartOfEntry(part, entry) :: Has(part, ValidateEntry(entry, setup).value, setup)
    decreases entry, 2
  {
    hide Has, IsPart, Validate;
    ValidExactly(entry.key, setup);
    ValidExactly(entry.value, setup);
  }
}
