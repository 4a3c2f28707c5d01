/** What compiling a template keeps. */
module TemplateProofs {
  import opened Common
  import opened TemplateOperations

  /** Operations as the parser makes them. */
  ghost predicate IsParsed(op: Operation)
    decreases op, 1
  {
    match op
    case Constant(value) => IsScalar(value)
    case Lookup(_, _, copyResult) => copyResult
    case ParsedCall(_, operands, _) => forall operand <- operands :: IsParsed(operand)
    case Call(_, _, _) => false
    case Mapping(entries) => forall entry <- entries :: IsParsedEntry(entry)
    case ListOf(elements) => forall element <- elements :: IsParsed(element)
  }

  ghost predicate IsParsedEntry(entry: Entry)
    decreases entry, 0
  {
    IsParsed(entry.key) && IsParsed(entry.value)
  }

  /** The meaning of a template: the parsed operations, evaluated over both contexts. */
  function ParsedEnv(setup: Setup, runtime: map<string, Value>): Env {
    Env(setup.statics, runtime, setup.functions, setup.indexer, true)
  }

  /** What the program evaluates compiled operations with. */
  function CompiledEnv(setup: Setup, runtime: map<string, Value>): Env {
    Env(map[], runtime, setup.functions, setup.indexer, false)
  }

  // ------------------------------------------------------------------- ownership

  /** A parsed template evaluates to something of its own. */
  lemma {:induction false} ParsedValueIsFresh(op: Operation, env: Env, history: seq<Invocation>)
    requires IsParsed(op) && env.parsed && AllKeepPromises(env.functions)
    ensures Eval(op, env, history).result.Ok? ==> IsFresh(Eval(op, env, history).result.value)
    decreases op, 1
  {
    match op
    case Constant(value) => CopyIsFresh(value);
    case Lookup(context, path, _) =>
      if EvalLookup(context, path, env).Ok? {
        CopyIsFresh(EvalLookup(context, path, env).value);
      }
    case ParsedCall(_, operands, _) => ParsedValuesAreFresh(operands, env, history);
    case Call(_, _, _) =>
    case Mapping(entries) => ParsedEntriesAreFresh(entries, map[], env, history);
    case ListOf(elements) => ParsedValuesAreFresh(elements, env, history);
  }

  lemma {:induction false} ParsedValuesAreFresh(ops: seq<Operation>, env: Env, history: seq<Invocation>)
    requires (forall op <- ops :: IsParsed(op)) && env.parsed && AllKeepPromises(env.functions)
    ensures EvalAll(ops, env, history).results.Ok? ==> AreFresh(EvalAll(ops, env, history).results.value)
    ensures EvalAll(ops, env, history).results.Ok? ==> |EvalAll(ops, env, history).results.value| == |ops|
    decreases ops, 0
  {
    if ops != [] {
      ParsedValueIsFresh(ops[0], env, history);
      ParsedValuesAreFresh(ops[1..], env, Eval(ops[0], env, history).history);
    }
  }

  lemma {:induction false} ParsedEntriesAreFresh(
    entries: seq<Entry>, done: map<string, Value>, env: Env, history: seq<Invocation>)
    requires (forall entry <- entries :: IsParsedEntry(entry)) && env.parsed && AllKeepPromises(env.functions)
    requires forall key <- done :: IsFresh(done[key])
    ensures var result := EvalEntries(entries, done, env, history).result;
            result.Ok? ==> result.value.Dict? && IsFresh(result.value)
    decreases entries, 0
  {
    if entries != [] {
      assert entries[0] in entries;
      var key := EvalKey(entries[0], env, history);
      ParsedEntryIsFresh(entries[0], env, key.history);
      var value := EvalValue(entries[0], env, key.history);
      if key.result.Ok? && key.result.value.Str? && value.result.Ok? {
        ParsedEntriesAreFresh(entries[1..], done[key.result.value.s := value.result.value], env, value.history);
      }
    }
  }

  lemma {:induction false} ParsedEntryIsFresh(entry: Entry, env: Env, history: seq<Invocation>)
    requires IsParsedEntry(entry) && env.parsed && AllKeepPromises(env.functions)
    ensures var result := EvalValue(entry, env, history).result; result.Ok? ==> IsFresh(result.value)
    decreases entry, 2
  {
    ParsedValueIsFresh(entry.value, env, history);
  }

  lemma CopyAllIsFresh(values: seq<Value>)
    ensures AreFresh(CopyAll(values))
  {
    forall i | 0 <= i < |values| { CopyIsFresh(values[i]); }
  }

  lemma CopyAllOfFresh(values: seq<Value>)
    requires AreFresh(values)
    ensures CopyAll(values) == values
  {
    forall i | 0 <= i < |values| { CopyOfFresh(values[i]); }
  }

  // --------------------------------------------------------------------- folding

  lemma {:induction false} ConstantsEvaluate(ops: seq<Operation>, env: Env, history: seq<Invocation>)
    ensures |ConstantValues(ops)| <= |ops|
    ensures |ConstantValues(ops)| == |ops| ==> forall op <- ops :: op.Constant?
    ensures |ConstantValues(ops)| == |ops| ==>
              EvalAll(ops, env, history) == Outcomes(Ok(CopyAll(ConstantValues(ops))), history)
  {
    if ops != [] {
      ConstantsEvaluate(ops[1..], env, history);
      assert ops == [ops[0]] + ops[1..];
      if |ConstantValues(ops)| == |ops| {
        assert ConstantValues(ops) == [ops[0].value] + ConstantValues(ops[1..]);
        assert CopyAll(ConstantValues(ops)) == [Copy(ops[0].value)] + CopyAll(ConstantValues(ops[1..]));
      }
    } else {
      assert CopyAll(ConstantValues(ops)) == [];
    }
  }

  /** An entry that can be folded into the dictionary of the entries before it. */
  ghost predicate IsNewConstant(entry: Entry, done: map<string, Value>) {
    && entry.key.Constant? && entry.value.Constant?
    && entry.key.value.Str? && entry.key.value.s !in done
  }

  function CopyFields(fields: map<string, Value>): map<string, Value> {
    map key | key in fields :: Copy(fields[key])
  }

  lemma UnfoldConstantEntries(entries: seq<Entry>)
    ensures entries == [] ==> ConstantEntries(entries) == map[]
    ensures entries != [] ==>
              var last, others := entries[|entries| - 1], ConstantEntries(entries[..|entries| - 1]);
              ConstantEntries(entries)
              == if last.value.Constant? && last.key.Constant? && last.key.value.Str? then
                   others[last.key.value.s := last.value.value]
                 else others
  {
  }

  /** As many keys as entries: all entries are constant and no key is repeated. */
  lemma {:induction false} ConstantEntriesAreNew(entries: seq<Entry>)
    ensures |ConstantEntries(entries)| <= |entries|
    ensures |ConstantEntries(entries)| == |entries| ==>
              forall i | 0 <= i < |entries| :: IsNewConstant(entries[i], ConstantEntries(entries[..i]))
  {
    hide ConstantEntries;
    UnfoldConstantEntries(entries);
    if entries != [] {
      var n := |entries| - 1;
      ConstantEntriesAreNew(entries[..n]);
      forall i | 0 <= i < n ensures entries[..n][..i] == entries[..i] {
      }
    }
  }

  lemma ConstantEntryEvaluates(
    entry: Entry, rest: seq<Entry>, done: map<string, Value>, env: Env, history: seq<Invocation>)
    requires IsNewConstant(entry, done)
    ensures EvalEntries([entry] + rest, CopyFields(done), env, history)
         == EvalEntries(rest, CopyFields(done[entry.key.value.s := entry.value.value]), env, history)
  {
    assert ([entry] + rest)[1..] == rest;
    assert EvalKey(entry, env, history) == Outcome(Ok(entry.key.value), history);
    assert EvalValue(entry, env, history) == Outcome(Ok(Copy(entry.value.value)), history);
    assert CopyFields(done[entry.key.value.s := entry.value.value])
        == CopyFields(done)[entry.key.value.s := Copy(entry.value.value)];
  }

  lemma NoEntriesLeft(done: map<string, Value>, env: Env, history: seq<Invocation>)
    ensures EvalEntries([], done, env, history) == Outcome(Ok(Dict(Fresh, done)), history)
  {
  }

  lemma AddConstantEntry(entries: seq<Entry>, entry: Entry)
    requires entry.value.Constant? && entry.key.Constant? && entry.key.value.Str?
    ensures ConstantEntries(entries + [entry]) == ConstantEntries(entries)[entry.key.value.s := entry.value.value]
  {
    assert (entries + [entry])[..|entries|] == entries;
  }

  lemma {:induction false} ConstantEntriesEvaluate(entries: seq<Entry>, n: nat, env: Env, history: seq<Invocation>)
    requires n <= |entries| && |ConstantEntries(entries)| == |entries|
    ensures EvalEntries(entries[n..], CopyFields(ConstantEntries(entries[..n])), env, history)
         == Outcome(Ok(Copy(Dict(Fresh, ConstantEntries(entries)))), history)
    decreases |entries| - n
  {
    hide EvalEntries, ConstantEntries;
    if n == |entries| {
      assert entries[..n] == entries && entries[n..] == [];
      NoEntriesLeft(CopyFields(ConstantEntries(entries)), env, history);
    } else {
      ConstantEntriesAreNew(entries);
      assert IsNewConstant(entries[n], ConstantEntries(entries[..n])) && entries[n] in entries;
      ConstantEntryEvaluates(entries[n], entries[n + 1..], ConstantEntries(entries[..n]), env, history);
      assert entries[n..] == [entries[n]] + entries[n + 1..] && entries[..n + 1] == entries[..n] + [entries[n]];
      AddConstantEntry(entries[..n], entries[n]);
      ConstantEntriesEvaluate(entries, n + 1, env, history);
    }
  }

  /** Evaluation cannot tell the compiled operation from the parsed one. */
  lemma {:induction false} CompilationKeepsMeaning(
    op: Operation, setup: Setup, runtime: map<string, Value>, history: seq<Invocation>)
    requires IsParsed(op) && AllKeepPromises(setup.functions) && Compile(op, setup).Ok?
    ensures Eval(Compile(op, setup).value, CompiledEnv(setup, runtime), history)
         == Eval(op, ParsedEnv(setup, runtime), history)
    ensures Compile(op, setup).value.Constant? ==> IsOwned(Compile(op, setup).value.value)
    ensures Compile(op, setup).value.Lookup? ==> Compile(op, setup).value.copyResult
    decreases op, 1
  {
    match op
    case Constant(_) =>
    case Lookup(context, path, _) =>
      if context in setup.statics {
        var value := GetFieldValue(setup.statics[context], path, setup.indexer).value;
        CopyIsFresh(value);
        CopyOfFresh(Copy(value));
        WithinMore(Copy(value), {Fresh}, {Fresh, Template});
        Owned(Copy(value));
      }
    case ParsedCall(name, operands, keywords) => CallKeepsMeaning(op, setup, runtime, history);
    case Call(_, _, _) =>
    case Mapping(entries) => MappingKeepsMeaning(entries, setup, runtime, history);
    case ListOf(elements) => ListKeepsMeaning(elements, setup, runtime, history);
  }

  /** What becomes part of the template is copied back as it was. */
  lemma Owned(value: Value)
    requires IsWithin(value, {Fresh, Template})
    ensures IsOwned(Own(value)) && Copy(Own(value)) == Copy(value)
  {
    OwnIsOwned(value);
    CopyOfOwn(value);
  }

  lemma {:induction false} WithinMore(value: Value, some: set<Origin>, more: set<Origin>)
    requires IsWithin(value, some) && some <= more
    ensures IsWithin(value, more)
  {
    match value
    case List(_, items) => forall item <- items ensures IsWithin(item, more) { WithinMore(item, some, more); }
    case Dict(_, fields) =>
      forall key <- fields ensures IsWithin(fields[key], more) { WithinMore(fields[key], some, more); }
    case _ =>
  }

  lemma {:induction false} MappingKeepsMeaning(
    entries: seq<Entry>, setup: Setup, runtime: map<string, Value>, history: seq<Invocation>)
    requires (forall entry <- entries :: IsParsedEntry(entry)) && AllKeepPromises(setup.functions)
    requires Compile(Mapping(entries), setup).Ok?
    ensures Eval(Compile(Mapping(entries), setup).value, CompiledEnv(setup, runtime), history)
         == Eval(Mapping(entries), ParsedEnv(setup, runtime), history)
    ensures Compile(Mapping(entries), setup).value.Constant? ==> IsOwned(Compile(Mapping(entries), setup).value.value)
    decreases entries, 1
  {
    hide ConstantEntries, EvalEntries, CompileEntries, Own, Copy, IsWithin;
    var compiled := CompileEntries(entries, setup).value;
    EntriesKeepMeaning(entries, map[], setup, runtime, history);
    if |ConstantEntries(compiled)| == |compiled| {
      ConstantEntriesEvaluate(compiled, 0, CompiledEnv(setup, runtime), history);
      assert compiled[0..] == compiled && compiled[..0] == [];
      UnfoldConstantEntries(compiled[..0]);
      assert CopyFields(map[]) == map[];
      ConstantEntriesAreOwned(compiled);
      DictIsWithin(ConstantEntries(compiled));
      Owned(Dict(Fresh, ConstantEntries(compiled)));
    }
  }

  lemma DictIsWithin(fields: map<string, Value>)
    requires forall key <- fields :: IsOwned(fields[key])
    ensures IsWithin(Dict(Fresh, fields), {Fresh, Template})
  {
    forall key <- fields ensures IsWithin(fields[key], {Fresh, Template}) {
      WithinMore(fields[key], {Template}, {Fresh, Template});
    }
  }

  lemma {:induction false} ConstantEntriesAreOwned(entries: seq<Entry>)
    requires forall entry <- entries :: entry.value.Constant? ==> IsOwned(entry.value.value)
    ensures forall key <- ConstantEntries(entries) :: IsOwned(ConstantEntries(entries)[key])
  {
    hide IsWithin;
    if entries != [] {
      assert entries[|entries| - 1] in entries;
      ConstantEntriesAreOwned(entries[..|entries| - 1]);
    }
  }

  lemma {:induction false} ListKeepsMeaning(
    elements: seq<Operation>, setup: Setup, runtime: map<string, Value>, history: seq<Invocation>)
    requires (forall op <- elements :: IsParsed(op)) && AllKeepPromises(setup.functions)
    requires Compile(ListOf(elements), setup).Ok?
    ensures Eval(Compile(ListOf(elements), setup).value, CompiledEnv(setup, runtime), history)
         == Eval(ListOf(elements), ParsedEnv(setup, runtime), history)
    ensures Compile(ListOf(elements), setup).value.Constant? ==> IsOwned(Compile(ListOf(elements), setup).value.value)
    decreases elements, 1
  {
    hide ConstantValues, EvalAll, CompileAll, Own, IsWithin;
    var compiled := CompileAll(elements, setup).value;
    ElementsKeepMeaning(elements, setup, runtime, history);
    ConstantsEvaluate(compiled, CompiledEnv(setup, runtime), history);
    if |ConstantValues(compiled)| == |compiled| {
      var values := ConstantValues(compiled);
      ConstantValuesAreOwned(compiled);
      ListIsWithin(values);
      Owned(List(Fresh, values));
      assert Copy(List(Fresh, values)).items == CopyAll(values);
    }
  }

  lemma ListIsWithin(values: seq<Value>)
    requires forall value <- values :: IsOwned(value)
    ensures IsWithin(List(Fresh, values), {Fresh, Template})
  {
    forall value <- values ensures IsWithin(value, {Fresh, Template}) {
      WithinMore(value, {Template}, {Fresh, Template});
    }
  }

  lemma {:induction false} ConstantValuesAreOwned(ops: seq<Operation>)
    requires forall op <- ops :: op.Constant? ==> IsOwned(op.value)
    ensures forall value <- ConstantValues(ops) :: IsOwned(value)
  {
    hide IsWithin;
    if ops != [] {
      assert ops[0] in ops;
      ConstantValuesAreOwned(ops[1..]);
    }
  }

  lemma {:induction false} CallKeepsMeaning(
    op: Operation, setup: Setup, runtime: map<string, Value>, history: seq<Invocation>)
    requires IsParsed(op) && AllKeepPromises(setup.functions) && Compile(op, setup).Ok? && op.ParsedCall?
    ensures Eval(Compile(op, setup).value, CompiledEnv(setup, runtime), history)
         == Eval(op, ParsedEnv(setup, runtime), history)
    ensures Compile(op, setup).value.Constant? ==> IsOwned(Compile(op, setup).value.value)
    decreases op, 0
  {
    hide EvalAll, CompileOperands, ConstantValues, Copy, Own, IsWithin;
    var function_ := setup.functions[op.name];
    assert function_.KeepsPromises();
    var compiled := CompileOperands(op.operands, function_.canBorrowInput, setup).value;
    var evaluated := EvalAll(compiled, CompiledEnv(setup, runtime), history);
    var direct := EvalAll(op.operands, ParsedEnv(setup, runtime), history);
    OperandsKeepMeaning(op.operands, function_.canBorrowInput, setup, runtime, history);
    ParsedValuesAreFresh(op.operands, ParsedEnv(setup, runtime), history);
    if function_.foldable && |ConstantValues(compiled)| == |compiled| {
      ConstantsEvaluate(compiled, CompiledEnv(setup, runtime), history);
      ConstantValuesAreOwned(compiled);
      CopyAllIsFresh(ConstantValues(compiled));
      CopyAllOfFresh(CopyAll(ConstantValues(compiled)));
      FoldedCall(function_, ConstantValues(compiled), direct.results.value, op.keywords, history);
    } else if direct.results.Ok? {
      SameResult(function_, evaluated.results.value, direct.results.value, op.keywords, direct.history);
    }
  }

  /** Folding gives what calling the function at every evaluation would give. */
  lemma FoldedCall(
    function_: Function, values: seq<Value>, arguments: seq<Value>, keywords: seq<string>, history: seq<Invocation>)
    requires function_.KeepsPromises() && function_.foldable && function_.fn([], values, keywords).Ok?
    requires (forall value <- values :: IsOwned(value)) && AreFresh(arguments)
    requires CopyAll(values) == CopyAll(arguments)
    ensures var folded, called := function_.fn([], values, keywords).value, function_.fn(history, arguments, keywords);
            called == Ok(Copy(Own(folded))) && IsOwned(Own(folded))
  {
    hide IsWithin, Copy, Own;
    var folded := function_.fn([], values, keywords).value;
    forall i | 0 <= i < |values| ensures IsWithin(values[i], {Fresh, Template}) {
      assert values[i] in values;
      WithinMore(values[i], {Template}, {Fresh, Template});
    }
    assert AreWithin(values, {Fresh, Template});
    Owned(folded);
    var called := function_.fn(history, arguments, keywords);
    assert function_.fn([], arguments, keywords) == called;
    assert AreAlike(function_.fn([], values, keywords), called);
    CopyOfFresh(called.value);
  }

  /** A function gives the same for arguments that it borrows and for copies of them. */
  lemma SameResult(
    function_: Function, values: seq<Value>, arguments: seq<Value>, keywords: seq<string>, history: seq<Invocation>)
    requires function_.KeepsPromises() && AreFresh(arguments) && CopyAll(values) == CopyAll(arguments)
    requires values == arguments || function_.canBorrowInput
    ensures function_.fn(history, values, keywords) == function_.fn(history, arguments, keywords)
  {
    hide IsWithin, Copy;
    var some, others := function_.fn(history, values, keywords), function_.fn(history, arguments, keywords);
    assert AreAlike(some, others);
    if some.Ok? && values != arguments {
      CopyOfFresh(some.value);
      CopyOfFresh(others.value);
    }
  }

  lemma {:induction false} ElementsKeepMeaning(
    ops: seq<Operation>, setup: Setup, runtime: map<string, Value>, history: seq<Invocation>)
    requires (forall op <- ops :: IsParsed(op)) && AllKeepPromises(setup.functions) && CompileAll(ops, setup).Ok?
    ensures EvalAll(CompileAll(ops, setup).value, CompiledEnv(setup, runtime), history)
         == EvalAll(ops, ParsedEnv(setup, runtime), history)
    ensures forall op <- CompileAll(ops, setup).value :: op.Constant? ==> IsOwned(op.value)
    decreases ops, 0
  {
    if ops != [] {
      CompilationKeepsMeaning(ops[0], setup, runtime, history);
      ElementsKeepMeaning(ops[1..], setup, runtime, Eval(ops[0], ParsedEnv(setup, runtime), history).history);
      var first, others := Compile(ops[0], setup).value, CompileAll(ops[1..], setup).value;
      assert CompileAll(ops, setup).value == [first] + others;
      assert ([first] + others)[1..] == others;
    }
  }

  /** The operands of a function that borrows may belong to somebody; otherwise they are the same. */
  lemma {:induction false} OperandsKeepMeaning(
    ops: seq<Operation>, borrow: bool, setup: Setup, runtime: map<string, Value>, history: seq<Invocation>)
    requires (forall op <- ops :: IsParsed(op)) && AllKeepPromises(setup.functions)
    requires CompileOperands(ops, borrow, setup).Ok?
    ensures var compiled := EvalAll(CompileOperands(ops, borrow, setup).value, CompiledEnv(setup, runtime), history);
            var direct := EvalAll(ops, ParsedEnv(setup, runtime), history);
            && compiled.history == direct.history
            && (compiled.results.Err? || direct.results.Err? ==> compiled.results == direct.results)
            && (compiled.results.Ok? ==> CopyAll(compiled.results.value) == CopyAll(direct.results.value))
            && (!borrow ==> compiled == direct)
    ensures forall op <- CompileOperands(ops, borrow, setup).value :: op.Constant? ==> IsOwned(op.value)
    decreases ops, 0
  {
    hide Eval, Compile, Copy, CopyAll, IsParsed, IsWithin, AllKeepPromises;
    if ops != [] {
      var first, others := Compile(ops[0], setup).value, CompileOperands(ops[1..], borrow, setup).value;
      var env, direct := CompiledEnv(setup, runtime), Eval(ops[0], ParsedEnv(setup, runtime), history);
      CompilationKeepsMeaning(ops[0], setup, runtime, history);
      OperandsKeepMeaning(ops[1..], borrow, setup, runtime, direct.history);
      var operand := AsOperand(first, borrow);
      var all := [operand] + others;
      assert CompileOperands(ops, borrow, setup).value == all && all[1..] == others;
      OperandEvaluates(first, borrow, env, history);
      var rest := EvalAll(others, env, direct.history);
      var parsedRest := EvalAll(ops[1..], ParsedEnv(setup, runtime), direct.history);
      if direct.result.Ok? && rest.results.Ok? {
        CopyOneMore(Eval(operand, env, history).result.value, rest.results.value);
        CopyOneMore(direct.result.value, parsedRest.results.value);
      }
    }
  }

  lemma CopyOneMore(value: Value, values: seq<Value>)
    ensures CopyAll([value] + values) == [Copy(value)] + CopyAll(values)
  {
  }

  lemma OperandEvaluates(op: Operation, borrow: bool, env: Env, history: seq<Invocation>)
    requires op.Lookup? ==> op.copyResult
    ensures var plain, operand := Eval(op, env, history), Eval(AsOperand(op, borrow), env, history);
            && plain.history == operand.history
            && (plain.result.Err? || operand.result.Err? ==> plain == operand)
            && (plain.result.Ok? ==> Copy(operand.result.value) == Copy(plain.result.value))
            && (!borrow ==> plain == operand)
  {
    if op.Lookup? && EvalLookup(op.context, op.path, env).Ok? {
      var value := EvalLookup(op.context, op.path, env).value;
      CopyIsFresh(value);
      CopyOfFresh(Copy(value));
    }
  }

  lemma {:induction false} EntriesKeepMeaning(
    entries: seq<Entry>, done: map<string, Value>, setup: Setup, runtime: map<string, Value>,
    history: seq<Invocation>)
    requires (forall entry <- entries :: IsParsedEntry(entry)) && AllKeepPromises(setup.functions)
    requires CompileEntries(entries, setup).Ok?
    ensures EvalEntries(CompileEntries(entries, setup).value, done, CompiledEnv(setup, runtime), history)
         == EvalEntries(entries, done, ParsedEnv(setup, runtime), history)
    ensures forall entry <- CompileEntries(entries, setup).value ::
              entry.value.Constant? ==> IsOwned(entry.value.value)
    decreases entries, 0
  {
    if entries != [] {
      var env, parsed := CompiledEnv(setup, runtime), ParsedEnv(setup, runtime);
      var first, others := CompileEntry(entries[0], setup).value, CompileEntries(entries[1..], setup).value;
      assert CompileEntries(entries, setup).value == [first] + others && ([first] + others)[1..] == others;
      assert entries[0] in entries;
      var key := EvalKey(entries[0], parsed, history);
      var value := EvalValue(entries[0], parsed, key.history);
      EntryKeepsMeaning(entries[0], setup, runtime, history, key.history);
      if key.result.Ok? && key.result.value.Str? && value.result.Ok? {
        EntriesKeepMeaning(entries[1..], done[key.result.value.s := value.result.value], setup, runtime, value.history);
      } else {
        EntriesKeepMeaning(entries[1..], done, setup, runtime, history);
      }
    }
  }

  lemma {:induction false} EntryKeepsMeaning(
    entry: Entry, setup: Setup, runtime: map<string, Value>, h: seq<Invocation>, history: seq<Invocation>)
    requires IsParsedEntry(entry) && AllKeepPromises(setup.functions) && CompileEntry(entry, setup).Ok?
    ensures var compiled := CompileEntry(entry, setup).value;
            && EvalKey(compiled, CompiledEnv(setup, runtime), h) == EvalKey(entry, ParsedEnv(setup, runtime), h)
            && EvalValue(compiled, CompiledEnv(setup, runtime), history)
               == EvalValue(entry, ParsedEnv(setup, runtime), history)
            && (compiled.value.Constant? ==> IsOwned(compiled.value.value))
    decreases entry, 2
  {
    CompilationKeepsMeaning(entry.key, setup, runtime, h);
    CompilationKeepsMeaning(entry.value, setup, runtime, history);
  }

  /** What a compiled template evaluates to shares no list or dictionary with a context or with the template. */
  lemma EvaluationSharesNothing(
    op: Operation, setup: Setup, runtime: map<string, Value>, history: seq<Invocation>)
    requires IsParsed(op) && AllKeepPromises(setup.functions) && Compile(op, setup).Ok?
    requires Eval(Compile(op, setup).value, CompiledEnv(setup, runtime), history).result.Ok?
    ensures IsFresh(Eval(Compile(op, setup).value, CompiledEnv(setup, runtime), history).result.value)
  {
    CompilationKeepsMeaning(op, setup, runtime, history);
    ParsedValueIsFresh(op, ParsedEnv(setup, runtime), history);
  }

  // ------------------------------------------------------------ compiled operations

  /** Entries that make a constant dictionary. */
  ghost predicate AreFoldable(entries: seq<Entry>) {
    && (forall entry <- entries :: entry.key.Constant? && entry.value.Constant?)
    && forall i, j | 0 <= i < j < |entries| :: entries[i].key != entries[j].key
  }

  /**
   * What compilation leaves: no parsed call, no lookup into a static root, a lookup without a copy only
   * as an operand of a function that borrows, and nothing that could be folded.
   */
  ghost predicate IsCompiled(op: Operation, setup: Setup)
    decreases op, 1
  {
    match op
    case Constant(value) => IsOwned(value)
    case Lookup(context, _, copyResult) => context !in setup.statics && copyResult
    case ParsedCall(_, _, _) => false
    case Call(name, operands, _) =>
      && name in setup.functions
      && (setup.functions[name].foldable ==> exists operand <- operands :: !operand.Constant?)
      && forall operand <- operands ::
           if operand.Lookup? then
             operand.context !in setup.statics && operand.copyResult == !setup.functions[name].canBorrowInput
           else IsCompiled(operand, setup)
    case Mapping(entries) => !AreFoldable(entries) && forall entry <- entries :: IsCompiledEntry(entry, setup)
    case ListOf(elements) =>
      (exists element <- elements :: !element.Constant?) && forall element <- elements :: IsCompiled(element, setup)
  }

  ghost predicate IsCompiledEntry(entry: Entry, setup: Setup)
    decreases entry, 0
  {
    IsCompiled(entry.key, setup) && IsCompiled(entry.value, setup)
  }

  lemma {:induction false} CompilationCompiles(op: Operation, setup: Setup)
    requires IsParsed(op) && AllKeepPromises(setup.functions) && Compile(op, setup).Ok?
    ensures IsCompiled(Compile(op, setup).value, setup)
    decreases op, 1
  {
    CompilationKeepsMeaning(op, setup, map[], []);
    hide ConstantValues, ConstantEntries, AreFoldable, IsOwned, AllKeepPromises;
    match op
    case ParsedCall(name, operands, _) =>
      CompilationCompilesOperands(operands, setup.functions[name].canBorrowInput, setup);
      var compiled := CompileOperands(operands, setup.functions[name].canBorrowInput, setup).value;
      if forall operand <- compiled :: operand.Constant? {
        AllAreConstants(compiled);
      }
    case Mapping(entries) =>
      CompilationCompilesEntries(entries, setup);
      CompiledKeysAreStrings(entries, setup);
      if AreFoldable(CompileEntries(entries, setup).value) {
        FoldableIsFolded(CompileEntries(entries, setup).value);
      }
    case ListOf(elements) =>
      CompilationCompilesAll(elements, setup);
      if forall element <- CompileAll(elements, setup).value :: element.Constant? {
        AllAreConstants(CompileAll(elements, setup).value);
      }
    case _ =>
  }

  lemma {:induction false} AllAreConstants(ops: seq<Operation>)
    requires forall op <- ops :: op.Constant?
    ensures |ConstantValues(ops)| == |ops|
  {
    if ops != [] {
      assert ops[0] in ops;
      AllAreConstants(ops[1..]);
    }
  }

  lemma {:induction false} FoldableIsFolded(entries: seq<Entry>)
    requires AreFoldable(entries) && forall entry <- entries :: entry.key.Constant? ==> entry.key.value.Str?
    ensures |ConstantEntries(entries)| == |entries|
    ensures forall key <- ConstantEntries(entries) ::
              exists i :: 0 <= i < |entries| && entries[i].key == Constant(Str(key))
  {
    hide ConstantEntries;
    UnfoldConstantEntries(entries);
    if entries != [] {
      var n := |entries| - 1;
      FoldableIsFolded(entries[..n]);
      assert entries[n] in entries && entries[n].key == Constant(Str(entries[n].key.value.s));
    }
  }

  lemma {:induction false} CompilationCompilesOperands(ops: seq<Operation>, borrow: bool, setup: Setup)
    requires (forall op <- ops :: IsParsed(op)) && AllKeepPromises(setup.functions)
    requires CompileOperands(ops, borrow, setup).Ok?
    ensures forall operand <- CompileOperands(ops, borrow, setup).value ::
              if operand.Lookup? then operand.context !in setup.statics && operand.copyResult == !borrow
              else IsCompiled(operand, setup)
    decreases ops, 0
  {
    if ops != [] {
      CompilationCompiles(ops[0], setup);
      CompilationCompilesOperands(ops[1..], borrow, setup);
    }
  }

  lemma {:induction false} CompilationCompilesAll(ops: seq<Operation>, setup: Setup)
    requires (forall op <- ops :: IsParsed(op)) && AllKeepPromises(setup.functions) && CompileAll(ops, setup).Ok?
    ensures forall op <- CompileAll(ops, setup).value :: IsCompiled(op, setup)
    decreases ops, 0
  {
    if ops != [] {
      CompilationCompiles(ops[0], setup);
      CompilationCompilesAll(ops[1..], setup);
    }
  }

  lemma {:induction false} CompilationCompilesEntries(entries: seq<Entry>, setup: Setup)
    requires (forall entry <- entries :: IsParsedEntry(entry)) && AllKeepPromises(setup.functions)
    requires CompileEntries(entries, setup).Ok?
    ensures forall entry <- CompileEntries(entries, setup).value :: IsCompiledEntry(entry, setup)
    decreases entries, 0
  {
    if entries != [] {
      assert entries[0] in entries;
      CompilationCompilesEntry(entries[0], setup);
      CompilationCompilesEntries(entries[1..], setup);
    }
  }

  lemma {:induction false} CompilationCompilesEntry(entry: Entry, setup: Setup)
    requires IsParsedEntry(entry) && AllKeepPromises(setup.functions) && CompileEntry(entry, setup).Ok?
    ensures IsCompiledEntry(CompileEntry(entry, setup).value, setup)
    decreases entry, 2
  {
    CompilationCompiles(entry.key, setup);
    CompilationCompiles(entry.value, setup);
  }

  /** Compiled operations never reach the branch for unresolved calls. */
  lemma {:induction false} NoInternalError(
    op: Operation, setup: Setup, runtime: map<string, Value>, history: seq<Invocation>)
    requires IsCompiled(op, setup) || op.Lookup?
    ensures Eval(op, CompiledEnv(setup, runtime), history).result != Err(Internal)
    decreases op, 1
  {
    match op
    case Call(_, operands, _) => NoInternalErrors(operands, setup, runtime, history);
    case Mapping(entries) => NoInternalErrorInEntries(entries, map[], setup, runtime, history);
    case ListOf(elements) => NoInternalErrors(elements, setup, runtime, history);
    case _ =>
  }

  lemma {:induction false} NoInternalErrors(
    ops: seq<Operation>, setup: Setup, runtime: map<string, Value>, history: seq<Invocation>)
    requires forall op <- ops :: op.Lookup? || IsCompiled(op, setup)
    ensures EvalAll(ops, CompiledEnv(setup, runtime), history).results != Err(Internal)
    decreases ops, 0
  {
    if ops != [] {
      assert ops[0] in ops;
      NoInternalError(ops[0], setup, runtime, history);
      NoInternalErrors(ops[1..], setup, runtime, Eval(ops[0], CompiledEnv(setup, runtime), history).history);
    }
  }

  lemma {:induction false} NoInternalErrorInEntries(
    entries: seq<Entry>, done: map<string, Value>, setup: Setup, runtime: map<string, Value>,
    history: seq<Invocation>)
    requires forall entry <- entries :: IsCompiledEntry(entry, setup)
    ensures EvalEntries(entries, done, CompiledEnv(setup, runtime), history).result != Err(Internal)
    decreases entries, 0
  {
    if entries != [] {
      var env := CompiledEnv(setup, runtime);
      assert entries[0] in entries;
      var key := EvalKey(entries[0], env, history);
      NoInternalErrorInEntry(entries[0], setup, runtime, history, key.history);
      var value := EvalValue(entries[0], env, key.history);
      if key.result.Ok? && key.result.value.Str? && value.result.Ok? {
        NoInternalErrorInEntries(
          entries[1..], done[key.result.value.s := value.result.value], setup, runtime, value.history);
      }
    }
  }

  lemma {:induction false} NoInternalErrorInEntry(
    entry: Entry, setup: Setup, runtime: map<string, Value>, h: seq<Invocation>, history: seq<Invocation>)
    requires IsCompiledEntry(entry, setup)
    ensures EvalKey(entry, CompiledEnv(setup, runtime), h).result != Err(Internal)
    ensures EvalValue(entry, CompiledEnv(setup, runtime), history).result != Err(Internal)
    decreases entry, 2
  {
    NoInternalError(entry.key, setup, runtime, h);
    NoInternalError(entry.value, setup, runtime, history);
  }

  // --------------------------------------------------------------------- validation

  /** The errors that are left to compilation once a template is valid. */
  predicate IsLate(error: ConfigError) {
    error.StaticKeyNotString? || error.FoldingRaised?
  }

  /** A valid template fails to compile only for a static key or for a function that raises. */
  lemma {:induction false} ValidationCoversCompilation(op: Operation, setup: Setup)
    requires setup.statics.Keys !! setup.runtimeRoots && Validate(op, setup).None?
    ensures Compile(op, setup).Err? ==> IsLate(Compile(op, setup).error)
    decreases op, 1
  {
    match op
    case ParsedCall(name, operands, _) => ValidationCoversAll(operands, setup.functions[name].canBorrowInput, setup);
    case Mapping(entries) => ValidationCoversEntries(entries, setup);
    case ListOf(elements) => ValidationCoversAll(elements, false, setup);
    case _ =>
  }

  lemma {:induction false} ValidationCoversAll(ops: seq<Operation>, borrow: bool, setup: Setup)
    requires setup.statics.Keys !! setup.runtimeRoots && ValidateAll(ops, setup).None?
    ensures CompileAll(ops, setup).Err? ==> IsLate(CompileAll(ops, setup).error)
    ensures CompileOperands(ops, borrow, setup).Err? ==> IsLate(CompileOperands(ops, borrow, setup).error)
    decreases ops, 0
  {
    if ops != [] {
      ValidationCoversCompilation(ops[0], setup);
      ValidationCoversAll(ops[1..], borrow, setup);
    }
  }

  lemma {:induction false} ValidationCoversEntries(entries: seq<Entry>, setup: Setup)
    requires setup.statics.Keys !! setup.runtimeRoots && ValidateEntries(entries, setup).None?
    ensures CompileEntries(entries, setup).Err? ==> IsLate(CompileEntries(entries, setup).error)
    decreases entries, 0
  {
    if entries != [] {
      ValidationCoversEntry(entries[0], setup);
      ValidationCoversEntries(entries[1..], setup);
    }
  }

  lemma {:induction false} ValidationCoversEntry(entry: Entry, setup: Setup)
    requires setup.statics.Keys !! setup.runtimeRoots && ValidateEntry(entry, setup).None?
    ensures CompileEntry(entry, setup).Err? ==> IsLate(CompileEntry(entry, setup).error)
    decreases entry, 2
  {
    ValidationCoversCompilation(entry.key, setup);
    ValidationCoversCompilation(entry.value, setup);
  }

  lemma ConstantKeyEvaluates(entry: Entry, env: Env, history: seq<Invocation>)
    requires entry.key.Constant?
    ensures EvalKey(entry, env, history) == Outcome(Ok(Copy(entry.key.value)), history)
  {
    match entry.key
    case Constant(value) => assert Eval(entry.key, env, history) == Outcome(Ok(Copy(value)), history);
  }

  /** Evaluation ends at this entry with a duplicate key, unless an entry before it ends it. */
  ghost predicate EndsAt(
    entries: seq<Entry>, done: map<string, Value>, k: nat, env: Env, history: seq<Invocation>)
    requires k < |entries|
  {
    var before := EvalEntries(entries[..k], done, env, history).result;
    EvalEntries(entries, done, env, history).result == if before.Err? then before else Err(DuplicateKey)
  }

  lemma EndsAtNext(entries: seq<Entry>, done: map<string, Value>, k: nat, env: Env, history: seq<Invocation>)
    requires 0 < k < |entries|
    requires var key := EvalKey(entries[0], env, history);
             key.result.Ok? && key.result.value.Str? && key.result.value.s !in done ==>
               var value := EvalValue(entries[0], env, key.history);
               value.result.Ok? ==>
                 EndsAt(entries[1..], done[key.result.value.s := value.result.value], k - 1, env, value.history)
    ensures EndsAt(entries, done, k, env, history)
  {
    assert entries[..k][0] == entries[0] && entries[..k][1..] == entries[1..][..k - 1];
  }

  lemma EndsHere(entries: seq<Entry>, done: map<string, Value>, env: Env, history: seq<Invocation>)
    requires entries != [] && entries[0].key.Constant? && entries[0].key.value.Str?
    requires entries[0].key.value.s in done
    ensures EndsAt(entries, done, 0, env, history)
  {
    ConstantKeyEvaluates(entries[0], env, history);
  }

  /** A constant key that is there already. */
  lemma {:induction false} RepeatedKeyFails(
    entries: seq<Entry>, done: map<string, Value>, k: nat, env: Env, history: seq<Invocation>)
    requires k < |entries| && entries[k].key.Constant? && entries[k].key.value.Str?
    requires entries[k].key.value.s in done
    ensures EndsAt(entries, done, k, env, history)
    decreases k
  {
    hide EndsAt, EvalEntries;
    if k == 0 {
      EndsHere(entries, done, env, history);
    } else {
      var key := EvalKey(entries[0], env, history);
      if key.result.Ok? && key.result.value.Str? {
        var value := EvalValue(entries[0], env, key.history);
        if value.result.Ok? {
          RepeatedKeyFails(entries[1..], done[key.result.value.s := value.result.value], k - 1, env, value.history);
        }
      }
      EndsAtNext(entries, done, k, env, history);
    }
  }

  /** A constant key that is repeated. */
  lemma {:induction false} RepeatedKeysFail(
    entries: seq<Entry>, done: map<string, Value>, i: nat, k: nat, env: Env, history: seq<Invocation>)
    requires i < k < |entries| && entries[i].key.Constant? && entries[i].key.value.Str?
    requires entries[k].key == entries[i].key
    ensures EndsAt(entries, done, k, env, history)
    decreases i
  {
    hide EndsAt, EvalEntries;
    var key := EvalKey(entries[0], env, history);
    if entries[0].key.Constant? {
      ConstantKeyEvaluates(entries[0], env, history);
    }
    if key.result.Ok? && key.result.value.Str? {
      var value := EvalValue(entries[0], env, key.history);
      if value.result.Ok? {
        var more := done[key.result.value.s := value.result.value];
        if i == 0 {
          RepeatedKeyFails(entries[1..], more, k - 1, env, value.history);
        } else {
          RepeatedKeysFail(entries[1..], more, i - 1, k - 1, env, value.history);
        }
      }
    }
    EndsAtNext(entries, done, k, env, history);
  }

  /**
   * Duplicate static keys are not folded away: every evaluation of the template fails, with a
   * duplicate key or with what fails before the repetition.
   */
  lemma {:induction false} StaticDuplicateFails(
    entries: seq<Entry>, i: nat, k: nat, setup: Setup, runtime: map<string, Value>, history: seq<Invocation>)
    requires IsParsed(Mapping(entries)) && AllKeepPromises(setup.functions)
    requires Compile(Mapping(entries), setup).Ok?
    requires var compiled := CompileEntries(entries, setup).value;
             i < k < |compiled| && compiled[i].key.Constant? && compiled[k].key == compiled[i].key
    ensures var env := CompiledEnv(setup, runtime);
            var before := EvalEntries(CompileEntries(entries, setup).value[..k], map[], env, history).result;
            Eval(Compile(Mapping(entries), setup).value, env, history).result
            == if before.Err? then before else Err(DuplicateKey)
  {
    hide EvalEntries, IsParsed, ConstantEntries, CompileEntries;
    var compiled := CompileEntries(entries, setup).value;
    CompiledKeysAreStrings(entries, setup);
    RepeatedKeysFail(compiled, map[], i, k, CompiledEnv(setup, runtime), history);
    RepeatedKeysStay(compiled, i, k);
  }

  /** A mapping with a repeated key does not become a constant. */
  lemma RepeatedKeysStay(entries: seq<Entry>, i: nat, k: nat)
    requires i < k < |entries| && entries[i].key.Constant? && entries[k].key == entries[i].key
    ensures |ConstantEntries(entries)| != |entries|
  {
    hide ConstantEntries;
    if |ConstantEntries(entries)| == |entries| {
      ConstantEntriesAreNew(entries);
      assert IsNewConstant(entries[k], ConstantEntries(entries[..k]));
      assert IsNewConstant(entries[i], ConstantEntries(entries[..i]));
      KeyStays(entries, i, k);
    }
  }

  lemma {:induction false} KeyStays(entries: seq<Entry>, i: nat, k: nat)
    requires i < k <= |entries|
    requires entries[i].key.Constant? && entries[i].key.value.Str? && entries[i].value.Constant?
    ensures entries[i].key.value.s in ConstantEntries(entries[..k])
    decreases k
  {
    assert entries[..k][..k - 1] == entries[..k - 1];
    if i < k - 1 {
      KeyStays(entries, i, k - 1);
    }
  }

  lemma {:induction false} CompiledKeysAreStrings(entries: seq<Entry>, setup: Setup)
    requires CompileEntries(entries, setup).Ok?
    ensures forall entry <- CompileEntries(entries, setup).value :: entry.key.Constant? ==> entry.key.value.Str?
    ensures |CompileEntries(entries, setup).value| == |entries|
  {
    if entries != [] {
      CompiledKeysAreStrings(entries[1..], setup);
    }
  }
}
