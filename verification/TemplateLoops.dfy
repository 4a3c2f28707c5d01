/** Compilation and evaluation with the loops and accumulators of the program, against the functions. */
module TemplateLoops {
  import opened Common
  import opened TemplateOperations

  // ----------------------------------------------------------------- compilation

  /** What was compiled so far, and what is still to come. */
  function Joined<T>(done: seq<T>, others: Result<seq<T>, ConfigError>): Result<seq<T>, ConfigError> {
    match others
    case Ok(values) => Ok(done + values)
    case Err(_) => others
  }

  lemma JoinedOnce<T>(done: seq<T>, first: T, others: Result<seq<T>, ConfigError>)
    ensures Joined(done, Joined([first], others)) == Joined(done + [first], others)
    ensures Joined([], others) == others
    ensures Joined(done, Ok([])) == Ok(done)
  {
    assert done + [] == done;
    if others.Ok? {
      assert [] + others.value == others.value;
      assert done + ([first] + others.value) == done + [first] + others.value;
    }
  }

  lemma UnfoldOperands(ops: seq<Operation>, borrow: bool, setup: Setup)
    ensures ops == [] ==> CompileOperands(ops, borrow, setup) == Ok([])
    ensures ops != [] ==>
              var first := Compile(ops[0], setup);
              CompileOperands(ops, borrow, setup)
              == if first.Err? then Err(first.error)
                 else Joined([AsOperand(first.value, borrow)], CompileOperands(ops[1..], borrow, setup))
  {
  }

  lemma UnfoldElements(ops: seq<Operation>, setup: Setup)
    ensures ops == [] ==> CompileAll(ops, setup) == Ok([])
    ensures ops != [] ==>
              var first := Compile(ops[0], setup);
              CompileAll(ops, setup)
              == if first.Err? then Err(first.error)
                 else Joined([first.value], CompileAll(ops[1..], setup))
  {
  }

  lemma UnfoldEntries(entries: seq<Entry>, setup: Setup)
    ensures entries == [] ==> CompileEntries(entries, setup) == Ok([])
    ensures entries != [] ==>
              var first := CompileEntry(entries[0], setup);
              CompileEntries(entries, setup)
              == if first.Err? then Err(first.error)
                 else Joined([first.value], CompileEntries(entries[1..], setup))
  {
  }

  /** `_compile_operation`. */
  method CompileOperation(op: Operation, setup: Setup) returns (result: Result<Operation, ConfigError>)
    ensures result == Compile(op, setup)
    decreases op, 1
  {
    hide CompileOperands, CompileAll, CompileEntries, ConstantValues, ConstantEntries, GetFieldValue, Copy, Own;
    match op
    case Constant(_) => return Ok(op);
    case Lookup(context, path, _) =>
      if context !in setup.statics {
        return Ok(op);
      }
      var value := GetFieldValue(setup.statics[context], path, setup.indexer);
      return if value.None? then Err(StaticPathMissing) else Ok(Constant(Own(Copy(value.value))));
    case ParsedCall(name, operands, keywords) =>
      if name !in setup.functions {
        return Err(UnknownFunction);
      }
      var function_ := setup.functions[name];
      var compiled := CompileEachOperand(operands, function_.canBorrowInput, setup);
      if compiled.Err? {
        return Err(compiled.error);
      }
      var values := ConstantValues(compiled.value);
      if function_.foldable && |values| == |compiled.value| {
        var folded := function_.fn([], values, keywords);
        return if folded.Ok? then Ok(Constant(Own(folded.value))) else Err(FoldingRaised(folded.error));
      }
      return Ok(Call(name, compiled.value, keywords));
    case Call(_, _, _) => return Err(CallBeforeCompilation);
    case Mapping(entries) =>
      var compiled := CompileEachEntry(entries, setup);
      if compiled.Err? {
        return Err(compiled.error);
      }
      var fields := ConstantEntries(compiled.value);
      return Ok(if |fields| == |compiled.value| then Constant(Own(Dict(Fresh, fields))) else Mapping(compiled.value));
    case ListOf(elements) =>
      var compiled := CompileEachElement(elements, setup);
      if compiled.Err? {
        return Err(compiled.error);
      }
      var values := ConstantValues(compiled.value);
      return Ok(if |values| == |compiled.value| then Constant(Own(List(Fresh, values))) else ListOf(compiled.value));
  }

  method CompileEachOperand(ops: seq<Operation>, borrow: bool, setup: Setup)
    returns (result: Result<seq<Operation>, ConfigError>)
    ensures result == CompileOperands(ops, borrow, setup)
    decreases ops, 0
  {
    hide CompileOperands, Compile, Joined, AsOperand;
    var compiled := [];
    assert ops[0..] == ops;
    JoinedOnce([], Constant(Null), CompileOperands(ops, borrow, setup));
    for i := 0 to |ops|
      invariant Joined(compiled, CompileOperands(ops[i..], borrow, setup)) == CompileOperands(ops, borrow, setup)
    {
      UnfoldOperands(ops[i..], borrow, setup);
      assert ops[i..][1..] == ops[i + 1..];
      var operand := CompileOperation(ops[i], setup);
      if operand.Err? {
        JoinedError(compiled, operand.error);
        return Err(operand.error);
      }
      JoinedOnce(compiled, AsOperand(operand.value, borrow), CompileOperands(ops[i + 1..], borrow, setup));
      compiled := compiled + [AsOperand(operand.value, borrow)];
    }
    UnfoldOperands(ops[|ops|..], borrow, setup);
    JoinedOnce(compiled, Constant(Null), Ok([]));
    return Ok(compiled);
  }

  lemma JoinedError<T>(done: seq<T>, error: ConfigError)
    ensures Joined(done, Err(error)) == Err(error)
  {
  }

  method CompileEachElement(ops: seq<Operation>, setup: Setup) returns (result: Result<seq<Operation>, ConfigError>)
    ensures result == CompileAll(ops, setup)
    decreases ops, 0
  {
    hide CompileAll, Compile, Joined;
    var compiled := [];
    assert ops[0..] == ops;
    JoinedOnce([], Constant(Null), CompileAll(ops, setup));
    for i := 0 to |ops|
      invariant Joined(compiled, CompileAll(ops[i..], setup)) == CompileAll(ops, setup)
    {
      UnfoldElements(ops[i..], setup);
      assert ops[i..][1..] == ops[i + 1..];
      var element := CompileOperation(ops[i], setup);
      if element.Err? {
        JoinedError(compiled, element.error);
        return Err(element.error);
      }
      JoinedOnce(compiled, element.value, CompileAll(ops[i + 1..], setup));
      compiled := compiled + [element.value];
    }
    UnfoldElements(ops[|ops|..], setup);
    JoinedOnce(compiled, Constant(Null), Ok([]));
    return Ok(compiled);
  }

  method CompileEachEntry(entries: seq<Entry>, setup: Setup) returns (result: Result<seq<Entry>, ConfigError>)
    ensures result == CompileEntries(entries, setup)
    decreases entries, 0
  {
    hide CompileEntries, CompileEntry, Joined;
    var compiled := [];
    assert entries[0..] == entries;
    JoinedOnce([], Entry(Constant(Null), Constant(Null)), CompileEntries(entries, setup));
    for i := 0 to |entries|
      invariant Joined(compiled, CompileEntries(entries[i..], setup)) == CompileEntries(entries, setup)
    {
      UnfoldEntries(entries[i..], setup);
      assert entries[i..][1..] == entries[i + 1..];
      var entry := CompileOneEntry(entries[i], setup);
      if entry.Err? {
        JoinedError(compiled, entry.error);
        return Err(entry.error);
      }
      JoinedOnce(compiled, entry.value, CompileEntries(entries[i + 1..], setup));
      compiled := compiled + [entry.value];
    }
    UnfoldEntries(entries[|entries|..], setup);
    JoinedOnce(compiled, Entry(Constant(Null), Constant(Null)), Ok([]));
    return Ok(compiled);
  }

  method CompileOneEntry(entry: Entry, setup: Setup) returns (result: Result<Entry, ConfigError>)
    ensures result == CompileEntry(entry, setup)
    decreases entry, 2
  {
    hide Compile;
    var key := CompileOperation(entry.key, setup);
    if key.Err? {
      return Err(key.error);
    }
    if key.value.Constant? && !key.value.value.Str? {
      return Err(StaticKeyNotString);
    }
    var value := CompileOperation(entry.value, setup);
    return if value.Err? then Err(value.error) else Ok(Entry(key.value, value.value));
  }

  // ------------------------------------------------------------------ evaluation

  function After(done: seq<Value>, others: Outcomes): Outcomes {
    match others.results
    case Ok(values) => Outcomes(Ok(done + values), others.history)
    case Err(_) => others
  }

  lemma AfterOnce(done: seq<Value>, first: Value, others: Outcomes)
    ensures After(done, After([first], others)) == After(done + [first], others)
    ensures After([], others) == others
    ensures others.results.Err? ==> After(done, others) == others
    ensures After(done, Outcomes(Ok([]), others.history)) == Outcomes(Ok(done), others.history)
  {
    assert done + [] == done;
    if others.results.Ok? {
      assert [] + others.results.value == others.results.value;
      assert done + ([first] + others.results.value) == done + [first] + others.results.value;
    }
  }

  lemma UnfoldAll(ops: seq<Operation>, env: Env, history: seq<Invocation>)
    ensures ops == [] ==> EvalAll(ops, env, history) == Outcomes(Ok([]), history)
    ensures ops != [] ==>
              var first := Eval(ops[0], env, history);
              EvalAll(ops, env, history)
              == if first.result.Err? then Outcomes(Err(first.result.error), first.history)
                 else After([first.result.value], EvalAll(ops[1..], env, first.history))
  {
  }

  /** `_evaluate_operation`. */
  method EvaluateOperation(op: Operation, env: Env, history: seq<Invocation>) returns (outcome: Outcome)
    ensures outcome == Eval(op, env, history)
    decreases op, 1
  {
    hide EvalAll, EvalEntries, EvalLookup, Invoke, Copy;
    match op
    case Constant(value) => return Outcome(Ok(Copy(value)), history);
    case Lookup(context, path, copyResult) =>
      var value := EvalLookup(context, path, env);
      if value.Ok? && copyResult {
        value := Ok(Copy(value.value));
      }
      return Outcome(value, history);
    case ParsedCall(name, operands, keywords) =>
      if !env.parsed {
        return Outcome(Err(Internal), history);
      }
      var arguments := EvaluateEach(operands, env, history);
      return Invoke(name, arguments, keywords, env);
    case Call(name, operands, keywords) =>
      if env.parsed {
        return Outcome(Err(Internal), history);
      }
      var arguments := EvaluateEach(operands, env, history);
      return Invoke(name, arguments, keywords, env);
    case Mapping(entries) => outcome := EvaluateEntries(entries, env, history);
    case ListOf(elements) =>
      var all := EvaluateEach(elements, env, history);
      return Outcome(if all.results.Ok? then Ok(List(Fresh, all.results.value)) else Err(all.results.error),
                     all.history);
  }

  method EvaluateEach(ops: seq<Operation>, env: Env, history: seq<Invocation>) returns (outcomes: Outcomes)
    ensures outcomes == EvalAll(ops, env, history)
    decreases ops, 0
  {
    hide EvalAll, Eval, After;
    var values: seq<Value>, now := [], history;
    assert ops[0..] == ops;
    AfterOnce([], Null, EvalAll(ops, env, history));
    for i := 0 to |ops|
      invariant After(values, EvalAll(ops[i..], env, now)) == EvalAll(ops, env, history)
    {
      UnfoldAll(ops[i..], env, now);
      assert ops[i..][1..] == ops[i + 1..];
      var outcome := EvaluateOperation(ops[i], env, now);
      now := outcome.history;
      if outcome.result.Err? {
        AfterOnce(values, Null, Outcomes(Err(outcome.result.error), now));
        return Outcomes(Err(outcome.result.error), now);
      }
      AfterOnce(values, outcome.result.value, EvalAll(ops[i + 1..], env, now));
      values := values + [outcome.result.value];
    }
    UnfoldAll(ops[|ops|..], env, now);
    AfterOnce(values, Null, Outcomes(Ok([]), now));
    return Outcomes(Ok(values), now);
  }

  /** The loop over the entries of a mapping. */
  method EvaluateEntries(entries: seq<Entry>, env: Env, history: seq<Invocation>) returns (outcome: Outcome)
    ensures outcome == EvalEntries(entries, map[], env, history)
    decreases entries, 0
  {
    hide Eval;
    var fields: map<string, Value>, now := map[], history;
    assert entries[0..] == entries;
    for i := 0 to |entries|
      invariant EvalEntries(entries[i..], fields, env, now) == EvalEntries(entries, map[], env, history)
    {
      assert entries[i..][1..] == entries[i + 1..];
      var key := EvaluateKey(entries[i], env, now);
      now := key.history;
      if key.result.Err? {
        return key;
      }
      if !key.result.value.Str? {
        return Outcome(Err(KeyNotString), now);
      }
      if key.result.value.s in fields {
        return Outcome(Err(DuplicateKey), now);
      }
      var value := EvaluateValue(entries[i], env, now);
      now := value.history;
      if value.result.Err? {
        return value;
      }
      fields := fields[key.result.value.s := value.result.value];
    }
    return Outcome(Ok(Dict(Fresh, fields)), now);
  }

  method EvaluateKey(entry: Entry, env: Env, history: seq<Invocation>) returns (outcome: Outcome)
    ensures outcome == EvalKey(entry, env, history)
    decreases entry, 2
  {
    outcome := EvaluateOperation(entry.key, env, history);
  }

  method EvaluateValue(entry: Entry, env: Env, history: seq<Invocation>) returns (outcome: Outcome)
    ensures outcome == EvalValue(entry, env, history)
    decreases entry, 2
  {
    outcome := EvaluateOperation(entry.value, env, history);
  }
}
