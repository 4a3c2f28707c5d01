/** Field mapping templates: operations, their evaluation and their compilation. */
module TemplateOperations {
  import opened Common

  /**
   * Who owns a list or dictionary: the evaluation that built it, the runtime context, the static
   * context, or the compiled template.
   */
  datatype Origin = Fresh | Runtime | Static | Template

  datatype Value =
    | Null
    | Bool(b: bool)
    | Int(n: int)
    | Float(text: string)  // a float, told by its literal
    | Str(s: string)
    | List(origin: Origin, items: seq<Value>)
    | Dict(origin: Origin, fields: map<string, Value>)

  /** `deepcopy`. */
  function Copy(value: Value): Value {
    match value
    case List(_, items) => List(Fresh, seq(|items|, i requires 0 <= i < |items| => Copy(items[i])))
    case Dict(_, fields) => Dict(Fresh, map key | key in fields :: Copy(fields[key]))
    case _ => value
  }

  /** What is new becomes part of the template; what somebody else owns stays theirs. */
  function Own(value: Value): Value {
    match value
    case List(origin, items) =>
      List(if origin == Fresh then Template else origin,
           seq(|items|, i requires 0 <= i < |items| => Own(items[i])))
    case Dict(origin, fields) =>
      Dict(if origin == Fresh then Template else origin, map key | key in fields :: Own(fields[key]))
    case _ => value
  }

  /** All that is mutable in the value has one of these owners. */
  ghost predicate IsWithin(value: Value, origins: set<Origin>) {
    match value
    case List(origin, items) => origin in origins && forall item <- items :: IsWithin(item, origins)
    case Dict(origin, fields) => origin in origins && forall key <- fields :: IsWithin(fields[key], origins)
    case _ => true
  }

  /** Nothing mutable in the value belongs to a context or to a template. */
  ghost predicate IsFresh(value: Value) { IsWithin(value, {Fresh}) }

  /** All that is mutable in the value belongs to the template alone. */
  ghost predicate IsOwned(value: Value) { IsWithin(value, {Template}) }

  predicate IsScalar(value: Value) { !value.List? && !value.Dict? }

  lemma {:induction false} CopyIsFresh(value: Value)
    ensures IsFresh(Copy(value))
  {
    match value
    case List(_, items) => forall i | 0 <= i < |items| { CopyIsFresh(items[i]); }
    case Dict(_, fields) =>
      forall key <- fields ensures IsFresh(Copy(fields[key])) { CopyIsFresh(fields[key]); }
    case _ =>
  }

  /** What is new, or the template's already, becomes the template's. */
  lemma {:induction false} OwnIsOwned(value: Value)
    requires IsWithin(value, {Fresh, Template})
    ensures IsOwned(Own(value))
  {
    match value
    case List(_, items) =>
      forall i | 0 <= i < |items| ensures IsOwned(Own(items[i])) {
        assert items[i] in items;
        OwnIsOwned(items[i]);
      }
    case Dict(_, fields) =>
      forall key <- fields ensures IsOwned(Own(fields[key])) { OwnIsOwned(fields[key]); }
    case _ =>
  }

  /** Values are the same whoever owns them. */
  lemma {:induction false} CopyOfOwn(value: Value)
    ensures Copy(Own(value)) == Copy(value)
  {
    match value
    case List(_, items) =>
      forall i | 0 <= i < |items| ensures Copy(Own(items[i])) == Copy(items[i]) { CopyOfOwn(items[i]); }
      assert Copy(Own(value)).items == Copy(value).items;
    case Dict(_, fields) =>
      forall key <- fields ensures Copy(Own(fields[key])) == Copy(fields[key]) { CopyOfOwn(fields[key]); }
      assert Copy(Own(value)).fields == Copy(value).fields;
    case _ =>
  }

  lemma {:induction false} CopyOfFresh(value: Value)
    requires IsFresh(value)
    ensures Copy(value) == value
  {
    match value
    case List(_, items) =>
      forall i | 0 <= i < |items| ensures Copy(items[i]) == items[i] {
        assert items[i] in items;
        CopyOfFresh(items[i]);
      }
      assert Copy(value).items == items;
    case Dict(_, fields) =>
      forall key <- fields ensures Copy(fields[key]) == fields[key] { CopyOfFresh(fields[key]); }
      assert Copy(value).fields == fields;
    case _ =>
  }

  // ---------------------------------------------------------------- operations

  /** `str.isidentifier`. */
  type IdentifierTest = string -> bool

  datatype Entry = Entry(key: Operation, value: Operation)

  /** The last `|keywords|` operands of a call are passed by these names, the others by position. */
  datatype Operation =
    | Constant(value: Value)
    | Lookup(context: string, path: seq<string>, copyResult: bool)
    | ParsedCall(name: string, operands: seq<Operation>, keywords: seq<string>)
    | Call(name: string, operands: seq<Operation>, keywords: seq<string>)
    | Mapping(entries: seq<Entry>)
    | ListOf(elements: seq<Operation>)

  datatype Invocation = Invocation(name: string, arguments: seq<Value>, keywords: seq<string>)

  /**
   * A registered function. What it does may depend on the calls made before, by which any state
   * that it has is told; `binds` is the test of its signature.
   */
  datatype Function = Function(
    fn: (seq<Invocation>, seq<Value>, seq<string>) -> Result<Value, string>,
    binds: (nat, seq<string>) -> bool,
    canBorrowInput: bool,
    foldable: bool)
  {
    /** Functions know no context: what they return is built of their arguments and of what is new. */
    ghost predicate ReturnsOwn() {
      forall history, arguments, keywords, origins | Fresh in origins && AreWithin(arguments, origins) ::
        fn(history, arguments, keywords).Ok? ==> IsWithin(fn(history, arguments, keywords).value, origins)
    }

    /** Functions cannot tell who owns their arguments. */
    ghost predicate IsBlind() {
      forall history, some, others, keywords | CopyAll(some) == CopyAll(others) ::
        AreAlike(fn(history, some, keywords), fn(history, others, keywords))
    }

    /** `foldable` promises determinism. */
    ghost predicate IsDeterministic() {
      forall h, history, arguments, keywords ::
        fn(h, arguments, keywords) == fn(history, arguments, keywords)
    }

    /** `can_borrow_input` promises to return nothing mutable of an argument. */
    ghost predicate ReturnsNew() {
      forall history, arguments, keywords ::
        fn(history, arguments, keywords).Ok? ==> IsFresh(fn(history, arguments, keywords).value)
    }

    ghost predicate KeepsPromises() {
      ReturnsOwn() && IsBlind() && (foldable ==> IsDeterministic()) && (canBorrowInput ==> ReturnsNew())
    }
  }

  /** The same error, or values that differ at most in their owners. */
  ghost predicate AreAlike(a: Result<Value, string>, b: Result<Value, string>) {
    if a.Ok? && b.Ok? then Copy(a.value) == Copy(b.value) else a == b
  }

  function CopyAll(values: seq<Value>): (copies: seq<Value>)
    ensures |copies| == |values| && forall i | 0 <= i < |values| :: copies[i] == Copy(values[i])
  {
    seq(|values|, i requires 0 <= i < |values| => Copy(values[i]))
  }

  ghost predicate AreWithin(values: seq<Value>, origins: set<Origin>) {
    forall i | 0 <= i < |values| :: IsWithin(values[i], origins)
  }

  ghost predicate AreFresh(values: seq<Value>) { AreWithin(values, {Fresh}) }

  type Functions = map<string, Function>

  ghost predicate AllKeepPromises(functions: Functions) {
    forall name <- functions :: functions[name].KeepsPromises()
  }

  // ------------------------------------------------------------------- lookups

  /** Indexing and slicing of a list by text. */
  type Indexer = (seq<Value>, string) -> Option<Value>

  function GetItem(container: Value, key: string, indexer: Indexer): Option<Value> {
    match container
    case Dict(_, fields) => if key in fields then Some(fields[key]) else None
    case List(_, items) => indexer(items, key)
    case _ => None
  }

  /** `get_field_value`, with `None` for the value MISSING. */
  function GetFieldValue(value: Value, path: seq<string>, indexer: Indexer): Option<Value>
    decreases |path|
  {
    if path == [] then Some(value)
    else
      match GetItem(value, path[0], indexer)
      case Some(next) => GetFieldValue(next, path[1..], indexer)
      case None => None
  }

  // ---------------------------------------------------------------- evaluation

  datatype Error =
    | MissingRoot
    | MissingPath
    | KeyNotString
    | DuplicateKey
    | FunctionRaised(text: string)
    | Internal

  datatype Outcome = Outcome(result: Result<Value, Error>, history: seq<Invocation>)

  datatype Outcomes = Outcomes(results: Result<seq<Value>, Error>, history: seq<Invocation>)

  /**
   * What an evaluation refers to. The program evaluates compiled operations, without a static
   * context. With `parsed` set it is the parsed calls that are executed: the meaning of a template
   * that was not compiled.
   */
  datatype Env = Env(
    statics: map<string, Value>,
    runtime: map<string, Value>,
    functions: Functions,
    indexer: Indexer,
    parsed: bool)

  function EvalLookup(context: string, path: seq<string>, env: Env): Result<Value, Error> {
    if context !in env.statics && context !in env.runtime then Err(MissingRoot)
    else
      var root := if context in env.statics then env.statics[context] else env.runtime[context];
      match GetFieldValue(root, path, env.indexer)
      case Some(value) => Ok(value)
      case None => Err(MissingPath)
  }

  /** Calls a function; only calls that cannot be folded are recorded. */
  function Invoke(name: string, arguments: Outcomes, keywords: seq<string>, env: Env): Outcome {
    match arguments.results
    case Err(error) => Outcome(Err(error), arguments.history)
    case Ok(values) =>
      if name !in env.functions then Outcome(Err(Internal), arguments.history)
      else
        var function_ := env.functions[name];
        var result :=
          match function_.fn(arguments.history, values, keywords)
          case Ok(value) => Ok(value)
          case Err(text) => Err(FunctionRaised(text));
        Outcome(result, if function_.foldable then arguments.history
                        else arguments.history + [Invocation(name, CopyAll(values), keywords)])
  }

  /** `_evaluate_operation`. */
  function Eval(op: Operation, env: Env, history: seq<Invocation>): Outcome
    decreases op, 1
  {
    match op
    case Constant(value) => Outcome(Ok(Copy(value)), history)
    case Lookup(context, path, copyResult) =>
      (match EvalLookup(context, path, env)
       case Ok(value) => Outcome(Ok(if copyResult then Copy(value) else value), history)
       case Err(error) => Outcome(Err(error), history))
    case ParsedCall(name, operands, keywords) =>
      if env.parsed then Invoke(name, EvalAll(operands, env, history), keywords, env)
      else Outcome(Err(Internal), history)
    case Call(name, operands, keywords) =>
      if env.parsed then Outcome(Err(Internal), history)
      else Invoke(name, EvalAll(operands, env, history), keywords, env)
    case Mapping(entries) => EvalEntries(entries, map[], env, history)
    case ListOf(elements) =>
      var all := EvalAll(elements, env, history);
      (match all.results
       case Ok(values) => Outcome(Ok(List(Fresh, values)), all.history)
       case Err(error) => Outcome(Err(error), all.history))
  }

  /** Evaluates in order; the first error ends it. */
  function EvalAll(ops: seq<Operation>, env: Env, history: seq<Invocation>): Outcomes
    decreases ops, 0
  {
    if ops == [] then Outcomes(Ok([]), history)
    else
      var first := Eval(ops[0], env, history);
      match first.result
      case Err(error) => Outcomes(Err(error), first.history)
      case Ok(value) =>
        var others := EvalAll(ops[1..], env, first.history);
        match others.results
        case Err(error) => others
        case Ok(values) => Outcomes(Ok([value] + values), others.history)
  }

  /** The loop over the entries of a mapping: key, checks of the key, value. */
  function EvalEntries(entries: seq<Entry>, done: map<string, Value>, env: Env, history: seq<Invocation>): Outcome
    decreases entries, 0
  {
    if entries == [] then Outcome(Ok(Dict(Fresh, done)), history)
    else
      var key := EvalKey(entries[0], env, history);
      match key.result
      case Err(error) => key
      case Ok(name) =>
        if !name.Str? then Outcome(Err(KeyNotString), key.history)
        else if name.s in done then Outcome(Err(DuplicateKey), key.history)
        else
          var value := EvalValue(entries[0], env, key.history);
          match value.result
          case Err(error) => value
          case Ok(v) => EvalEntries(entries[1..], done[name.s := v], env, value.history)
  }

  function EvalKey(entry: Entry, env: Env, history: seq<Invocation>): Outcome
    decreases entry, 2
  {
    Eval(entry.key, env, history)
  }

  function EvalValue(entry: Entry, env: Env, history: seq<Invocation>): Outcome
    decreases entry, 2
  {
    Eval(entry.value, env, history)
  }

  // --------------------------------------------------------------- compilation

  datatype ConfigError =
    | UnknownRoot
    | StaticPathMissing
    | UnknownFunction
    | ArgumentsDoNotBind
    | StaticKeyNotString
    | FoldingRaised(text: string)
    | CallBeforeCompilation

  datatype Setup = Setup(
    statics: map<string, Value>, runtimeRoots: set<string>, functions: Functions, indexer: Indexer)

  /** `_validate_operation`. */
  function Validate(op: Operation, setup: Setup): Option<ConfigError>
    decreases op, 1
  {
    match op
    case Constant(_) => None
    case Lookup(context, path, _) =>
      if context !in setup.statics && context !in setup.runtimeRoots then Some(UnknownRoot)
      else if context in setup.runtimeRoots then None
      else if GetFieldValue(setup.statics[context], path, setup.indexer).None? then Some(StaticPathMissing)
      else None
    case ParsedCall(name, operands, keywords) =>
      if name !in setup.functions then Some(UnknownFunction)
      else if |keywords| > |operands| || !setup.functions[name].binds(|operands| - |keywords|, keywords) then
        Some(ArgumentsDoNotBind)
      else ValidateAll(operands, setup)
    case Call(_, _, _) => Some(CallBeforeCompilation)
    case Mapping(entries) => ValidateEntries(entries, setup)
    case ListOf(elements) => ValidateAll(elements, setup)
  }

  function ValidateAll(ops: seq<Operation>, setup: Setup): Option<ConfigError>
    decreases ops, 0
  {
    if ops == [] then None
    else
      var first := Validate(ops[0], setup);
      if first.Some? then first else ValidateAll(ops[1..], setup)
  }

  function ValidateEntries(entries: seq<Entry>, setup: Setup): Option<ConfigError>
    decreases entries, 0
  {
    if entries == [] then None
    else
      var first := ValidateEntry(entries[0], setup);
      if first.Some? then first else ValidateEntries(entries[1..], setup)
  }

  function ValidateEntry(entry: Entry, setup: Setup): Option<ConfigError>
    decreases entry, 2
  {
    var key := Validate(entry.key, setup);
    if key.Some? then key else Validate(entry.value, setup)
  }

  /** The copy policy: only a lookup that is itself an operand can be spared its copy. */
  function AsOperand(op: Operation, borrow: bool): Operation {
    if op.Lookup? then Lookup(op.context, op.path, !borrow) else op
  }

  /** The values of the operations that are constants. */
  function ConstantValues(ops: seq<Operation>): seq<Value> {
    if ops == [] then []
    else (if ops[0].Constant? then [ops[0].value] else []) + ConstantValues(ops[1..])
  }

  /** The dictionary of the entries that are constants; a repeated key is overwritten. */
  function ConstantEntries(entries: seq<Entry>): map<string, Value> {
    if entries == [] then map[]
    else
      var last := entries[|entries| - 1];
      var others := ConstantEntries(entries[..|entries| - 1]);
      if last.value.Constant? && last.key.Constant? && last.key.value.Str? then
        others[last.key.value.s := last.value.value]
      else others
  }

  /** `_compile_operation`. */
  function Compile(op: Operation, setup: Setup): Result<Operation, ConfigError>
    decreases op, 1
  {
    match op
    case Constant(_) => Ok(op)
    case Lookup(context, path, _) =>
      if context in setup.statics then
        match GetFieldValue(setup.statics[context], path, setup.indexer)
        case None => Err(StaticPathMissing)
        case Some(value) => Ok(Constant(Own(Copy(value))))
      else Ok(op)
    case ParsedCall(name, operands, keywords) =>
      if name !in setup.functions then Err(UnknownFunction)
      else
        var function_ := setup.functions[name];
        var compiled :- CompileOperands(operands, function_.canBorrowInput, setup);
        if function_.foldable && |ConstantValues(compiled)| == |compiled| then
          match function_.fn([], ConstantValues(compiled), keywords)
          case Ok(value) => Ok(Constant(Own(value)))
          case Err(text) => Err(FoldingRaised(text))
        else Ok(Call(name, compiled, keywords))
    case Call(_, _, _) => Err(CallBeforeCompilation)
    case Mapping(entries) =>
      var compiled :- CompileEntries(entries, setup);
      if |ConstantEntries(compiled)| == |compiled| then Ok(Constant(Own(Dict(Fresh, ConstantEntries(compiled)))))
      else Ok(Mapping(compiled))
    case ListOf(elements) =>
      var compiled :- CompileAll(elements, setup);
      if |ConstantValues(compiled)| == |compiled| then Ok(Constant(Own(List(Fresh, ConstantValues(compiled)))))
      else Ok(ListOf(compiled))
  }

  function CompileOperands(ops: seq<Operation>, borrow: bool, setup: Setup): Result<seq<Operation>, ConfigError>
    decreases ops, 0
  {
    if ops == [] then Ok([])
    else
      var first :- Compile(ops[0], setup);
      var others :- CompileOperands(ops[1..], borrow, setup);
      Ok([AsOperand(first, borrow)] + others)
  }

  function CompileAll(ops: seq<Operation>, setup: Setup): Result<seq<Operation>, ConfigError>
    decreases ops, 0
  {
    if ops == [] then Ok([])
    else
      var first :- Compile(ops[0], setup);
      var others :- CompileAll(ops[1..], setup);
      Ok([first] + others)
  }

  function CompileEntries(entries: seq<Entry>, setup: Setup): Result<seq<Entry>, ConfigError>
    decreases entries, 0
  {
    if entries == [] then Ok([])
    else
      var first :- CompileEntry(entries[0], setup);
      var others :- CompileEntries(entries[1..], setup);
      Ok([first] + others)
  }

  function CompileEntry(entry: Entry, setup: Setup): Result<Entry, ConfigError>
    decreases entry, 2
  {
    var key :- Compile(entry.key, setup);
    if key.Constant? && !key.value.Str? then Err(StaticKeyNotString)
    else
      var value :- Compile(entry.value, setup);
      Ok(Entry(key, value))
  }
}
