/** Templates from end to end. */
module FieldMappingTemplate {
  import opened Common
  import opened TemplateLexer
  import opened TemplateOperations
  import opened TemplateParser
  import opened TemplateProofs
  import opened TemplateTrees

  /** The configuration of a template; keys of mappings need not be texts. */
  datatype Config =
    | TextOf(text: string)
    | Scalar(value: Value)
    | Fields(fields: seq<Field>)
    | Items(items: seq<Config>)

  datatype Field = Field(key: Option<string>, value: Config)

  datatype Failure =
    | OverlappingRoots
    | KeyIsNoText
    | Scanning(lexerError: LexerError)
    | Parsing(parserError: ParserError)
    | RootIsNoMapping
    | Invalid(configError: ConfigError)

  /** Scalars are numbers, booleans and none. */
  predicate IsConfig(config: Config) {
    match config
    case TextOf(_) => true
    case Scalar(value) => value.Null? || value.Bool? || value.Int? || value.Float?
    case Fields(fields) => forall field <- fields :: IsConfig(field.value)
    case Items(items) => forall item <- items :: IsConfig(item)
  }

  /** `Lexer(text).scan()` and `parse_template` of the tokens. */
  function ParseText(text: string, isIdentifier: IdentifierTest): Result<Operation, Failure> {
    match Tokens(text)
    case Err(error) => Err(Scanning(error))
    case Ok(tokens) =>
      match ParseTemplate(tokens, isIdentifier)
      case Err(error) => Err(Parsing(error))
      case Ok(op) => Ok(op)
  }

  method ReadText(text: string, isIdentifier: IdentifierTest) returns (result: Result<Operation, Failure>)
    ensures result == ParseText(text, isIdentifier)
  {
    var lexer := new Lexer(text);
    var tokens := lexer.ScanTemplate();
    if tokens.Err? {
      return Err(Scanning(tokens.error));
    }
    var parser := new Parser(tokens.value, isIdentifier);
    var op := parser.ReadTemplate();
    return if op.Err? then Err(Parsing(op.error)) else Ok(op.value);
  }

  /** `_parse_recursive`. */
  function ParseConfig(config: Config, isIdentifier: IdentifierTest): Result<Operation, Failure>
    decreases config, 1
  {
    match config
    case TextOf(text) => ParseText(text, isIdentifier)
    case Scalar(value) => Ok(Constant(value))
    case Fields(fields) =>
      var entries :- ParseFields(fields, isIdentifier);
      Ok(Mapping(entries))
    case Items(items) =>
      var elements :- ParseItems(items, isIdentifier);
      Ok(ListOf(elements))
  }

  function ParseFields(fields: seq<Field>, isIdentifier: IdentifierTest): Result<seq<Entry>, Failure>
    decreases fields, 0
  {
    if fields == [] then Ok([])
    else
      var first :- ParseField(fields[0], isIdentifier);
      var others :- ParseFields(fields[1..], isIdentifier);
      Ok([first] + others)
  }

  function ParseField(field: Field, isIdentifier: IdentifierTest): Result<Entry, Failure>
    decreases field, 2
  {
    if field.key.None? then Err(KeyIsNoText)
    else
      var key :- ParseText(field.key.value, isIdentifier);
      var value :- ParseConfig(field.value, isIdentifier);
      Ok(Entry(key, value))
  }

  function ParseItems(items: seq<Config>, isIdentifier: IdentifierTest): Result<seq<Operation>, Failure>
    decreases items, 0
  {
    if items == [] then Ok([])
    else
      var first :- ParseConfig(items[0], isIdentifier);
      var others :- ParseItems(items[1..], isIdentifier);
      Ok([first] + others)
  }

  /** `FieldMappingTemplate.compile`. */
  function CompileTemplate(config: Config, setup: Setup, isIdentifier: IdentifierTest): Result<Operation, Failure> {
    if !(setup.statics.Keys !! setup.runtimeRoots) then Err(OverlappingRoots)
    else
      var root :- ParseConfig(config, isIdentifier);
      if !root.Mapping? then Err(RootIsNoMapping)
      else
        match Validate(root, setup)
        case Some(error) => Err(Invalid(error))
        case None =>
          match Compile(root, setup)
          case Err(error) => Err(Invalid(error))
          case Ok(compiled) => Ok(compiled)
  }

  /** `FieldMappingTemplate.evaluate`; a result that is no dictionary raises a `TypeError`. */
  function EvaluateTemplate(
    root: Operation, setup: Setup, runtime: map<string, Value>, history: seq<Invocation>): Outcome
  {
    var outcome := Eval(root, CompiledEnv(setup, runtime), history);
    if outcome.result.Ok? && !outcome.result.value.Dict? then Outcome(Err(Internal), outcome.history)
    else outcome
  }

  // ------------------------------------------------------ what the parser makes

  lemma TextIsParsed(text: string, isIdentifier: IdentifierTest)
    ensures ParseText(text, isIdentifier).Ok? ==> IsParsed(ParseText(text, isIdentifier).value)
  {
    hide ParseExpression, SkipWhitespace, Tokens;
    if Tokens(text).Ok? {
      var start := SkipWhitespace(Tokens(text).value);
      if start != [] && SkipWhitespace(start[1..]) != [] {
        ExpressionIsParsed(SkipWhitespace(start[1..]), isIdentifier);
      }
    }
  }

  lemma {:induction false} ConfigIsParsed(config: Config, isIdentifier: IdentifierTest)
    requires IsConfig(config)
    ensures ParseConfig(config, isIdentifier).Ok? ==> IsParsed(ParseConfig(config, isIdentifier).value)
    decreases config, 1
  {
    hide ParseText;
    match config
    case TextOf(text) => TextIsParsed(text, isIdentifier);
    case Scalar(_) =>
    case Fields(fields) => FieldsAreParsed(fields, isIdentifier);
    case Items(items) => ItemsAreParsed(items, isIdentifier);
  }

  lemma {:induction false} FieldsAreParsed(fields: seq<Field>, isIdentifier: IdentifierTest)
    requires forall field <- fields :: IsConfig(field.value)
    ensures var parsed := ParseFields(fields, isIdentifier);
            parsed.Ok? ==> forall entry <- parsed.value :: IsParsedEntry(entry)
    decreases fields, 0
  {
    hide IsParsedEntry, ParseField;
    if fields != [] {
      FieldIsParsed(fields[0], isIdentifier);
      FieldsAreParsed(fields[1..], isIdentifier);
    }
  }

  lemma {:induction false} FieldIsParsed(field: Field, isIdentifier: IdentifierTest)
    requires IsConfig(field.value)
    ensures var parsed := ParseField(field, isIdentifier); parsed.Ok? ==> IsParsedEntry(parsed.value)
    decreases field, 2
  {
    hide ParseText, IsParsed, ParseConfig;
    if field.key.Some? {
      TextIsParsed(field.key.value, isIdentifier);
      ConfigIsParsed(field.value, isIdentifier);
    }
  }

  lemma {:induction false} ItemsAreParsed(items: seq<Config>, isIdentifier: IdentifierTest)
    requires forall item <- items :: IsConfig(item)
    ensures var parsed := ParseItems(items, isIdentifier); parsed.Ok? ==> forall op <- parsed.value :: IsParsed(op)
    decreases items, 0
  {
    hide IsParsed, ParseConfig;
    if items != [] {
      ConfigIsParsed(items[0], isIdentifier);
      ItemsAreParsed(items[1..], isIdentifier);
    }
  }

  // -------------------------------------------------------------------- meaning

  lemma {:induction false} MappingEvaluates(
    entries: seq<Entry>, done: map<string, Value>, env: Env, history: seq<Invocation>)
    ensures var result := EvalEntries(entries, done, env, history).result; result.Ok? ==> result.value.Dict?
    decreases |entries|
  {
    hide Eval;
    if entries != [] {
      var key := EvalKey(entries[0], env, history);
      if key.result.Ok? && key.result.value.Str? {
        var value := EvalValue(entries[0], env, key.history);
        if value.result.Ok? {
          MappingEvaluates(entries[1..], done[key.result.value.s := value.result.value], env, value.history);
        }
      }
    }
  }

  /**
   * A template that compiles means what its configuration says: evaluating it, in any runtime
   * context and after any calls, is evaluating the parsed configuration in both contexts, with the
   * same result or error and the same calls. It never fails internally, its result is a dictionary,
   * and no list or dictionary in it belongs to a context or to the compiled template.
   */
  lemma TemplateKeepsMeaning(
    config: Config, setup: Setup, isIdentifier: IdentifierTest, runtime: map<string, Value>, history: seq<Invocation>)
    requires IsConfig(config) && AllKeepPromises(setup.functions)
    requires CompileTemplate(config, setup, isIdentifier).Ok?
    ensures ParseConfig(config, isIdentifier).Ok?
    ensures var outcome :=
              EvaluateTemplate(CompileTemplate(config, setup, isIdentifier).value, setup, runtime, history);
            && outcome == Eval(ParseConfig(config, isIdentifier).value, ParsedEnv(setup, runtime), history)
            && outcome.result != Err(Internal)
            && (outcome.result.Ok? ==> outcome.result.value.Dict? && IsFresh(outcome.result.value))
  {
    hide *;
    CompiledFrom(config, setup, isIdentifier);
    var parsed := ParseConfig(config, isIdentifier).value;
    var compiled := CompileTemplate(config, setup, isIdentifier).value;
    ConfigIsParsed(config, isIdentifier);
    CompilationKeepsMeaning(parsed, setup, runtime, history);
    CompilationCompiles(parsed, setup);
    NoInternalError(compiled, setup, runtime, history);
    ParsedMappingEvaluates(parsed, ParsedEnv(setup, runtime), history);
    IfOkThenFresh(parsed, setup, runtime, history);
    EvaluationOfDict(compiled, setup, runtime, history);
  }

  lemma CompiledFrom(config: Config, setup: Setup, isIdentifier: IdentifierTest)
    requires CompileTemplate(config, setup, isIdentifier).Ok?
    ensures setup.statics.Keys !! setup.runtimeRoots
    ensures var parsed := ParseConfig(config, isIdentifier);
            && parsed.Ok? && parsed.value.Mapping? && Validate(parsed.value, setup).None?
            && Compile(parsed.value, setup) == Ok(CompileTemplate(config, setup, isIdentifier).value)
  {
    hide ParseConfig, Validate, Compile;
  }

  lemma ParsedMappingEvaluates(op: Operation, env: Env, history: seq<Invocation>)
    requires op.Mapping?
    ensures var result := Eval(op, env, history).result; result.Ok? ==> result.value.Dict?
  {
    hide EvalEntries;
    MappingEvaluates(op.entries, map[], env, history);
  }

  lemma IfOkThenFresh(op: Operation, setup: Setup, runtime: map<string, Value>, history: seq<Invocation>)
    requires IsParsed(op) && AllKeepPromises(setup.functions)
    ensures var result := Eval(op, ParsedEnv(setup, runtime), history).result;
            result.Ok? ==> IsFresh(result.value)
  {
    hide Eval, IsFresh, IsParsed;
    ParsedValueIsFresh(op, ParsedEnv(setup, runtime), history);
  }

  lemma EvaluationOfDict(root: Operation, setup: Setup, runtime: map<string, Value>, history: seq<Invocation>)
    requires var result := Eval(root, CompiledEnv(setup, runtime), history).result;
             result.Ok? ==> result.value.Dict?
    ensures EvaluateTemplate(root, setup, runtime, history) == Eval(root, CompiledEnv(setup, runtime), history)
  {
    hide Eval;
  }

  /**
   * What a template is refused for before it is compiled, in this order: roots of both kinds, a text that
   * does not parse, a root that is no mapping, and what is not valid.
   */
  lemma RefusedTemplates(config: Config, setup: Setup, isIdentifier: IdentifierTest)
    ensures var compiled, parsed := CompileTemplate(config, setup, isIdentifier), ParseConfig(config, isIdentifier);
            if exists root :: root in setup.statics && root in setup.runtimeRoots then compiled == Err(OverlappingRoots)
            else if parsed.Err? then compiled == Err(parsed.error)
            else if !parsed.value.Mapping? then compiled == Err(RootIsNoMapping)
            else
              Validate(parsed.value, setup).Some? ==> compiled == Err(Invalid(Validate(parsed.value, setup).value))
    ensures ParseConfig(config, isIdentifier).Ok? ==>
              (ParseConfig(config, isIdentifier).value.Mapping?
               <==> config.Fields? || (config.TextOf? && ParseText(config.text, isIdentifier).value.Mapping?))
  {
    hide ParseText, Validate, Compile;
    if exists root :: root in setup.statics && root in setup.runtimeRoots {
      var root :| root in setup.statics && root in setup.runtimeRoots;
      assert root in setup.statics.Keys * setup.runtimeRoots;
    }
  }

  /** Keys of mappings have to be texts. */
  lemma {:induction false} KeysAreTexts(fields: seq<Field>, isIdentifier: IdentifierTest)
    ensures ParseFields(fields, isIdentifier).Ok? ==> forall i | 0 <= i < |fields| :: fields[i].key.Some?
    ensures fields != [] && fields[0].key.None? ==> ParseFields(fields, isIdentifier) == Err(KeyIsNoText)
  {
    hide ParseText, ParseConfig;
    if fields != [] {
      KeysAreTexts(fields[1..], isIdentifier);
      if ParseFields(fields, isIdentifier).Ok? {
        assert ParseField(fields[0], isIdentifier).Ok? && ParseFields(fields[1..], isIdentifier).Ok?;
        forall i | 0 <= i < |fields| ensures fields[i].key.Some? {
          assert i > 0 ==> fields[i] == fields[1..][i - 1];
        }
      }
    }
  }

  /** Compiling fails late, behind validation, for two reasons only: a key or a function that is folded. */
  lemma CompileFailures(config: Config, setup: Setup, isIdentifier: IdentifierTest)
    requires setup.statics.Keys !! setup.runtimeRoots
    requires ParseConfig(config, isIdentifier).Ok? && ParseConfig(config, isIdentifier).value.Mapping?
    requires Validate(ParseConfig(config, isIdentifier).value, setup).None?
    ensures var compiled := CompileTemplate(config, setup, isIdentifier);
            compiled.Ok? || compiled.error == Invalid(StaticKeyNotString)
            || (compiled.error.Invalid? && compiled.error.configError.FoldingRaised?)
  {
    hide ParseConfig, Validate, Compile;
    ValidationCoversCompilation(ParseConfig(config, isIdentifier).value, setup);
  }
}
