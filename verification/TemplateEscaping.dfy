/** Templates without expressions: configurations whose texts are escaped. */
module TemplateEscaping {
  import opened Common
  import opened TemplateLexer
  import opened TemplateOperations
  import opened TemplateParser
  import opened TemplateProofs
  import opened FieldMappingTemplate
  import TemplateRoundTrip
  import TemplatePrinting

  /** JSON without references: texts are escaped and every mapping has distinct text keys. */
  ghost predicate IsPlain(config: Config) {
    match config
    case Fields(fields) =>
      && (forall i | 0 <= i < |fields| :: fields[i].key.Some? && IsPlain(fields[i].value))
      && forall i, j | 0 <= i < j < |fields| :: fields[i].key != fields[j].key
    case Items(items) => forall item <- items :: IsPlain(item)
    case _ => IsConfig(config)
  }

  /** Every text of the configuration with its backslashes and dollar signs escaped. */
  function Escaped(config: Config): Config {
    match config
    case TextOf(text) => TextOf(TemplatePrinting.PrintText(text))
    case Scalar(_) => config
    case Fields(fields) =>
      Fields(seq(|fields|, i requires 0 <= i < |fields| =>
               Field(EscapedKey(fields[i].key), Escaped(fields[i].value))))
    case Items(items) => Items(seq(|items|, i requires 0 <= i < |items| => Escaped(items[i])))
  }

  function EscapedKey(key: Option<string>): Option<string> {
    if key.Some? then Some(TemplatePrinting.PrintText(key.value)) else None
  }

  /** The value that the configuration spells out. */
  function Plain(config: Config): Value
    decreases config, 1
  {
    match config
    case TextOf(text) => Str(text)
    case Scalar(value) => value
    case Fields(fields) => Dict(Fresh, PlainFields(fields))
    case Items(items) => List(Fresh, seq(|items|, i requires 0 <= i < |items| => Plain(items[i])))
  }

  function PlainFields(fields: seq<Field>): map<string, Value>
    decreases fields, 0
  {
    if fields == [] then map[]
    else
      var last := fields[|fields| - 1];
      var others := PlainFields(fields[..|fields| - 1]);
      if last.key.Some? then others[last.key.value := PlainField(last)] else others
  }

  function PlainField(field: Field): Value
    decreases field, 2
  {
    Plain(field.value)
  }

  /** The configuration is parsed, validated and compiled to the constant that it spells out. */
  ghost predicate BecomesConstant(config: Config, setup: Setup, isIdentifier: IdentifierTest) {
    var parsed := ParseConfig(Escaped(config), isIdentifier);
    && parsed.Ok? && Validate(parsed.value, setup).None?
    && Compile(parsed.value, setup) == Ok(Constant(Own(Plain(config))))
    && (config.Fields? <==> parsed.value.Mapping?)
  }

  lemma {:induction false} PlainBecomesConstant(config: Config, setup: Setup, isIdentifier: IdentifierTest)
    requires IsPlain(config)
    ensures BecomesConstant(config, setup, isIdentifier)
    decreases config, 1
  {
    match config
    case TextOf(text) => EscapedText(text, isIdentifier);
    case Scalar(_) =>
    case Fields(fields) => PlainMappingBecomesConstant(fields, setup, isIdentifier);
    case Items(items) =>
      PlainItemsBecomeConstants(items, setup, isIdentifier);
      OwnedInside(Plain(config));
  }

  /** Parts that are the template's already stay so. */
  lemma {:induction false} OwnTwice(value: Value)
    ensures Own(Own(value)) == Own(value)
  {
    match value
    case List(_, items) =>
      forall i | 0 <= i < |items| ensures Own(Own(items[i])) == Own(items[i]) { OwnTwice(items[i]); }
      assert Own(Own(value)).items == Own(value).items;
    case Dict(_, fields) =>
      forall key <- fields ensures Own(Own(fields[key])) == Own(fields[key]) { OwnTwice(fields[key]); }
      assert Own(Own(value)).fields == Own(value).fields;
    case _ =>
  }

  function OwnAll(values: seq<Value>): seq<Value> {
    seq(|values|, i requires 0 <= i < |values| => Own(values[i]))
  }

  function OwnFields(fields: map<string, Value>): map<string, Value> {
    map key | key in fields :: Own(fields[key])
  }

  /** A container of the template's values is the template's as a whole. */
  lemma OwnedInside(value: Value)
    ensures value.List? ==> Own(List(value.origin, OwnAll(value.items))) == Own(value)
    ensures value.Dict? ==> Own(Dict(value.origin, OwnFields(value.fields))) == Own(value)
  {
    match value
    case List(origin, items) =>
      forall i | 0 <= i < |items| { OwnTwice(items[i]); }
      assert Own(List(origin, OwnAll(items))).items == Own(value).items;
    case Dict(origin, fields) =>
      forall key <- fields ensures Own(Own(fields[key])) == Own(fields[key]) { OwnTwice(fields[key]); }
      assert Own(Dict(origin, OwnFields(fields))).fields == Own(value).fields;
    case _ =>
  }

  lemma {:induction false} PlainMappingBecomesConstant(fields: seq<Field>, setup: Setup, isIdentifier: IdentifierTest)
    requires IsPlain(Fields(fields))
    ensures BecomesConstant(Fields(fields), setup, isIdentifier)
    decreases fields, 1
  {
    hide Escaped, PlainFields, ConstantEntries, Own, OwnFields, ParseFields, ValidateEntries, CompileEntries;
    PlainFieldsBecomeConstants(fields, setup, isIdentifier);
    assert Escaped(Fields(fields)).Fields? by { EscapedFields(fields); }
    var entries := CompileEntries(ParseFields(Escaped(Fields(fields)).fields, isIdentifier).value, setup).value;
    PlainEntries(fields, entries, |fields|);
    assert fields[..|fields|] == fields && entries[..|fields|] == entries;
    OwnedInside(Plain(Fields(fields)));
  }

  lemma EscapedFields(fields: seq<Field>)
    ensures Escaped(Fields(fields)).Fields?
  {
  }

  lemma EscapedText(text: string, isIdentifier: IdentifierTest)
    ensures ParseText(TemplatePrinting.PrintText(text), isIdentifier) == Ok(Constant(Str(text)))
  {
    hide Tokens, ParseTemplate;
    TemplateRoundTrip.TextRoundTrip(text, isIdentifier);
  }

  /** What a plain field compiles to. */
  function PlainEntry(field: Field): Entry
    requires field.key.Some?
  {
    Entry(Constant(Str(field.key.value)), Constant(Own(Plain(field.value))))
  }

  lemma {:induction false} PlainFieldsBecomeConstants(fields: seq<Field>, setup: Setup, isIdentifier: IdentifierTest)
    requires forall i | 0 <= i < |fields| :: fields[i].key.Some? && IsPlain(fields[i].value)
    ensures var parsed := ParseFields(Escaped(Fields(fields)).fields, isIdentifier);
            && parsed.Ok? && ValidateEntries(parsed.value, setup).None?
            && CompileEntries(parsed.value, setup).Ok?
            && |CompileEntries(parsed.value, setup).value| == |fields|
            && forall i | 0 <= i < |fields| :: CompileEntries(parsed.value, setup).value[i] == PlainEntry(fields[i])
    decreases fields, 0
  {
    hide Plain, IsPlain, Validate, Compile, ParseConfig;
    var escaped := Escaped(Fields(fields)).fields;
    if fields != [] {
      assert escaped[1..] == Escaped(Fields(fields[1..])).fields;
      PlainFieldsBecomeConstants(fields[1..], setup, isIdentifier);
      PlainFieldBecomesConstants(fields[0], setup, isIdentifier);
      assert ParseFields(escaped, isIdentifier).value[1..] == ParseFields(escaped[1..], isIdentifier).value;
    }
  }

  lemma {:induction false} PlainFieldBecomesConstants(field: Field, setup: Setup, isIdentifier: IdentifierTest)
    requires field.key.Some? && IsPlain(field.value)
    ensures var parsed := ParseField(Field(EscapedKey(field.key), Escaped(field.value)), isIdentifier);
            && parsed.Ok? && ValidateEntry(parsed.value, setup).None?
            && CompileEntry(parsed.value, setup) == Ok(PlainEntry(field))
    decreases field, 2
  {
    hide Plain, IsPlain, ParseConfig, ParseText;
    EscapedText(field.key.value, isIdentifier);
    PlainBecomesConstant(field.value, setup, isIdentifier);
  }

  lemma {:induction false} PlainEntries(fields: seq<Field>, entries: seq<Entry>, n: nat)
    requires n <= |fields| == |entries|
    requires forall i | 0 <= i < |fields| :: fields[i].key.Some? && entries[i] == PlainEntry(fields[i])
    requires forall i, j | 0 <= i < j < |fields| :: fields[i].key != fields[j].key
    ensures ConstantEntries(entries[..n]) == OwnFields(PlainFields(fields[..n]))
    ensures |PlainFields(fields[..n])| == |ConstantEntries(entries[..n])| == n
    ensures forall key <- PlainFields(fields[..n]) :: exists i :: 0 <= i < n && fields[i].key == Some(key)
  {
    hide Plain, ConstantEntries, Own, PlainFields, OwnFields;
    assert OwnFields(map[]) == map[] by { OwnNothing(); }
    UnfoldConstantEntries(entries[..n]);
    UnfoldPlainFields(fields[..n]);
    if n > 0 {
      assert entries[..n][..n - 1] == entries[..n - 1] && fields[..n][..n - 1] == fields[..n - 1];
      PlainEntries(fields, entries, n - 1);
      assert entries[n - 1] == PlainEntry(fields[n - 1]);
      var others := PlainFields(fields[..n - 1]);
      assert fields[n - 1].key.value !in others;
      OwnOneMore(others, fields[n - 1].key.value, Plain(fields[n - 1].value));
    }
  }

  lemma OwnNothing()
    ensures OwnFields(map[]) == map[]
  {
  }

  lemma OwnOneMore(fields: map<string, Value>, key: string, value: Value)
    ensures OwnFields(fields)[key := Own(value)] == OwnFields(fields[key := value])
    ensures key in OwnFields(fields) <==> key in fields
  {
    hide Own;
  }

  lemma UnfoldPlainFields(fields: seq<Field>)
    ensures fields == [] ==> PlainFields(fields) == map[]
    ensures fields != [] ==>
              var last, others := fields[|fields| - 1], PlainFields(fields[..|fields| - 1]);
              PlainFields(fields) == if last.key.Some? then others[last.key.value := Plain(last.value)] else others
  {
    hide Plain;
  }

  lemma {:induction false} PlainItemsBecomeConstants(items: seq<Config>, setup: Setup, isIdentifier: IdentifierTest)
    requires forall item <- items :: IsPlain(item)
    ensures var parsed := ParseItems(Escaped(Items(items)).items, isIdentifier);
            && parsed.Ok? && ValidateAll(parsed.value, setup).None?
            && var compiled := CompileAll(parsed.value, setup);
               compiled.Ok? && |ConstantValues(compiled.value)| == |compiled.value|
               && ConstantValues(compiled.value) == OwnAll(Plain(Items(items)).items)
    decreases items, 0
  {
    hide IsPlain, Validate, Compile, ParseConfig;
    var escaped := Escaped(Items(items)).items;
    if items != [] {
      assert escaped[1..] == Escaped(Items(items[1..])).items;
      PlainItemsBecomeConstants(items[1..], setup, isIdentifier);
      PlainBecomesConstant(items[0], setup, isIdentifier);
      assert ParseItems(escaped, isIdentifier).value[1..] == ParseItems(escaped[1..], isIdentifier).value;
      var plain := Plain(Items(items)).items;
      assert plain[1..] == Plain(Items(items[1..])).items;
      assert OwnAll(plain) == [Own(plain[0])] + OwnAll(plain[1..]);
    }
  }

  /** Escaping a JSON mapping gives a template that always evaluates to that mapping. */
  lemma {:induction false} EscapingRoundTrip(
    config: Config, setup: Setup, isIdentifier: IdentifierTest, runtime: map<string, Value>, history: seq<Invocation>)
    requires IsPlain(config) && config.Fields? && setup.statics.Keys !! setup.runtimeRoots
    ensures CompileTemplate(Escaped(config), setup, isIdentifier) == Ok(Constant(Own(Plain(config))))
    ensures EvaluateTemplate(Constant(Own(Plain(config))), setup, runtime, history)
         == Outcome(Ok(Plain(config)), history)
  {
    hide ParseConfig, Validate, Compile, IsPlain, Plain, Escaped;
    PlainBecomesConstant(config, setup, isIdentifier);
    PlainIsFresh(config);
    CopyOfFresh(Plain(config));
    CopyOfOwn(Plain(config));
    assert Plain(config).Dict? by { FieldsAreDict(config); }
  }

  lemma FieldsAreDict(config: Config)
    requires config.Fields?
    ensures Plain(config).Dict?
  {
  }

  lemma {:induction false} PlainIsFresh(config: Config)
    requires IsPlain(config)
    ensures IsFresh(Plain(config))
    decreases config, 1
  {
    match config
    case Fields(fields) => PlainFieldsAreFresh(fields);
    case Items(items) => forall i | 0 <= i < |items| { PlainIsFresh(items[i]); }
    case _ =>
  }

  lemma {:induction false} PlainFieldsAreFresh(fields: seq<Field>)
    requires forall i | 0 <= i < |fields| :: IsPlain(fields[i].value)
    ensures forall key <- PlainFields(fields) :: IsFresh(PlainFields(fields)[key])
    decreases fields, 0
  {
    if fields != [] {
      PlainFieldsAreFresh(fields[..|fields| - 1]);
      PlainFieldIsFresh(fields[|fields| - 1]);
    }
  }

  lemma {:induction false} PlainFieldIsFresh(field: Field)
    requires IsPlain(field.value)
    ensures IsFresh(PlainField(field))
    decreases field, 2
  {
    PlainIsFresh(field.value);
  }
}
