/** The operations that the parser makes: lookups that copy, and calls whose functions are still to be found. */
module TemplateTrees {
  import opened TemplateLexer
  import opened TemplateOperations
  import opened TemplateParser
  import opened TemplateProofs

  lemma {:induction false} LookupIsParsed(tokens: seq<Token>, context: string, path: seq<string>)
    ensures var progress := ParseLookup(tokens, context, path); progress.Ok? ==> IsParsed(progress.value.value)
    decreases |tokens|
  {
    if tokens != [] && tokens[0].kind.Dot? && Expect(tokens[1..], Text).Ok? {
      var segment := Expect(tokens[1..], Text).value;
      LookupIsParsed(segment.rest, context, path + [segment.value.value]);
    }
  }

  ghost predicate AreParsed(arguments: Arguments) {
    (forall op <- arguments.positional :: IsParsed(op)) && forall op <- arguments.named :: IsParsed(op)
  }

  lemma CallIsParsed(name: string, arguments: Arguments)
    requires AreParsed(arguments)
    ensures IsParsed(CallOf(name, arguments))
  {
  }

  lemma {:induction false} ValueIsParsed(tokens: seq<Token>, isIdentifier: IdentifierTest)
    ensures var progress := ParseValue(tokens, isIdentifier); progress.Ok? ==> IsParsed(progress.value.value)
    decreases |tokens|, 0
  {
    hide ParseArguments, ParseLookup, SkipWhitespace, CallOf, IntValue;
    var rest := SkipWhitespace(tokens);
    if rest != [] && rest[0].kind.Text? && rest[1..] != [] {
      var behind := rest[1..];
      if behind[0].kind.LeftParen? {
        ArgumentsAreParsed(behind, isIdentifier);
        if ParseArguments(behind, isIdentifier).Ok? {
          CallIsParsed(rest[0].value, ParseArguments(behind, isIdentifier).value.value);
        }
      } else {
        LookupIsParsed(behind, rest[0].value, []);
      }
    }
  }

  lemma {:induction false} ExpressionIsParsed(tokens: seq<Token>, isIdentifier: IdentifierTest)
    ensures var progress := ParseExpression(tokens, isIdentifier); progress.Ok? ==> IsParsed(progress.value.value)
    decreases |tokens|, 1
  {
    hide ParseValue, ParsePipes, SkipWhitespace, IsParsed;
    ValueIsParsed(tokens, isIdentifier);
    var value := ParseValue(tokens, isIdentifier);
    if value.Ok? {
      PipesAreParsed(value.value.value, SkipWhitespace(value.value.rest), isIdentifier);
    }
  }

  lemma {:induction false} PipesAreParsed(op: Operation, tokens: seq<Token>, isIdentifier: IdentifierTest)
    requires IsParsed(op)
    ensures var progress := ParsePipes(op, tokens, isIdentifier); progress.Ok? ==> IsParsed(progress.value.value)
    decreases |tokens|, 2
  {
    hide ParsePipe, SkipWhitespace, IsParsed;
    if tokens != [] && tokens[0].kind.Pipe? {
      PipeIsParsed(op, tokens, isIdentifier);
      var next := ParsePipe(op, tokens, isIdentifier);
      if next.Ok? {
        PipesAreParsed(next.value.value, SkipWhitespace(next.value.rest), isIdentifier);
      }
    }
  }

  lemma {:induction false} PipeIsParsed(op: Operation, tokens: seq<Token>, isIdentifier: IdentifierTest)
    requires IsParsed(op) && tokens != []
    ensures var progress := ParsePipe(op, tokens, isIdentifier); progress.Ok? ==> IsParsed(progress.value.value)
    decreases |tokens|, 1
  {
    hide ParsePipedArguments, SkipWhitespace, IsParsed, CallOf;
    var name := Expect(SkipWhitespace(tokens[1..]), Text);
    if name.Ok? {
      PipedArgumentsAreParsed(name.value.rest, isIdentifier);
      var arguments := ParsePipedArguments(name.value.rest, isIdentifier);
      if arguments.Ok? {
        var all := arguments.value.value;
        CallIsParsed(name.value.value.value, all.(positional := [op] + all.positional));
      }
    }
  }

  lemma {:induction false} PipedArgumentsAreParsed(tokens: seq<Token>, isIdentifier: IdentifierTest)
    ensures var progress := ParsePipedArguments(tokens, isIdentifier);
            progress.Ok? ==> AreParsed(progress.value.value)
    decreases |tokens|, 1
  {
    hide ParseArguments;
    if tokens != [] && tokens[0].kind.LeftParen? {
      ArgumentsAreParsed(tokens, isIdentifier);
    }
  }

  lemma {:induction false} ArgumentsAreParsed(tokens: seq<Token>, isIdentifier: IdentifierTest)
    ensures var progress := ParseArguments(tokens, isIdentifier); progress.Ok? ==> AreParsed(progress.value.value)
    decreases |tokens|, 0
  {
    hide ParseMoreArguments, SkipWhitespace;
    if Expect(tokens, LeftParen).Ok? {
      var rest := SkipWhitespace(tokens[1..]);
      if rest != [] && !rest[0].kind.RightParen? {
        MoreArgumentsAreParsed(rest, Arguments([], [], []), isIdentifier);
      }
    }
  }

  lemma {:induction false} MoreArgumentsAreParsed(tokens: seq<Token>, done: Arguments, isIdentifier: IdentifierTest)
    requires AreParsed(done)
    ensures var progress := ParseMoreArguments(tokens, done, isIdentifier);
            progress.Ok? ==> AreParsed(progress.value.value)
    decreases |tokens|, 2
  {
    hide ParseMoreArguments, ParseArgument, SkipWhitespace, AreParsed;
    UnfoldMoreArguments(tokens, done, isIdentifier);
    ArgumentIsParsed(tokens, done, isIdentifier);
    var next := ParseArgument(tokens, done, isIdentifier);
    if next.Ok? {
      var rest := SkipWhitespace(next.value.rest);
      if rest != [] && rest[0].kind.Comma? {
        MoreArgumentsAreParsed(SkipWhitespace(rest[1..]), next.value.value, isIdentifier);
      }
    }
  }

  lemma {:induction false} ArgumentIsParsed(tokens: seq<Token>, done: Arguments, isIdentifier: IdentifierTest)
    requires AreParsed(done)
    ensures var progress := ParseArgument(tokens, done, isIdentifier);
            progress.Ok? ==> AreParsed(progress.value.value)
    decreases |tokens|, 2, 0
  {
    hide ParseExpression, SkipWhitespace, IsParsed;
    if StartsKeyword(tokens) {
      var equals := Expect(SkipWhitespace(tokens[1..]), Equals);
      if equals.Ok? {
        ExpressionIsParsed(equals.value.rest, isIdentifier);
      }
    } else {
      ExpressionIsParsed(tokens, isIdentifier);
    }
  }
}
