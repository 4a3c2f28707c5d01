/** Parsing tokens into operations: what the parser reads, and the parser itself with its cursor over tokens. */
module TemplateParser {
  import opened Common
  import opened TemplateLexer
  import opened TemplateOperations

  datatype ParserError =
    | UnexpectedEnd
    | UnexpectedToken
    | NoFieldName
    | NotAValue
    | DuplicateKeyword
    | InvalidKeyword
    | PositionalAfterKeyword
    | NoInterpolation
    | NotLookupOrCall
    | TrailingToken
    | NotATemplate

  /** A parsed value and the tokens behind it. */
  datatype Parsed<T> = Parsed(value: T, rest: seq<Token>)

  type Progress<T> = Result<Parsed<T>, ParserError>

  /** The operands of a call: positional first, then those named by the keywords. */
  datatype Arguments = Arguments(positional: seq<Operation>, named: seq<Operation>, keywords: seq<string>)

  function SkipWhitespace(tokens: seq<Token>): (rest: seq<Token>)
    ensures |rest| <= |tokens|
    ensures rest != [] ==> !rest[0].kind.Whitespace?
  {
    if tokens != [] && tokens[0].kind.Whitespace? then SkipWhitespace(tokens[1..]) else tokens
  }

  /** `expect`. */
  function Expect(tokens: seq<Token>, kind: Kind): (progress: Progress<Token>)
    ensures progress.Ok? ==> tokens != [] && progress.value == Parsed(tokens[0], tokens[1..]) && tokens[0].kind == kind
  {
    if tokens == [] then Err(UnexpectedEnd)
    else if tokens[0].kind != kind then Err(UnexpectedToken)
    else Ok(Parsed(tokens[0], tokens[1..]))
  }

  /** Whether tokens of these kinds come next, whitespace before and between them aside. */
  predicate Follow(kinds: seq<Kind>, tokens: seq<Token>) {
    kinds == []
    || var rest := SkipWhitespace(tokens);
       rest != [] && rest[0].kind == kinds[0] && Follow(kinds[1..], rest[1..])
  }

  /** Whether a keyword comes next. */
  predicate StartsKeyword(tokens: seq<Token>) { Follow([Text, Equals], tokens) }

  function DigitsValue(text: string, value: nat): nat {
    if text == "" then value
    else if IsDigit(text[0]) then DigitsValue(text[1..], 10 * value + (text[0] as int - '0' as int))
    else DigitsValue(text[1..], value)
  }

  /** `int` of an integer literal; underscores between digits do not count. */
  function IntValue(text: string): int {
    if text != "" && text[0] == '-' then 0 - DigitsValue(text[1..], 0)
    else if text != "" && text[0] == '+' then DigitsValue(text[1..], 0)
    else DigitsValue(text, 0)
  }

  /** `parse_lookup`, with the segments read so far. */
  function ParseLookup(tokens: seq<Token>, context: string, path: seq<string>): (progress: Progress<Operation>)
    ensures progress.Ok? ==> |progress.value.rest| <= |tokens|
    decreases |tokens|
  {
    if tokens == [] then Err(UnexpectedEnd)
    else if tokens[0].kind.Dot? then
      var segment :- Expect(tokens[1..], Text);
      ParseLookup(segment.rest, context, path + [segment.value.value])
    else if path == [] then Err(NoFieldName)
    else Ok(Parsed(Lookup(context, path, true), tokens))
  }

  /** `parse_value`. */
  function ParseValue(tokens: seq<Token>, isIdentifier: IdentifierTest): (progress: Progress<Operation>)
    ensures progress.Ok? ==> |progress.value.rest| < |tokens|
    decreases |tokens|, 0
  {
    var rest := SkipWhitespace(tokens);
    if rest == [] then Err(UnexpectedEnd)
    else
      var token, behind := rest[0], rest[1..];
      match token.kind
      case StringLiteral => Ok(Parsed(Constant(Str(token.value)), behind))
      case IntegerLiteral => Ok(Parsed(Constant(Int(IntValue(token.value))), behind))
      case FloatLiteral => Ok(Parsed(Constant(Float(token.value)), behind))
      case BooleanLiteral => Ok(Parsed(Constant(Bool(IsTrueText(token.value))), behind))
      case NoneLiteral => Ok(Parsed(Constant(Null), behind))
      case Text =>
        if behind == [] then Err(UnexpectedEnd)
        else if behind[0].kind.LeftParen? then
          var arguments :- ParseArguments(behind, isIdentifier);
          Ok(Parsed(CallOf(token.value, arguments.value), arguments.rest))
        else ParseLookup(behind, token.value, [])
      case _ => Err(NotAValue)
  }

  function CallOf(name: string, arguments: Arguments): Operation {
    ParsedCall(name, arguments.positional + arguments.named, arguments.keywords)
  }

  /** `parse_expression`. */
  function ParseExpression(tokens: seq<Token>, isIdentifier: IdentifierTest): (progress: Progress<Operation>)
    ensures progress.Ok? ==> |progress.value.rest| < |tokens|
    decreases |tokens|, 1
  {
    var value :- ParseValue(tokens, isIdentifier);
    ParsePipes(value.value, SkipWhitespace(value.rest), isIdentifier)
  }

  /** The loop over the pipes that follow a value. */
  function ParsePipes(op: Operation, tokens: seq<Token>, isIdentifier: IdentifierTest): (progress: Progress<Operation>)
    ensures progress.Ok? ==> |progress.value.rest| <= |tokens|
    decreases |tokens|, 2
  {
    if tokens == [] then Err(UnexpectedEnd)
    else if !tokens[0].kind.Pipe? then Ok(Parsed(op, tokens))
    else
      var next :- ParsePipe(op, tokens, isIdentifier);
      ParsePipes(next.value, SkipWhitespace(next.rest), isIdentifier)
  }

  /** One pipe, with the call behind it. */
  function ParsePipe(op: Operation, tokens: seq<Token>, isIdentifier: IdentifierTest): (progress: Progress<Operation>)
    requires tokens != []
    ensures progress.Ok? ==> |progress.value.rest| < |tokens|
    decreases |tokens|, 1
  {
    var name :- Expect(SkipWhitespace(tokens[1..]), Text);
    var arguments :- ParsePipedArguments(name.rest, isIdentifier);
    Ok(Parsed(PipedInto(op, name.value.value, arguments.value), arguments.rest))
  }

  /** The arguments behind a piped function's name; parentheses are optional. */
  function ParsePipedArguments(tokens: seq<Token>, isIdentifier: IdentifierTest): (progress: Progress<Arguments>)
    ensures progress.Ok? ==> |progress.value.rest| <= |tokens|
    decreases |tokens|, 1
  {
    if tokens == [] then Err(UnexpectedEnd)
    else if tokens[0].kind.LeftParen? then ParseArguments(tokens, isIdentifier)
    else Ok(Parsed(Arguments([], [], []), tokens))
  }

  /** A pipe supplies the value before it as the first operand. */
  function PipedInto(op: Operation, name: string, arguments: Arguments): Operation {
    CallOf(name, arguments.(positional := [op] + arguments.positional))
  }

  /** `parse_arguments`. */
  function ParseArguments(tokens: seq<Token>, isIdentifier: IdentifierTest): (progress: Progress<Arguments>)
    ensures progress.Ok? ==> |progress.value.rest| < |tokens|
    decreases |tokens|, 0
  {
    var open :- Expect(tokens, LeftParen);
    var rest := SkipWhitespace(open.rest);
    if rest == [] then Err(UnexpectedEnd)
    else if rest[0].kind.RightParen? then Ok(Parsed(Arguments([], [], []), rest[1..]))
    else ParseMoreArguments(rest, Arguments([], [], []), isIdentifier)
  }

  /** The loop of `parse_arguments`. */
  function ParseMoreArguments(tokens: seq<Token>, done: Arguments, isIdentifier: IdentifierTest)
    : (progress: Progress<Arguments>)
    ensures progress.Ok? ==> |progress.value.rest| < |tokens|
    decreases |tokens|, 2
  {
    var next :- ParseArgument(tokens, done, isIdentifier);
    var rest := SkipWhitespace(next.rest);
    if rest == [] then Err(UnexpectedEnd)
    else if rest[0].kind.RightParen? then Ok(Parsed(next.value, rest[1..]))
    else
      var comma :- Expect(rest, Comma);
      ParseMoreArguments(SkipWhitespace(comma.rest), next.value, isIdentifier)
  }

  /** One argument, added to those before it. */
  function ParseArgument(tokens: seq<Token>, done: Arguments, isIdentifier: IdentifierTest)
    : (progress: Progress<Arguments>)
    ensures progress.Ok? ==> |progress.value.rest| < |tokens|
    decreases |tokens|, 2, 0
  {
    if StartsKeyword(tokens) then
      var name := tokens[0].value;
      var equals :- Expect(SkipWhitespace(tokens[1..]), Equals);
      if name in done.keywords then Err(DuplicateKeyword)
      else if !isIdentifier(name) then Err(InvalidKeyword)
      else
        var value :- ParseExpression(equals.rest, isIdentifier);
        Ok(Parsed(Arguments(done.positional, done.named + [value.value], done.keywords + [name]), value.rest))
    else if done.keywords != [] then
      if tokens == [] then Err(UnexpectedEnd) else Err(PositionalAfterKeyword)
    else
      var value :- ParseExpression(tokens, isIdentifier);
      Ok(Parsed(Arguments(done.positional + [value.value], done.named, done.keywords), value.rest))
  }

  /** `parse_template`. */
  function ParseTemplate(tokens: seq<Token>, isIdentifier: IdentifierTest): Result<Operation, ParserError> {
    if tokens == [] then Ok(Constant(Str("")))
    else if tokens[0].kind.Text? then
      if |tokens| == 1 then Ok(Constant(Str(tokens[0].value))) else Err(NoInterpolation)
    else
      var start := SkipWhitespace(tokens);
      if start == [] then Err(UnexpectedEnd)
      else if !start[0].kind.ExpressionStart? then Err(NotATemplate)
      else
        var first := SkipWhitespace(start[1..]);
        if first == [] then Err(UnexpectedEnd)
        else if !first[0].kind.Text? then Err(NotLookupOrCall)
        else
          var op :- ParseExpression(first, isIdentifier);
          var end :- Expect(SkipWhitespace(op.rest), ExpressionEnd);
          if end.rest == [] then Ok(op.value) else Err(TrailingToken)
  }

  lemma UnfoldSkip(tokens: seq<Token>)
    ensures SkipWhitespace(tokens)
         == if tokens != [] && tokens[0].kind.Whitespace? then SkipWhitespace(tokens[1..]) else tokens
  {
  }

  lemma UnfoldFollow(kinds: seq<Kind>, tokens: seq<Token>)
    ensures Follow(kinds, tokens)
         == if kinds == [] then true
            else if tokens == [] then false
            else if tokens[0].kind.Whitespace? then Follow(kinds, tokens[1..])
            else tokens[0].kind == kinds[0] && Follow(kinds[1..], tokens[1..])
  {
  }

  lemma UnfoldMoreArguments(tokens: seq<Token>, done: Arguments, isIdentifier: IdentifierTest)
    ensures var next := ParseArgument(tokens, done, isIdentifier);
            ParseMoreArguments(tokens, done, isIdentifier) ==
            if next.Err? then Err(next.error)
            else
              var rest := SkipWhitespace(next.value.rest);
              if rest == [] then Err(UnexpectedEnd)
              else if rest[0].kind.RightParen? then Ok(Parsed(next.value.value, rest[1..]))
              else if !rest[0].kind.Comma? then Err(UnexpectedToken)
              else ParseMoreArguments(SkipWhitespace(rest[1..]), next.value.value, isIdentifier)
  {
  }

  /** The parser: a cursor over the tokens. */
  class Parser {
    const tokens: seq<Token>
    const isIdentifier: IdentifierTest
    var index: nat

    constructor (tokens: seq<Token>, isIdentifier: IdentifierTest)
      ensures this.tokens == tokens && this.isIdentifier == isIdentifier && index == 0
    {
      this.tokens := tokens;
      this.isIdentifier := isIdentifier;
      index := 0;
    }

    ghost predicate Valid()
      reads this`index
    {
      index <= |tokens|
    }

    /** The tokens not yet read. */
    ghost function Rest(): seq<Token>
      requires Valid()
      reads this`index
    {
      tokens[index..]
    }

    /** The method has read what the function says it reads. */
    ghost predicate Reads<T>(progress: Progress<T>, result: Result<T, ParserError>)
      reads this`index
    {
      match progress
      case Ok(parsed) => result == Ok(parsed.value) && Valid() && Rest() == parsed.rest
      case Err(error) => result == Err(error)
    }

    /** `peek`; at the end of the template it raises. */
    method PeekKind() returns (result: Result<Kind, ParserError>)
      requires Valid()
      ensures result == if Rest() == [] then Err(UnexpectedEnd) else Ok(Rest()[0].kind)
    {
      if index >= |tokens| {
        return Err(UnexpectedEnd);
      }
      return Ok(tokens[index].kind);
    }

    method ReadExpected(kind: Kind) returns (result: Result<Token, ParserError>)
      requires Valid()
      modifies this`index
      ensures Valid() && Reads(Expect(old(Rest()), kind), result)
      ensures result.Ok? ==> index == old(index) + 1
    {
      if index >= |tokens| {
        return Err(UnexpectedEnd);
      }
      if tokens[index].kind != kind {
        return Err(UnexpectedToken);
      }
      index := index + 1;
      return Ok(tokens[index - 1]);
    }

    method ReadWhitespace()
      requires Valid()
      modifies this`index
      ensures Valid() && Rest() == SkipWhitespace(old(Rest()))
    {
      hide SkipWhitespace;
      UnfoldSkip(Rest());
      while index < |tokens| && tokens[index].kind.Whitespace?
        invariant Valid() && SkipWhitespace(Rest()) == SkipWhitespace(old(Rest()))
        decreases |tokens| - index
      {
        UnfoldSkip(Rest());
        assert Rest()[1..] == tokens[index + 1..];
        index := index + 1;
      }
      UnfoldSkip(Rest());
    }

    /** `is_sequence`, whitespace before and between the tokens aside. */
    method IsSequence(kinds: seq<Kind>) returns (result: bool)
      requires Valid()
      ensures result == Follow(kinds, Rest())
    {
      hide Follow, SkipWhitespace;
      UnfoldFollow(kinds, Rest());
      if |kinds| == 0 {
        return true;
      }
      var i, k := index, 0;
      while true
        invariant index <= i <= |tokens| && k < |kinds|
        invariant Follow(kinds[k..], tokens[i..]) == Follow(kinds, Rest())
        decreases |tokens| - i
      {
        UnfoldFollow(kinds[k..], tokens[i..]);
        if i >= |tokens| {
          return false;
        }
        assert tokens[i..][1..] == tokens[i + 1..] && kinds[k..][1..] == kinds[k + 1..];
        if tokens[i].kind.Whitespace? {
          i := i + 1;
          continue;
        }
        if tokens[i].kind != kinds[k] {
          return false;
        }
        i, k := i + 1, k + 1;
        if k >= |kinds| {
          UnfoldFollow(kinds[k..], tokens[i..]);
          return true;
        }
      }
    }

    /** `parse_lookup`. */
    method ReadLookup(context: string) returns (result: Result<Operation, ParserError>)
      requires Valid()
      modifies this`index
      ensures Reads(ParseLookup(old(Rest()), context, []), result)
    {
      var path: seq<string> := [];
      while true
        invariant Valid() && ParseLookup(Rest(), context, path) == ParseLookup(old(Rest()), context, [])
        decreases |tokens| - index
      {
        var next := PeekKind();
        if next.Err? {
          return Err(next.error);
        }
        if !next.value.Dot? {
          break;
        }
        assert Rest()[1..] == tokens[index + 1..];
        index := index + 1;
        var segment := ReadExpected(Text);
        if segment.Err? {
          return Err(segment.error);
        }
        path := path + [segment.value.value];
      }
      if path == [] {
        return Err(NoFieldName);
      }
      return Ok(Lookup(context, path, true));
    }

    /** `parse_value`. */
    method ReadValue() returns (result: Result<Operation, ParserError>)
      requires Valid()
      modifies this`index
      ensures Reads(ParseValue(old(Rest()), isIdentifier), result)
      decreases |tokens| - index, 0
    {
      hide ParseArguments, ParseLookup, SkipWhitespace, IntValue, IsTrueText, CallOf;
      ReadWhitespace();
      if index >= |tokens| {
        return Err(UnexpectedEnd);
      }
      var token := tokens[index];
      assert Rest()[1..] == tokens[index + 1..];
      index := index + 1;
      match token.kind
      case StringLiteral => return Ok(Constant(Str(token.value)));
      case IntegerLiteral => return Ok(Constant(Int(IntValue(token.value))));
      case FloatLiteral => return Ok(Constant(Float(token.value)));
      case BooleanLiteral => return Ok(Constant(Bool(IsTrueText(token.value))));
      case NoneLiteral => return Ok(Constant(Null));
      case Text =>
        var next := PeekKind();
        if next.Err? {
          return Err(next.error);
        }
        if next.value.LeftParen? {
          var arguments := ReadArguments();
          if arguments.Err? {
            return Err(arguments.error);
          }
          return Ok(CallOf(token.value, arguments.value));
        }
        result := ReadLookup(token.value);
      case _ => return Err(NotAValue);
    }

    /** `parse_expression`. */
    method ReadExpression() returns (result: Result<Operation, ParserError>)
      requires Valid()
      modifies this`index
      ensures Reads(ParseExpression(old(Rest()), isIdentifier), result)
      ensures result.Ok? ==> old(index) < index
      decreases |tokens| - index, 1
    {
      ghost var start := Rest();
      var value := ReadValue();
      if value.Err? {
        return Err(value.error);
      }
      var operation := value.value;
      ReadWhitespace();
      assert ParsePipes(operation, Rest(), isIdentifier) == ParseExpression(start, isIdentifier);
      while true
        invariant Valid() && old(index) < index
        invariant ParsePipes(operation, Rest(), isIdentifier) == ParseExpression(start, isIdentifier)
        decreases |tokens| - index
      {
        var next := PeekKind();
        if next.Err? {
          return Err(next.error);
        }
        if !next.value.Pipe? {
          break;
        }
        var piped := ReadPipe(operation);
        if piped.Err? {
          return Err(piped.error);
        }
        operation := piped.value;
        ReadWhitespace();
      }
      return Ok(operation);
    }

    /** One iteration of the loop over the pipes. */
    method ReadPipe(operation: Operation) returns (result: Result<Operation, ParserError>)
      requires Valid() && Rest() != [] && Rest()[0].kind.Pipe?
      modifies this`index
      ensures Reads(ParsePipe(operation, old(Rest()), isIdentifier), result)
      ensures result.Ok? ==> old(index) < index
      decreases |tokens| - index, 0
    {
      hide ParsePipedArguments, SkipWhitespace, PipedInto, Expect;
      assert Rest()[1..] == tokens[index + 1..];
      index := index + 1;
      ReadWhitespace();
      var name := ReadExpected(Text);
      if name.Err? {
        return Err(name.error);
      }
      var arguments := ReadPipedArguments();
      if arguments.Err? {
        return Err(arguments.error);
      }
      return Ok(PipedInto(operation, name.value.value, arguments.value));
    }

    method ReadPipedArguments() returns (result: Result<Arguments, ParserError>)
      requires Valid()
      modifies this`index
      ensures Reads(ParsePipedArguments(old(Rest()), isIdentifier), result)
      ensures result.Ok? ==> old(index) <= index
      decreases |tokens| - index, 1
    {
      hide ParseArguments;
      var next := PeekKind();
      if next.Err? {
        return Err(next.error);
      }
      if next.value.LeftParen? {
        result := ReadArguments();
        return;
      }
      return Ok(Arguments([], [], []));
    }

    /** `parse_arguments`. */
    method ReadArguments() returns (result: Result<Arguments, ParserError>)
      requires Valid()
      modifies this`index
      ensures Reads(ParseArguments(old(Rest()), isIdentifier), result)
      ensures result.Ok? ==> old(index) < index
      decreases |tokens| - index, 0
    {
      hide ParseMoreArguments, SkipWhitespace, Expect;
      var open := ReadExpected(LeftParen);
      if open.Err? {
        return Err(open.error);
      }
      ReadWhitespace();
      var first := PeekKind();
      if first.Err? {
        return Err(first.error);
      }
      if first.value.RightParen? {
        assert Rest()[1..] == tokens[index + 1..];
        index := index + 1;
        return Ok(Arguments([], [], []));
      }
      result := ReadMoreArguments();
    }

    /** The loop of `parse_arguments`. */
    method ReadMoreArguments() returns (result: Result<Arguments, ParserError>)
      requires Valid()
      modifies this`index
      ensures Reads(ParseMoreArguments(old(Rest()), Arguments([], [], []), isIdentifier), result)
      ensures result.Ok? ==> old(index) < index
      decreases |tokens| - index, 3
    {
      hide ParseMoreArguments, ParseArgument, SkipWhitespace;
      ghost var whole := ParseMoreArguments(Rest(), Arguments([], [], []), isIdentifier);
      var arguments := Arguments([], [], []);
      while true
        invariant Valid() && old(index) <= index
        invariant ParseMoreArguments(Rest(), arguments, isIdentifier) == whole
        decreases |tokens| - index
      {
        UnfoldMoreArguments(Rest(), arguments, isIdentifier);
        var read := ReadArgument(arguments);
        if read.Err? {
          return Err(read.error);
        }
        arguments := read.value;
        ReadWhitespace();
        var next := PeekKind();
        if next.Err? {
          return Err(next.error);
        }
        if next.value.RightParen? {
          assert Rest()[1..] == tokens[index + 1..];
          index := index + 1;
          return Ok(arguments);
        }
        var comma := ReadExpected(Comma);
        if comma.Err? {
          return Err(comma.error);
        }
        ReadWhitespace();
      }
    }

    /** The part of the loop that reads one argument. */
    method ReadArgument(done: Arguments) returns (result: Result<Arguments, ParserError>)
      requires Valid()
      modifies this`index
      ensures Reads(ParseArgument(old(Rest()), done, isIdentifier), result)
      ensures result.Ok? ==> old(index) < index
      decreases |tokens| - index, 2
    {
      var isKeyword := IsSequence([Text, Equals]);
      if isKeyword {
        var name := tokens[index].value;
        assert Rest()[1..] == tokens[index + 1..];
        index := index + 1;
        ReadWhitespace();
        var equals := ReadExpected(Equals);
        if equals.Err? {
          return Err(equals.error);
        }
        if name in done.keywords {
          return Err(DuplicateKeyword);
        }
        if !isIdentifier(name) {
          return Err(InvalidKeyword);
        }
        var value := ReadExpression();
        if value.Err? {
          return Err(value.error);
        }
        return Ok(Arguments(done.positional, done.named + [value.value], done.keywords + [name]));
      }
      if done.keywords != [] {
        var next := PeekKind();
        return Err(if next.Err? then next.error else PositionalAfterKeyword);
      }
      var value := ReadExpression();
      if value.Err? {
        return Err(value.error);
      }
      return Ok(Arguments(done.positional + [value.value], done.named, done.keywords));
    }

    /** `parse_template`. */
    method ReadTemplate() returns (result: Result<Operation, ParserError>)
      requires index == 0
      modifies this`index
      ensures result == ParseTemplate(tokens, isIdentifier)
    {
      if |tokens| == 0 {
        return Ok(Constant(Str("")));
      }
      assert Rest() == tokens;
      if tokens[0].kind.Text? {
        index := 1;
        if index < |tokens| {
          return Err(NoInterpolation);
        }
        return Ok(Constant(Str(tokens[0].value)));
      }
      ReadWhitespace();
      var start := PeekKind();
      if start.Err? {
        return Err(start.error);
      }
      if !start.value.ExpressionStart? {
        return Err(NotATemplate);
      }
      assert Rest()[1..] == tokens[index + 1..];
      index := index + 1;
      ReadWhitespace();
      var first := PeekKind();
      if first.Err? {
        return Err(first.error);
      }
      if !first.value.Text? {
        return Err(NotLookupOrCall);
      }
      var operation := ReadExpression();
      if operation.Err? {
        return Err(operation.error);
      }
      ReadWhitespace();
      var end := ReadExpected(ExpressionEnd);
      if end.Err? {
        return Err(end.error);
      }
      if index < |tokens| {
        return Err(TrailingToken);
      }
      return Ok(operation.value);
    }
  }
}
