/** Printed templates parse back. */
module TemplateRoundTrip {
  import opened Common
  import opened TemplateLexer
  import opened TemplateOperations
  import opened TemplateParser
  import opened TemplatePrinting

  // -------------------------------------------------------------------- parsing

  lemma {:induction false} DigitsValueSnoc(text: string, c: char, value: nat)
    requires IsDigit(c)
    ensures DigitsValue(text + [c], value) == 10 * DigitsValue(text, value) + (c as int - '0' as int)
  {
    if text == "" {
      assert (text + [c])[1..] == "";
    } else {
      assert (text + [c])[1..] == text[1..] + [c];
      DigitsValueSnoc(text[1..], c, if IsDigit(text[0]) then 10 * value + (text[0] as int - '0' as int) else value);
    }
  }

  lemma {:induction false} DigitsRoundTrip(n: nat)
    ensures DigitsValue(Digits(n), 0) == n
  {
    if n < 10 {
      assert DigitsValue(Digits(n)[1..], n) == n;
    } else {
      DigitsRoundTrip(n / 10);
      DigitsValueSnoc(Digits(n / 10), "0123456789"[n % 10], 0);
    }
  }

  lemma IntegerRoundTrip(n: int)
    ensures IntValue(IntText(n)) == n
  {
    hide Digits, DigitsValue;
    if n < 0 {
      DigitsRoundTrip(-n);
      assert IntText(n)[1..] == Digits(-n);
    } else {
      DigitsRoundTrip(n);
      assert IsDigit(IntText(n)[0]);
    }
  }

  /** The kinds that an expression can be followed by. */
  predicate IsBehind(tokens: seq<Token>) {
    tokens != [] && !tokens[0].kind.Dot? && !tokens[0].kind.LeftParen?
  }

  lemma {:induction false} ParsePath(
    path: seq<string>, context: string, done: seq<string>, rest: seq<Token>, position: nat)
    requires IsBehind(rest) && done + path != []
    ensures ParseLookup(PathTokens(path, position) + rest, context, done)
         == Ok(Parsed(Lookup(context, done + path, true), rest))
    decreases path
  {
    hide ParseLookup, EscapeName;
    var tokens := PathTokens(path, position) + rest;
    if path == [] {
      assert tokens == rest && done + path == done;
      ParsePathEnd(rest, context, done);
    } else {
      var next := PathTokens(path[1..], position + 1 + |EscapeName(path[0], false)|) + rest;
      assert tokens == SegmentTokens(path[0], position) + next;
      ParseSegment(path[0], position, next, context, done);
      assert done + [path[0]] + path[1..] == done + path;
      ParsePath(path[1..], context, done + [path[0]], rest, position + 1 + |EscapeName(path[0], false)|);
    }
  }

  lemma ParsePathEnd(rest: seq<Token>, context: string, path: seq<string>)
    requires IsBehind(rest) && path != []
    ensures ParseLookup(rest, context, path) == Ok(Parsed(Lookup(context, path, true), rest))
  {
  }

  lemma ParseSegment(segment: string, position: nat, rest: seq<Token>, context: string, path: seq<string>)
    ensures ParseLookup(SegmentTokens(segment, position) + rest, context, path)
         == ParseLookup(rest, context, path + [segment])
  {
    var tokens := SegmentTokens(segment, position);
    assert (tokens + rest)[1..] == [tokens[1]] + rest && ([tokens[1]] + rest)[1..] == rest;
  }

  /** How the tokens of an expression begin. */
  lemma {:induction false} ExpressionBegins(op: Operation, pipes: bool, isIdentifier: IdentifierTest, position: nat)
    requires IsPrintable(op, isIdentifier)
    ensures var tokens := ExpressionTokens(op, pipes, position);
            && tokens != [] && !tokens[0].kind.Whitespace? && !tokens[0].kind.RightParen?
            && (tokens[0].kind.Text? ==> |tokens| > 1 && (tokens[1].kind.Dot? || tokens[1].kind.LeftParen?))
  {
    match op
    case ParsedCall(_, operands, _) =>
      if IsPiped(op, pipes) {
        assert operands[0] in operands;
        ExpressionBegins(operands[0], pipes, isIdentifier, position);
      }
    case _ =>
  }

  lemma ParseConstant(value: Value, isIdentifier: IdentifierTest, rest: seq<Token>, position: nat)
    requires value.Null? || value.Bool? || value.Int? || value.Str?
    ensures ParseValue([ConstantToken(value, position)] + rest, isIdentifier) == Ok(Parsed(Constant(value), rest))
  {
    hide ParseValue, IntText, IntValue;
    ParseLiteralToken(ConstantToken(value, position), isIdentifier, rest);
    if value.Int? {
      IntegerRoundTrip(value.n);
    }
  }

  lemma ParseLiteralToken(token: Token, isIdentifier: IdentifierTest, rest: seq<Token>)
    requires !token.kind.Text? && !token.kind.Whitespace?
    ensures ParseValue([token] + rest, isIdentifier)
         == match token.kind
            case StringLiteral => Ok(Parsed(Constant(Str(token.value)), rest))
            case IntegerLiteral => Ok(Parsed(Constant(Int(IntValue(token.value))), rest))
            case FloatLiteral => Ok(Parsed(Constant(Float(token.value)), rest))
            case BooleanLiteral => Ok(Parsed(Constant(Bool(IsTrueText(token.value))), rest))
            case NoneLiteral => Ok(Parsed(Constant(Null), rest))
            case _ => Err(NotAValue)
  {
    hide ParseArguments, ParseLookup, SkipWhitespace, IntValue, IsTrueText, CallOf;
    NothingToSkip([token] + rest);
    assert ([token] + rest)[1..] == rest;
  }

  lemma ParseTextToken(token: Token, isIdentifier: IdentifierTest, rest: seq<Token>)
    requires token.kind.Text? && rest != []
    ensures rest[0].kind.LeftParen? ==>
              ParseValue([token] + rest, isIdentifier) ==
              var arguments := ParseArguments(rest, isIdentifier);
              if arguments.Err? then Err(arguments.error)
              else Ok(Parsed(CallOf(token.value, arguments.value.value), arguments.value.rest))
    ensures !rest[0].kind.LeftParen? ==>
              ParseValue([token] + rest, isIdentifier) == ParseLookup(rest, token.value, [])
  {
    hide ParseArguments, ParseLookup, SkipWhitespace, IntValue, IsTrueText, CallOf;
    NothingToSkip([token] + rest);
    assert ([token] + rest)[1..] == rest;
  }

  function NamedFrom(ops: seq<Operation>, keywords: seq<string>): nat
    requires |keywords| <= |ops|
  {
    |ops| - |keywords|
  }

  /** The arguments that the operands of a call are. */
  function AsArguments(ops: seq<Operation>, keywords: seq<string>): Arguments
    requires |keywords| <= |ops|
  {
    Arguments(ops[..NamedFrom(ops, keywords)], ops[NamedFrom(ops, keywords)..], keywords)
  }

  function AddArguments(a: Arguments, b: Arguments): Arguments {
    Arguments(a.positional + b.positional, a.named + b.named, a.keywords + b.keywords)
  }

  /** Parsing the tokens of an expression leaves the loop over the pipes behind it. */
  lemma {:induction false} ParsePrinted(
    op: Operation, pipes: bool, isIdentifier: IdentifierTest, rest: seq<Token>, position: nat)
    requires IsPrintable(op, isIdentifier) && IsBehind(rest)
    ensures ParseExpression(ExpressionTokens(op, pipes, position) + rest, isIdentifier)
         == ParsePipes(op, SkipWhitespace(rest), isIdentifier)
    decreases op, 1
  {
    hide ParseValue, ParseLookup, ParsePipes, Print, PrintName, CallTokens, AreKeywords, SkipWhitespace;
    match op
    case Constant(value) => ParseConstant(value, isIdentifier, rest, position);
    case Lookup(context, path, _) =>
      var name, behind := Token(Text, context, position), PathTokens(path, position + |PrintName(context)|) + rest;
      assert ExpressionTokens(op, pipes, position) + rest == [name] + behind;
      ParseTextToken(name, isIdentifier, behind);
      ParsePath(path, context, [], rest, position + |PrintName(context)|);
      assert [] + path == path;
    case ParsedCall(name, operands, keywords) =>
      if IsPiped(op, pipes) {
        ParsePiped(op, pipes, isIdentifier, rest, position);
      } else {
        ParseCall(name, operands, keywords, pipes, isIdentifier, rest, position);
      }
  }

  /** A call in the plain form is one value. */
  lemma {:induction false} ParseCall(
    name: string, ops: seq<Operation>, keywords: seq<string>, pipes: bool, isIdentifier: IdentifierTest,
    rest: seq<Token>, position: nat)
    requires |keywords| <= |ops| && AreKeywords(keywords, isIdentifier)
    requires forall op <- ops :: IsPrintable(op, isIdentifier)
    ensures ParseValue(CallTokens(name, ops, keywords, pipes, position) + rest, isIdentifier)
         == Ok(Parsed(ParsedCall(name, ops, keywords), rest))
    decreases ops, 3
  {
    hide ParseValue, ParseArguments, PrintOperands, OperandTokens, PrintName, IsPrintable, AreKeywords;
    var tokens := CallTokens(name, ops, keywords, pipes, position) + rest;
    var text := Token(Text, name, position);
    ParseCallArguments(name, ops, keywords, pipes, isIdentifier, rest, position);
    assert tokens == [text] + tokens[1..] && tokens[1].kind.LeftParen?;
    ParseTextToken(text, isIdentifier, tokens[1..]);
    assert ops[..NamedFrom(ops, keywords)] + ops[NamedFrom(ops, keywords)..] == ops;
  }

  lemma {:induction false} ParseCallArguments(
    name: string, ops: seq<Operation>, keywords: seq<string>, pipes: bool, isIdentifier: IdentifierTest,
    rest: seq<Token>, position: nat)
    requires |keywords| <= |ops| && AreKeywords(keywords, isIdentifier)
    requires forall op <- ops :: IsPrintable(op, isIdentifier)
    ensures ParseArguments((CallTokens(name, ops, keywords, pipes, position) + rest)[1..], isIdentifier)
         == Ok(Parsed(AsArguments(ops, keywords), rest))
    decreases ops, 2
  {
    hide *;
    var inside := position + |PrintName(name)| + 1;
    var close := Token(RightParen, ")", inside + |PrintOperands(ops, keywords, pipes)|);
    var open := Token(LeftParen, "(", inside - 1);
    var behind := OperandTokens(ops, keywords, pipes, inside) + ([close] + rest);
    BehindName(name, ops, keywords, pipes, position, rest);
    if ops == [] {
      NoOperands(keywords, pipes, inside);
      assert behind == [close] + rest;
      ParseNoArguments(open, close, rest, isIdentifier);
      assert AsArguments(ops, keywords) == Arguments([], [], []) by { NoArguments(keywords); }
    } else {
      OperandsBegin(ops, keywords, pipes, isIdentifier, inside, [close] + rest);
      ParseOperands(ops, keywords, pipes, isIdentifier, Arguments([], [], []), close, rest, inside);
      NothingBefore(AsArguments(ops, keywords));
      ParseSomeArguments(open, behind, isIdentifier);
    }
  }

  lemma BehindName(
    name: string, ops: seq<Operation>, keywords: seq<string>, pipes: bool, position: nat, rest: seq<Token>)
    ensures var inside := position + |PrintName(name)| + 1;
            var close := Token(RightParen, ")", inside + |PrintOperands(ops, keywords, pipes)|);
            CallTokens(name, ops, keywords, pipes, position) + rest
            == [Token(Text, name, position)]
               + ([Token(LeftParen, "(", inside - 1)]
                  + (OperandTokens(ops, keywords, pipes, inside) + ([close] + rest)))
  {
    hide PrintOperands, OperandTokens, PrintName;
  }

  lemma NothingBefore(arguments: Arguments)
    ensures AddArguments(Arguments([], [], []), arguments) == arguments
  {
    assert [] + arguments.positional == arguments.positional && [] + arguments.named == arguments.named;
    assert [] + arguments.keywords == arguments.keywords;
  }

  lemma NoOperands(keywords: seq<string>, pipes: bool, position: nat)
    ensures OperandTokens([], keywords, pipes, position) == []
  {
  }

  lemma ParseNoArguments(open: Token, close: Token, rest: seq<Token>, isIdentifier: IdentifierTest)
    requires open.kind.LeftParen? && close.kind.RightParen?
    ensures ParseArguments([open] + ([close] + rest), isIdentifier) == Ok(Parsed(Arguments([], [], []), rest))
  {
    assert ([open] + ([close] + rest))[1..] == [close] + rest;
    assert ([close] + rest)[1..] == rest;
    assert SkipWhitespace([close] + rest) == [close] + rest;
  }

  lemma ParseSomeArguments(open: Token, behind: seq<Token>, isIdentifier: IdentifierTest)
    requires open.kind.LeftParen? && behind != [] && !behind[0].kind.RightParen? && SkipWhitespace(behind) == behind
    ensures ParseArguments([open] + behind, isIdentifier)
         == ParseMoreArguments(behind, Arguments([], [], []), isIdentifier)
  {
    hide ParseMoreArguments, SkipWhitespace;
    assert ([open] + behind)[1..] == behind;
  }

  lemma OperandsBegin(
    ops: seq<Operation>, keywords: seq<string>, pipes: bool, isIdentifier: IdentifierTest, position: nat,
    rest: seq<Token>)
    requires ops != [] && forall op <- ops :: IsPrintable(op, isIdentifier)
    ensures var tokens := OperandTokens(ops, keywords, pipes, position) + rest;
            tokens != [] && !tokens[0].kind.Whitespace? && !tokens[0].kind.RightParen?
            && SkipWhitespace(tokens) == tokens
  {
    assert ops[0] in ops;
    ExpressionBegins(ops[0], pipes, isIdentifier, position + |PrintKeyword(ops, keywords)|);
  }

  lemma {:induction false} ParsePiped(
    op: Operation, pipes: bool, isIdentifier: IdentifierTest, rest: seq<Token>, position: nat)
    requires IsPiped(op, pipes) && IsPrintable(op, isIdentifier) && IsBehind(rest)
    ensures ParseExpression(ExpressionTokens(op, pipes, position) + rest, isIdentifier)
         == ParsePipes(op, SkipWhitespace(rest), isIdentifier)
    decreases op, 0
  {
    hide *;
    PipedParts(op, pipes, isIdentifier);
    var first, ops := op.operands[0], op.operands[1..];
    var behind := position + |Print(first, pipes)|;
    var call := CallTokens(op.name, ops, op.keywords, pipes, behind + 3) + rest;
    var piped := PipeTokens(behind) + call;
    PipedTokens(op, pipes, position);
    assert ExpressionTokens(op, pipes, position) + rest == ExpressionTokens(first, pipes, position) + piped;
    CallBegins(op.name, ops, op.keywords, pipes, behind + 3);
    PipeBegins(behind, call);
    ParsePrinted(first, pipes, isIdentifier, piped, position);
    ParseCallArguments(op.name, ops, op.keywords, pipes, isIdentifier, rest, behind + 3);
    PipeStep(first, op.name, SkipWhitespace(piped), call, AsArguments(ops, op.keywords), rest, isIdentifier);
  }

  lemma PipedParts(op: Operation, pipes: bool, isIdentifier: IdentifierTest)
    requires IsPiped(op, pipes) && IsPrintable(op, isIdentifier)
    ensures op.ParsedCall? && |op.keywords| < |op.operands|
    ensures IsPrintable(op.operands[0], isIdentifier) && AreKeywords(op.keywords, isIdentifier)
    ensures forall operand <- op.operands[1..] :: IsPrintable(operand, isIdentifier)
    ensures PipedInto(op.operands[0], op.name, AsArguments(op.operands[1..], op.keywords)) == op
  {
    hide AreKeywords;
    var first, ops := op.operands[0], op.operands[1..];
    assert [first] + ops[..NamedFrom(ops, op.keywords)] + ops[NamedFrom(ops, op.keywords)..] == op.operands;
    assert first in op.operands;
  }

  lemma PipedTokens(op: Operation, pipes: bool, position: nat)
    requires IsPiped(op, pipes)
    ensures var behind := position + |Print(op.operands[0], pipes)|;
            ExpressionTokens(op, pipes, position)
            == ExpressionTokens(op.operands[0], pipes, position) + PipeTokens(behind)
               + CallTokens(op.name, op.operands[1..], op.keywords, pipes, behind + 3)
  {
  }

  lemma CallBegins(name: string, ops: seq<Operation>, keywords: seq<string>, pipes: bool, position: nat)
    ensures var call := CallTokens(name, ops, keywords, pipes, position);
            |call| > 1 && call[0].kind.Text? && call[0].value == name && call[1].kind.LeftParen?
  {
  }

  lemma PipeBegins(position: nat, call: seq<Token>)
    requires call != [] && !call[0].kind.Whitespace?
    ensures IsBehind(PipeTokens(position) + call)
    ensures var tokens := SkipWhitespace(PipeTokens(position) + call);
            tokens != [] && tokens[0].kind.Pipe? && SkipWhitespace(tokens[1..]) == call
  {
    var pipe, space := PipeTokens(position)[1], PipeTokens(position)[2];
    assert (PipeTokens(position) + call)[1..] == [pipe] + ([space] + call);
    assert SkipWhitespace([pipe] + ([space] + call)) == [pipe] + ([space] + call);
    assert ([pipe] + ([space] + call))[1..] == [space] + call;
    assert ([space] + call)[1..] == call;
  }

  /** A pipe and the call behind it are taken in by the loop over the pipes. */
  lemma {:induction false} PipeStep(
    first: Operation, name: string, tokens: seq<Token>, call: seq<Token>, arguments: Arguments, rest: seq<Token>,
    isIdentifier: IdentifierTest)
    requires tokens != [] && tokens[0].kind.Pipe? && SkipWhitespace(tokens[1..]) == call
    requires |call| > 1 && call[0].kind.Text? && call[0].value == name && call[1].kind.LeftParen?
    requires ParseArguments(call[1..], isIdentifier) == Ok(Parsed(arguments, rest))
    ensures ParsePipes(first, tokens, isIdentifier)
         == ParsePipes(PipedInto(first, name, arguments), SkipWhitespace(rest), isIdentifier)
  {
    hide ParseArguments, SkipWhitespace, PipedInto;
    assert ParsePipe(first, tokens, isIdentifier) == Ok(Parsed(PipedInto(first, name, arguments), rest));
  }

  /** The arguments before, and the first operand. */
  function WithFirst(ops: seq<Operation>, keywords: seq<string>, done: Arguments): Arguments
    requires ops != []
  {
    if IsNamed(ops, keywords) then Arguments(done.positional, done.named + [ops[0]], done.keywords + [keywords[0]])
    else Arguments(done.positional + [ops[0]], done.named, done.keywords)
  }

  /** An operand that something other than a pipe follows. */
  lemma {:induction false} ParseUnpiped(
    op: Operation, pipes: bool, isIdentifier: IdentifierTest, more: seq<Token>, position: nat)
    requires IsPrintable(op, isIdentifier)
    requires more != [] && (more[0].kind.Comma? || more[0].kind.RightParen?)
    ensures ParseExpression(ExpressionTokens(op, pipes, position) + more, isIdentifier) == Ok(Parsed(op, more))
    decreases op, 2
  {
    hide *;
    NothingPiped(op, more, isIdentifier);
    ParsePrinted(op, pipes, isIdentifier, more, position);
  }

  /** One operand, with its keyword if it has one. */
  lemma {:induction false} ParseOperand(
    ops: seq<Operation>, keywords: seq<string>, pipes: bool, isIdentifier: IdentifierTest, done: Arguments,
    more: seq<Token>, position: nat)
    requires ops != [] && |keywords| <= |ops| && AreKeywords(keywords, isIdentifier)
    requires IsPrintable(ops[0], isIdentifier)
    requires done.keywords != [] ==> |keywords| == |ops|
    requires forall keyword <- keywords :: keyword !in done.keywords
    requires more != [] && (more[0].kind.Comma? || more[0].kind.RightParen?)
    ensures ParseArgument(
              KeywordTokens(ops, keywords, position)
              + ExpressionTokens(ops[0], pipes, position + |PrintKeyword(ops, keywords)|) + more, done, isIdentifier)
         == Ok(Parsed(WithFirst(ops, keywords, done), more))
    decreases ops[0], 3
  {
    hide Print, PrintName, PrintKeyword, ExpressionTokens, IsPrintable, ParseArgument, ParseExpression;
    var start := position + |PrintKeyword(ops, keywords)|;
    var expression := ExpressionTokens(ops[0], pipes, start) + more;
    ParseUnpiped(ops[0], pipes, isIdentifier, more, start);
    if IsNamed(ops, keywords) {
      var name := NameTokens(keywords[0], Equals, "=", position);
      assert keywords[0] in keywords;
      assert KeywordTokens(ops, keywords, position) + ExpressionTokens(ops[0], pipes, start) + more
          == [name[0]] + ([name[1]] + expression);
      ParseKeyword(name[0], name[1], expression, done, ops[0], more, isIdentifier);
    } else {
      ExpressionBegins(ops[0], pipes, isIdentifier, start);
      assert KeywordTokens(ops, keywords, position) + ExpressionTokens(ops[0], pipes, start) + more == expression;
      ParsePositional(expression, done, ops[0], more, isIdentifier);
    }
  }

  lemma NothingPiped(op: Operation, more: seq<Token>, isIdentifier: IdentifierTest)
    requires more != [] && !more[0].kind.Whitespace? && !more[0].kind.Pipe?
    ensures IsBehind(more) <==> !more[0].kind.Dot? && !more[0].kind.LeftParen?
    ensures ParsePipes(op, SkipWhitespace(more), isIdentifier) == Ok(Parsed(op, more))
  {
  }

  lemma ParseKeyword(
    name: Token, equals: Token, expression: seq<Token>, done: Arguments, value: Operation, more: seq<Token>,
    isIdentifier: IdentifierTest)
    requires name.kind.Text? && equals.kind.Equals? && name.value !in done.keywords && isIdentifier(name.value)
    requires ParseExpression(expression, isIdentifier) == Ok(Parsed(value, more))
    ensures ParseArgument([name] + ([equals] + expression), done, isIdentifier)
         == Ok(Parsed(Arguments(done.positional, done.named + [value], done.keywords + [name.value]), more))
  {
    hide ParseExpression, Follow;
    var tokens := [name] + ([equals] + expression);
    UnfoldFollow([Text, Equals], tokens);
    UnfoldFollow([Text, Equals][1..], tokens[1..]);
    UnfoldFollow([Text, Equals][1..][1..], tokens[1..][1..]);
    assert tokens[1..] == [equals] + expression;
    assert ([equals] + expression)[1..] == expression;
    assert SkipWhitespace(tokens) == tokens && SkipWhitespace([equals] + expression) == [equals] + expression;
  }

  lemma ParsePositional(
    tokens: seq<Token>, done: Arguments, value: Operation, more: seq<Token>, isIdentifier: IdentifierTest)
    requires tokens != [] && !tokens[0].kind.Whitespace? && done.keywords == []
    requires tokens[0].kind.Text? ==> |tokens| > 1 && (tokens[1].kind.Dot? || tokens[1].kind.LeftParen?)
    requires ParseExpression(tokens, isIdentifier) == Ok(Parsed(value, more))
    ensures ParseArgument(tokens, done, isIdentifier)
         == Ok(Parsed(Arguments(done.positional + [value], done.named, done.keywords), more))
  {
    hide ParseExpression;
    hide Follow;
    UnfoldFollow([Text, Equals], tokens);
    UnfoldFollow([Text, Equals][1..], tokens[1..]);
  }

  lemma {:induction false} ParseOperands(
    ops: seq<Operation>, keywords: seq<string>, pipes: bool, isIdentifier: IdentifierTest, done: Arguments,
    close: Token, rest: seq<Token>, position: nat)
    requires ops != [] && |keywords| <= |ops| && AreKeywords(keywords, isIdentifier)
    requires forall op <- ops :: IsPrintable(op, isIdentifier)
    requires done.keywords != [] ==> |keywords| == |ops|
    requires forall keyword <- keywords :: keyword !in done.keywords
    requires close.kind.RightParen?
    ensures ParseMoreArguments(OperandTokens(ops, keywords, pipes, position) + ([close] + rest), done, isIdentifier)
         == Ok(Parsed(AddArguments(done, AsArguments(ops, keywords)), rest))
    decreases ops, 1
  {
    hide *;
    var others := OtherKeywords(ops, keywords);
    var start := position + |PrintKeyword(ops, keywords)|;
    var behind := start + |Print(ops[0], pipes)|;
    var more := OtherTokens(ops[1..], others, pipes, behind) + ([close] + rest);
    var read := WithFirst(ops, keywords, done);
    var tokens := OperandTokens(ops, keywords, pipes, position) + ([close] + rest);
    assert ops[0] in ops;
    FirstOperand(ops, keywords, pipes, position, [close] + rest);
    ParseOperand(ops, keywords, pipes, isIdentifier, done, more, position);
    KeywordsWithoutFirst(ops, keywords, isIdentifier);
    ArgumentsInTwoParts(ops, keywords, done);
    if ops[1..] == [] {
      assert more == [close] + rest && more[1..] == rest;
      LastOperand(tokens, done, read, more, isIdentifier);
      NoArguments(others);
    } else {
      var next := OperandTokens(ops[1..], others, pipes, behind + 2) + ([close] + rest);
      OperandsBegin(ops[1..], others, pipes, isIdentifier, behind + 2, [close] + rest);
      KeywordsStayNew(ops, keywords, done, isIdentifier);
      ParseOperands(ops[1..], others, pipes, isIdentifier, read, close, rest, behind + 2);
      assert more == SeparatorTokens(behind) + next && more[0].kind.Comma?;
      SkipSeparator(behind, next);
      NextOperand(tokens, done, read, more, next, isIdentifier);
    }
  }

  lemma FirstOperand(
    ops: seq<Operation>, keywords: seq<string>, pipes: bool, position: nat, rest: seq<Token>)
    requires ops != []
    ensures var others, start := OtherKeywords(ops, keywords), position + |PrintKeyword(ops, keywords)|;
            var behind := start + |Print(ops[0], pipes)|;
            var more := OtherTokens(ops[1..], others, pipes, behind) + rest;
            && OperandTokens(ops, keywords, pipes, position) + rest
               == KeywordTokens(ops, keywords, position) + ExpressionTokens(ops[0], pipes, start) + more
            && (ops[1..] == [] ==> more == rest)
            && (ops[1..] != [] ==>
                more == SeparatorTokens(behind) + (OperandTokens(ops[1..], others, pipes, behind + 2) + rest)
                && more[0].kind.Comma?)
  {
    hide Print, ExpressionTokens, KeywordTokens, PrintKeyword, OtherKeywords;
  }

  lemma LastOperand(
    tokens: seq<Token>, done: Arguments, more: Arguments, rest: seq<Token>, isIdentifier: IdentifierTest)
    requires ParseArgument(tokens, done, isIdentifier) == Ok(Parsed(more, rest))
    requires rest != [] && rest[0].kind.RightParen?
    ensures ParseMoreArguments(tokens, done, isIdentifier) == Ok(Parsed(more, rest[1..]))
  {
    hide ParseArgument;
    assert SkipWhitespace(rest) == rest;
  }

  lemma NextOperand(
    tokens: seq<Token>, done: Arguments, more: Arguments, rest: seq<Token>, next: seq<Token>,
    isIdentifier: IdentifierTest)
    requires ParseArgument(tokens, done, isIdentifier) == Ok(Parsed(more, rest))
    requires rest != [] && rest[0].kind.Comma? && SkipWhitespace(rest[1..]) == next
    ensures ParseMoreArguments(tokens, done, isIdentifier) == ParseMoreArguments(next, more, isIdentifier)
  {
    hide ParseArgument;
    assert SkipWhitespace(rest) == rest;
  }

  lemma NoArguments(keywords: seq<string>)
    requires keywords == []
    ensures AsArguments([], keywords) == Arguments([], [], [])
    ensures forall done: Arguments :: AddArguments(done, AsArguments([], keywords)) == done
  {
    forall done: Arguments ensures AddArguments(done, AsArguments([], keywords)) == done {
      assert done.positional + [] == done.positional && done.named + [] == done.named;
    }
  }

  /** The keywords left are neither among those read before nor the one just read. */
  lemma KeywordsStayNew(ops: seq<Operation>, keywords: seq<string>, done: Arguments, isIdentifier: IdentifierTest)
    requires |ops| > 1 && |keywords| <= |ops| && AreKeywords(keywords, isIdentifier)
    requires done.keywords != [] ==> |keywords| == |ops|
    requires forall keyword <- keywords :: keyword !in done.keywords
    ensures var read := WithFirst(ops, keywords, done);
            && (read.keywords != [] ==> |OtherKeywords(ops, keywords)| == |ops[1..]|)
            && forall keyword <- OtherKeywords(ops, keywords) :: keyword !in read.keywords
  {
  }

  lemma SkipSeparator(position: nat, next: seq<Token>)
    requires SkipWhitespace(next) == next
    ensures SkipWhitespace((SeparatorTokens(position) + next)[1..]) == next
  {
    var space := SeparatorTokens(position)[1];
    assert (SeparatorTokens(position) + next)[1..] == [space] + next;
    assert ([space] + next)[1..] == next;
  }

  lemma ArgumentsInTwoParts(ops: seq<Operation>, keywords: seq<string>, done: Arguments)
    requires ops != [] && |keywords| <= |ops|
    ensures |OtherKeywords(ops, keywords)| <= |ops[1..]|
    ensures AddArguments(WithFirst(ops, keywords, done), AsArguments(ops[1..], OtherKeywords(ops, keywords)))
         == AddArguments(done, AsArguments(ops, keywords))
  {
  }

  // ----------------------------------------------------------------- round trips

  /** A template must begin with a name; only operands can be literals. */
  predicate BeginsWithName(op: Operation, pipes: bool) {
    if IsPiped(op, pipes) then BeginsWithName(op.operands[0], pipes) else op.Lookup? || op.ParsedCall?
  }

  lemma {:induction false} FirstTokenIsName(op: Operation, pipes: bool, isIdentifier: IdentifierTest, position: nat)
    requires IsPrintable(op, isIdentifier)
    ensures ExpressionTokens(op, pipes, position) != []
    ensures ExpressionTokens(op, pipes, position)[0].kind.Text? <==> BeginsWithName(op, pipes)
  {
    if IsPiped(op, pipes) {
      assert op.operands[0] in op.operands;
      FirstTokenIsName(op.operands[0], pipes, isIdentifier, position);
    }
  }

  /**
   * What is printed, with or without pipes, scans and parses to the operation again. A template that
   * would begin with a literal is the only one that is refused.
   */
  lemma ExpressionRoundTrip(op: Operation, pipes: bool, isIdentifier: IdentifierTest)
    requires IsPrintable(op, isIdentifier)
    ensures Tokens(PrintTemplate(op, pipes)).Ok?
    ensures ParseTemplate(Tokens(PrintTemplate(op, pipes)).value, isIdentifier)
         == if BeginsWithName(op, pipes) then Ok(op) else Err(NotLookupOrCall)
  {
    hide *;
    ScanPrinted(op, pipes, isIdentifier);
    if BeginsWithName(op, pipes) {
      ParseNamed(op, pipes, isIdentifier);
    } else {
      ParseLiteral(op, pipes, isIdentifier);
    }
  }

  /** How the tokens of a template begin. */
  ghost predicate IsBraced(tokens: seq<Token>, expression: seq<Token>, named: bool) {
    && tokens != [] && tokens[0].kind.ExpressionStart? && SkipWhitespace(tokens) == tokens
    && tokens[1..] == expression && SkipWhitespace(expression) == expression
    && expression != [] && (expression[0].kind.Text? <==> named)
  }

  lemma TemplateBegins(op: Operation, pipes: bool, isIdentifier: IdentifierTest)
    requires IsPrintable(op, isIdentifier)
    ensures var tokens, end := TemplateTokens(op, pipes), Token(ExpressionEnd, "}", 2 + |Print(op, pipes)|);
            var expression := ExpressionTokens(op, pipes, 2) + [end];
            IsBraced(tokens, expression, BeginsWithName(op, pipes))
  {
    hide Print, ExpressionTokens, IsPrintable, BeginsWithName, SkipWhitespace;
    var tokens, end := TemplateTokens(op, pipes), Token(ExpressionEnd, "}", 2 + |Print(op, pipes)|);
    var expression := ExpressionTokens(op, pipes, 2) + [end];
    TokensInBraces(op, pipes);
    FirstTokenIsName(op, pipes, isIdentifier, 2);
    ExpressionBegins(op, pipes, isIdentifier, 2);
    NothingToSkip(tokens);
    NothingToSkip(expression);
    assert tokens[1..] == expression;
  }

  lemma ParseNamed(op: Operation, pipes: bool, isIdentifier: IdentifierTest)
    requires IsPrintable(op, isIdentifier) && BeginsWithName(op, pipes)
    ensures ParseTemplate(TemplateTokens(op, pipes), isIdentifier) == Ok(op)
  {
    hide *;
    var end := Token(ExpressionEnd, "}", 2 + |Print(op, pipes)|);
    TemplateBegins(op, pipes, isIdentifier);
    NothingPiped(op, [end], isIdentifier);
    EndIsBehind(end);
    NothingToSkip([end]);
    ExpectOnly(end);
    ParsePrinted(op, pipes, isIdentifier, [end], 2);
    ParseBraces(
      TemplateTokens(op, pipes), ExpressionTokens(op, pipes, 2) + [end], op, [end], end, isIdentifier);
  }

  lemma {:induction false} ParseLiteral(op: Operation, pipes: bool, isIdentifier: IdentifierTest)
    requires IsPrintable(op, isIdentifier) && !BeginsWithName(op, pipes)
    ensures ParseTemplate(TemplateTokens(op, pipes), isIdentifier) == Err(NotLookupOrCall)
  {
    hide *;
    TemplateBegins(op, pipes, isIdentifier);
    var end := Token(ExpressionEnd, "}", 2 + |Print(op, pipes)|);
    ParseBracesAroundLiteral(TemplateTokens(op, pipes), ExpressionTokens(op, pipes, 2) + [end], isIdentifier);
  }

  lemma TokensInBraces(op: Operation, pipes: bool)
    ensures TemplateTokens(op, pipes) == [Token(ExpressionStart, "${", 0)]
              + (ExpressionTokens(op, pipes, 2) + [Token(ExpressionEnd, "}", 2 + |Print(op, pipes)|)])
  {
  }

  lemma EndIsBehind(end: Token)
    requires end.kind.ExpressionEnd?
    ensures IsBehind([end])
  {
  }

  lemma ParseBraces(
    tokens: seq<Token>, expression: seq<Token>, op: Operation, rest: seq<Token>, end: Token,
    isIdentifier: IdentifierTest)
    requires IsBraced(tokens, expression, true)
    requires ParseExpression(expression, isIdentifier) == Ok(Parsed(op, rest))
    requires Expect(SkipWhitespace(rest), ExpressionEnd) == Ok(Parsed(end, []))
    ensures ParseTemplate(tokens, isIdentifier) == Ok(op)
  {
    hide ParseExpression, SkipWhitespace, Expect;
  }

  lemma ParseBracesAroundLiteral(tokens: seq<Token>, expression: seq<Token>, isIdentifier: IdentifierTest)
    requires IsBraced(tokens, expression, false)
    ensures ParseTemplate(tokens, isIdentifier) == Err(NotLookupOrCall)
  {
    hide ParseExpression, SkipWhitespace, Expect;
  }

  lemma ExpectOnly(end: Token)
    requires end.kind.ExpressionEnd?
    ensures Expect([end], ExpressionEnd) == Ok(Parsed(end, []))
  {
    assert [end][1..] == [];
  }

  lemma NothingToSkip(tokens: seq<Token>)
    requires tokens != [] && !tokens[0].kind.Whitespace?
    ensures SkipWhitespace(tokens) == tokens
  {
  }

  /** A chain of pipes and the nested calls that it stands for are the same template. */
  lemma {:induction false} PipesAreNestedCalls(op: Operation, isIdentifier: IdentifierTest)
    requires IsPrintable(op, isIdentifier) && BeginsWithName(op, true)
    ensures Tokens(PrintTemplate(op, true)).Ok? && Tokens(PrintTemplate(op, false)).Ok?
    ensures ParseTemplate(Tokens(PrintTemplate(op, true)).value, isIdentifier)
         == ParseTemplate(Tokens(PrintTemplate(op, false)).value, isIdentifier)
         == Ok(op)
  {
    ExpressionRoundTrip(op, true, isIdentifier);
    ExpressionRoundTrip(op, false, isIdentifier);
  }

  /** A literal cannot be piped into a function that takes it in parentheses. */
  lemma PipedLiteralIsRefused(isIdentifier: IdentifierTest)
    ensures Tokens("${\"1\" | int()}").Ok? && Tokens("${int(\"1\")}").Ok?
    ensures ParseTemplate(Tokens("${\"1\" | int()}").value, isIdentifier) == Err(NotLookupOrCall)
    ensures ParseTemplate(Tokens("${int(\"1\")}").value, isIdentifier)
         == Ok(ParsedCall("int", [Constant(Str("1"))], []))
  {
    hide Tokens, ParseTemplate, PrintTemplate;
    PrintedPipe();
    PrintedCall();
    IntIsPrintable(isIdentifier);
    ExpressionRoundTrip(TO_INT, true, isIdentifier);
    ExpressionRoundTrip(TO_INT, false, isIdentifier);
  }

  const TO_INT := ParsedCall("int", [Constant(Str("1"))], [])

  lemma PrintedPipe()
    ensures PrintTemplate(TO_INT, true) == "${\"1\" | int()}"
  {
    hide EscapeName, EscapeQuoted;
    assert PrintName("int") == "int" by { NameOfInt(); }
    assert EscapeQuoted("1") == "1" by { QuotedOne(); }
    var operands := [Constant(Str("1"))];
    assert Print(operands[0], true) == "\"1\"" && operands[1..] == [];
    assert PrintCall("int", [], [], true) == "int()";
    assert Print(TO_INT, true) == "\"1\" | int()";
  }

  lemma PrintedCall()
    ensures PrintTemplate(TO_INT, false) == "${int(\"1\")}"
  {
    hide EscapeName, EscapeQuoted;
    assert PrintName("int") == "int" by { NameOfInt(); }
    assert EscapeQuoted("1") == "1" by { QuotedOne(); }
    var operands := [Constant(Str("1"))];
    assert Print(operands[0], false) == "\"1\"" && operands[1..] == [];
    assert PrintOperands(operands, [], false) == "\"1\"";
    assert Print(TO_INT, false) == "int(\"1\")";
  }

  lemma QuotedOne()
    ensures EscapeQuoted("1") == "1"
  {
  }

  lemma NameOfInt()
    ensures PrintName("int") == "int"
  {
  }

  lemma IntIsPrintable(isIdentifier: IdentifierTest)
    ensures IsPrintable(TO_INT, isIdentifier) && !BeginsWithName(TO_INT, true) && BeginsWithName(TO_INT, false)
  {
  }

  /** Literal text comes back as the constant that it is. */
  lemma {:induction false} TextRoundTrip(text: string, isIdentifier: IdentifierTest)
    ensures Tokens(PrintText(text)).Ok?
    ensures ParseTemplate(Tokens(PrintText(text)).value, isIdentifier) == Ok(Constant(Str(text)))
  {
    hide Tokens, PrintText, ParseExpression;
    PrintedTextScans(text);
  }
}
