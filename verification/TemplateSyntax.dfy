/** Spellings that printing does not choose, and templates that are refused. */
module TemplateSyntax {
  import opened Common
  import opened TemplateLexer
  import opened TemplateOperations
  import opened TemplateParser
  import opened TemplatePrinting
  import opened TemplateRoundTrip

  // --------------------------------------------------------------------- strings

  /** A text with its backslashes and this kind of quotes escaped. */
  function EscapeFor(text: string, quote: char): string {
    if text == "" then ""
    else (if text[0] == '\\' || text[0] == quote then ['\\', text[0]] else [text[0]]) + EscapeFor(text[1..], quote)
  }

  /** Either kind of quotes encloses a text in which the backslashes and these quotes are escaped. */
  lemma {:induction false} QuotedEitherWay(text: string, quote: char, rest: string, start: nat, position: nat)
    requires quote == '\'' || quote == '"'
    ensures ScanQuoted(EscapeFor(text, quote) + [quote] + rest, quote, start, position)
         == Ok(Scanned(text, |EscapeFor(text, quote)| + 1))
  {
    hide ScanQuoted;
    var end := [quote] + rest;
    assert EscapeFor(text, quote) + [quote] + rest == EscapeFor(text, quote) + end;
    if text == "" {
      UnfoldScanQuoted(end, quote, start, position);
      assert EscapeFor(text, quote) + end == end;
    } else {
      var n, tail := if text[0] == '\\' || text[0] == quote then 2 else 1, EscapeFor(text[1..], quote);
      QuotedEitherWay(text[1..], quote, rest, start, position + n);
      assert tail + [quote] + rest == tail + end;
      var all := EscapeFor(text, quote) + end;
      UnfoldScanQuoted(all, quote, start, position);
      assert all[n..] == tail + end && all[n - 1] == text[0];
      assert [text[0]] + text[1..] == text;
    }
  }

  /** A text that is not closed is reported at its beginning, a backslash at the end where it stands. */
  lemma {:induction false} OpenTextFails(text: string, quote: char, start: nat, position: nat)
    requires quote == '\'' || quote == '"'
    ensures ScanQuoted(EscapeFor(text, quote), quote, start, position) == Err(UnclosedString(start))
    ensures ScanQuoted(EscapeFor(text, quote) + "\\", quote, start, position)
         == Err(TrailingBackslash(position + |EscapeFor(text, quote)|))
  {
    hide ScanQuoted;
    if text == "" {
      UnfoldScanQuoted("", quote, start, position);
      UnfoldScanQuoted("\\", quote, start, position);
      assert EscapeFor(text, quote) + "\\" == "\\";
    } else {
      var n, tail := if text[0] == '\\' || text[0] == quote then 2 else 1, EscapeFor(text[1..], quote);
      OpenTextFails(text[1..], quote, start, position + n);
      var closed, open := EscapeFor(text, quote), EscapeFor(text, quote) + "\\";
      UnfoldScanQuoted(closed, quote, start, position);
      UnfoldScanQuoted(open, quote, start, position);
      assert closed[n..] == tail && open[n..] == tail + "\\" && open[0] == closed[0] && open[n - 1] == text[0];
    }
  }

  /** Inside an expression a quote begins a text of its kind. */
  lemma QuoteBeginsText(text: string, quote: char, rest: string, position: nat)
    requires quote == '\'' || quote == '"'
    ensures var all := [quote] + (EscapeFor(text, quote) + [quote] + rest);
            ExpressionToken(all, position, true) == ExpressionToken(all, position, false)
            == Ok(Step(Token(StringLiteral, text, position), |EscapeFor(text, quote)| + 2))
  {
    hide ScanQuoted, ScanNumber;
    var behind := EscapeFor(text, quote) + [quote] + rest;
    QuotedEitherWay(text, quote, rest, position, position + 1);
    assert ([quote] + behind)[1..] == behind;
  }

  /** A backslash at the end of literal text. */
  lemma {:induction false} TrailingBackslashFails(text: string, position: nat)
    ensures ScanText(PrintText(text) + "\\", position, false) == Err(TrailingBackslash(position + |PrintText(text)|))
  {
    hide ScanText;
    var all := PrintText(text) + "\\";
    UnfoldScanText(all, position, false);
    if text == "" {
      assert all == "\\";
    } else {
      var n := if text[0] == '\\' || text[0] == '$' then 2 else 1;
      TrailingBackslashFails(text[1..], position + n);
      assert all[n..] == PrintText(text[1..]) + "\\";
      assert all[0] == PrintText(text)[0] && all[n - 1] == text[0];
    }
  }

  // ----------------------------------------------------------------------- words

  predicate IsLetter(c: char) { 'a' <= c <= 'z' || 'A' <= c <= 'Z' }

  lemma {:induction false} ScanLetters(word: string, rest: string, position: nat)
    requires (forall i | 0 <= i < |word| :: IsLetter(word[i])) && rest != "" && EndsText(rest[0])
    ensures ScanText(word + rest, position, true) == Ok(Scanned(word, |word|))
  {
    hide ScanText;
    UnfoldScanText(word + rest, position, true);
    if word == "" {
      assert word + rest == rest;
    } else {
      assert (word + rest)[1..] == word[1..] + rest;
      ScanLetters(word[1..], rest, position + 1);
      assert [word[0]] + word[1..] == word;
    }
  }

  /**
   * Where a value begins, and no path follows, these words and no others are literals; elsewhere all
   * words are names.
   */
  lemma WordsAreLiterals(word: string, rest: string, position: nat)
    requires word != "" && (forall i | 0 <= i < |word| :: IsLetter(word[i])) && rest != "" && EndsText(rest[0])
    ensures !StartsExpression(word + rest)
    ensures var kind := if rest[0] == '.' then Text
                        else if word in {"true", "True", "false", "False"} then BooleanLiteral
                        else if word in {"none", "None"} then NoneLiteral
                        else Text;
            ExpressionToken(word + rest, position, true) == Ok(Step(Token(kind, word, position), |word|))
    ensures ExpressionToken(word + rest, position, false) == Ok(Step(Token(Text, word, position), |word|))
  {
    hide ScanText, ScanNumber, ExpressionToken;
    ScanLetters(word, rest, position);
    assert IsLetter(word[0]) && (word + rest)[0] == word[0] && (word + rest)[|word|] == rest[0];
    ExpressionText(word + rest, position, true);
    ExpressionText(word + rest, position, false);
  }

  /** What literals are read as. */
  lemma LiteralsAreRead(token: Token, isIdentifier: IdentifierTest, rest: seq<Token>)
    ensures token.kind.BooleanLiteral? ==>
              ParseValue([token] + rest, isIdentifier)
              == Ok(Parsed(Constant(Bool(token.value in {"true", "True"})), rest))
    ensures token.kind.NoneLiteral? ==> ParseValue([token] + rest, isIdentifier) == Ok(Parsed(Constant(Null), rest))
    ensures token.kind.StringLiteral? ==>
              ParseValue([token] + rest, isIdentifier) == Ok(Parsed(Constant(Str(token.value)), rest))
    ensures token.kind.FloatLiteral? ==>
              ParseValue([token] + rest, isIdentifier) == Ok(Parsed(Constant(Float(token.value)), rest))
  {
    hide ParseValue, IntValue;
    if !token.kind.Text? && !token.kind.Whitespace? {
      ParseLiteralToken(token, isIdentifier, rest);
    }
  }

  /** The usual white space is white space, and skipped in front of a value. */
  lemma SpacesAreSpaces(c: char, rest: string, position: nat, tokens: seq<Token>)
    requires c in " \t\n\r"
    ensures ExpressionToken([c] + rest, position, true) == ExpressionToken([c] + rest, position, false)
         == Ok(Step(Token(Whitespace, [c], position), 1))
    ensures SkipWhitespace([Token(Whitespace, [c], position)] + tokens) == SkipWhitespace(tokens)
  {
    hide ScanText, ScanQuoted, ScanNumber;
    NoNumber([c] + rest, position);
    assert ([Token(Whitespace, [c], position)] + tokens)[1..] == tokens;
  }

  // --------------------------------------------------------------------- numbers

  /** Digits and single underscores, each in front of a digit. */
  predicate AreGrouped(text: string) {
    || text == ""
    || (IsDigit(text[0]) && AreGrouped(text[1..]))
    || (|text| >= 2 && text[0] == '_' && IsDigit(text[1]) && AreGrouped(text[2..]))
  }

  /** Digits, with single underscores between them. */
  predicate AreDigits(text: string) { text != "" && IsDigit(text[0]) && AreGrouped(text[1..]) }

  predicate ArePlainDigits(text: string) { text != "" && forall i | 0 <= i < |text| :: IsDigit(text[i]) }

  /** What can follow the digits of a number. */
  predicate EndsDigits(rest: string) { rest != "" && !IsDigit(rest[0]) && rest[0] != '_' }

  lemma {:induction false} DigitsReach(digits: string, rest: string)
    requires AreGrouped(digits) && EndsDigits(rest)
    ensures DigitsLength(digits + rest) == |digits|
  {
    var all := digits + rest;
    if digits == "" {
      assert all == rest;
    } else if IsDigit(digits[0]) {
      assert all[1..] == digits[1..] + rest;
      DigitsReach(digits[1..], rest);
    } else {
      assert all[2..] == digits[2..] + rest;
      DigitsReach(digits[2..], rest);
    }
  }

  lemma {:induction false} PlainDigitsReach(digits: string, rest: string)
    requires (digits == "" || ArePlainDigits(digits)) && rest != "" && !IsDigit(rest[0])
    ensures PlainDigitsLength(digits + rest) == |digits|
  {
    if digits == "" {
      assert digits + rest == rest;
    } else {
      assert (digits + rest)[1..] == digits[1..] + rest;
      PlainDigitsReach(digits[1..], rest);
    }
  }

  lemma NumberParts(sign: string, whole: string, rest: string)
    requires (sign == "" || sign == "-" || sign == "+") && AreDigits(whole) && EndsDigits(rest)
    ensures NumberLength(sign + whole + rest)
         == |sign + whole| + FractionLength(rest) + ExponentLength(rest[FractionLength(rest)..])
  {
    hide NumberLength, DigitsLength, FractionLength, ExponentLength, AreGrouped;
    var text, n := sign + whole + rest, |sign + whole|;
    assert text[|sign|] == whole[0] && text[|sign| + 1..] == whole[1..] + rest;
    assert sign != "" ==> text[0] == sign[0];
    DigitsReach(whole[1..], rest);
    assert text[n..] == rest && text[n + FractionLength(rest)..] == rest[FractionLength(rest)..];
    NumberFrom(text, |sign|, n);
  }

  lemma NumberFrom(text: string, sign: nat, n: nat)
    requires sign < n <= |text| && IsDigit(text[sign]) && sign == if IsSign(text[0]) then 1 else 0
    requires DigitsLength(text[sign + 1..]) == n - sign - 1
    ensures var fraction := n + FractionLength(text[n..]);
            NumberLength(text) == fraction + ExponentLength(text[fraction..])
  {
    hide DigitsLength, FractionLength, ExponentLength;
  }

  /** A point and digits behind it, or nothing. */
  predicate IsFraction(text: string) { text == "" || (text[0] == '.' && AreDigits(text[1..])) }

  /** The letter, a sign perhaps, and digits behind it; or nothing. */
  predicate IsExponent(text: string) {
    text == ""
    || ((text[0] == 'e' || text[0] == 'E') && |text| > 1
        && ArePlainDigits(text[if IsSign(text[1]) then 2 else 1..]))
  }

  lemma FractionReaches(fraction: string, rest: string)
    requires IsFraction(fraction) && EndsDigits(rest) && rest[0] != '.'
    ensures FractionLength(fraction + rest) == |fraction|
  {
    hide DigitsLength, AreGrouped;
    var all := fraction + rest;
    if fraction == "" {
      assert all == rest;
    } else {
      assert all[2..] == fraction[2..] + rest && all[1] == fraction[1] && fraction[1..][1..] == fraction[2..];
      DigitsReach(fraction[2..], rest);
    }
  }

  lemma ExponentReaches(exponent: string, rest: string)
    requires IsExponent(exponent) && rest != "" && EndsExpression(rest[0])
    ensures ExponentLength(exponent + rest) == |exponent|
  {
    hide PlainDigitsLength;
    var all := exponent + rest;
    if exponent == "" {
      assert all == rest;
    } else {
      var sign := if IsSign(exponent[1]) then 1 else 0;
      assert all[0] == exponent[0] && all[1] == exponent[1];
      assert all[1 + sign..] == exponent[1 + sign..] + rest;
      PlainDigitsReach(exponent[1 + sign..], rest);
    }
  }

  /**
   * A sign perhaps, digits, and then perhaps a fraction and an exponent are a number: an integer if it has
   * neither, else a float, told by its text.
   */
  lemma NumbersAreScanned(
    sign: string, whole: string, fraction: string, exponent: string, rest: string, position: nat)
    requires (sign == "" || sign == "-" || sign == "+") && AreDigits(whole)
    requires IsFraction(fraction) && IsExponent(exponent) && rest != "" && EndsExpression(rest[0])
    ensures var number := sign + whole + (fraction + exponent);
            var kind := if fraction == "" && exponent == "" then IntegerLiteral else FloatLiteral;
            ScanNumber(number + rest, position) == Some(Token(kind, number, position))
  {
    hide NumberLength, AreDigits;
    var number := sign + whole + (fraction + exponent);
    assert NumberLength(number + rest) == |number| by { LengthOfNumber(sign, whole, fraction, exponent, rest); }
    assert (number + rest)[|number|] == rest[0] && (number + rest)[..|number|] == number;
    assert number != "" by { SomeDigits(whole); }
    if fraction != "" {
      assert number[|sign + whole|] == '.';
    } else if exponent != "" {
      assert number[|sign + whole|] == exponent[0];
    } else {
      assert number == sign + whole;
      OnlyDigits(whole);
      assert forall c <- sign :: IsSign(c);
    }
  }

  lemma SomeDigits(whole: string)
    requires AreDigits(whole)
    ensures whole != ""
  {
  }

  lemma OnlyDigits(whole: string)
    requires AreDigits(whole)
    ensures forall c <- whole :: IsDigit(c) || c == '_'
  {
    OnlyGrouped(whole[1..]);
    assert whole == [whole[0]] + whole[1..];
  }

  lemma {:induction false} OnlyGrouped(text: string)
    requires AreGrouped(text)
    ensures forall c <- text :: IsDigit(c) || c == '_'
  {
    if text != "" {
      if IsDigit(text[0]) {
        OnlyGrouped(text[1..]);
        assert text == [text[0]] + text[1..];
      } else {
        OnlyGrouped(text[2..]);
        assert text == [text[0], text[1]] + text[2..];
      }
    }
  }

  lemma LengthOfNumber(sign: string, whole: string, fraction: string, exponent: string, rest: string)
    requires (sign == "" || sign == "-" || sign == "+") && AreDigits(whole)
    requires IsFraction(fraction) && IsExponent(exponent) && rest != "" && EndsExpression(rest[0])
    ensures NumberLength(sign + whole + (fraction + exponent) + rest) == |sign + whole + (fraction + exponent)|
  {
    hide NumberLength, ExponentLength, FractionLength, AreDigits;
    var end := exponent + rest;
    var behind := fraction + end;
    assert sign + whole + (fraction + exponent) + rest == sign + whole + behind;
    assert end[0] == if exponent != "" then exponent[0] else rest[0];
    assert fraction == "" ==> behind == end;
    NumberParts(sign, whole, behind);
    FractionReaches(fraction, end);
    assert behind[|fraction|..] == end;
    ExponentReaches(exponent, rest);
  }

  /** Digits that a letter follows are no number. */
  lemma DigitsInNames(whole: string, rest: string, position: nat)
    requires AreDigits(whole) && rest != "" && IsLetter(rest[0]) && rest[0] != 'e' && rest[0] != 'E'
    ensures ScanNumber(whole + rest, position) == None
  {
    hide NumberLength;
    assert "" + whole + rest == whole + rest && "" + whole == whole;
    NumberParts("", whole, rest);
    assert (whole + rest)[|whole|] == rest[0];
  }

  /** Signs count, underscores between digits do not. */
  lemma IntegersAreRead()
    ensures IntValue("1_0") == 10 && IntValue("-12") == -12 && IntValue("+12") == 12 && IntValue("007") == 7
  {
  }

  // -------------------------------------------------------------------- refusals

  /** The tokens of a keyword argument. */
  function NamedTokens(keyword: string, op: Operation, position: nat): seq<Token> {
    [Token(Text, keyword, position), Token(Equals, "=", position)] + ExpressionTokens(op, false, position)
  }

  lemma KeywordStarts(keyword: string, position: nat, rest: seq<Token>)
    ensures var tokens := [Token(Text, keyword, position), Token(Equals, "=", position)] + rest;
            && StartsKeyword(tokens) && tokens[0].value == keyword
            && Expect(SkipWhitespace(tokens[1..]), Equals) == Ok(Parsed(Token(Equals, "=", position), rest))
  {
    var text, equals := Token(Text, keyword, position), Token(Equals, "=", position);
    var tokens := [text, equals] + rest;
    assert tokens[1..] == [equals] + rest && ([equals] + rest)[1..] == rest;
    UnfoldFollow([Text, Equals], tokens);
    assert [Text, Equals][1..] == [Equals] && [Equals][1..] == [];
    UnfoldFollow([Equals], tokens[1..]);
  }

  /** One keyword argument in front of others: it is refused, or it is added. */
  lemma NamedArgument(
    keyword: string, op: Operation, done: Arguments, rest: seq<Token>, position: nat, isIdentifier: IdentifierTest)
    requires IsPrintable(op, isIdentifier) && IsBehind(rest) && !SkipsToPipe(rest)
    ensures ParseArgument(NamedTokens(keyword, op, position) + rest, done, isIdentifier)
         == if keyword in done.keywords then Err(DuplicateKeyword)
            else if !isIdentifier(keyword) then Err(InvalidKeyword)
            else
              Ok(Parsed(Arguments(done.positional, done.named + [op], done.keywords + [keyword]), SkipWhitespace(rest)))
  {
    hide ParseExpression, ExpressionTokens, IsPrintable, StartsKeyword, SkipWhitespace, Expect;
    var value := ExpressionTokens(op, false, position) + rest;
    assert NamedTokens(keyword, op, position) + rest
        == [Token(Text, keyword, position), Token(Equals, "=", position)] + value;
    KeywordStarts(keyword, position, value);
    ParsePrinted(op, false, isIdentifier, rest, position);
    NoPipeBehind(op, rest, isIdentifier);
  }

  predicate SkipsToPipe(rest: seq<Token>) {
    SkipWhitespace(rest) == [] || SkipWhitespace(rest)[0].kind.Pipe?
  }

  lemma NoPipeBehind(op: Operation, rest: seq<Token>, isIdentifier: IdentifierTest)
    requires !SkipsToPipe(rest)
    ensures ParsePipes(op, SkipWhitespace(rest), isIdentifier) == Ok(Parsed(op, SkipWhitespace(rest)))
  {
    hide SkipWhitespace;
  }

  /** Behind a keyword argument, anything but another one is refused. */
  lemma PositionalBehindKeyword(tokens: seq<Token>, done: Arguments, isIdentifier: IdentifierTest)
    requires done.keywords != [] && tokens != [] && !StartsKeyword(tokens)
    ensures ParseMoreArguments(tokens, done, isIdentifier) == Err(PositionalAfterKeyword)
  {
    hide StartsKeyword;
  }

  /** The keywords of a call are valid names, all different, and as many as there are named operands. */
  ghost predicate HasValidKeywords(arguments: Arguments, isIdentifier: IdentifierTest) {
    && |arguments.named| == |arguments.keywords|
    && (forall i | 0 <= i < |arguments.keywords| :: isIdentifier(arguments.keywords[i]))
    && forall i, j | 0 <= i < j < |arguments.keywords| :: arguments.keywords[i] != arguments.keywords[j]
  }

  lemma ArgumentIsValid(tokens: seq<Token>, done: Arguments, isIdentifier: IdentifierTest)
    requires HasValidKeywords(done, isIdentifier) && ParseArgument(tokens, done, isIdentifier).Ok?
    ensures HasValidKeywords(ParseArgument(tokens, done, isIdentifier).value.value, isIdentifier)
  {
    hide ParseExpression, StartsKeyword, SkipWhitespace;
  }

  /** Whatever arguments are parsed, their keywords are valid. */
  lemma {:induction false} ArgumentsAreValid(tokens: seq<Token>, done: Arguments, isIdentifier: IdentifierTest)
    requires HasValidKeywords(done, isIdentifier) && ParseMoreArguments(tokens, done, isIdentifier).Ok?
    ensures HasValidKeywords(ParseMoreArguments(tokens, done, isIdentifier).value.value, isIdentifier)
    decreases |tokens|
  {
    hide ParseArgument, HasValidKeywords, SkipWhitespace;
    var next := ParseArgument(tokens, done, isIdentifier).value;
    ArgumentIsValid(tokens, done, isIdentifier);
    var rest := SkipWhitespace(next.rest);
    if rest != [] && !rest[0].kind.RightParen? {
      ArgumentsAreValid(SkipWhitespace(rest[1..]), next.value, isIdentifier);
    }
  }

  /** Text is a template alone; behind it, as in front of an expression, nothing else is accepted. */
  lemma TemplatesAreWhole(token: Token, more: seq<Token>, isIdentifier: IdentifierTest)
    ensures ParseTemplate([], isIdentifier) == Ok(Constant(Str("")))
    ensures token.kind.Text? ==>
              ParseTemplate([token] + more, isIdentifier)
              == if more == [] then Ok(Constant(Str(token.value))) else Err(NoInterpolation)
    ensures !token.kind.Text? && !token.kind.Whitespace? && !token.kind.ExpressionStart? ==>
              ParseTemplate([token] + more, isIdentifier) == Err(NotATemplate)
  {
    hide ParseExpression;
    assert ([token] + more)[0] == token;
  }

  /** Behind the expression nothing else is accepted. */
  lemma NothingBehindExpression(op: Operation, more: seq<Token>, isIdentifier: IdentifierTest)
    requires IsPrintable(op, isIdentifier) && BeginsWithName(op, false)
    ensures ParseTemplate(TemplateTokens(op, false) + more, isIdentifier)
         == if more == [] then Ok(op) else Err(TrailingToken)
  {
    hide ParseExpression, ExpressionTokens, IsPrintable, BeginsWithName, SkipWhitespace, ParsePipes;
    var end := Token(ExpressionEnd, "}", 2 + |Print(op, false)|);
    var tokens, behind := TemplateTokens(op, false) + more, [end] + more;
    TemplateBegins(op, false, isIdentifier);
    var expression := ExpressionTokens(op, false, 2) + behind;
    TokensInBraces(op, false);
    assert tokens[1..] == expression && tokens[0].kind.ExpressionStart?;
    assert expression[0] == (ExpressionTokens(op, false, 2) + [end])[0];
    NothingToSkip(tokens);
    NothingToSkip(expression);
    NothingToSkip(behind);
    ParsePrinted(op, false, isIdentifier, behind, 2);
    assert ParsePipes(op, behind, isIdentifier) == Ok(Parsed(op, behind)) by { EndsPipes(op, behind, isIdentifier); }
    assert behind[1..] == more;
  }

  lemma EndsPipes(op: Operation, behind: seq<Token>, isIdentifier: IdentifierTest)
    requires behind != [] && !behind[0].kind.Pipe?
    ensures ParsePipes(op, behind, isIdentifier) == Ok(Parsed(op, behind))
  {
  }

  /** Behind a pipe a name alone calls the function with the value in front of the pipe. */
  lemma PipesNeedNoParentheses(
    op: Operation, pipe: Token, name: Token, rest: seq<Token>, isIdentifier: IdentifierTest)
    requires pipe.kind.Pipe? && name.kind.Text? && rest != [] && !rest[0].kind.LeftParen?
    ensures ParsePipes(op, [pipe, name] + rest, isIdentifier)
         == ParsePipes(ParsedCall(name.value, [op], []), SkipWhitespace(rest), isIdentifier)
  {
    var tokens := [pipe, name] + rest;
    assert tokens[1..] == [name] + rest && ([name] + rest)[1..] == rest;
    NothingToSkip([name] + rest);
    assert ParsePipe(op, tokens, isIdentifier) == Ok(Parsed(ParsedCall(name.value, [op], []), rest)) by {
      hide ParseArguments, SkipWhitespace;
      assert [op] + [] == [op];
    }
  }

  /** A name without a path is no lookup. */
  lemma NamesNeedPaths(name: Token, rest: seq<Token>, isIdentifier: IdentifierTest)
    requires name.kind.Text? && rest != [] && !rest[0].kind.Dot? && !rest[0].kind.LeftParen?
    ensures ParseValue([name] + rest, isIdentifier) == Err(NoFieldName)
  {
    hide ParseValue;
    ParseTextToken(name, isIdentifier, rest);
  }
}
