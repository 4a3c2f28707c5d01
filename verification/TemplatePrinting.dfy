/** Printing operations in the template syntax, and scanning what is printed into the tokens that are meant. */
module TemplatePrinting {
  import opened Common
  import opened TemplateLexer
  import opened TemplateOperations

  // ------------------------------------------------------------------- printing

  /** Characters that would be read as something else; a number must not begin a name either. */
  predicate NeedsEscape(c: char, first: bool) {
    c == '\\' || c == '$' || EndsText(c) || (first && (IsDigit(c) || IsSign(c)))
  }

  function EscapeName(name: string, first: bool): string {
    if name == "" then ""
    else NameChar(name[0], first) + EscapeName(name[1..], false)
  }

  function QuotedChar(c: char): string {
    if c == '\\' || c == '"' then ['\\', c] else [c]
  }

  function EscapeQuoted(text: string): string {
    if text == "" then ""
    else QuotedChar(text[0]) + EscapeQuoted(text[1..])
  }

  function PrintName(name: string): string { EscapeName(name, true) }

  function PrintPath(path: seq<string>): string {
    if path == [] then "" else "." + EscapeName(path[0], false) + PrintPath(path[1..])
  }

  function PrintConstant(value: Value): string {
    match value
    case Null => "none"
    case Bool(b) => if b then "true" else "false"
    case Int(n) => IntText(n)
    case Str(s) => "\"" + EscapeQuoted(s) + "\""
    case _ => ""
  }

  /** Whether a call is printed behind a pipe from its first operand. */
  predicate IsPiped(op: Operation, pipes: bool) {
    pipes && op.ParsedCall? && |op.operands| > |op.keywords|
  }

  function Print(op: Operation, pipes: bool): string
    decreases op, 1
  {
    match op
    case Constant(value) => PrintConstant(value)
    case Lookup(context, path, _) => PrintName(context) + PrintPath(path)
    case ParsedCall(name, operands, keywords) =>
      if IsPiped(op, pipes) then
        Print(operands[0], pipes) + " | " + PrintCall(name, operands[1..], keywords, pipes)
      else PrintCall(name, operands, keywords, pipes)
    case _ => ""
  }

  function PrintCall(name: string, ops: seq<Operation>, keywords: seq<string>, pipes: bool): string
    decreases ops, 2
  {
    PrintName(name) + "(" + PrintOperands(ops, keywords, pipes) + ")"
  }

  /** The last operands are named, as many as there are keywords. */
  function PrintOperands(ops: seq<Operation>, keywords: seq<string>, pipes: bool): string
    decreases ops, 0
  {
    if ops == [] then ""
    else PrintKeyword(ops, keywords) + Print(ops[0], pipes)
         + PrintOthers(ops[1..], OtherKeywords(ops, keywords), pipes)
  }

  function PrintOthers(ops: seq<Operation>, keywords: seq<string>, pipes: bool): string
    decreases ops, 1
  {
    if ops == [] then "" else ", " + PrintOperands(ops, keywords, pipes)
  }

  predicate IsNamed(ops: seq<Operation>, keywords: seq<string>) {
    keywords != [] && |keywords| >= |ops|
  }

  function PrintKeyword(ops: seq<Operation>, keywords: seq<string>): string {
    if IsNamed(ops, keywords) then PrintName(keywords[0]) + "=" else ""
  }

  function OtherKeywords(ops: seq<Operation>, keywords: seq<string>): seq<string> {
    if IsNamed(ops, keywords) then keywords[1..] else keywords
  }

  predicate IsLiteralText(name: string) { IsBooleanText(name) || IsNoneText(name) }

  /** Operations that template expressions can denote. */
  ghost predicate IsPrintable(op: Operation, isIdentifier: IdentifierTest)
    decreases op
  {
    match op
    case Constant(value) => value.Null? || value.Bool? || value.Int? || value.Str?
    case Lookup(context, path, copyResult) =>
      copyResult && context != "" && path != [] && forall i | 0 <= i < |path| :: path[i] != ""
    case ParsedCall(name, operands, keywords) =>
      && name != "" && !IsLiteralText(name) && |keywords| <= |operands|
      && AreKeywords(keywords, isIdentifier)
      && forall operand <- operands :: IsPrintable(operand, isIdentifier)
    case _ => false
  }

  ghost predicate AreKeywords(keywords: seq<string>, isIdentifier: IdentifierTest) {
    && (forall i, j | 0 <= i < j < |keywords| :: keywords[i] != keywords[j])
    && forall i | 0 <= i < |keywords| ::
         keywords[i] != "" && !IsLiteralText(keywords[i]) && isIdentifier(keywords[i])
  }

  // --------------------------------------------------------- the tokens of a print

  function SegmentTokens(segment: string, position: nat): seq<Token> {
    [Token(Dot, ".", position), Token(Text, segment, position + 1)]
  }

  function PathTokens(path: seq<string>, position: nat): seq<Token> {
    if path == [] then []
    else SegmentTokens(path[0], position) + PathTokens(path[1..], position + 1 + |EscapeName(path[0], false)|)
  }

  function ConstantToken(value: Value, position: nat): Token {
    match value
    case Null => Token(NoneLiteral, "none", position)
    case Bool(b) => Token(BooleanLiteral, if b then "true" else "false", position)
    case Int(n) => Token(IntegerLiteral, IntText(n), position)
    case Str(s) => Token(StringLiteral, s, position)
    case _ => Token(Text, "", position)
  }

  function NameTokens(name: string, delimiter: Kind, text: string, position: nat): seq<Token> {
    [Token(Text, name, position), Token(delimiter, text, position + |PrintName(name)|)]
  }

  function PipeTokens(position: nat): seq<Token> {
    [Token(Whitespace, " ", position), Token(Pipe, "|", position + 1), Token(Whitespace, " ", position + 2)]
  }

  function SeparatorTokens(position: nat): seq<Token> {
    [Token(Comma, ",", position), Token(Whitespace, " ", position + 1)]
  }

  function ExpressionTokens(op: Operation, pipes: bool, position: nat): seq<Token>
    decreases op, 1
  {
    match op
    case Constant(value) => [ConstantToken(value, position)]
    case Lookup(context, path, _) =>
      [Token(Text, context, position)] + PathTokens(path, position + |PrintName(context)|)
    case ParsedCall(name, operands, keywords) =>
      if IsPiped(op, pipes) then
        var behind := position + |Print(operands[0], pipes)|;
        ExpressionTokens(operands[0], pipes, position) + PipeTokens(behind)
        + CallTokens(name, operands[1..], keywords, pipes, behind + 3)
      else CallTokens(name, operands, keywords, pipes, position)
    case _ => []
  }

  function CallTokens(name: string, ops: seq<Operation>, keywords: seq<string>, pipes: bool, position: nat): seq<Token>
    decreases ops, 2
  {
    var inside := position + |PrintName(name)| + 1;
    NameTokens(name, LeftParen, "(", position) + OperandTokens(ops, keywords, pipes, inside)
    + [Token(RightParen, ")", inside + |PrintOperands(ops, keywords, pipes)|)]
  }

  function OperandTokens(ops: seq<Operation>, keywords: seq<string>, pipes: bool, position: nat): seq<Token>
    decreases ops, 0
  {
    if ops == [] then []
    else
      var start := position + |PrintKeyword(ops, keywords)|;
      KeywordTokens(ops, keywords, position) + ExpressionTokens(ops[0], pipes, start)
      + OtherTokens(ops[1..], OtherKeywords(ops, keywords), pipes, start + |Print(ops[0], pipes)|)
  }

  function OtherTokens(ops: seq<Operation>, keywords: seq<string>, pipes: bool, position: nat): seq<Token>
    decreases ops, 1
  {
    if ops == [] then [] else SeparatorTokens(position) + OperandTokens(ops, keywords, pipes, position + 2)
  }

  function KeywordTokens(ops: seq<Operation>, keywords: seq<string>, position: nat): seq<Token> {
    if IsNamed(ops, keywords) then NameTokens(keywords[0], Equals, "=", position) else []
  }

  // ------------------------------------------------------------------- scanning

  /** What can follow an expression here. */
  predicate EndsExpression(c: char) { c == ',' || c == ')' || c == '}' || c == ' ' }

  lemma ScanOne(text: string, rest: string, position: nat, tokens: seq<Token>, token: Token)
    requires text != ""
    requires NextToken(text + rest, position, true, tokens) == Ok(Step(token, |text|))
    ensures Scan(text + rest, position, true, tokens)
         == Scan(rest, position + |text|, StaysInExpression(token, true), tokens + [token])
  {
    hide NextToken, StaysInExpression;
    assert (text + rest)[|text|..] == rest;
  }

  function NameChar(c: char, first: bool): string {
    if NeedsEscape(c, first) then ['\\', c] else [c]
  }

  lemma ScanNameChar(c: char, first: bool, tail: string, position: nat)
    ensures ScanText(NameChar(c, first) + tail, position, true)
         == Longer(ScanText(tail, position + |NameChar(c, first)|, true), [c], |NameChar(c, first)|)
  {
    hide ScanText, DelimiterKind, IsSpace;
    UnfoldScanText(NameChar(c, first) + tail, position, true);
    assert (NameChar(c, first) + tail)[|NameChar(c, first)|..] == tail;
  }

  lemma TextEnds(rest: string, position: nat)
    requires rest != "" && EndsText(rest[0])
    ensures ScanText(rest, position, true) == Ok(Scanned("", 0))
  {
    hide ScanText;
    UnfoldScanText(rest, position, true);
  }

  lemma {:induction false} ScanEscapedName(name: string, rest: string, position: nat, first: bool)
    requires rest != "" && EndsText(rest[0])
    ensures ScanText(EscapeName(name, first) + rest, position, true)
         == Ok(Scanned(name, |EscapeName(name, first)|))
  {
    hide ScanText, NameChar;
    if name == "" {
      TextEnds(rest, position);
      assert EscapeName(name, first) + rest == rest;
    } else {
      var c, tail := NameChar(name[0], first), EscapeName(name[1..], false);
      assert EscapeName(name, first) == c + tail;
      ScanEscapedName(name[1..], rest, position + |c|, false);
      ScanNameChar(name[0], first, tail + rest, position);
      assert EscapeName(name, first) + rest == c + (tail + rest);
      assert [name[0]] + name[1..] == name;
    }
  }

  lemma NoNumber(text: string, position: nat)
    requires text != "" && !IsDigit(text[0]) && !IsSign(text[0])
    ensures ScanNumber(text, position) == None
  {
  }

  /** Unquoted text that no other token begins with. */
  lemma ExpressionText(text: string, position: nat, atValueStart: bool)
    requires text != "" && !EndsText(text[0]) && text[0] != '$'
    requires atValueStart ==> !IsDigit(text[0]) && !IsSign(text[0])
    ensures ExpressionToken(text, position, atValueStart) == TextToken(text, position, true, atValueStart)
  {
    NoNumberAtStart(text, position, atValueStart);
  }

  lemma NoNumberAtStart(text: string, position: nat, atValueStart: bool)
    requires text != "" && (atValueStart ==> !IsDigit(text[0]) && !IsSign(text[0]))
    ensures (if atValueStart then ScanNumber(text, position) else None) == None
  {
    if atValueStart {
      NoNumber(text, position);
    }
  }

  /** The kind of a scanned text. */
  lemma TextIsName(text: string, position: nat, atValueStart: bool, name: string, n: nat)
    requires n < |text| && ScanText(text, position, true) == Ok(Scanned(name, n))
    requires atValueStart ==> text[n] == '.' || !IsLiteralText(name)
    ensures TextToken(text, position, true, atValueStart) == Ok(Step(Token(Text, name, position), n))
  {
  }

  /** An escaped name gives one text token, unless it is taken for a literal. */
  lemma {:induction false} ScanName(name: string, rest: string, position: nat, first: bool, tokens: seq<Token>)
    requires name != "" && rest != "" && EndsText(rest[0])
    requires AtValueStart(tokens) ==> first && (rest[0] == '.' || !IsLiteralText(name))
    ensures Scan(EscapeName(name, first) + rest, position, true, tokens)
         == Scan(rest, position + |EscapeName(name, first)|, true, tokens + [Token(Text, name, position)])
  {
    hide ScanText, ScanNumber, ExpressionToken, TextToken, AtValueStart;
    var escaped := EscapeName(name, first);
    var text := escaped + rest;
    ScanEscapedName(name, rest, position, first);
    assert text[0] == if NeedsEscape(name[0], first) then '\\' else name[0];
    assert text[|escaped|] == rest[0];
    ExpressionText(text, position, AtValueStart(tokens));
    TextIsName(text, position, AtValueStart(tokens), name, |escaped|);
    ScanOne(escaped, rest, position, tokens, Token(Text, name, position));
  }

  /** Delimiters and spaces are tokens of their own. */
  lemma ScanMark(c: char, rest: string, position: nat, tokens: seq<Token>, kind: Kind)
    requires DelimiterKind(c) == Some(kind) || (c == ' ' && kind == Whitespace)
    ensures Scan([c] + rest, position, true, tokens)
         == Scan(rest, position + 1, true, tokens + [Token(kind, [c], position)])
  {
    hide Scan, ScanNumber, ScanText, AtValueStart;
    NoNumber([c] + rest, position);
    assert ([c] + rest)[0] == c && !StartsExpression([c] + rest);
    ScanOne([c], rest, position, tokens, Token(kind, [c], position));
  }

  lemma ScanQuotedChar(c: char, tail: string, start: nat, position: nat)
    ensures ScanQuoted(QuotedChar(c) + tail, '"', start, position)
         == Longer(ScanQuoted(tail, '"', start, position + |QuotedChar(c)|), [c], |QuotedChar(c)|)
  {
    assert (QuotedChar(c) + tail)[|QuotedChar(c)|..] == tail;
  }

  lemma {:induction false} ScanEscapedQuoted(text: string, rest: string, start: nat, position: nat)
    requires rest != "" && rest[0] == '"'
    ensures ScanQuoted(EscapeQuoted(text) + rest, '"', start, position)
         == Ok(Scanned(text, |EscapeQuoted(text)| + 1))
  {
    hide ScanQuoted, QuotedChar;
    if text == "" {
      UnfoldScanQuoted(rest, '"', start, position);
      assert EscapeQuoted(text) + rest == rest;
    } else {
      var c := QuotedChar(text[0]);
      ScanEscapedQuoted(text[1..], rest, start, position + |c|);
      ScanQuotedChar(text[0], EscapeQuoted(text[1..]) + rest, start, position);
      assert EscapeQuoted(text) + rest == c + (EscapeQuoted(text[1..]) + rest);
      assert [text[0]] + text[1..] == text;
    }
  }

  lemma {:induction false} AllDigits(text: string, rest: string)
    requires forall i | 0 <= i < |text| :: IsDigit(text[i])
    requires rest != "" && EndsExpression(rest[0])
    ensures DigitsLength(text + rest) == |text|
  {
    if text == "" {
      assert text + rest == rest;
    } else {
      assert (text + rest)[1..] == text[1..] + rest;
      AllDigits(text[1..], rest);
    }
  }

  lemma IntegerLength(sign: string, digits: string, rest: string)
    requires sign == "" || sign == "-"
    requires digits != "" && forall i | 0 <= i < |digits| :: IsDigit(digits[i])
    requires rest != "" && EndsExpression(rest[0])
    ensures NumberLength(sign + digits + rest) == |sign + digits|
  {
    hide NumberLength, DigitsLength, FractionLength, ExponentLength;
    var text := sign + digits + rest;
    assert text[|sign|] == digits[0] && (sign != "" ==> text[0] == '-');
    assert text[|sign| + 1..] == digits[1..] + rest;
    AllDigits(digits[1..], rest);
    assert text[|sign + digits|..] == rest;
    NoFraction(rest);
    WholeNumber(text, |sign|, |sign + digits|);
  }

  lemma WholeNumber(text: string, sign: nat, n: nat)
    requires sign < n <= |text| && IsDigit(text[sign]) && sign == if IsSign(text[0]) then 1 else 0
    requires DigitsLength(text[sign + 1..]) == n - sign - 1
    requires FractionLength(text[n..]) == 0 && ExponentLength(text[n..]) == 0
    ensures NumberLength(text) == n
  {
    hide DigitsLength, FractionLength, ExponentLength;
  }

  lemma NoFraction(rest: string)
    requires rest != "" && EndsExpression(rest[0])
    ensures FractionLength(rest) == 0 && ExponentLength(rest) == 0
  {
  }

  lemma ScanDigits(sign: string, digits: string, rest: string, position: nat)
    requires sign == "" || sign == "-"
    requires digits != "" && forall i | 0 <= i < |digits| :: IsDigit(digits[i])
    requires rest != "" && EndsExpression(rest[0])
    ensures ScanNumber(sign + digits + rest, position)
         == Some(Token(IntegerLiteral, sign + digits, position))
  {
    hide NumberLength;
    var text := sign + digits + rest;
    IntegerLength(sign, digits, rest);
    assert text[|sign + digits|] == rest[0] && text[..|sign + digits|] == sign + digits;
    assert forall c <- sign + digits :: c == '-' || IsDigit(c);
  }

  lemma ScanInteger(n: int, rest: string, position: nat)
    requires rest != "" && EndsExpression(rest[0])
    ensures ScanNumber(IntText(n) + rest, position) == Some(Token(IntegerLiteral, IntText(n), position))
  {
    hide ScanNumber;
    if n < 0 {
      ScanDigits("-", Digits(-n), rest, position);
    } else {
      ScanDigits("", Digits(n), rest, position);
      assert "" + Digits(n) == Digits(n);
    }
  }

  lemma ScanIntegerToken(n: int, rest: string, position: nat, tokens: seq<Token>)
    requires AtValueStart(tokens) && rest != "" && EndsExpression(rest[0])
    ensures Scan(IntText(n) + rest, position, true, tokens)
         == Scan(rest, position + |IntText(n)|, true, tokens + [Token(IntegerLiteral, IntText(n), position)])
  {
    hide ScanNumber, AtValueStart, ScanText, ScanQuoted, Scan;
    ScanInteger(n, rest, position);
    assert (IntText(n) + rest)[0] == IntText(n)[0];
    ScanOne(IntText(n), rest, position, tokens, Token(IntegerLiteral, IntText(n), position));
  }

  lemma ScanStringToken(s: string, rest: string, position: nat, tokens: seq<Token>)
    ensures Scan(PrintConstant(Str(s)) + rest, position, true, tokens)
         == Scan(rest, position + |PrintConstant(Str(s))|, true, tokens + [Token(StringLiteral, s, position)])
  {
    hide Scan, ScanQuoted, ScanText, ScanNumber, EscapeQuoted, AtValueStart;
    var text := PrintConstant(Str(s)) + rest;
    ScanEscapedQuoted(s, "\"" + rest, position, position + 1);
    assert text[1..] == EscapeQuoted(s) + ("\"" + rest);
    ScanOne(PrintConstant(Str(s)), rest, position, tokens, Token(StringLiteral, s, position));
  }

  /** The words for booleans and none. */
  lemma ScanWordToken(value: Value, rest: string, position: nat, tokens: seq<Token>)
    requires value.Null? || value.Bool?
    requires AtValueStart(tokens) && rest != "" && EndsExpression(rest[0])
    ensures Scan(PrintConstant(value) + rest, position, true, tokens)
         == Scan(rest, position + |PrintConstant(value)|, true, tokens + [ConstantToken(value, position)])
  {
    hide ScanText, ScanNumber, ExpressionToken, AtValueStart;
    var word := PrintConstant(value);
    var text := word + rest;
    ScanWord(word, rest, position);
    assert text[|word|] == rest[0];
    ExpressionText(text, position, true);
    ScanOne(word, rest, position, tokens, ConstantToken(value, position));
  }

  /** A constant is one token. */
  lemma ScanConstant(value: Value, rest: string, position: nat, tokens: seq<Token>)
    requires value.Null? || value.Bool? || value.Int? || value.Str?
    requires AtValueStart(tokens) && rest != "" && EndsExpression(rest[0])
    ensures Scan(PrintConstant(value) + rest, position, true, tokens)
         == Scan(rest, position + |PrintConstant(value)|, true, tokens + [ConstantToken(value, position)])
  {
    hide Scan;
    match value
    case Int(n) => ScanIntegerToken(n, rest, position, tokens);
    case Str(s) => ScanStringToken(s, rest, position, tokens);
    case _ => ScanWordToken(value, rest, position, tokens);
  }

  lemma {:induction false} ScanWord(word: string, rest: string, position: nat)
    requires forall i | 0 <= i < |word| :: 'a' <= word[i] <= 'z'
    requires rest != "" && EndsText(rest[0])
    ensures ScanText(word + rest, position, true) == Ok(Scanned(word, |word|))
  {
    hide ScanText;
    UnfoldScanText(word + rest, position, true);
    if word == "" {
      assert word + rest == rest;
    } else {
      assert (word + rest)[1..] == word[1..] + rest;
      ScanWord(word[1..], rest, position + 1);
      assert [word[0]] + word[1..] == word;
    }
  }

  lemma AfterToken(tokens: seq<Token>, token: Token)
    ensures AtValueStart(tokens + [token]) ==
            if token.kind.Whitespace? then AtValueStart(tokens)
            else token.kind.ExpressionStart? || token.kind.LeftParen? || token.kind.Comma? || token.kind.Equals?
  {
    assert (tokens + [token])[..|tokens|] == tokens;
  }

  lemma PathBegins(path: seq<string>, rest: string)
    requires rest != "" && EndsText(rest[0])
    ensures PrintPath(path) + rest != "" && EndsText((PrintPath(path) + rest)[0])
  {
  }

  lemma {:induction false} ScanSegment(segment: string, rest: string, position: nat, tokens: seq<Token>)
    requires segment != "" && rest != "" && EndsText(rest[0])
    ensures Scan("." + EscapeName(segment, false) + rest, position, true, tokens)
         == Scan(rest, position + 1 + |EscapeName(segment, false)|, true, tokens + SegmentTokens(segment, position))
  {
    hide Scan, AtValueStart, EscapeName, EndsText;
    var dot, text := Token(Dot, ".", position), EscapeName(segment, false);
    assert "." + text + rest == ['.'] + (text + rest);
    ScanMark('.', text + rest, position, tokens, Dot);
    AfterToken(tokens, dot);
    ScanName(segment, rest, position + 1, false, tokens + [dot]);
    assert tokens + [dot] + [Token(Text, segment, position + 1)] == tokens + SegmentTokens(segment, position);
  }

  lemma {:induction false} ScanPath(path: seq<string>, rest: string, position: nat, tokens: seq<Token>)
    requires rest != "" && EndsText(rest[0]) && forall i | 0 <= i < |path| :: path[i] != ""
    ensures Scan(PrintPath(path) + rest, position, true, tokens)
         == Scan(rest, position + |PrintPath(path)|, true, tokens + PathTokens(path, position))
  {
    hide Scan, EscapeName, EndsText, SegmentTokens;
    if path == [] {
      assert PrintPath(path) + rest == rest && tokens + [] == tokens;
    } else {
      var segment, behind := EscapeName(path[0], false), PrintPath(path[1..]) + rest;
      var next, read := position + 1 + |segment|, tokens + SegmentTokens(path[0], position);
      PathBegins(path[1..], rest);
      assert PrintPath(path) + rest == "." + segment + behind;
      ScanSegment(path[0], behind, position, tokens);
      ScanPath(path[1..], rest, next, read);
      assert read + PathTokens(path[1..], next) == tokens + PathTokens(path, position);
    }
  }

  /** A name and the delimiter behind it. */
  lemma ScanNameAndMark(name: string, c: char, kind: Kind, rest: string, position: nat, tokens: seq<Token>)
    requires name != "" && !IsLiteralText(name) && DelimiterKind(c) == Some(kind)
    ensures Scan(PrintName(name) + [c] + rest, position, true, tokens)
         == Scan(rest, position + |PrintName(name)| + 1, true, tokens + NameTokens(name, kind, [c], position))
  {
    hide Scan, AtValueStart;
    assert PrintName(name) + [c] + rest == EscapeName(name, true) + ([c] + rest);
    ScanName(name, [c] + rest, position, true, tokens);
    ScanMark(c, rest, position + |PrintName(name)|, tokens + [Token(Text, name, position)], kind);
    assert tokens + [Token(Text, name, position)] + [Token(kind, [c], position + |PrintName(name)|)]
        == tokens + NameTokens(name, kind, [c], position);
  }

  lemma ScanPipe(rest: string, position: nat, tokens: seq<Token>)
    ensures Scan(" | " + rest, position, true, tokens)
         == Scan(rest, position + 3, true, tokens + PipeTokens(position))
  {
    hide Scan;
    var space, pipe := Token(Whitespace, " ", position), Token(Pipe, "|", position + 1);
    assert " | " + rest == [' '] + (['|'] + ([' '] + rest));
    ScanMark(' ', ['|'] + ([' '] + rest), position, tokens, Whitespace);
    ScanMark('|', [' '] + rest, position + 1, tokens + [space], Pipe);
    ScanMark(' ', rest, position + 2, tokens + [space] + [pipe], Whitespace);
    assert tokens + [space] + [pipe] + [Token(Whitespace, " ", position + 2)] == tokens + PipeTokens(position);
  }

  /** Scanning a printed expression gives its tokens. */
  lemma {:induction false} ScanExpression(
    op: Operation, pipes: bool, isIdentifier: IdentifierTest, rest: string, position: nat, tokens: seq<Token>)
    requires IsPrintable(op, isIdentifier) && AtValueStart(tokens) && rest != "" && EndsExpression(rest[0])
    ensures Scan(Print(op, pipes) + rest, position, true, tokens)
         == Scan(rest, position + |Print(op, pipes)|, true, tokens + ExpressionTokens(op, pipes, position))
    decreases op, 1
  {
    hide Scan, AtValueStart;
    match op
    case Constant(value) => ScanConstant(value, rest, position, tokens);
    case Lookup(context, path, _) =>
      var name := Token(Text, context, position);
      var behind := PrintPath(path) + rest;
      assert Print(op, pipes) + rest == PrintName(context) + behind;
      ScanName(context, behind, position, true, tokens);
      ScanPath(path, rest, position + |PrintName(context)|, tokens + [name]);
      assert tokens + [name] + PathTokens(path, position + |PrintName(context)|)
          == tokens + ExpressionTokens(op, pipes, position);
    case ParsedCall(name, operands, keywords) =>
      if IsPiped(op, pipes) {
        ScanPiped(op, pipes, isIdentifier, rest, position, tokens);
      } else {
        ScanCall(name, operands, keywords, pipes, isIdentifier, rest, position, tokens);
      }
  }

  lemma {:induction false} ScanPiped(
    op: Operation, pipes: bool, isIdentifier: IdentifierTest, rest: string, position: nat, tokens: seq<Token>)
    requires IsPiped(op, pipes) && IsPrintable(op, isIdentifier) && AtValueStart(tokens)
    requires rest != "" && EndsExpression(rest[0])
    ensures Scan(Print(op, pipes) + rest, position, true, tokens)
         == Scan(rest, position + |Print(op, pipes)|, true, tokens + ExpressionTokens(op, pipes, position))
    decreases op, 0
  {
    hide Scan, AtValueStart, PrintCall, CallTokens, AreKeywords, PipeTokens;
    var first, call := Print(op.operands[0], pipes), PrintCall(op.name, op.operands[1..], op.keywords, pipes);
    var behind := position + |first|;
    assert op.operands[0] in op.operands;
    assert Print(op, pipes) + rest == first + (" | " + (call + rest));
    ScanExpression(op.operands[0], pipes, isIdentifier, " | " + (call + rest), position, tokens);
    var more := tokens + ExpressionTokens(op.operands[0], pipes, position);
    ScanPipe(call + rest, behind, more);
    ScanCall(op.name, op.operands[1..], op.keywords, pipes, isIdentifier, rest, behind + 3, more + PipeTokens(behind));
    assert more + PipeTokens(behind) + CallTokens(op.name, op.operands[1..], op.keywords, pipes, behind + 3)
        == tokens + ExpressionTokens(op, pipes, position);
  }

  lemma {:induction false} ScanCall(
    name: string, ops: seq<Operation>, keywords: seq<string>, pipes: bool, isIdentifier: IdentifierTest,
    rest: string, position: nat, tokens: seq<Token>)
    requires name != "" && !IsLiteralText(name) && AreKeywords(keywords, isIdentifier) && |keywords| <= |ops|
    requires forall op <- ops :: IsPrintable(op, isIdentifier)
    ensures Scan(PrintCall(name, ops, keywords, pipes) + rest, position, true, tokens)
         == Scan(rest, position + |PrintCall(name, ops, keywords, pipes)|, true,
                 tokens + CallTokens(name, ops, keywords, pipes, position))
    decreases ops, 2
  {
    hide Scan, AtValueStart, PrintOperands, OperandTokens, PrintName, IsPrintable, AreKeywords, IsLiteralText;
    var inner := PrintOperands(ops, keywords, pipes);
    var open := NameTokens(name, LeftParen, "(", position);
    var inside := position + |PrintName(name)| + 1;
    assert PrintCall(name, ops, keywords, pipes) + rest == PrintName(name) + ['('] + (inner + ([')'] + rest));
    ScanNameAndMark(name, '(', LeftParen, inner + ([')'] + rest), position, tokens);
    AfterToken(tokens + [open[0]], open[1]);
    assert tokens + open == tokens + [open[0]] + [open[1]];
    ScanOperands(ops, keywords, pipes, isIdentifier, [')'] + rest, inside, tokens + open);
    var operands := OperandTokens(ops, keywords, pipes, inside);
    ScanMark(')', rest, inside + |inner|, tokens + open + operands, RightParen);
    assert tokens + open + operands + [Token(RightParen, ")", inside + |inner|)]
        == tokens + CallTokens(name, ops, keywords, pipes, position);
  }

  lemma KeywordsWithoutFirst(ops: seq<Operation>, keywords: seq<string>, isIdentifier: IdentifierTest)
    requires AreKeywords(keywords, isIdentifier) && |keywords| <= |ops| && ops != []
    ensures AreKeywords(OtherKeywords(ops, keywords), isIdentifier)
    ensures |OtherKeywords(ops, keywords)| <= |ops[1..]|
  {
  }

  lemma {:induction false} ScanKeyword(
    ops: seq<Operation>, keywords: seq<string>, isIdentifier: IdentifierTest, rest: string, position: nat,
    tokens: seq<Token>)
    requires AreKeywords(keywords, isIdentifier) && AtValueStart(tokens)
    ensures Scan(PrintKeyword(ops, keywords) + rest, position, true, tokens)
         == Scan(rest, position + |PrintKeyword(ops, keywords)|, true, tokens + KeywordTokens(ops, keywords, position))
    ensures AtValueStart(tokens + KeywordTokens(ops, keywords, position))
  {
    hide Scan, AtValueStart;
    var more := KeywordTokens(ops, keywords, position);
    if IsNamed(ops, keywords) {
      ScanNameAndMark(keywords[0], '=', Equals, rest, position, tokens);
      AfterToken(tokens + [more[0]], more[1]);
      assert tokens + more == tokens + [more[0]] + [more[1]];
    } else {
      assert "" + rest == rest && tokens + more == tokens;
    }
  }

  lemma {:induction false} ScanSeparator(rest: string, position: nat, tokens: seq<Token>)
    ensures Scan(", " + rest, position, true, tokens)
         == Scan(rest, position + 2, true, tokens + SeparatorTokens(position))
    ensures AtValueStart(tokens + SeparatorTokens(position))
  {
    hide Scan, AtValueStart;
    var comma, space := Token(Comma, ",", position), Token(Whitespace, " ", position + 1);
    assert ", " + rest == [','] + ([' '] + rest);
    ScanMark(',', [' '] + rest, position, tokens, Comma);
    ScanMark(' ', rest, position + 1, tokens + [comma], Whitespace);
    AfterToken(tokens, comma);
    AfterToken(tokens + [comma], space);
    assert tokens + SeparatorTokens(position) == tokens + [comma] + [space];
  }

  lemma {:induction false} ScanOperands(
    ops: seq<Operation>, keywords: seq<string>, pipes: bool, isIdentifier: IdentifierTest, rest: string,
    position: nat, tokens: seq<Token>)
    requires AreKeywords(keywords, isIdentifier) && |keywords| <= |ops|
    requires forall op <- ops :: IsPrintable(op, isIdentifier)
    requires AtValueStart(tokens) && rest != "" && rest[0] == ')'
    ensures Scan(PrintOperands(ops, keywords, pipes) + rest, position, true, tokens)
         == Scan(rest, position + |PrintOperands(ops, keywords, pipes)|, true,
                 tokens + OperandTokens(ops, keywords, pipes, position))
    decreases ops, 0
  {
    hide Scan, AtValueStart, Print, PrintKeyword, PrintOthers, OtherKeywords;
    hide ExpressionTokens, KeywordTokens, OtherTokens, IsPrintable, AreKeywords;
    if ops == [] {
      assert PrintOperands(ops, keywords, pipes) + rest == rest;
      assert tokens + OperandTokens(ops, keywords, pipes, position) == tokens;
    } else {
      var others := OtherKeywords(ops, keywords);
      var keyword, first := PrintKeyword(ops, keywords), Print(ops[0], pipes);
      var start := position + |keyword|;
      var begun := tokens + KeywordTokens(ops, keywords, position);
      var read := begun + ExpressionTokens(ops[0], pipes, start);
      var last := PrintOthers(ops[1..], others, pipes) + rest;
      assert PrintOperands(ops, keywords, pipes) + rest == keyword + (first + last);
      assert last != "" && EndsExpression(last[0]) by { OthersBegin(ops[1..], others, pipes); }
      ScanKeyword(ops, keywords, isIdentifier, first + last, position, tokens);
      ScanExpression(ops[0], pipes, isIdentifier, last, start, begun);
      KeywordsWithoutFirst(ops, keywords, isIdentifier);
      ScanOthers(ops[1..], others, pipes, isIdentifier, rest, start + |first|, read);
      assert read + OtherTokens(ops[1..], others, pipes, start + |first|)
          == tokens + OperandTokens(ops, keywords, pipes, position);
    }
  }

  lemma OthersBegin(ops: seq<Operation>, keywords: seq<string>, pipes: bool)
    ensures var text := PrintOthers(ops, keywords, pipes); text == "" || text[0] == ','
  {
  }

  lemma {:induction false} ScanOthers(
    ops: seq<Operation>, keywords: seq<string>, pipes: bool, isIdentifier: IdentifierTest, rest: string,
    position: nat, tokens: seq<Token>)
    requires AreKeywords(keywords, isIdentifier) && |keywords| <= |ops|
    requires forall op <- ops :: IsPrintable(op, isIdentifier)
    requires rest != "" && rest[0] == ')'
    ensures var text := PrintOthers(ops, keywords, pipes);
            Scan(text + rest, position, true, tokens)
            == Scan(rest, position + |text|, true, tokens + OtherTokens(ops, keywords, pipes, position))
    decreases ops, 1
  {
    hide Scan, AtValueStart, PrintOperands, OperandTokens, IsPrintable, AreKeywords;
    if ops == [] {
      assert "" + rest == rest && tokens + [] == tokens;
    } else {
      var text := PrintOperands(ops, keywords, pipes);
      assert PrintOthers(ops, keywords, pipes) + rest == ", " + (text + rest);
      ScanSeparator(text + rest, position, tokens);
      ScanOperands(ops, keywords, pipes, isIdentifier, rest, position + 2, tokens + SeparatorTokens(position));
      assert tokens + SeparatorTokens(position) + OperandTokens(ops, keywords, pipes, position + 2)
          == tokens + OtherTokens(ops, keywords, pipes, position);
    }
  }

  // ------------------------------------------------------------------- templates

  function PrintTemplate(op: Operation, pipes: bool): string { "${" + Print(op, pipes) + "}" }

  function TemplateTokens(op: Operation, pipes: bool): seq<Token> {
    [Token(ExpressionStart, "${", 0)] + ExpressionTokens(op, pipes, 2)
    + [Token(ExpressionEnd, "}", 2 + |Print(op, pipes)|)]
  }

  lemma ScanPrinted(op: Operation, pipes: bool, isIdentifier: IdentifierTest)
    requires IsPrintable(op, isIdentifier)
    ensures Tokens(PrintTemplate(op, pipes)) == Ok(TemplateTokens(op, pipes))
  {
    hide Scan, NextToken, AtValueStart, Print, ExpressionTokens, IsPrintable;
    var template, text := PrintTemplate(op, pipes), Print(op, pipes);
    var start, end := Token(ExpressionStart, "${", 0), Token(ExpressionEnd, "}", 2 + |text|);
    var inner := [start] + ExpressionTokens(op, pipes, 2);
    assert template == "${" + (text + "}") && [] + [start] == [start];
    ScanStart(text + "}", start);
    AfterToken([], start);
    ScanExpression(op, pipes, isIdentifier, "}", 2, [start]);
    ScanEnd(2 + |text|, inner, end);
    assert inner + [end] == TemplateTokens(op, pipes);
  }

  lemma ScanStart(text: string, start: Token)
    requires start == Token(ExpressionStart, "${", 0)
    ensures Scan("${" + text, 0, false, []) == Scan(text, 2, true, [] + [start])
  {
    hide ScanText, ExpressionToken;
    assert NextToken("${" + text, 0, false, []) == Ok(Step(start, 2));
    assert ("${" + text)[2..] == text;
  }

  lemma ScanEnd(position: nat, tokens: seq<Token>, end: Token)
    requires end == Token(ExpressionEnd, "}", position)
    ensures Scan("}", position, true, tokens) == Ok(tokens + [end])
  {
    hide AtValueStart, ScanText;
    NoNumber("}", position);
    assert NextToken("}", position, true, tokens) == Ok(Step(end, 1));
    assert "}"[1..] == "";
    assert Scan("", position + 1, false, tokens + [end]) == Ok(tokens + [end]);
  }

  /** Text with its backslashes and dollar signs escaped. */
  function PrintText(text: string): string {
    if text == "" then ""
    else (if text[0] == '\\' || text[0] == '$' then ['\\', text[0]] else [text[0]]) + PrintText(text[1..])
  }

  lemma {:induction false} ScanPrintedText(text: string, position: nat)
    ensures ScanText(PrintText(text), position, false) == Ok(Scanned(text, |PrintText(text)|))
  {
    if text != "" {
      var tail := PrintText(text[1..]);
      var n := if text[0] == '\\' || text[0] == '$' then 2 else 1;
      ScanPrintedText(text[1..], position + n);
      assert PrintText(text) == (if n == 2 then ['\\', text[0]] else [text[0]]) + tail;
      assert PrintText(text)[n..] == tail;
      assert [text[0]] + text[1..] == text;
    }
  }

  /** Literal text scans to one token, or to none. */
  lemma {:induction false} PrintedTextScans(text: string)
    ensures Tokens(PrintText(text)) == Ok(if text == "" then [] else [Token(Text, text, 0)])
  {
    if text != "" {
      var token := Token(Text, text, 0);
      ScanPrintedText(text, 0);
      assert PrintText(text)[0] == if text[0] == '$' then '\\' else text[0];
      assert NextToken(PrintText(text), 0, false, []) == Ok(Step(token, |PrintText(text)|));
      assert PrintText(text)[|PrintText(text)|..] == "" && [] + [token] == [token];
      assert Scan("", |PrintText(text)|, false, [token]) == Ok([token]);
    }
  }
}
