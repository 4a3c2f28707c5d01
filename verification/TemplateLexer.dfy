/** Scanning template strings into tokens. */
module TemplateLexer {
  import opened Common

  datatype Kind =
    | Text
    | ExpressionStart
    | ExpressionEnd
    | Dot
    | Pipe
    | Whitespace
    | LeftParen
    | RightParen
    | Comma
    | Equals
    | StringLiteral
    | IntegerLiteral
    | FloatLiteral
    | BooleanLiteral
    | NoneLiteral

  datatype Token = Token(kind: Kind, value: string, position: nat)

  datatype LexerError = TrailingBackslash(position: nat) | UnclosedString(position: nat)

  /** Characters that Python's `str.isspace` accepts. */
  predicate IsSpace(c: char) {
    || '\t' <= c <= '\r' || '\U{1c}' <= c <= ' ' || c == '\U{85}' || c == '\U{a0}' || c == '\U{1680}'
    || '\U{2000}' <= c <= '\U{200a}' || c == '\U{2028}' || c == '\U{2029}' || c == '\U{202f}'
    || c == '\U{205f}' || c == '\U{3000}'
  }

  function DelimiterKind(c: char): Option<Kind> {
    match c
    case ',' => Some(Comma)
    case '=' => Some(Equals)
    case '(' => Some(LeftParen)
    case ')' => Some(RightParen)
    case '.' => Some(Dot)
    case '|' => Some(Pipe)
    case _ => None
  }

  predicate IsQuote(c: char) { c == '\'' || c == '"' }

  predicate StartsExpression(text: string) {
    |text| >= 2 && text[0] == '$' && text[1] == '{'
  }

  /** What ends unquoted text inside an expression. */
  predicate EndsText(c: char) {
    c == '}' || DelimiterKind(c).Some? || IsSpace(c) || IsQuote(c)
  }

  /** A scanned value and the number of characters that it took. */
  datatype Scanned = Scanned(value: string, length: nat)

  function Longer(scanned: Result<Scanned, LexerError>, value: string, length: nat): Result<Scanned, LexerError> {
    match scanned
    case Ok(Scanned(v, n)) => Ok(Scanned(value + v, length + n))
    case Err(_) => scanned
  }

  lemma LongerTwice(scanned: Result<Scanned, LexerError>, a: string, n: nat, b: string, m: nat)
    ensures Longer(scanned, "", 0) == scanned
    ensures Longer(Longer(scanned, b, m), a, n) == Longer(scanned, a + b, n + m)
  {
    if scanned.Ok? {
      assert "" + scanned.value.value == scanned.value.value;
      assert a + (b + scanned.value.value) == a + b + scanned.value.value;
    }
  }

  /** The loop of `_scan_text` over what is left of the template. */
  function ScanText(text: string, position: nat, inExpression: bool): (scanned: Result<Scanned, LexerError>)
    ensures scanned.Ok? ==> scanned.value.length <= |text|
    ensures scanned.Ok? && text != "" && !StartsExpression(text) && (inExpression ==> !EndsText(text[0])) ==>
              scanned.value.length > 0
  {
    if text == "" then Ok(Scanned("", 0))
    else if text[0] == '\\' then
      if |text| == 1 then Err(TrailingBackslash(position))
      else Longer(ScanText(text[2..], position + 2, inExpression), [text[1]], 2)
    else if StartsExpression(text) then Ok(Scanned("", 0))
    else if inExpression && EndsText(text[0]) then Ok(Scanned("", 0))
    else Longer(ScanText(text[1..], position + 1, inExpression), [text[0]], 1)
  }

  lemma UnfoldScanText(text: string, position: nat, inExpression: bool)
    ensures ScanText(text, position, inExpression) ==
            if text == "" then Ok(Scanned("", 0))
            else if text[0] == '\\' then
              if |text| == 1 then Err(TrailingBackslash(position))
              else Longer(ScanText(text[2..], position + 2, inExpression), [text[1]], 2)
            else if StartsExpression(text) || (inExpression && EndsText(text[0])) then Ok(Scanned("", 0))
            else Longer(ScanText(text[1..], position + 1, inExpression), [text[0]], 1)
  {
  }

  lemma LongerByNothing(value: string, length: nat)
    ensures Longer(Ok(Scanned("", 0)), value, length) == Ok(Scanned(value, length))
    ensures forall error: LexerError :: Longer(Err(error), value, length) == Err(error)
  {
    assert value + "" == value;
  }

  lemma LongerByOne(value: string, length: nat)
    ensures Longer(Ok(Scanned("", 1)), value, length) == Ok(Scanned(value, length + 1))
  {
    assert value + "" == value;
  }

  /** `_scan_quoted_string`, behind the opening quote. */
  function ScanQuoted(text: string, quote: char, start: nat, position: nat): (scanned: Result<Scanned, LexerError>)
    ensures scanned.Ok? ==> 0 < scanned.value.length <= |text|
  {
    if text == "" then Err(UnclosedString(start))
    else if text[0] == quote then Ok(Scanned("", 1))
    else if text[0] == '\\' then
      if |text| == 1 then Err(TrailingBackslash(position))
      else Longer(ScanQuoted(text[2..], quote, start, position + 2), [text[1]], 2)
    else Longer(ScanQuoted(text[1..], quote, start, position + 1), [text[0]], 1)
  }

  lemma UnfoldScanQuoted(text: string, quote: char, start: nat, position: nat)
    ensures ScanQuoted(text, quote, start, position) ==
            if text == "" then Err(UnclosedString(start))
            else if text[0] == quote then Ok(Scanned("", 1))
            else if text[0] == '\\' then
              if |text| == 1 then Err(TrailingBackslash(position))
              else Longer(ScanQuoted(text[2..], quote, start, position + 2), [text[1]], 2)
            else Longer(ScanQuoted(text[1..], quote, start, position + 1), [text[0]], 1)
  {
  }

  predicate IsDigit(c: char) { '0' <= c <= '9' }

  /** How far `(?:_?[0-9])*` reaches. */
  function DigitsLength(text: string): (n: nat)
    ensures n <= |text|
  {
    if text != "" && IsDigit(text[0]) then 1 + DigitsLength(text[1..])
    else if |text| >= 2 && text[0] == '_' && IsDigit(text[1]) then 2 + DigitsLength(text[2..])
    else 0
  }

  function PlainDigitsLength(text: string): (n: nat)
    ensures n <= |text|
  {
    if text != "" && IsDigit(text[0]) then 1 + PlainDigitsLength(text[1..]) else 0
  }

  predicate IsSign(c: char) { c == '+' || c == '-' }

  /** How far the fraction of a number reaches. */
  function FractionLength(text: string): (n: nat)
    ensures n <= |text|
  {
    if |text| >= 2 && text[0] == '.' && IsDigit(text[1]) then 2 + DigitsLength(text[2..]) else 0
  }

  function ExponentLength(text: string): (n: nat)
    ensures n <= |text|
  {
    if |text| >= 2 && (text[0] == 'e' || text[0] == 'E') then
      var sign := if IsSign(text[1]) then 1 else 0;
      var digits := PlainDigitsLength(text[1 + sign..]);
      if digits > 0 then 1 + sign + digits else 0
    else 0
  }

  /** How far the number pattern reaches; 0 if it does not match. */
  function NumberLength(text: string): (n: nat)
    ensures n <= |text|
  {
    var sign := if text != "" && IsSign(text[0]) then 1 else 0;
    if sign < |text| && IsDigit(text[sign]) then
      var whole := sign + 1 + DigitsLength(text[sign + 1..]);
      var fraction := whole + FractionLength(text[whole..]);
      fraction + ExponentLength(text[fraction..])
    else 0
  }

  /** `_scan_number`: a number only if something that can follow a value follows it. */
  function ScanNumber(text: string, position: nat): (token: Option<Token>)
    ensures token.Some? ==> 0 < |token.value.value| <= |text|
  {
    var n := NumberLength(text);
    if n == 0 then None
    else if n < |text| && !(IsSpace(text[n]) || (DelimiterKind(text[n]).Some? && text[n] != '.') || text[n] == '}') then
      None
    else
      var value := text[..n];
      var isFloat := '.' in value || 'e' in value || 'E' in value;
      Some(Token(if isFloat then FloatLiteral else IntegerLiteral, value, position))
  }

  /** `_at_value_start`: looks back over whitespace. */
  function AtValueStart(tokens: seq<Token>): bool {
    if tokens == [] then false
    else
      var last := tokens[|tokens| - 1].kind;
      if last.Whitespace? then AtValueStart(tokens[..|tokens| - 1])
      else last.ExpressionStart? || last.LeftParen? || last.Comma? || last.Equals?
  }

  predicate IsTrueText(value: string) { value == "true" || value == "True" }

  predicate IsBooleanText(value: string) { IsTrueText(value) || value == "false" || value == "False" }

  predicate IsNoneText(value: string) { value == "none" || value == "None" }

  /** A token and the number of characters that it took. */
  datatype Step = Step(token: Token, length: nat)

  /** `_scan_text`, with the kind of the token. */
  function TextToken(text: string, position: nat, inExpression: bool, atValueStart: bool)
    : (step: Result<Step, LexerError>)
    ensures step.Ok? ==> step.value.length <= |text| && step.value.token.position == position
    ensures step.Ok? && text != "" && !StartsExpression(text) && (inExpression ==> !EndsText(text[0])) ==>
              step.value.length > 0
  {
    match ScanText(text, position, inExpression)
    case Err(error) => Err(error)
    case Ok(Scanned(value, n)) =>
      var isLiteral := inExpression && atValueStart && !(n < |text| && text[n] == '.');
      var kind := if isLiteral && IsBooleanText(value) then BooleanLiteral
                  else if isLiteral && IsNoneText(value) then NoneLiteral
                  else Text;
      Ok(Step(Token(kind, value, position), n))
  }

  /** `_scan_expression_token`. */
  function ExpressionToken(text: string, position: nat, atValueStart: bool): (step: Result<Step, LexerError>)
    requires text != "" && !StartsExpression(text)
    ensures step.Ok? ==> 0 < step.value.length <= |text| && step.value.token.position == position
  {
    if IsQuote(text[0]) then
      match ScanQuoted(text[1..], text[0], position, position + 1)
      case Err(error) => Err(error)
      case Ok(Scanned(value, n)) => Ok(Step(Token(StringLiteral, value, position), n + 1))
    else
      var number := if atValueStart then ScanNumber(text, position) else None;
      if number.Some? then Ok(Step(number.value, |number.value.value|))
      else if text[0] == '}' then Ok(Step(Token(ExpressionEnd, "}", position), 1))
      else if DelimiterKind(text[0]).Some? then
        Ok(Step(Token(DelimiterKind(text[0]).value, [text[0]], position), 1))
      else if IsSpace(text[0]) then Ok(Step(Token(Whitespace, [text[0]], position), 1))
      else TextToken(text, position, true, atValueStart)
  }

  /** One iteration of `scan`, and whether it leaves the lexer inside an expression. */
  function NextToken(text: string, position: nat, inExpression: bool, tokens: seq<Token>)
    : (step: Result<Step, LexerError>)
    requires text != ""
    ensures step.Ok? ==> 0 < step.value.length <= |text| && step.value.token.position == position
  {
    if StartsExpression(text) then Ok(Step(Token(ExpressionStart, "${", position), 2))
    else if inExpression then ExpressionToken(text, position, AtValueStart(tokens))
    else TextToken(text, position, false, false)
  }

  function StaysInExpression(token: Token, inExpression: bool): bool {
    token.kind.ExpressionStart? || (inExpression && !token.kind.ExpressionEnd?)
  }

  /** `scan` of what is left of the template. */
  function Scan(text: string, position: nat, inExpression: bool, tokens: seq<Token>): Result<seq<Token>, LexerError>
    decreases |text|
  {
    if text == "" then Ok(tokens)
    else
      var step :- NextToken(text, position, inExpression, tokens);
      Scan(text[step.length..], position + step.length, StaysInExpression(step.token, inExpression),
           tokens + [step.token])
  }

  lemma UnfoldScan(text: string, position: nat, inExpression: bool, tokens: seq<Token>)
    ensures text == "" ==> Scan(text, position, inExpression, tokens) == Ok(tokens)
    ensures text != "" ==>
              var step := NextToken(text, position, inExpression, tokens);
              Scan(text, position, inExpression, tokens)
              == if step.Err? then Err(step.error)
                 else
                   Scan(text[step.value.length..], position + step.value.length,
                        StaysInExpression(step.value.token, inExpression), tokens + [step.value.token])
  {
  }

  function Tokens(template: string): Result<seq<Token>, LexerError> {
    Scan(template, 0, false, [])
  }

  /** Whether the next character is inside an expression. */
  predicate InExpression(tokens: seq<Token>) {
    tokens != [] && StaysInExpression(tokens[|tokens| - 1], InExpression(tokens[..|tokens| - 1]))
  }

  /** The tokens tile the template up to `position`: each is scanned where the one before it ends. */
  ghost predicate Tile(template: string, tokens: seq<Token>, position: nat)
    decreases |tokens|
  {
    if tokens == [] then position == 0
    else
      var last, before := tokens[|tokens| - 1], tokens[..|tokens| - 1];
      && last.position < position <= |template|
      && NextToken(template[last.position..], last.position, InExpression(before), before)
         == Ok(Step(last, position - last.position))
      && Tile(template, before, last.position)
  }

  lemma {:induction false} TokensTile(template: string, position: nat, tokens: seq<Token>)
    requires position <= |template| && Tile(template, tokens, position)
    ensures var all := Scan(template[position..], position, InExpression(tokens), tokens);
            all.Ok? ==> tokens <= all.value && Tile(template, all.value, |template|)
    decreases |template| - position
  {
    hide NextToken;
    var rest := template[position..];
    if rest != [] {
      var step := NextToken(rest, position, InExpression(tokens), tokens);
      if step.Ok? {
        var more, n := tokens + [step.value.token], step.value.length;
        assert more[..|more| - 1] == tokens && rest[n..] == template[position + n..];
        TokensTile(template, position + n, more);
      }
    }
  }

  /** Whenever scanning succeeds, its tokens cover the whole template without a gap or an overlap. */
  lemma {:induction false} TemplateIsTiled(template: string)
    ensures Tokens(template).Ok? ==> Tile(template, Tokens(template).value, |template|)
  {
    TokensTile(template, 0, []);
    assert template[0..] == template;
  }

  /** The lexer: a cursor over the template and the tokens so far. */
  class Lexer {
    const template: string
    var position: nat
    var tokens: seq<Token>

    constructor (template: string)
      ensures this.template == template && position == 0 && tokens == []
    {
      this.template := template;
      position := 0;
      tokens := [];
    }

    /** What is left of the template. */
    ghost function Rest(): string
      requires position <= |template|
      reads this`position
    {
      template[position..]
    }

    method IsAtValueStart() returns (result: bool)
      ensures result == AtValueStart(tokens)
    {
      var i := |tokens|;
      assert tokens[..i] == tokens;
      while i > 0
        invariant 0 <= i <= |tokens|
        invariant AtValueStart(tokens) == AtValueStart(tokens[..i])
      {
        i := i - 1;
        var kind := tokens[i].kind;
        assert tokens[..i + 1][..i] == tokens[..i];
        if !kind.Whitespace? {
          return kind.ExpressionStart? || kind.LeftParen? || kind.Comma? || kind.Equals?;
        }
      }
      return false;
    }

    /** The loop of `_scan_text`. */
    method ReadCharacters(inExpression: bool) returns (result: Result<string, LexerError>)
      requires position <= |template|
      modifies this`position
      ensures old(position) <= position <= |template|
      ensures match ScanText(old(Rest()), old(position), inExpression)
              case Ok(scanned) => result == Ok(scanned.value) && position == old(position) + scanned.length
              case Err(error) => result == Err(error)
    {
      var start := position;
      var characters := "";
      hide ScanText, Longer;
      ghost var whole := ScanText(template[position..], position, inExpression);
      LongerTwice(whole, "", 0, "", 0);
      while position < |template|
        invariant start <= position <= |template|
        invariant Longer(ScanText(template[position..], position, inExpression), characters, position - start) == whole
        decreases |template| - position
      {
        UnfoldScanText(template[position..], position, inExpression);
        var character, taken := template[position], 1;
        if character == '\\' {
          if position + 1 == |template| {
            LongerByNothing(characters, position - start);
            return Err(TrailingBackslash(position));
          }
          character, taken := template[position + 1], 2;
        } else if StartsExpression(template[position..]) || (inExpression && EndsText(character)) {
          break;
        }
        Consume(template[position..], position, start, inExpression, characters, [character], taken);
        characters := characters + [character];
        position := position + taken;
      }
      UnfoldScanText(template[position..], position, inExpression);
      LongerByNothing(characters, position - start);
      return Ok(characters);
    }

    /** One iteration of the loop, which takes `n` characters for the character in `value`. */
    lemma Consume(
      rest: string, at: nat, start: nat, inExpression: bool, characters: string, value: string, n: nat)
      requires start <= at <= |template| && rest == template[at..] && 0 < n <= |rest|
      requires ScanText(rest, at, inExpression) == Longer(ScanText(rest[n..], at + n, inExpression), value, n)
      ensures Longer(ScanText(template[at + n..], at + n, inExpression), characters + value, at + n - start)
           == Longer(ScanText(rest, at, inExpression), characters, at - start)
    {
      assert rest[n..] == template[at + n..];
      LongerTwice(ScanText(rest[n..], at + n, inExpression), characters, at - start, value, n);
    }

    method ReadText(inExpression: bool, atValueStart: bool) returns (result: Result<Token, LexerError>)
      requires position <= |template|
      modifies this`position
      ensures position <= |template|
      ensures match TextToken(old(Rest()), old(position), inExpression, atValueStart)
              case Ok(step) => result == Ok(step.token) && position == old(position) + step.length
              case Err(error) => result == Err(error)
    {
      var start := position;
      var characters := ReadCharacters(inExpression);
      if characters.Err? {
        return Err(characters.error);
      }
      var kind := Text;
      var followedByDot := position < |template| && template[position] == '.';
      if inExpression && atValueStart && !followedByDot {
        if IsBooleanText(characters.value) {
          kind := BooleanLiteral;
        } else if IsNoneText(characters.value) {
          kind := NoneLiteral;
        }
      }
      return Ok(Token(kind, characters.value, start));
    }

    method ReadQuotedString() returns (result: Result<Token, LexerError>)
      requires position < |template| && IsQuote(template[position])
      modifies this`position
      ensures position <= |template|
      ensures match ScanQuoted(old(Rest())[1..], template[old(position)], old(position), old(position) + 1)
              case Ok(Scanned(value, n)) =>
                result == Ok(Token(StringLiteral, value, old(position))) && position == old(position) + n + 1
              case Err(error) => result == Err(error)
    {
      hide ScanQuoted, Longer;
      var start, quote, characters := position, template[position], "";
      position := position + 1;
      assert template[start..][1..] == template[position..];
      LongerTwice(ScanQuoted(template[position..], quote, start, position), "", 0, "", 0);
      while position < |template|
        invariant start < position <= |template|
        invariant Longer(ScanQuoted(template[position..], quote, start, position), characters, position - start - 1)
               == ScanQuoted(template[start..][1..], quote, start, start + 1)
        decreases |template| - position
      {
        UnfoldScanQuoted(template[position..], quote, start, position);
        var character, taken := template[position], 1;
        if character == quote {
          LongerByOne(characters, position - start - 1);
          position := position + 1;
          return Ok(Token(StringLiteral, characters, start));
        }
        if character == '\\' {
          if position + 1 == |template| {
            LongerByNothing(characters, position - start - 1);
            return Err(TrailingBackslash(position));
          }
          character, taken := template[position + 1], 2;
        }
        ConsumeQuoted(template[position..], quote, position, start, characters, [character], taken);
        characters := characters + [character];
        position := position + taken;
      }
      UnfoldScanQuoted(template[position..], quote, start, position);
      LongerByNothing(characters, position - start - 1);
      return Err(UnclosedString(start));
    }

    lemma ConsumeQuoted(
      rest: string, quote: char, at: nat, start: nat, characters: string, value: string, n: nat)
      requires start < at <= |template| && rest == template[at..] && 0 < n <= |rest|
      requires ScanQuoted(rest, quote, start, at) == Longer(ScanQuoted(rest[n..], quote, start, at + n), value, n)
      ensures Longer(ScanQuoted(template[at + n..], quote, start, at + n), characters + value, at + n - start - 1)
           == Longer(ScanQuoted(rest, quote, start, at), characters, at - start - 1)
    {
      assert rest[n..] == template[at + n..];
      LongerTwice(ScanQuoted(rest[n..], quote, start, at + n), characters, at - start - 1, value, n);
    }

    method ReadExpressionToken() returns (result: Result<Token, LexerError>)
      requires position < |template| && !StartsExpression(Rest())
      modifies this`position
      ensures position <= |template|
      ensures match ExpressionToken(old(Rest()), old(position), AtValueStart(tokens))
              case Ok(step) => result == Ok(step.token) && position == old(position) + step.length
              case Err(error) => result == Err(error)
    {
      var character := template[position];
      var atValueStart := IsAtValueStart();
      if IsQuote(character) {
        result := ReadQuotedString();
        return;
      }
      if atValueStart {
        var number := ScanNumber(template[position..], position);
        if number.Some? {
          position := position + |number.value.value|;
          return Ok(number.value);
        }
      }
      if character == '}' {
        position := position + 1;
        return Ok(Token(ExpressionEnd, "}", position - 1));
      }
      var kind := DelimiterKind(character);
      if kind.None? && IsSpace(character) {
        kind := Some(Whitespace);
      }
      if kind.Some? {
        position := position + 1;
        return Ok(Token(kind.value, [character], position - 1));
      }
      result := ReadText(true, atValueStart);
    }

    /** `scan`. */
    method ScanTemplate() returns (result: Result<seq<Token>, LexerError>)
      requires position == 0 && tokens == []
      modifies this
      ensures result == Tokens(template)
    {
      hide Scan, ScanText, ScanQuoted, ScanNumber;
      var inExpression := false;
      while position < |template|
        invariant position <= |template|
        invariant Scan(Rest(), position, inExpression, tokens) == Tokens(template)
        decreases |template| - position
      {
        ghost var before := Rest();
        UnfoldScan(before, position, inExpression, tokens);
        var token: Token;
        if StartsExpression(template[position..]) {
          token := Token(ExpressionStart, "${", position);
          inExpression := true;
          position := position + 2;
        } else if inExpression {
          var read := ReadExpressionToken();
          if read.Err? {
            return Err(read.error);
          }
          token := read.value;
          inExpression := !token.kind.ExpressionEnd?;
        } else {
          var read := ReadText(false, false);
          if read.Err? {
            return Err(read.error);
          }
          token := read.value;
        }
        tokens := tokens + [token];
        assert before[position - token.position..] == Rest();
      }
      UnfoldScan(Rest(), position, inExpression, tokens);
      return Ok(tokens);
    }
  }
}
