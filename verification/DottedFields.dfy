/** Dotted field names, and the paths that they name. */
module DottedFields {

  const ESCAPE: char := '\\'
  const SEPARATOR: char := '.'

  /** A name with its own dots escaped; backslashes are left as they are. */
  function EscapeDots(name: string): string {
    if name == "" then ""
    else (if name[0] == SEPARATOR then [ESCAPE, SEPARATOR] else [name[0]]) + EscapeDots(name[1..])
  }

  /** `field_list_to_dotted_field`. */
  function ToDotted(names: seq<string>): string {
    if names == [] then ""
    else if |names| == 1 then EscapeDots(names[0])
    else EscapeDots(names[0]) + [SEPARATOR] + ToDotted(names[1..])
  }

  /** The names in `text`, the first of them already begun with `buffer`. */
  function ParseFrom(text: string, buffer: string): (names: seq<string>)
    ensures names != []
  {
    if text == "" then [buffer]
    else if text[0] == SEPARATOR then [buffer] + ParseFrom(text[1..], "")
    else if text[0] == ESCAPE then
      if |text| == 1 then [buffer + [ESCAPE]] else ParseFrom(text[2..], buffer + [text[1]])
    else ParseFrom(text[1..], buffer + [text[0]])
  }

  /** Splitting at every separator. */
  function SplitFrom(text: string, buffer: string): seq<string> {
    if text == "" then [buffer]
    else if text[0] == SEPARATOR then [buffer] + SplitFrom(text[1..], "")
    else SplitFrom(text[1..], buffer + [text[0]])
  }

  /** `get_dotted_field_list`: the fast path splits, the slow one honours escapes. */
  function FieldList(dotted: string): seq<string> {
    if ESCAPE !in dotted then SplitFrom(dotted, "") else ParseFrom(dotted, "")
  }

  /** The fast path is only a fast path. */
  lemma {:induction false} FastPathAgrees(text: string, buffer: string)
    requires ESCAPE !in text
    ensures SplitFrom(text, buffer) == ParseFrom(text, buffer)
    decreases |text|
  {
    if text != "" {
      assert text[0] in text;
      assert forall c <- text[1..] :: c in text;
      if text[0] == SEPARATOR {
        FastPathAgrees(text[1..], "");
      } else {
        FastPathAgrees(text[1..], buffer + [text[0]]);
      }
    }
  }

  lemma {:induction false} ParseEscapedName(name: string, rest: string, buffer: string)
    requires ESCAPE !in name
    ensures ParseFrom(EscapeDots(name) + rest, buffer) == ParseFrom(rest, buffer + name)
    decreases |name|
  {
    hide ParseFrom;
    if name == "" {
      assert EscapeDots(name) + rest == rest;
      assert buffer + name == buffer;
    } else {
      var tail := EscapeDots(name[1..]) + rest;
      assert name[0] in name && forall c <- name[1..] :: c in name;
      ParseEscapedName(name[1..], rest, buffer + [name[0]]);
      assert buffer + [name[0]] + name[1..] == buffer + name;
      if name[0] == SEPARATOR {
        assert EscapeDots(name) + rest == [ESCAPE, SEPARATOR] + tail;
        ParseEscape(SEPARATOR, tail, buffer);
      } else {
        assert EscapeDots(name) + rest == [name[0]] + tail;
        ParsePlain(name[0], tail, buffer);
      }
    }
  }

  lemma ParsePlain(c: char, tail: string, buffer: string)
    requires c != ESCAPE && c != SEPARATOR
    ensures ParseFrom([c] + tail, buffer) == ParseFrom(tail, buffer + [c])
  {
    assert ([c] + tail)[1..] == tail;
  }

  lemma {:induction false} BufferIsPrefix(text: string, buffer: string)
    ensures buffer <= ParseFrom(text, buffer)[0]
    decreases |text|
  {
    if text != "" && text[0] != SEPARATOR {
      if text[0] == ESCAPE {
        if |text| > 1 {
          BufferIsPrefix(text[2..], buffer + [text[1]]);
        }
      } else {
        BufferIsPrefix(text[1..], buffer + [text[0]]);
      }
    }
  }

  /** What follows a name in a dotted field: nothing, or a separator. */
  ghost predicate EndsName(rest: string) {
    rest == "" || rest[0] == SEPARATOR
  }

  /** Once a backslash was dropped, the parser never catches up with the name. */
  lemma {:induction false} ParserLags(name: string, rest: string, buffer: string, lag: string)
    requires EndsName(rest)
    requires lag != "" && forall i | 0 <= i < |lag| :: lag[i] == ESCAPE
    ensures ParseFrom(EscapeDots(name) + rest, buffer)[0] != buffer + lag + name
    decreases |name|
  {
    var text := EscapeDots(name) + rest;
    var expected := buffer + lag + name;
    assert lag[0] in lag && expected[|buffer|] == ESCAPE;
    if name == "" {
      assert text == rest;
      assert ParseFrom(text, buffer)[0] == buffer;
      assert |expected| > |buffer|;
    } else if name[0] != ESCAPE {
      var next := buffer + [name[0]];
      var tail := EscapeDots(name[1..]) + rest;
      if name[0] == SEPARATOR {
        assert text == [ESCAPE, SEPARATOR] + tail && text[2..] == tail;
      } else {
        assert text == [name[0]] + tail && text[1..] == tail;
      }
      BufferIsPrefix(tail, next);
      assert next[|buffer|] != ESCAPE;
    } else {
      EscapedPair(name, rest, buffer, lag);
    }
  }

  /** The step of `ParserLags` over a backslash in the name. */
  lemma {:induction false} EscapedPair(name: string, rest: string, buffer: string, lag: string)
    requires name != "" && name[0] == ESCAPE && EndsName(rest)
    requires forall i | 0 <= i < |lag| :: lag[i] == ESCAPE
    requires lag != "" || |name| > 1 || rest != ""
    ensures ParseFrom(EscapeDots(name) + rest, buffer)[0] != buffer + lag + name
    decreases |name|, 0
  {
    hide ParseFrom, EscapeDots;
    var text := EscapeDots(name) + rest;
    var expected := buffer + lag + name;
    assert expected[|buffer|] == ESCAPE by {
      if lag != "" { assert lag[0] in lag; }
    }
    ParseLoneEscape(buffer);
    if |name| == 1 {
      EscapeOfEscape(name);
      if rest == "" {
        assert text == [ESCAPE] && |expected| > |buffer| + 1;
      } else {
        assert text == [ESCAPE, SEPARATOR] + rest[1..];
        ParseEscape(SEPARATOR, rest[1..], buffer);
        BufferIsPrefix(rest[1..], buffer + [SEPARATOR]);
      }
    } else {
      EscapeOfPair(name);
      var after := EscapeDots(name[2..]) + rest;
      if name[1] == SEPARATOR {
        assert text == [ESCAPE, ESCAPE] + ([SEPARATOR] + after);
        ParseEscape(ESCAPE, [SEPARATOR] + after, buffer);
        ParseSeparator(after, buffer + [ESCAPE]);
        assert |expected| > |buffer| + 1;
      } else {
        assert text == [ESCAPE, name[1]] + after;
        ParseEscape(name[1], after, buffer);
        BufferIsPrefix(after, buffer + [name[1]]);
        if name[1] == ESCAPE {
          LagGrows(buffer, lag, name);
          ParserLags(name[2..], rest, buffer + [ESCAPE], lag + [ESCAPE]);
        }
      }
    }
  }

  lemma ParseLoneEscape(buffer: string)
    ensures ParseFrom([ESCAPE], buffer) == [buffer + [ESCAPE]]
  {
  }

  lemma ParseEscape(c: char, tail: string, buffer: string)
    ensures ParseFrom([ESCAPE, c] + tail, buffer) == ParseFrom(tail, buffer + [c])
  {
    assert ([ESCAPE, c] + tail)[2..] == tail;
  }

  lemma ParseSeparator(tail: string, buffer: string)
    ensures ParseFrom([SEPARATOR] + tail, buffer)[0] == buffer
  {
  }

  lemma EscapeOfEscape(name: string)
    requires |name| == 1 && name[0] == ESCAPE
    ensures EscapeDots(name) == [ESCAPE]
  {
    assert name[1..] == "";
  }

  lemma EscapeOfPair(name: string)
    requires |name| > 1 && name[0] == ESCAPE
    ensures EscapeDots(name)
         == [ESCAPE] + (if name[1] == SEPARATOR then [ESCAPE, SEPARATOR] else [name[1]]) + EscapeDots(name[2..])
  {
    assert name[1..][1..] == name[2..];
  }

  lemma LagGrows(buffer: string, lag: string, name: string)
    requires |name| > 1 && name[0] == ESCAPE && name[1] == ESCAPE
    requires forall i | 0 <= i < |lag| :: lag[i] == ESCAPE
    ensures buffer + lag + name == buffer + [ESCAPE] + (lag + [ESCAPE]) + name[2..]
  {
    assert name == [ESCAPE, ESCAPE] + name[2..];
    assert lag + [ESCAPE, ESCAPE] == [ESCAPE] + (lag + [ESCAPE]);
  }

  /** A backslash is safe only as the very last character of the whole field. */
  predicate IsSafeName(name: string, last: bool) {
    ESCAPE !in (if last && name != "" then name[..|name| - 1] else name)
  }

  predicate AreSafeNames(names: seq<string>) {
    forall i | 0 <= i < |names| :: IsSafeName(names[i], i == |names| - 1)
  }

  lemma {:induction false} FirstEscape(name: string) returns (before: string, after: string)
    requires ESCAPE in name
    ensures ESCAPE !in before && name == before + [ESCAPE] + after
  {
    if name[0] == ESCAPE {
      before, after := "", name[1..];
    } else {
      var b, a := FirstEscape(name[1..]);
      before, after := [name[0]] + b, a;
    }
  }

  lemma {:induction false} EscapeDotsConcat(a: string, b: string)
    ensures EscapeDots(a + b) == EscapeDots(a) + EscapeDots(b)
  {
    if a == "" {
      assert a + b == b;
    } else {
      assert (a + b)[1..] == a[1..] + b;
      EscapeDotsConcat(a[1..], b);
    }
  }

  lemma {:induction false} FirstNameIsParsedBack(name: string, rest: string)
    requires EndsName(rest)
    ensures ParseFrom(EscapeDots(name) + rest, "")[0] == name <==> IsSafeName(name, rest == "")
  {
    if ESCAPE !in name {
      ParseEscapedName(name, rest, "");
      assert "" + name == name;
    } else {
      var before, after := FirstEscape(name);
      var escaped := [ESCAPE] + after;
      assert name == before + escaped;
      EscapeDotsConcat(before, escaped);
      assert EscapeDots(name) + rest == EscapeDots(before) + (EscapeDots(escaped) + rest);
      ParseEscapedName(before, EscapeDots(escaped) + rest, "");
      assert "" + before == before;
      if after == "" && rest == "" {
        assert EscapeDots(escaped) == [ESCAPE];
        assert EscapeDots(escaped) + rest == [ESCAPE];
        assert name[..|name| - 1] == before;
      } else {
        EscapedPair(escaped, rest, before, "");
        assert before + "" + escaped == name;
        if after != "" {
          assert name[..|name| - 1][|before|] == ESCAPE;
        }
      }
    }
  }

  /**
   * Joining names and splitting the field again gives the names back exactly when no name holds a
   * backslash, but for one that may end the last name.
   */
  lemma {:induction false} RoundTrip(names: seq<string>)
    requires names != []
    ensures FieldList(ToDotted(names)) == names <==> AreSafeNames(names)
  {
    RoundTripFrom(names);
    if ESCAPE !in ToDotted(names) {
      FastPathAgrees(ToDotted(names), "");
    }
  }

  lemma {:induction false} RoundTripFrom(names: seq<string>)
    requires names != []
    ensures ParseFrom(ToDotted(names), "") == names <==> AreSafeNames(names)
    decreases |names|
  {
    var field := ToDotted(names);
    if |names| == 1 {
      assert field == EscapeDots(names[0]) + "";
      FirstNameIsParsedBack(names[0], "");
      if IsSafeName(names[0], true) {
        LastNameIsParsedBack(names[0]);
      }
    } else {
      var rest := [SEPARATOR] + ToDotted(names[1..]);
      assert field == EscapeDots(names[0]) + rest;
      FirstNameIsParsedBack(names[0], rest);
      if ESCAPE !in names[0] {
        ParseEscapedName(names[0], rest, "");
        assert "" + names[0] == names[0] && rest[1..] == ToDotted(names[1..]);
        RoundTripFrom(names[1..]);
        assert AreSafeNames(names) <==> AreSafeNames(names[1..]) by {
          assert forall i | 0 < i < |names| :: names[i] == names[1..][i - 1];
        }
        assert ParseFrom(field, "") == [names[0]] + ParseFrom(ToDotted(names[1..]), "");
        assert names == [names[0]] + names[1..];
      } else {
        assert !IsSafeName(names[0], false);
        assert names[..1] == [names[0]];
      }
    }
  }

  lemma LastNameIsParsedBack(name: string)
    requires IsSafeName(name, true)
    ensures ParseFrom(EscapeDots(name), "") == [name]
  {
    if ESCAPE !in name {
      ParseEscapedName(name, "", "");
      assert EscapeDots(name) + "" == EscapeDots(name) && "" + name == name;
    } else {
      var before := name[..|name| - 1];
      assert name == before + [ESCAPE];
      EscapeDotsConcat(before, [ESCAPE]);
      assert EscapeDots([ESCAPE]) == [ESCAPE];
      ParseEscapedName(before, [ESCAPE], "");
      assert "" + before == before;
    }
  }

  /** For instance, a backslash inside a name does not come back. */
  lemma BackslashIsLost()
    ensures FieldList(ToDotted(["a\\b"])) != ["a\\b"]
  {
    var name := "a\\b";
    assert name[..|name| - 1][1] == ESCAPE;
    assert !IsSafeName([name][0], true);
    RoundTrip([name]);
  }

  /** Without backslashes, joining the names that a text was split into gives the text. */
  lemma {:induction false} SplitAndJoined(text: string, buffer: string)
    requires ESCAPE !in text && SEPARATOR !in buffer
    ensures ToDotted(SplitFrom(text, buffer)) == buffer + text
    decreases |text|
  {
    hide ToDotted;
    NothingToEscape(buffer);
    if text == "" {
      assert buffer + text == buffer && ToDotted([buffer]) == EscapeDots(buffer) by { JoinOne(buffer); }
    } else {
      assert text[0] in text && forall c <- text[1..] :: c in text;
      if text[0] == SEPARATOR {
        SplitAndJoined(text[1..], "");
        FastPathAgrees(text[1..], "");
        JoinFirst(buffer, SplitFrom(text[1..], ""));
        assert "" + text[1..] == text[1..] && buffer + [SEPARATOR] + text[1..] == buffer + text;
      } else {
        SplitAndJoined(text[1..], buffer + [text[0]]);
        assert buffer + [text[0]] + text[1..] == buffer + text;
      }
    }
  }

  lemma JoinOne(name: string)
    ensures ToDotted([name]) == EscapeDots(name)
  {
  }

  lemma JoinFirst(name: string, others: seq<string>)
    requires others != []
    ensures ToDotted([name] + others) == EscapeDots(name) + [SEPARATOR] + ToDotted(others)
  {
    assert ([name] + others)[1..] == others;
  }

  lemma {:induction false} NothingToEscape(name: string)
    requires SEPARATOR !in name
    ensures EscapeDots(name) == name
  {
    if name != "" {
      assert name[0] in name && forall c <- name[1..] :: c in name;
      NothingToEscape(name[1..]);
      assert [name[0]] + name[1..] == name;
    }
  }

  /** The character loop over the dotted name. */
  method ParseFieldList(dotted: string) returns (names: seq<string>)
    ensures names == FieldList(dotted)
  {
    if ESCAPE !in dotted {
      return SplitFrom(dotted, "");
    }
    names := [];
    var buffer := "";
    var i := 0;
    while i < |dotted|
      invariant 0 <= i <= |dotted|
      invariant names + ParseFrom(dotted[i..], buffer) == FieldList(dotted)
    {
      var c := dotted[i];
      assert dotted[i..][0] == c && dotted[i..][1..] == dotted[i + 1..];
      if c == SEPARATOR {
        names := names + [buffer];
        buffer := "";
      } else if c == ESCAPE {
        i := i + 1;
        if i < |dotted| {
          assert dotted[i - 1..][1] == dotted[i] && dotted[i - 1..][2..] == dotted[i + 1..];
          buffer := buffer + [dotted[i]];
        } else {
          buffer := buffer + [ESCAPE];
          assert dotted[i..] == "";
          break;
        }
      } else {
        buffer := buffer + [c];
      }
      i := i + 1;
    }
    assert dotted[i..] == "";
    names := names + [buffer];
  }
}
