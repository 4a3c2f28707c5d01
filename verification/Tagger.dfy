/** Guards and tags before literals. */
module Tagger {
  import opened Common
  import opened Documents
  import opened FilterExpressions
  import DottedFields

  // ------------------------------------------------------------------- guards

  /** Expressions that get no guard of their own. */
  predicate NeedsNoGuard(e: Expr) {
    !e.IsKeyBased() || e.Exists?
  }

  /** `_add_exists_filter` on one conjunction, whose part `done` it has been through. */
  function Guard(done: seq<Expr>, todo: seq<Expr>): seq<Expr>
    decreases |todo|
  {
    if todo == [] then done
    else if NeedsNoGuard(todo[0]) || Exists(todo[0].key) in done + todo then
      Guard(done + [todo[0]], todo[1..])
    else Guard(done + [Exists(todo[0].key), todo[0]], todo[1..])
  }

  /** A guard follows from the literal that it guards. */
  lemma {:induction false} GuardKeepsMeaning(
    engine: Engine, done: seq<Expr>, todo: seq<Expr>, document: Document)
    ensures AllMatch(engine, Guard(done, todo), document) <==> AllMatch(engine, done + todo, document)
    decreases |todo|
  {
    if todo == [] {
      assert done + todo == done;
    } else {
      var rest := todo[1..];
      assert done + todo == done + [todo[0]] + rest;
      if NeedsNoGuard(todo[0]) || Exists(todo[0].key) in done + todo {
        GuardKeepsMeaning(engine, done + [todo[0]], rest, document);
      } else {
        var guard := Exists(todo[0].key);
        GuardKeepsMeaning(engine, done + [guard, todo[0]], rest, document);
        assert todo[0] in done + todo;
        if AllMatch(engine, done + todo, document) {
          MatchNeedsKey(engine, todo[0], document);
          assert forall e <- done + [guard, todo[0]] + rest :: e == guard || e in done + todo;
        } else {
          assert forall e <- done + todo :: e in done + [guard, todo[0]] + rest;
        }
      }
    }
  }

  /** Every literal on a field is accompanied by the guard of that field, and only guards are new. */
  lemma {:induction false} GuardGuards(done: seq<Expr>, todo: seq<Expr>)
    requires forall e <- done :: NeedsNoGuard(e) || Exists(e.key) in done + todo
    ensures forall e <- Guard(done, todo) :: NeedsNoGuard(e) || Exists(e.key) in Guard(done, todo)
    ensures forall e <- done + todo :: e in Guard(done, todo)
    ensures forall e <- Guard(done, todo) ::
              e in done + todo || exists x <- done + todo :: !NeedsNoGuard(x) && e == Exists(x.key)
    decreases |todo|
  {
    if todo == [] {
      assert done + todo == done;
    } else {
      var rest := todo[1..];
      assert done + todo == done + [todo[0]] + rest;
      if NeedsNoGuard(todo[0]) || Exists(todo[0].key) in done + todo {
        GuardGuards(done + [todo[0]], rest);
      } else {
        var next := done + [Exists(todo[0].key), todo[0]];
        assert todo[0] in done + todo && Exists(todo[0].key) in next;
        assert forall e <- done + todo :: e in next + rest;
        assert forall e <- next + rest :: e in done + todo || e == Exists(todo[0].key);
        GuardGuards(next, rest);
      }
    }
  }

  /** Every expression on a field but `Exists` gets the `Exists` of its field, and only those are new. */
  lemma ListsAreGuarded(es: seq<Expr>)
    ensures forall e <- Guard([], es) | e.IsKeyBased() && !e.Exists? :: Exists(e.key) in Guard([], es)
    ensures forall e <- es :: e in Guard([], es)
    ensures forall e <- Guard([], es) ::
              e in es || exists x <- es :: x.IsKeyBased() && !x.Exists? && e == Exists(x.key)
  {
    hide Guard;
    assert [] + es == es;
    GuardGuards([], es);
  }

  /** The expressions that are in the other list as well. */
  function Shared(es: seq<Expr>, others: seq<Expr>): seq<Expr> {
    if es == [] then []
    else Shared(es[..|es| - 1], others) + if es[|es| - 1] in others then [es[|es| - 1]] else []
  }

  lemma {:induction false} SharedOneMore(es: seq<Expr>, e: Expr, others: seq<Expr>)
    ensures Shared(es + [e], others) == Shared(es, others) + if e in others then [e] else []
  {
    assert (es + [e])[..|es|] == es;
  }

  /** A guard is new, and the literal that it guards is right behind it. */
  ghost predicate GuardsNext(es: seq<Expr>, i: nat, others: seq<Expr>)
    requires i < |es|
  {
    || es[i] in others
    || (i + 1 < |es| && !NeedsNoGuard(es[i + 1]) && es[i + 1] in others && es[i] == Exists(es[i + 1].key))
  }

  ghost predicate AllGuard(done: seq<Expr>, es: seq<Expr>) {
    forall i | 0 <= i < |done| :: GuardsNext(done, i, es)
  }

  lemma OneMoreGuards(done: seq<Expr>, more: seq<Expr>, es: seq<Expr>)
    requires AllGuard(done, es) && AllGuard(more, es)
    ensures AllGuard(done + more, es)
  {
    forall i | 0 <= i < |done + more| ensures GuardsNext(done + more, i, es) {
      assert if i < |done| then GuardsNext(done, i, es) else GuardsNext(more, i - |done|, es);
    }
  }

  /** Guards aside, the list stays as it was; every guard is right in front of a literal of its field. */
  lemma {:induction false} GuardOrder(done: seq<Expr>, todo: seq<Expr>, es: seq<Expr>)
    requires Shared(done, es) + todo == es && AllGuard(done, es)
    requires forall e <- es :: e in done + todo
    ensures Shared(Guard(done, todo), es) == es && AllGuard(Guard(done, todo), es)
    decreases |todo|
  {
    hide Shared, AllGuard;
    if todo == [] {
      assert done + [] == done;
    } else {
      var e, rest := todo[0], todo[1..];
      assert todo == [e] + rest && e in Shared(done, es) + todo;
      assert Shared(done, es) + [e] + rest == es;
      if NeedsNoGuard(e) || Exists(e.key) in done + todo {
        SharedOneMore(done, e, es);
        assert AllGuard([e], es) by { LiteralGuards(e, es); }
        OneMoreGuards(done, [e], es);
        assert forall x <- es :: x in done + [e] + rest;
        GuardOrder(done + [e], rest, es);
      } else {
        var next := [Exists(e.key), e];
        SharedOneMore(done, next[0], es);
        SharedOneMore(done + [next[0]], e, es);
        assert done + [next[0]] + [e] == done + next;
        assert AllGuard(next, es) by { PairGuards(e, es); }
        OneMoreGuards(done, next, es);
        assert forall x <- es :: x in done + next + rest;
        GuardOrder(done + next, rest, es);
      }
    }
  }

  lemma LiteralGuards(e: Expr, es: seq<Expr>)
    requires e in es
    ensures AllGuard([e], es)
  {
  }

  lemma PairGuards(e: Expr, es: seq<Expr>)
    requires e in es && !NeedsNoGuard(e)
    ensures AllGuard([Exists(e.key), e], es)
  {
  }

  // --------------------------------------------------------------------- tags

  datatype TaggerError = EmptyKey | TooManyColons

  function CountColons(text: string): nat {
    if text == "" then 0 else (if text[0] == ':' then 1 else 0) + CountColons(text[1..])
  }

  function BeforeColon(text: string): string {
    if text == "" || text[0] == ':' then "" else [text[0]] + BeforeColon(text[1..])
  }

  function AfterColon(text: string): string {
    if text == "" then "" else if text[0] == ':' then text[1..] else AfterColon(text[1..])
  }

  /** `rstrip(": *")`. */
  function StripEnd(text: string): string {
    if text != "" && text[|text| - 1] in ": *" then StripEnd(text[..|text| - 1]) else text
  }

  function WithoutQuotes(text: string): string {
    if text == "" then ""
    else (if text[0] == '"' then "" else [text[0]]) + WithoutQuotes(text[1..])
  }

  /** `_tag_exists`. */
  predicate TagExists(e: Expr, tag: string) {
    match e
    case Exists(_) => StripEnd(Repr(e)) == tag
    case StringIs(_, _) => WithoutQuotes(Repr(e)) == tag
    case _ => false
  }

  /** `_add_tag`. */
  function AddTag(es: seq<Expr>, tag: string): Result<seq<Expr>, TaggerError>
    requires es != []
  {
    if TagExists(es[0], tag) then Ok(es)
    else if CountColons(tag) > 1 then Err(TooManyColons)
    else if CountColons(tag) == 1 then
      Ok([StringIs(DottedFields.FieldList(BeforeColon(tag)), AfterColon(tag))] + es)
    else Ok([Exists(DottedFields.FieldList(tag))] + es)
  }

  /** The expression whose key is looked up in the tag map. */
  function TagSource(e: Expr): Expr {
    if e.Not? then e.child else e
  }

  /** `_add_tags_to_rule_expressions`: `todo` is what is left of the copy that it iterates over. */
  function AddTags(todo: seq<Expr>, es: seq<Expr>, tags: map<string, string>): Result<seq<Expr>, TaggerError>
    requires todo != [] ==> es != []
    decreases |todo|
  {
    if todo == [] then Ok(es)
    else
      var source := TagSource(todo[0]);
      if !source.IsKeyBased() then AddTags(todo[1..], es, tags)
      else if source.key == [] then Err(EmptyKey)
      else if source.key[0] in tags && Exists([tags[source.key[0]]]) !in es then
        var tagged :- AddTag(es, tags[source.key[0]]);
        AddTags(todo[1..], tagged, tags)
      else AddTags(todo[1..], es, tags)
  }

  lemma AddedInFront(es: seq<Expr>, tag: string)
    requires es != [] && AddTag(es, tag).Ok?
    ensures var next := AddTag(es, tag).value; |next| >= |es| && next[|next| - |es|..] == es
  {
  }

  lemma EndOfEnd<T>(a: seq<T>, b: seq<T>, c: seq<T>)
    requires |a| >= |b| >= |c| && a[|a| - |b|..] == b && b[|b| - |c|..] == c
    ensures a[|a| - |c|..] == c
  {
    assert a[|a| - |c|..] == a[|a| - |b|..][|b| - |c|..];
  }

  /** Tags are put in front; the expressions themselves stay as they were. */
  lemma {:induction false} TagsArePrefixed(todo: seq<Expr>, es: seq<Expr>, tags: map<string, string>)
    requires (todo != [] ==> es != []) && AddTags(todo, es, tags).Ok?
    ensures |AddTags(todo, es, tags).value| >= |es|
    ensures var tagged := AddTags(todo, es, tags).value; tagged[|tagged| - |es|..] == es
    decreases |todo|
  {
    hide AddTag;
    if todo != [] {
      var source := TagSource(todo[0]);
      if source.IsKeyBased() && source.key[0] in tags && Exists([tags[source.key[0]]]) !in es {
        var next := AddTag(es, tags[source.key[0]]).value;
        AddedInFront(es, tags[source.key[0]]);
        TagsArePrefixed(todo[1..], next, tags);
        EndOfEnd(AddTags(todo[1..], next, tags).value, next, es);
      } else {
        TagsArePrefixed(todo[1..], es, tags);
      }
    }
  }

  lemma TagsOnlyNarrow(engine: Engine, es: seq<Expr>, tags: map<string, string>, document: Document)
    requires AddTags(es, es, tags).Ok? && AllMatch(engine, AddTags(es, es, tags).value, document)
    ensures AllMatch(engine, es, document)
  {
    TagsArePrefixed(es, es, tags);
    var tagged := AddTags(es, es, tags).value;
    assert forall e <- tagged[|tagged| - |es|..] :: e in tagged;
  }

  /** A tag is the name of a field, or a field and a value. */
  predicate AreSafeTags(tags: map<string, string>) {
    forall field <- tags :: CountColons(tags[field]) <= 1
  }

  // ----------------------------------------------------------- when tagging fails

  /** The tag map names a tag for the expression that is not a field the list asks for. */
  predicate IsTagged(e: Expr, es: seq<Expr>, tags: map<string, string>) {
    var source := TagSource(e);
    && source.IsKeyBased() && source.key != [] && source.key[0] in tags
    && Exists([tags[source.key[0]]]) !in es
  }

  /** A negated literal is tagged as the literal is; nothing else is tagged. */
  lemma LiteralsAreTagged(e: Expr, es: seq<Expr>, tags: map<string, string>)
    ensures e.IsKeyBased() ==>
              (IsTagged(e, es, tags)
               <==> e.key != [] && e.key[0] in tags && Exists([tags[e.key[0]]]) !in es)
    ensures e.Not? ==> (IsTagged(e, es, tags) <==> e.child.IsKeyBased() && IsTagged(e.child, es, tags))
    ensures e.Always? || e.IsCompound() ==> !IsTagged(e, es, tags)
  {
  }

  /** The tag of such an expression. */
  function TagOf(e: Expr, es: seq<Expr>, tags: map<string, string>): string
    requires IsTagged(e, es, tags)
  {
    tags[TagSource(e).key[0]]
  }

  /** The tag of an expression is not what the first one of the list says. */
  predicate IsNewTag(e: Expr, es: seq<Expr>, tags: map<string, string>)
    requires es != []
  {
    IsTagged(e, es, tags) && !TagExists(es[0], TagOf(e, es, tags))
  }

  /** The tag of an expression cannot be split. */
  predicate IsBadTag(e: Expr, es: seq<Expr>, tags: map<string, string>) {
    IsTagged(e, es, tags) && CountColons(TagOf(e, es, tags)) > 1
  }

  /** A tag that cannot be split is met where it is new, or behind one that was new. */
  predicate IsRefused(todo: seq<Expr>, es: seq<Expr>, tags: map<string, string>)
    requires es != []
  {
    exists j, i | 0 <= j <= i < |todo| :: IsNewTag(todo[j], es, tags) && IsBadTag(todo[i], es, tags)
  }

  lemma {:induction false} ColonsAdd(a: string, b: string)
    ensures CountColons(a + b) == CountColons(a) + CountColons(b)
  {
    if a == "" {
      assert a + b == b;
    } else {
      assert (a + b)[1..] == a[1..] + b;
      ColonsAdd(a[1..], b);
    }
  }

  lemma {:induction false} ColonsOfDots(name: string)
    ensures CountColons(DottedFields.EscapeDots(name)) == CountColons(name)
  {
    if name != "" {
      ColonsOfDots(name[1..]);
      var first := DottedFields.EscapeDots(name)[..if name[0] == '.' then 2 else 1];
      ColonsAdd(first, DottedFields.EscapeDots(name[1..]));
      assert DottedFields.EscapeDots(name) == first + DottedFields.EscapeDots(name[1..]);
      assert [name[0]] + name[1..] == name;
    }
  }

  function ColonsIn(names: seq<string>): nat {
    if names == [] then 0 else CountColons(names[0]) + ColonsIn(names[1..])
  }

  lemma {:induction false} ColonsOfDotted(names: seq<string>)
    ensures CountColons(DottedFields.ToDotted(names)) == ColonsIn(names)
  {
    if names != [] {
      ColonsOfDots(names[0]);
      ColonsOfDotted(names[1..]);
      ColonsAdd(DottedFields.EscapeDots(names[0]), ".");
      ColonsAdd(DottedFields.EscapeDots(names[0]) + ".", DottedFields.ToDotted(names[1..]));
    }
  }

  lemma {:induction false} ColonsOfParsed(text: string, buffer: string)
    ensures ColonsIn(DottedFields.ParseFrom(text, buffer)) == CountColons(buffer) + CountColons(text)
    decreases |text|
  {
    if text == "" {
    } else if text[0] == '.' {
      ColonsOfParsed(text[1..], "");
    } else if text[0] == '\\' && |text| == 1 {
      assert text == [text[0]] && text[1..] == "";
      ColonsAdd(buffer, [text[0]]);
    } else if text[0] == '\\' {
      ColonsOfParsed(text[2..], buffer + [text[1]]);
      ColonsAdd(buffer, [text[1]]);
      assert text == text[..2] + text[2..] && text[..2] == [text[0], text[1]];
      ColonsAdd(text[..2], text[2..]);
    } else {
      ColonsOfParsed(text[1..], buffer + [text[0]]);
      ColonsAdd(buffer, [text[0]]);
    }
  }

  /** Splitting a dotted field and joining it again loses and adds no colon. */
  lemma ColonsOfField(dotted: string)
    ensures ColonsIn(DottedFields.FieldList(dotted)) == CountColons(dotted)
    ensures CountColons(DottedFields.ToDotted(DottedFields.FieldList(dotted))) == CountColons(dotted)
  {
    if DottedFields.ESCAPE !in dotted {
      DottedFields.FastPathAgrees(dotted, "");
    }
    ColonsOfParsed(dotted, "");
    ColonsOfDotted(DottedFields.FieldList(dotted));
  }

  lemma {:induction false} ColonsOfStripped(text: string)
    ensures CountColons(StripEnd(text)) <= CountColons(text)
  {
    if text != "" && text[|text| - 1] in ": *" {
      ColonsOfStripped(text[..|text| - 1]);
      assert text == text[..|text| - 1] + [text[|text| - 1]];
      ColonsAdd(text[..|text| - 1], [text[|text| - 1]]);
    }
  }

  lemma {:induction false} ColonsWithoutQuotes(text: string)
    ensures CountColons(WithoutQuotes(text)) <= CountColons(text)
  {
    if text != "" {
      ColonsWithoutQuotes(text[1..]);
      var first := if text[0] == '"' then "" else [text[0]];
      ColonsAdd(first, WithoutQuotes(text[1..]));
      assert WithoutQuotes(text) == first + WithoutQuotes(text[1..]) && first[|first|..] == "";
      assert [text[0]][1..] == "";
    }
  }

  lemma {:induction false} ColonsOfTag(tag: string)
    requires CountColons(tag) == 1
    ensures CountColons(BeforeColon(tag)) == 0 && CountColons(AfterColon(tag)) == 0
  {
    if tag[0] != ':' {
      ColonsOfTag(tag[1..]);
      ColonsAdd([tag[0]], BeforeColon(tag[1..]));
    }
  }

  /** The expression that is put in front for a tag. */
  function TagExpr(tag: string): Expr {
    if CountColons(tag) == 1 then StringIs(DottedFields.FieldList(BeforeColon(tag)), AfterColon(tag))
    else Exists(DottedFields.FieldList(tag))
  }

  /** What was put in front for a tag never says a tag that cannot be split. */
  lemma AddedIsNoBadTag(tag: string, bad: string)
    requires CountColons(tag) <= 1 && CountColons(bad) > 1
    ensures !TagExists(TagExpr(tag), bad) && TagExpr(tag) != Exists([bad])
  {
    hide StripEnd, WithoutQuotes;
    var e := TagExpr(tag);
    if CountColons(tag) == 1 {
      ColonsOfTag(tag);
      ColonsOfField(BeforeColon(tag));
      var quoted := "\"" + AfterColon(tag) + "\"";
      ColonsAdd("\"" + AfterColon(tag), "\"");
      ColonsAdd("\"", AfterColon(tag));
      PrintedColons(e, quoted);
      ColonsWithoutQuotes(Repr(e));
    } else {
      ColonsOfField(tag);
      PrintedColons(e, " *");
      ColonsOfStripped(Repr(e));
      assert ColonsIn([bad]) == CountColons(bad);
    }
  }

  lemma PrintedColons(e: Expr, test: string)
    requires e.IsKeyBased() && TestRepr(e) == test
    ensures CountColons(Repr(e)) == CountColons(DottedFields.ToDotted(e.key)) + 1 + CountColons(test)
  {
    hide TestRepr;
    ColonsAdd(DottedFields.ToDotted(e.key), ":");
    ColonsAdd(DottedFields.ToDotted(e.key) + ":", test);
  }

  ghost predicate IsTagExpr(e: Expr) {
    exists tag :: CountColons(tag) <= 1 && e == TagExpr(tag)
  }

  /** Tags were put in front of the list. */
  ghost predicate HasTags(now: seq<Expr>, es: seq<Expr>) {
    |now| > |es| && now[|now| - |es|..] == es
    && forall i | 0 <= i < |now| - |es| :: IsTagExpr(now[i])
  }

  lemma TagsStay(now: seq<Expr>, es: seq<Expr>, tag: string)
    requires CountColons(tag) <= 1 && (now == es || HasTags(now, es))
    ensures HasTags([TagExpr(tag)] + now, es)
  {
    hide TagExpr;
    var more := [TagExpr(tag)] + now;
    forall i | 0 <= i < |more| - |es|
      ensures IsTagExpr(more[i])
    {
      assert i > 0 ==> more[i] == now[i - 1];
    }
  }

  /** Tags in front do not hide that a tag cannot be split. */
  lemma BadTagStays(e: Expr, now: seq<Expr>, es: seq<Expr>, tags: map<string, string>)
    requires HasTags(now, es)
    ensures IsTagged(e, now, tags) ==> IsTagged(e, es, tags)
    ensures IsBadTag(e, es, tags) ==> IsTagged(e, now, tags) && !TagExists(now[0], TagOf(e, es, tags))
  {
    hide TagExpr, TagExists, CountColons;
    assert forall x <- es :: x in now[|now| - |es|..];
    if IsBadTag(e, es, tags) {
      var bad := TagOf(e, es, tags);
      forall x <- now ensures x != Exists([bad]) {
        var i :| 0 <= i < |now| && now[i] == x;
        if i < |now| - |es| {
          var tag :| CountColons(tag) <= 1 && now[i] == TagExpr(tag);
          AddedIsNoBadTag(tag, bad);
        } else {
          assert now[i] == now[|now| - |es|..][i - (|now| - |es|)];
        }
      }
      assert IsTagExpr(now[0]);
      var tag :| CountColons(tag) <= 1 && now[0] == TagExpr(tag);
      AddedIsNoBadTag(tag, bad);
    }
  }

  lemma RefusedNext(todo: seq<Expr>, es: seq<Expr>, tags: map<string, string>)
    requires es != [] && todo != []
    ensures IsRefused(todo, es, tags)
       <==> if IsNewTag(todo[0], es, tags) then exists e <- todo :: IsBadTag(e, es, tags)
            else IsRefused(todo[1..], es, tags)
  {
    hide IsNewTag, IsBadTag;
    var rest := todo[1..];
    if IsNewTag(todo[0], es, tags) {
      if e :| e in todo && IsBadTag(e, es, tags) {
        var i :| 0 <= i < |todo| && todo[i] == e;
        assert IsNewTag(todo[0], es, tags) && IsBadTag(todo[i], es, tags);
      }
    } else if IsRefused(todo, es, tags) {
      var j, i :| 0 <= j <= i < |todo| && IsNewTag(todo[j], es, tags) && IsBadTag(todo[i], es, tags);
      assert rest[j - 1] == todo[j] && rest[i - 1] == todo[i];
    }
  }

  /** What becomes of the list at one expression. */
  function AfterTag(e: Expr, now: seq<Expr>, tags: map<string, string>): Result<seq<Expr>, TaggerError>
    requires now != []
  {
    if IsTagged(e, now, tags) then AddTag(now, TagOf(e, now, tags)) else Ok(now)
  }

  lemma TaggingStep(todo: seq<Expr>, now: seq<Expr>, tags: map<string, string>)
    requires todo != [] && now != [] && HasKeys(todo[0])
    ensures AddTags(todo, now, tags)
         == match AfterTag(todo[0], now, tags)
            case Err(error) => Err(error)
            case Ok(next) => AddTags(todo[1..], next, tags)
  {
    hide AddTag, HasKeys;
    KeyOfSource(todo[0]);
  }

  lemma KeyOfSource(e: Expr)
    requires HasKeys(e)
    ensures TagSource(e).IsKeyBased() ==> TagSource(e).key != []
  {
    if e.Not? {
      assert HasKeys(e.child);
    }
  }

  lemma AfterNewTag(e: Expr, es: seq<Expr>, tags: map<string, string>)
    requires es != []
    ensures IsNewTag(e, es, tags) && IsBadTag(e, es, tags) ==> AfterTag(e, es, tags).Err?
    ensures IsNewTag(e, es, tags) && !IsBadTag(e, es, tags) ==>
              AfterTag(e, es, tags).Ok? && HasTags(AfterTag(e, es, tags).value, es)
    ensures !IsNewTag(e, es, tags) ==> AfterTag(e, es, tags) == Ok(es)
  {
    hide HasTags, TagExists, CountColons;
    if IsNewTag(e, es, tags) && !IsBadTag(e, es, tags) {
      TagsStay(es, es, TagOf(e, es, tags));
    }
  }

  lemma AfterMoreTags(e: Expr, now: seq<Expr>, es: seq<Expr>, tags: map<string, string>)
    requires es != [] && HasTags(now, es)
    ensures now != []
    ensures IsBadTag(e, es, tags) ==> AfterTag(e, now, tags).Err?
    ensures !IsBadTag(e, es, tags) ==>
              AfterTag(e, now, tags).Ok? && HasTags(AfterTag(e, now, tags).value, es)
  {
    BadTagStays(e, now, es, tags);
    assert now != [];
    hide HasTags, TagExists, CountColons;
    if IsTagged(e, now, tags) && !IsBadTag(e, es, tags) {
      TagsStay(now, es, TagOf(e, now, tags));
    }
  }

  lemma {:induction false} MoreTagsFail(todo: seq<Expr>, now: seq<Expr>, es: seq<Expr>, tags: map<string, string>)
    requires es != [] && (forall e <- todo :: HasKeys(e)) && HasTags(now, es)
    ensures now != []
    ensures AddTags(todo, now, tags).Err? <==> exists e <- todo :: IsBadTag(e, es, tags)
    decreases |todo|
  {
    assert now != [];
    hide HasTags, AfterTag, IsBadTag, HasKeys;
    if todo != [] {
      assert todo[0] in todo && todo == [todo[0]] + todo[1..];
      AfterMoreTags(todo[0], now, es, tags);
      TaggingStep(todo, now, tags);
      if !IsBadTag(todo[0], es, tags) {
        MoreTagsFail(todo[1..], AfterTag(todo[0], now, tags).value, es, tags);
      }
    }
  }

  /**
   * Tagging fails exactly if a tag that cannot be split is met where the first expression does not
   * say it: that of the list, or the one of a tag that was put in front before.
   */
  lemma {:induction false} TaggingFails(todo: seq<Expr>, es: seq<Expr>, tags: map<string, string>)
    requires es != [] && forall e <- todo :: HasKeys(e)
    ensures AddTags(todo, es, tags).Err? <==> IsRefused(todo, es, tags)
    decreases |todo|
  {
    hide AfterTag, IsBadTag, IsNewTag, IsRefused, HasTags, HasKeys;
    if todo == [] {
      assert !IsRefused([], es, tags) by { NothingRefused(es, tags); }
    } else {
      assert todo[0] in todo && todo == [todo[0]] + todo[1..];
      AfterNewTag(todo[0], es, tags);
      TaggingStep(todo, es, tags);
      RefusedNext(todo, es, tags);
      if !IsNewTag(todo[0], es, tags) {
        TaggingFails(todo[1..], es, tags);
      } else if !IsBadTag(todo[0], es, tags) {
        MoreTagsFail(todo[1..], AfterTag(todo[0], es, tags).value, es, tags);
      }
    }
  }

  lemma NothingRefused(es: seq<Expr>, tags: map<string, string>)
    requires es != []
    ensures !IsRefused([], es, tags)
  {
  }

  /** Tags of at most one colon can always be split. */
  lemma SafeTagsAreTaken(todo: seq<Expr>, es: seq<Expr>, tags: map<string, string>)
    requires es != [] && AreSafeTags(tags)
    ensures !IsRefused(todo, es, tags)
  {
    hide TagExists;
  }

  /** What tagging puts in front are literals. */
  lemma {:induction false} TagsAreLiterals(todo: seq<Expr>, es: seq<Expr>, tags: map<string, string>)
    requires (todo != [] ==> es != []) && AddTags(todo, es, tags).Ok?
    ensures forall e <- AddTags(todo, es, tags).value :: e in es || e.Exists? || e.StringIs?
    decreases |todo|
  {
    if todo != [] {
      var source := TagSource(todo[0]);
      if source.IsKeyBased() && source.key[0] in tags && Exists([tags[source.key[0]]]) !in es {
        TagsAreLiterals(todo[1..], AddTag(es, tags[source.key[0]]).value, tags);
      } else {
        TagsAreLiterals(todo[1..], es, tags);
      }
    }
  }

  // ------------------------------------------------------------ what tagging adds

  /** The expressions for some tags. */
  function TagExprs(news: seq<string>): (exprs: seq<Expr>)
    ensures |exprs| == |news| && forall i | 0 <= i < |news| :: exprs[i] == TagExpr(news[i])
  {
    seq(|news|, i requires 0 <= i < |news| => TagExpr(news[i]))
  }

  /** Tags that can be split, of expressions of the list. */
  ghost predicate AreNews(news: seq<string>, es: seq<Expr>, tags: map<string, string>) {
    forall tag <- news ::
      CountColons(tag) <= 1 && exists e <- es :: IsTagged(e, es, tags) && TagOf(e, es, tags) == tag
  }

  /** The first expression of the list says the tag, or that of another tag does. */
  predicate IsSaid(tag: string, es: seq<Expr>, news: seq<string>)
    requires es != []
  {
    TagExists(es[0], tag) || exists other <- news :: TagExists(TagExpr(other), tag) || TagExpr(other) == Exists([tag])
  }

  /** Tagging puts expressions for tags in front; the tag of an expression is one of them unless it is said. */
  lemma {:induction false} AddedTags(
    todo: seq<Expr>, now: seq<Expr>, es: seq<Expr>, news: seq<string>, tags: map<string, string>)
    returns (all: seq<string>)
    requires es != [] && (forall e <- todo :: e in es) && now == TagExprs(news) + es && AreNews(news, es, tags)
    requires AddTags(todo, now, tags).Ok?
    ensures AddTags(todo, now, tags).value == TagExprs(all) + es && AreNews(all, es, tags)
    ensures forall tag <- news :: tag in all
    ensures forall e <- todo | IsTagged(e, es, tags) :: TagOf(e, es, tags) in all || IsSaid(TagOf(e, es, tags), es, all)
    decreases |todo|
  {
    hide TagExists, CountColons, AddTag, TagExpr;
    all := news;
    if todo != [] {
      var e := todo[0];
      assert e in es && todo == [e] + todo[1..];
      assert forall x <- es :: x in now;
      var next := news;
      if IsTagged(e, now, tags) {
        var tag := TagOf(e, now, tags);
        AddedOne(now, tag);
        if !TagExists(now[0], tag) {
          next := [tag] + news;
          assert TagExprs(next) + es == [TagExpr(tag)] + now;
        } else if news != [] {
          assert now[0] == TagExpr(news[0]) && news[0] in news;
        }
      } else if IsTagged(e, es, tags) {
        var tag := TagOf(e, es, tags);
        var i :| 0 <= i < |now| && now[i] == Exists([tag]);
        assert i < |news|;
        assert news[i] in news && TagExpr(news[i]) == Exists([tag]);
      }
      StepOfTags(todo, now, TagExprs(next) + es, tags);
      all := AddedTags(todo[1..], TagExprs(next) + es, es, next, tags);
    }
  }

  lemma AddedOne(now: seq<Expr>, tag: string)
    requires now != []
    ensures AddTag(now, tag).Ok? ==>
              AddTag(now, tag).value == if TagExists(now[0], tag) then now else [TagExpr(tag)] + now
    ensures AddTag(now, tag).Ok? && !TagExists(now[0], tag) ==> CountColons(tag) <= 1
  {
    hide CountColons, TagExists;
  }

  lemma StepOfTags(todo: seq<Expr>, now: seq<Expr>, next: seq<Expr>, tags: map<string, string>)
    requires todo != [] && now != [] && next != [] && AddTags(todo, now, tags).Ok?
    requires if IsTagged(todo[0], now, tags) then
               AddTag(now, TagOf(todo[0], now, tags)).Ok? ==> AddTag(now, TagOf(todo[0], now, tags)).value == next
             else next == now
    ensures AddTags(todo, now, tags) == AddTags(todo[1..], next, tags)
    ensures IsTagged(todo[0], now, tags) ==> AddTag(now, TagOf(todo[0], now, tags)).Ok?
  {
    hide AddTag;
  }

  /** The field of a tag is there, and has its value if the tag has one. */
  predicate TagHolds(engine: Engine, tag: string, document: Document) {
    if CountColons(tag) == 1 then
      Matches(engine, StringIs(DottedFields.FieldList(BeforeColon(tag)), AfterColon(tag)), document)
    else FieldValue(DottedFields.FieldList(tag), document).Some?
  }

  lemma {:induction false} TagIsSplit(field: string, value: string)
    requires CountColons(field) == 0
    ensures BeforeColon(field + ":" + value) == field && AfterColon(field + ":" + value) == value
  {
    if field == "" {
      assert "" + ":" + value == ":" + value && (":" + value)[1..] == value;
    } else {
      TagIsSplit(field[1..], value);
      assert (field + ":" + value)[1..] == field[1..] + ":" + value && [field[0]] + field[1..] == field;
    }
  }

  /** A tagged list matches if and only if the list matches and every new tag holds. */
  lemma TagsMatch(engine: Engine, es: seq<Expr>, news: seq<string>, document: Document)
    ensures AllMatch(engine, TagExprs(news) + es, document)
       <==> AllMatch(engine, es, document) && forall tag <- news :: TagHolds(engine, tag, document)
  {
    hide CountColons, BeforeColon, AfterColon;
    var all := TagExprs(news) + es;
    forall i | 0 <= i < |news| ensures Matches(engine, all[i], document) <==> TagHolds(engine, news[i], document) {
    }
    if AllMatch(engine, all, document) {
      forall tag <- news ensures TagHolds(engine, tag, document) {
        var i :| 0 <= i < |news| && news[i] == tag;
        assert all[i] in all;
      }
      assert forall e <- es :: e in all;
    } else {
      var e :| e in all && !Matches(engine, e, document);
      var i :| 0 <= i < |all| && all[i] == e;
      if i < |news| {
        assert news[i] in news;
      }
    }
  }

  lemma {:induction false} NothingQuoted(text: string)
    requires '"' !in text
    ensures WithoutQuotes(text) == text
  {
    if text != "" {
      assert text[0] in text && forall c <- text[1..] :: c in text;
      NothingQuoted(text[1..]);
      assert [text[0]] + text[1..] == text;
    }
  }

  lemma QuotesAreDropped(text: string)
    requires '"' !in text
    ensures WithoutQuotes("\"" + text + "\"") == text
  {
    WithoutQuotesInParts("\"" + text, "\"");
    WithoutQuotesInParts("\"", text);
    NothingQuoted(text);
    assert WithoutQuotes("\"") == "" by { assert "\""[1..] == ""; }
    assert "" + text == text && text + "" == text;
  }

  lemma {:induction false} WithoutQuotesInParts(a: string, b: string)
    ensures WithoutQuotes(a + b) == WithoutQuotes(a) + WithoutQuotes(b)
  {
    if a == "" {
      assert a + b == b;
    } else {
      assert (a + b)[1..] == a[1..] + b;
      WithoutQuotesInParts(a[1..], b);
    }
  }

  lemma {:induction false} PartsOfTag(tag: string)
    requires CountColons(tag) == 1
    ensures tag == BeforeColon(tag) + ":" + AfterColon(tag)
  {
    if tag[0] == ':' {
      assert tag == "" + ":" + tag[1..];
    } else {
      PartsOfTag(tag[1..]);
      assert tag == [tag[0]] + tag[1..];
    }
  }

  /** The expression that was put in front for a tag says the tag, so that it is not put there twice. */
  lemma OwnTagIsSaid(tag: string)
    requires CountColons(tag) <= 1 && '"' !in tag && DottedFields.ESCAPE !in tag
    requires CountColons(tag) == 0 ==> tag != "" && tag[|tag| - 1] !in ": *"
    ensures TagExists(TagExpr(tag), tag)
  {
    hide CountColons, BeforeColon, AfterColon, WithoutQuotes, StripEnd;
    if CountColons(tag) == 1 {
      var field, value := BeforeColon(tag), AfterColon(tag);
      PartsOfTag(tag);
      assert forall c <- field + ":" + value :: c in tag;
      assert forall c <- field :: c in field + ":" + value;
      assert forall c <- value :: c in field + ":" + value;
      DottedFields.SplitAndJoined(field, "");
      assert "" + field == field;
      WithoutQuotesInParts(field + ":", "\"" + value + "\"");
      NothingQuoted(field + ":");
      QuotesAreDropped(value);
      assert Repr(TagExpr(tag)) == field + ":" + ("\"" + value + "\"");
    } else {
      DottedFields.SplitAndJoined(tag, "");
      assert "" + tag == tag;
      assert Repr(TagExpr(tag)) == tag + ":" + " *" && tag + ":" + " *" == tag + ": *";
      StrippedField(tag);
    }
  }

  lemma StripOne(text: string, c: char)
    requires c in ": *"
    ensures StripEnd(text + [c]) == StripEnd(text)
  {
    assert (text + [c])[..|text|] == text;
  }

  lemma StrippedField(name: string)
    requires name != "" && name[|name| - 1] !in ": *"
    ensures StripEnd(name + ": *") == name
  {
    hide StripEnd;
    assert StripEnd(name) == name by { NothingToStrip(name); }
    assert name + ": *" == name + [':'] + [' '] + ['*'];
    StripOne(name, ':');
    StripOne(name + [':'], ' ');
    StripOne(name + [':'] + [' '], '*');
  }

  lemma NothingToStrip(name: string)
    requires name != "" && name[|name| - 1] !in ": *"
    ensures StripEnd(name) == name
  {
  }

  /** What tagging a list does to what it matches. */
  lemma TaggedMatch(engine: Engine, es: seq<Expr>, tags: map<string, string>, document: Document)
    returns (news: seq<string>)
    requires es != [] && AddTags(es, es, tags).Ok?
    ensures AddTags(es, es, tags).value == TagExprs(news) + es && AreNews(news, es, tags)
    ensures forall e <- es | IsTagged(e, es, tags) :: TagOf(e, es, tags) in news || IsSaid(TagOf(e, es, tags), es, news)
    ensures AllMatch(engine, AddTags(es, es, tags).value, document)
       <==> AllMatch(engine, es, document) && forall tag <- news :: TagHolds(engine, tag, document)
  {
    assert TagExprs([]) + es == es;
    news := AddedTags(es, es, es, [], tags);
    TagsMatch(engine, es, news, document);
  }
}
