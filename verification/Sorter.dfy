/** Sorting the expressions of conjunctions. */
module Sorter {
  import opened Common
  import opened FilterExpressions
  import DottedFields

  datatype SorterError =
    | CouldNotSort(e: Expr)  // a compound below a double negation
    | EmptyKey               // the first name of an empty key
    | Incomparable           // the key of an Always compared with another one

  /** The key to sort by; Python compares a missing key with nothing. */
  type SortingKey = Option<string>

  /** `_get_sorting_key`. */
  function KeyOf(e: Expr, priorities: map<string, string>): Result<SortingKey, SorterError> {
    match e
    case Always(_) => Ok(None)
    case Not(child) =>
      if child.Not? && child.child.IsKeyBased() && child.child.key == [] then Err(EmptyKey)
      else if child.Not? && child.child.IsKeyBased() && child.child.key[0] in priorities then
        Ok(Some(priorities[child.child.key[0]]))
      else if child.IsKeyBased() && DottedFields.ToDotted(child.key) in priorities then
        Ok(Some(priorities[DottedFields.ToDotted(child.key)]))
      else KeyOf(child, priorities)
    case And(_) => Err(CouldNotSort(e))
    case Or(_) => Err(CouldNotSort(e))
    case _ =>
      var dotted := DottedFields.ToDotted(e.key);
      Ok(Some(if dotted in priorities then priorities[dotted] else Repr(e)))
  }

  type KeyTable = map<string, SortingKey>

  /** The keys by printed form; of expressions that print alike the first one decides. */
  function AddKeys(es: seq<Expr>, priorities: map<string, string>, keys: KeyTable): Result<KeyTable, SorterError> {
    if es == [] then Ok(keys)
    else if Repr(es[0]) in keys then AddKeys(es[1..], priorities, keys)
    else
      var key :- KeyOf(es[0], priorities);
      AddKeys(es[1..], priorities, keys[Repr(es[0]) := key])
  }

  function Concat(dnf: seq<seq<Expr>>): seq<Expr> {
    if dnf == [] then [] else dnf[0] + Concat(dnf[1..])
  }

  predicate TextLeq(a: string, b: string) {
    a == "" || (b != "" && (a[0] < b[0] || (a[0] == b[0] && TextLeq(a[1..], b[1..]))))
  }

  /** Texts are in the order of a dictionary: a beginning comes first, else the first difference decides. */
  lemma {:induction false} TextLeqExactly(a: string, b: string)
    ensures TextLeq(a, b)
       <==> a <= b || exists k | 0 <= k < |a| && k < |b| :: a[..k] == b[..k] && a[k] < b[k]
  {
    if a != "" && b != "" && a[0] == b[0] {
      TextLeqExactly(a[1..], b[1..]);
      assert a == [a[0]] + a[1..] && b == [b[0]] + b[1..];
      assert a <= b <==> a[1..] <= b[1..];
      if k :| 0 <= k < |a| && k < |b| && a[..k] == b[..k] && a[k] < b[k] {
        assert a[1..][..k - 1] == a[..k][1..] && b[1..][..k - 1] == b[..k][1..];
        assert a[1..][k - 1] < b[1..][k - 1];
      }
      if k :| 0 <= k < |a[1..]| && k < |b[1..]| && a[1..][..k] == b[1..][..k] && a[1..][k] < b[1..][k] {
        assert a[..k + 1] == [a[0]] + a[1..][..k] && b[..k + 1] == [b[0]] + b[1..][..k];
        assert a[k + 1] < b[k + 1];
      }
    } else if a != "" && b != "" && a[0] < b[0] {
      assert a[..0] == b[..0] && a[0] < b[0];
    }
  }

  /**
   * What a literal is sorted by: the priority of its dotted field if there is one, or else its printed
   * form without negations; under two negations the priority of the first name of its field comes first.
   */
  lemma {:induction false} KeyExactly(e: Expr, priorities: map<string, string>)
    requires e.IsKeyBased() && e.key != []
    ensures var dotted, first := DottedFields.ToDotted(e.key), e.key[0];
            var key := if dotted in priorities then priorities[dotted] else Repr(e);
            && KeyOf(e, priorities) == Ok(Some(key)) && KeyOf(Not(e), priorities) == Ok(Some(key))
            && KeyOf(Not(Not(e)), priorities) == Ok(Some(if first in priorities then priorities[first] else key))
            && KeyOf(Not(Not(Not(e))), priorities) == KeyOf(Not(Not(e)), priorities)
    ensures forall value :: KeyOf(Always(value), priorities) == Ok(None)
    ensures forall value :: KeyOf(Not(Always(value)), priorities) == Ok(None)
  {
    hide Repr;
  }

  predicate HasTextKeys(es: seq<Expr>, keys: KeyTable) {
    forall e <- es :: Repr(e) in keys && keys[Repr(e)].Some?
  }

  /** The key of an expression in a list that has only string keys. */
  function TextKey(e: Expr, keys: KeyTable): string {
    if Repr(e) in keys && keys[Repr(e)].Some? then keys[Repr(e)].value else ""
  }

  function Insert(e: Expr, es: seq<Expr>, keys: KeyTable): (inserted: seq<Expr>)
    ensures multiset(inserted) == multiset{e} + multiset(es)
  {
    if es == [] then [e]
    else if TextLeq(TextKey(e, keys), TextKey(es[0], keys)) then [e] + es
    else
      assert es == [es[0]] + es[1..];
      [es[0]] + Insert(e, es[1..], keys)
  }

  /** Python's stable sort of a list whose keys are all strings. */
  function StableSort(es: seq<Expr>, keys: KeyTable): (sorted: seq<Expr>)
    ensures multiset(sorted) == multiset(es)
  {
    if es == [] then []
    else
      assert es == [es[0]] + es[1..];
      Insert(es[0], StableSort(es[1..], keys), keys)
  }

  /** Sorting one list; only a list of at least two elements compares keys. */
  function SortList(es: seq<Expr>, keys: KeyTable): Result<seq<Expr>, SorterError>
    requires forall e <- es :: Repr(e) in keys
  {
    if |es| < 2 then Ok(es)
    else if HasTextKeys(es, keys) then Ok(StableSort(es, keys))
    else Err(Incomparable)
  }

  function SortLists(dnf: seq<seq<Expr>>, keys: KeyTable): Result<seq<seq<Expr>>, SorterError>
    requires forall es <- dnf, e <- es :: Repr(e) in keys
  {
    if dnf == [] then Ok([])
    else
      var first :- SortList(dnf[0], keys);
      var others :- SortLists(dnf[1..], keys);
      Ok([first] + others)
  }

  lemma {:induction false} AddKeysAddsAll(es: seq<Expr>, priorities: map<string, string>, keys: KeyTable)
    requires AddKeys(es, priorities, keys).Ok?
    ensures var all := AddKeys(es, priorities, keys).value;
            && (forall e <- es :: Repr(e) in all)
            && (forall text <- keys :: text in all && all[text] == keys[text])
  {
    if es != [] {
      var next := if Repr(es[0]) in keys then keys else keys[Repr(es[0]) := KeyOf(es[0], priorities).value];
      AddKeysAddsAll(es[1..], priorities, next);
      assert es == [es[0]] + es[1..];
    }
  }

  lemma {:induction false} InConcat(dnf: seq<seq<Expr>>)
    ensures forall e :: e in Concat(dnf) <==> exists es <- dnf :: e in es
  {
    if dnf != [] {
      InConcat(dnf[1..]);
      assert dnf == [dnf[0]] + dnf[1..];
    }
  }

  /** `sort_rule_segments`. */
  function SortRuleSegments(dnf: seq<seq<Expr>>, priorities: map<string, string>)
    : Result<seq<seq<Expr>>, SorterError>
  {
    var keys :- AddKeys(Concat(dnf), priorities, map[]);
    AddKeysAddsAll(Concat(dnf), priorities, map[]);
    InConcat(dnf);
    SortLists(dnf, keys)
  }

  // ------------------------------------------------------------ what sorting keeps

  /** `sorted` holds list by list the same expressions as `dnf`. */
  ghost predicate IsPermuted(dnf: seq<seq<Expr>>, sorted: seq<seq<Expr>>) {
    |dnf| == |sorted| && forall i | 0 <= i < |dnf| :: multiset(dnf[i]) == multiset(sorted[i])
  }

  lemma {:induction false} SortListsPermutes(dnf: seq<seq<Expr>>, keys: KeyTable)
    requires (forall es <- dnf, e <- es :: Repr(e) in keys) && SortLists(dnf, keys).Ok?
    ensures IsPermuted(dnf, SortLists(dnf, keys).value)
  {
    if dnf != [] {
      SortListsPermutes(dnf[1..], keys);
    }
  }

  lemma SortingPermutes(dnf: seq<seq<Expr>>, priorities: map<string, string>)
    requires SortRuleSegments(dnf, priorities).Ok?
    ensures IsPermuted(dnf, SortRuleSegments(dnf, priorities).value)
  {
    AddKeysAddsAll(Concat(dnf), priorities, map[]);
    InConcat(dnf);
    SortListsPermutes(dnf, AddKeys(Concat(dnf), priorities, map[]).value);
  }

  ghost predicate IsSorted(es: seq<Expr>, keys: KeyTable) {
    forall i, j | 0 <= i < j < |es| :: TextLeq(TextKey(es[i], keys), TextKey(es[j], keys))
  }

  /** The elements with one key, in the order they have. */
  function WithKey(es: seq<Expr>, keys: KeyTable, key: string): seq<Expr> {
    if es == [] then []
    else (if TextKey(es[0], keys) == key then [es[0]] else []) + WithKey(es[1..], keys, key)
  }

  lemma {:induction false} TextLeqIsTotal(a: string, b: string)
    ensures TextLeq(a, b) || TextLeq(b, a)
    ensures TextLeq(a, b) && TextLeq(b, a) ==> a == b
  {
    if a != "" && b != "" {
      TextLeqIsTotal(a[1..], b[1..]);
      assert a == [a[0]] + a[1..] && b == [b[0]] + b[1..];
    }
  }

  lemma {:induction false} TextLeqIsTransitive(a: string, b: string, c: string)
    requires TextLeq(a, b) && TextLeq(b, c)
    ensures TextLeq(a, c)
  {
    if a != "" && a[0] == b[0] == c[0] {
      TextLeqIsTransitive(a[1..], b[1..], c[1..]);
    }
  }

  lemma {:induction false} InsertSorts(e: Expr, es: seq<Expr>, keys: KeyTable)
    requires IsSorted(es, keys)
    ensures IsSorted(Insert(e, es, keys), keys)
  {
    if es != [] {
      var here, next := TextKey(e, keys), TextKey(es[0], keys);
      if TextLeq(here, next) {
        forall j | 0 <= j < |es| ensures TextLeq(here, TextKey(es[j], keys)) {
          if j > 0 {
            TextLeqIsTransitive(here, next, TextKey(es[j], keys));
          }
        }
      } else {
        var rest := Insert(e, es[1..], keys);
        InsertSorts(e, es[1..], keys);
        TextLeqIsTotal(here, next);
        forall j | 0 <= j < |rest| ensures TextLeq(next, TextKey(rest[j], keys)) {
          assert rest[j] in multiset(rest);
          if rest[j] != e {
            assert rest[j] in es[1..];
          }
        }
      }
    }
  }

  lemma {:induction false} InsertIsStable(e: Expr, es: seq<Expr>, keys: KeyTable, key: string)
    ensures WithKey(Insert(e, es, keys), keys, key) == WithKey([e] + es, keys, key)
  {
    hide TextLeq, TextKey, WithKey, Insert;
    UnfoldInsert(e, es, keys);
    WithKeyCons(e, es, keys, key);
    assert es == [] ==> [e] + es == [e];
    if es != [] && !TextLeq(TextKey(e, keys), TextKey(es[0], keys)) {
      var first, rest := es[0], es[1..];
      assert es == [first] + rest;
      InsertIsStable(e, rest, keys, key);
      WithKeyCons(e, rest, keys, key);
      WithKeyCons(first, Insert(e, rest, keys), keys, key);
      WithKeyCons(first, rest, keys, key);
      assert TextKey(e, keys) != key || TextKey(first, keys) != key by {
        TextLeqIsTotal(TextKey(e, keys), TextKey(first, keys));
      }
    }
  }

  lemma UnfoldInsert(e: Expr, es: seq<Expr>, keys: KeyTable)
    ensures Insert(e, es, keys)
         == if es == [] || TextLeq(TextKey(e, keys), TextKey(es[0], keys)) then [e] + es
            else [es[0]] + Insert(e, es[1..], keys)
  {
  }

  lemma WithKeyCons(e: Expr, es: seq<Expr>, keys: KeyTable, key: string)
    ensures WithKey([e] + es, keys, key) == (if TextKey(e, keys) == key then [e] else []) + WithKey(es, keys, key)
  {
    assert ([e] + es)[1..] == es;
  }

  /** The result is sorted, and elements with the same key keep their order. */
  lemma {:induction false} StableSortSorts(es: seq<Expr>, keys: KeyTable, key: string)
    ensures IsSorted(StableSort(es, keys), keys)
    ensures WithKey(StableSort(es, keys), keys, key) == WithKey(es, keys, key)
  {
    if es != [] {
      var rest := StableSort(es[1..], keys);
      StableSortSorts(es[1..], keys, key);
      InsertSorts(es[0], rest, keys);
      InsertIsStable(es[0], rest, keys, key);
      assert ([es[0]] + rest)[1..] == rest;
    }
  }

  // ----------------------------------------------------------- what can be sorted

  /** The priorities decide where an expression goes, not whether it can be sorted. */
  lemma {:induction false} KeyKind(e: Expr, p: map<string, string>, q: map<string, string>)
    ensures KeyOf(e, p).Ok? == KeyOf(e, q).Ok?
    ensures KeyOf(e, p).Ok? ==> (KeyOf(e, p).value.None? <==> Base(e).Always?)
    ensures HasKeys(e) ==> (KeyOf(e, p).Ok? <==> !Base(e).IsCompound())
  {
    if e.Not? {
      KeyKind(e.child, p, q);
      assert HasKeys(e) ==> HasKeys(e.child);
      if e.child.Not? {
        assert HasKeys(e) ==> HasKeys(e.child.child);
        KeyKind(e.child.child, p, q);
      }
    }
  }

  lemma {:induction false} TableKind(
    es: seq<Expr>, p: map<string, string>, q: map<string, string>, kp: KeyTable, kq: KeyTable)
    requires kp.Keys == kq.Keys && forall text <- kp :: kp[text].None? == kq[text].None?
    ensures AddKeys(es, p, kp).Ok? == AddKeys(es, q, kq).Ok?
    ensures AddKeys(es, p, kp).Ok? ==>
              var np, nq := AddKeys(es, p, kp).value, AddKeys(es, q, kq).value;
              np.Keys == nq.Keys && forall text <- np :: np[text].None? == nq[text].None?
  {
    if es != [] {
      KeyKind(es[0], p, q);
      KeyKind(es[0], q, p);
      if Repr(es[0]) in kp {
        TableKind(es[1..], p, q, kp, kq);
      } else if KeyOf(es[0], p).Ok? {
        TableKind(es[1..], p, q, kp[Repr(es[0]) := KeyOf(es[0], p).value],
                  kq[Repr(es[0]) := KeyOf(es[0], q).value]);
      }
    }
  }

  lemma {:induction false} ListsKind(dnf: seq<seq<Expr>>, kp: KeyTable, kq: KeyTable)
    requires forall es <- dnf, e <- es :: Repr(e) in kp
    requires kp.Keys == kq.Keys && forall text <- kp :: kp[text].None? == kq[text].None?
    ensures SortLists(dnf, kp).Ok? == SortLists(dnf, kq).Ok?
  {
    if dnf != [] {
      ListsKind(dnf[1..], kp, kq);
      assert SortList(dnf[0], kp).Ok? == SortList(dnf[0], kq).Ok?;
    }
  }

  /** Whether a filter can be sorted does not depend on the priorities. */
  lemma PrioritiesDoNotMatter(dnf: seq<seq<Expr>>, p: map<string, string>, q: map<string, string>)
    ensures SortRuleSegments(dnf, p).Ok? == SortRuleSegments(dnf, q).Ok?
  {
    var es := Concat(dnf);
    TableKind(es, p, q, map[], map[]);
    if AddKeys(es, p, map[]).Ok? {
      AddKeysAddsAll(es, p, map[]);
      InConcat(dnf);
      ListsKind(dnf, AddKeys(es, p, map[]).value, AddKeys(es, q, map[]).value);
    }
  }

  /** The key of every expression tells whether it is an `Always` under negations. */
  ghost predicate TellsAlways(keys: KeyTable) {
    forall e: Expr :: Repr(e) in keys ==> (keys[Repr(e)].None? <==> Base(e).Always?)
  }

  lemma {:induction false} TableTellsAlways(es: seq<Expr>, p: map<string, string>, keys: KeyTable)
    requires TellsAlways(keys) && forall e <- es :: HasKeys(e)
    requires forall e: Expr :: Repr(e) in keys ==> !Base(e).IsCompound()
    ensures AddKeys(es, p, keys).Ok? <==> forall e <- es :: !Base(e).IsCompound()
    ensures AddKeys(es, p, keys).Ok? ==> TellsAlways(AddKeys(es, p, keys).value)
  {
    if es != [] {
      assert es == [es[0]] + es[1..] && es[0] in es;
      KeyKind(es[0], p, p);
      if Repr(es[0]) in keys {
        TableTellsAlways(es[1..], p, keys);
      } else if KeyOf(es[0], p).Ok? {
        var next := keys[Repr(es[0]) := KeyOf(es[0], p).value];
        forall e: Expr | Repr(e) in next
          ensures (next[Repr(e)].None? <==> Base(e).Always?) && !Base(e).IsCompound()
        {
          if Repr(e) == Repr(es[0]) {
            ReprShowsBase(e, es[0]);
          }
        }
        TableTellsAlways(es[1..], p, next);
      }
    }
  }

  lemma {:induction false} SortListsSucceeds(dnf: seq<seq<Expr>>, keys: KeyTable)
    requires (forall es <- dnf, e <- es :: Repr(e) in keys) && TellsAlways(keys)
    ensures SortLists(dnf, keys).Ok? <==> forall es <- dnf :: |es| < 2 || forall e <- es :: !Base(e).Always?
  {
    if dnf != [] {
      SortListsSucceeds(dnf[1..], keys);
      assert dnf == [dnf[0]] + dnf[1..] && dnf[0] in dnf;
      assert HasTextKeys(dnf[0], keys) <==> forall e <- dnf[0] :: !Base(e).Always?;
    }
  }

  /** Sorting fails exactly for a hidden compound, and for an `Always` that has company. */
  lemma SortingSucceeds(dnf: seq<seq<Expr>>, p: map<string, string>)
    requires forall es <- dnf, e <- es :: HasKeys(e)
    ensures SortRuleSegments(dnf, p).Ok?
       <==> && (forall es <- dnf, e <- es :: !Base(e).IsCompound())
            && (forall es <- dnf :: |es| < 2 || forall e <- es :: !Base(e).Always?)
  {
    var es := Concat(dnf);
    InConcat(dnf);
    TableTellsAlways(es, p, map[]);
    if AddKeys(es, p, map[]).Ok? {
      AddKeysAddsAll(es, p, map[]);
      SortListsSucceeds(dnf, AddKeys(es, p, map[]).value);
    }
  }
}
