/** The cache that tells which items need to be stored again, since they were not lately. */
module TimeCache {
  type Item = string

  /** Microseconds since the epoch, which is when an unknown item counts as stored. */
  type Time = int

  const EPOCH: Time := 0

  datatype Entry = Entry(item: Item, stored: Time)

  datatype Limits = Limits(maxItems: nat, window: Time)

  function Items(entries: seq<Entry>): (items: seq<Item>)
    ensures |items| == |entries| && forall i | 0 <= i < |items| :: items[i] == entries[i].item
  {
    seq(|entries|, i requires 0 <= i < |entries| => entries[i].item)
  }

  ghost predicate AreDistinct<T(!new)>(items: seq<T>) {
    forall i, j | 0 <= i < j < |items| :: items[i] != items[j]
  }

  /** `get`, with the epoch as the default. */
  function LastStored(entries: seq<Entry>, item: Item): Time {
    if entries == [] then EPOCH
    else if entries[0].item == item then entries[0].stored
    else LastStored(entries[1..], item)
  }

  function Without(entries: seq<Entry>, item: Item): (others: seq<Entry>)
    ensures |others| <= |entries|
  {
    if entries == [] then []
    else (if entries[0].item == item then [] else [entries[0]]) + Without(entries[1..], item)
  }

  /** `move_to_end` of the item, stored at the given time. */
  function MovedToEnd(entries: seq<Entry>, item: Item, stored: Time): seq<Entry> {
    Without(entries, item) + [Entry(item, stored)]
  }

  predicate IsDue(entries: seq<Entry>, item: Item, now: Time, limits: Limits) {
    limits.window == 0 || now - LastStored(entries, item) > limits.window
  }

  /** The entries behind a query. */
  function After(entries: seq<Entry>, item: Item, now: Time, limits: Limits): seq<Entry> {
    if IsDue(entries, item, now, limits) then
      var moved := MovedToEnd(entries, item, now);
      if |moved| > limits.maxItems then moved[1..] else moved
    else MovedToEnd(entries, item, LastStored(entries, item))
  }

  /** The cache: an ordered dictionary, the item asked last at its end. */
  class Cache {
    const limits: Limits
    var entries: seq<Entry>

    constructor (maxItems: nat, window: Time)
      ensures limits == Limits(maxItems, window) && entries == []
    {
      limits := Limits(maxItems, window);
      entries := [];
    }

    /** `requires_storing`. */
    method RequiresStoring(item: Item, now: Time) returns (required: bool)
      modifies this`entries
      ensures required == IsDue(old(entries), item, now, limits)
      ensures entries == After(old(entries), item, now, limits)
    {
      var lastStored := LastStored(entries, item);
      entries := MovedToEnd(entries, item, lastStored);
      if limits.window == 0 || now - lastStored > limits.window {
        entries := entries[..|entries| - 1] + [Entry(item, now)];
        if |entries| > limits.maxItems {
          entries := entries[1..];
        }
        return true;
      }
      return false;
    }
  }

  // --------------------------------------------------------------- whole histories

  datatype Query = Query(item: Item, now: Time)

  /** The entries behind a history of queries. */
  function Run(queries: seq<Query>, limits: Limits): seq<Entry> {
    if queries == [] then []
    else
      var last := queries[|queries| - 1];
      After(Run(queries[..|queries| - 1], limits), last.item, last.now, limits)
  }

  /** What the cache answered to a query. */
  predicate Answer(queries: seq<Query>, i: nat, limits: Limits)
    requires i < |queries|
  {
    IsDue(Run(queries[..i], limits), queries[i].item, queries[i].now, limits)
  }

  /** No more time than the window has passed since the epoch. */
  predicate IsEarly(query: Query, limits: Limits) {
    limits.window != 0 && query.now - EPOCH <= limits.window
  }

  /** The items that were asked for, each once, in the order in which they were asked for last. */
  function Recency(queries: seq<Query>): seq<Item> {
    if queries == [] then []
    else
      var last := queries[|queries| - 1].item;
      Dropped(Recency(queries[..|queries| - 1]), last) + [last]
  }

  function Dropped(items: seq<Item>, item: Item): (others: seq<Item>)
    ensures |others| <= |items|
  {
    if items == [] then []
    else (if items[0] == item then [] else [items[0]]) + Dropped(items[1..], item)
  }

  /** The most recent ones. */
  function Latest(items: seq<Item>, n: nat): seq<Item> {
    if |items| <= n then items else items[|items| - n..]
  }

  predicate Holds(queries: seq<Query>, item: Item, limits: Limits) {
    item in Items(Run(queries, limits))
  }

  /** The last query is for the item and was answered with true. */
  predicate IsTrueNow(queries: seq<Query>, item: Item, limits: Limits) {
    queries != [] && queries[|queries| - 1].item == item && Answer(queries, |queries| - 1, limits)
  }

  /** When the cache said last that the item needs to be stored, and kept it ever since; else the epoch. */
  function LastKept(queries: seq<Query>, item: Item, limits: Limits): Time {
    if queries == [] || !Holds(queries, item, limits) then EPOCH
    else if IsTrueNow(queries, item, limits) then queries[|queries| - 1].now
    else LastKept(queries[..|queries| - 1], item, limits)
  }

  /** When the cache said last that the item needs to be stored; the epoch if it never did. */
  function LastTrue(queries: seq<Query>, item: Item, limits: Limits): Time {
    if queries == [] then EPOCH
    else if IsTrueNow(queries, item, limits) then queries[|queries| - 1].now
    else LastTrue(queries[..|queries| - 1], item, limits)
  }

  lemma {:induction false} WithoutIsDropped(entries: seq<Entry>, item: Item)
    ensures Items(Without(entries, item)) == Dropped(Items(entries), item)
  {
    if entries != [] {
      WithoutIsDropped(entries[1..], item);
      assert Items(entries)[1..] == Items(entries[1..]);
      var rest := Without(entries[1..], item);
      assert Items([entries[0]] + rest) == [entries[0].item] + Items(rest);
    } else {
      assert Items(entries) == [];
    }
  }

  lemma {:induction false} DroppedDistinct(items: seq<Item>, item: Item)
    requires AreDistinct(items)
    ensures AreDistinct(Dropped(items, item)) && item !in Dropped(items, item)
    ensures forall other :: other in Dropped(items, item) <==> other in items && other != item
    ensures |Dropped(items, item)| == if item in items then |items| - 1 else |items|
    ensures item !in items ==> Dropped(items, item) == items
  {
    if items != [] {
      DroppedDistinct(items[1..], item);
      var rest := Dropped(items[1..], item);
      assert items == [items[0]] + items[1..];
      assert items[0] !in items[1..] && items[0] !in rest;
      assert Dropped(items, item) == if items[0] == item then rest else [items[0]] + rest;
    }
  }

  /** Dropping an item from the latest ones, or from the others. */
  lemma {:induction false} DroppedFromParts(a: seq<Item>, b: seq<Item>, item: Item)
    ensures Dropped(a + b, item) == Dropped(a, item) + Dropped(b, item)
  {
    if a == [] {
      assert a + b == b;
    } else {
      assert (a + b)[1..] == a[1..] + b;
      DroppedFromParts(a[1..], b, item);
    }
  }

  /** How the latest items change with a query. */
  lemma {:induction false} LatestNext(items: seq<Item>, item: Item, n: nat)
    requires AreDistinct(items)
    ensures var moved, kept := Dropped(items, item) + [item], Dropped(Latest(items, n), item) + [item];
            Latest(moved, n) == if |kept| > n then kept[1..] else kept
  {
    hide Dropped, AreDistinct, Latest;
    var k := if |items| <= n then 0 else |items| - n;
    var a, b := items[..k], items[k..];
    assert items == a + b && b == Latest(items, n) by { LatestIsEnd(items, n); }
    Parts(a, b, item);
    DroppedFromParts(a, b, item);
    DroppedDistinct(b, item);
    var kept := Dropped(b, item) + [item];
    assert Dropped(items, item) + [item] == Dropped(a, item) + kept;
    LatestIsEnd(kept, n);
    if k > 0 {
      LatestOfSuffix(Dropped(a, item), kept, n);
    } else {
      assert Dropped(a, item) + kept == kept by { NothingDropped(item); }
    }
  }

  lemma LatestIsEnd(items: seq<Item>, n: nat)
    ensures Latest(items, n) == items[if |items| <= n then 0 else |items| - n..]
  {
  }

  lemma NothingDropped(item: Item)
    ensures Dropped([], item) == []
  {
  }

  lemma Parts(a: seq<Item>, b: seq<Item>, item: Item)
    requires AreDistinct(a + b)
    ensures AreDistinct(b)
  {
    forall i, j | 0 <= i < j < |b| ensures b[i] != b[j] {
      assert b[i] == (a + b)[|a| + i] && b[j] == (a + b)[|a| + j];
    }
  }

  lemma LatestOfSuffix(a: seq<Item>, b: seq<Item>, n: nat)
    requires |b| >= n
    ensures Latest(a + b, n) == b[|b| - n..]
  {
  }

  lemma {:induction false} RecencyIsDistinct(queries: seq<Query>)
    ensures AreDistinct(Recency(queries))
  {
    if queries != [] {
      RecencyIsDistinct(queries[..|queries| - 1]);
      DroppedDistinct(Recency(queries[..|queries| - 1]), queries[|queries| - 1].item);
    }
  }

  /** The item was asked for by this query, and by none behind it. */
  predicate IsLastQuery(queries: seq<Query>, p: nat, item: Item) {
    p < |queries| && queries[p].item == item && forall k | p < k < |queries| :: queries[k].item != item
  }

  ghost predicate WasAsked(queries: seq<Query>, item: Item) {
    exists p: nat :: IsLastQuery(queries, p, item)
  }

  /** The last query for one item is before the last one for the other. */
  ghost predicate AskedBefore(queries: seq<Query>, a: Item, b: Item) {
    exists p: nat, q: nat :: p < q && IsLastQuery(queries, p, a) && IsLastQuery(queries, q, b)
  }

  lemma LastQueryStays(queries: seq<Query>, p: nat, other: Item)
    requires queries != [] && other != queries[|queries| - 1].item
    ensures IsLastQuery(queries, p, other) <==> IsLastQuery(queries[..|queries| - 1], p, other)
  {
    var before := queries[..|queries| - 1];
    assert forall k | 0 <= k < |before| :: before[k] == queries[k];
  }

  lemma AskedBeforeStays(queries: seq<Query>, a: Item, b: Item)
    requires queries != [] && a != queries[|queries| - 1].item
    requires b != queries[|queries| - 1].item ==> AskedBefore(queries[..|queries| - 1], a, b)
    requires WasAsked(queries[..|queries| - 1], a)
    ensures AskedBefore(queries, a, b)
  {
    hide IsLastQuery;
    var n := |queries| - 1;
    if b == queries[n].item {
      var p: nat :| IsLastQuery(queries[..n], p, a);
      LastQueryStays(queries, p, a);
      assert IsLastQuery(queries, n, b) && p < n by { LastIsLast(queries, p, a); }
    } else {
      var p: nat, q: nat :| p < q && IsLastQuery(queries[..n], p, a) && IsLastQuery(queries[..n], q, b);
      LastQueryStays(queries, p, a);
      LastQueryStays(queries, q, b);
    }
  }

  lemma LastIsLast(queries: seq<Query>, p: nat, a: Item)
    requires queries != []
    ensures IsLastQuery(queries, |queries| - 1, queries[|queries| - 1].item)
    ensures IsLastQuery(queries[..|queries| - 1], p, a) ==> p < |queries| - 1
  {
  }

  /** The items that were asked for are in the order of the last queries for them. */
  lemma {:induction false} RecencyIsByLastQuery(queries: seq<Query>)
    ensures forall item :: item in Recency(queries) <==> exists p: nat :: IsLastQuery(queries, p, item)
    ensures forall i, j | 0 <= i < j < |Recency(queries)| ::
              AskedBefore(queries, Recency(queries)[i], Recency(queries)[j])
  {
    hide IsLastQuery, AskedBefore, Dropped;
    if queries == [] {
      NeverAsked();
    } else {
      var n := |queries| - 1;
      var before, item := Recency(queries[..n]), queries[n].item;
      var dropped := Dropped(before, item);
      RecencyIsByLastQuery(queries[..n]);
      RecencyIsDistinct(queries[..n]);
      DroppedDistinct(before, item);
      DroppedInOrder(before, item);
      LastIsLast(queries, 0, item);
      forall p: nat, other | other != item
        ensures IsLastQuery(queries, p, other) <==> IsLastQuery(queries[..n], p, other)
      {
        LastQueryStays(queries, p, other);
      }
      forall i, j | 0 <= i < j < |dropped| + 1
        ensures AskedBefore(queries, (dropped + [item])[i], (dropped + [item])[j])
      {
        assert dropped[i] in dropped;
        if j < |dropped| {
          assert dropped[j] in dropped && ComesBefore(before, dropped[i], dropped[j]);
        }
        AskedBeforeStays(queries, dropped[i], (dropped + [item])[j]);
      }
    }
  }

  lemma NeverAsked()
    ensures forall p: nat, item :: !IsLastQuery([], p, item)
  {
  }

  /** One item comes before another one. */
  predicate ComesBefore(items: seq<Item>, a: Item, b: Item) {
    exists k, l :: 0 <= k < l < |items| && items[k] == a && items[l] == b
  }

  lemma {:induction false} DroppedInOrder(items: seq<Item>, item: Item)
    ensures forall i, j | 0 <= i < j < |Dropped(items, item)| ::
              ComesBefore(items, Dropped(items, item)[i], Dropped(items, item)[j])
    ensures forall i | 0 <= i < |Dropped(items, item)| :: Dropped(items, item)[i] in items
  {
    if items != [] {
      var rest := Dropped(items[1..], item);
      DroppedInOrder(items[1..], item);
      var off := if items[0] == item then 0 else 1;
      assert Dropped(items, item) == items[..off] + rest;
      forall i, j | 0 <= i < j < |Dropped(items, item)|
        ensures ComesBefore(items, Dropped(items, item)[i], Dropped(items, item)[j])
      {
        if i >= off {
          BeforeInLonger(items, rest[i - off], rest[j - off]);
        } else {
          assert rest[j - off] in items[1..];
          var l :| 0 <= l < |items[1..]| && items[1..][l] == rest[j - off];
          assert items[0] == Dropped(items, item)[i] && items[l + 1] == Dropped(items, item)[j];
        }
      }
    }
  }

  lemma BeforeInLonger(items: seq<Item>, a: Item, b: Item)
    requires items != [] && ComesBefore(items[1..], a, b)
    ensures ComesBefore(items, a, b)
  {
    var k, l :| 0 <= k < l < |items[1..]| && items[1..][k] == a && items[1..][l] == b;
    assert items[k + 1] == a && items[l + 1] == b;
  }

  lemma {:induction false} LastStoredOfUnknown(entries: seq<Entry>, item: Item)
    requires item !in Items(entries)
    ensures LastStored(entries, item) == EPOCH
  {
    if entries != [] {
      assert Items(entries)[0] == entries[0].item;
      forall i | 0 <= i < |entries[1..]| ensures entries[1..][i].item != item {
        assert entries[1..][i].item == Items(entries)[i + 1];
      }
      LastStoredOfUnknown(entries[1..], item);
    }
  }

  lemma {:induction false} LastStoredOfOther(entries: seq<Entry>, item: Item, moved: Item, stored: Time)
    ensures LastStored(MovedToEnd(entries, moved, stored), item)
         == if item == moved then stored else LastStored(entries, item)
  {
    if entries != [] {
      LastStoredOfOther(entries[1..], item, moved, stored);
      var rest := MovedToEnd(entries[1..], moved, stored);
      if entries[0].item != moved {
        assert MovedToEnd(entries, moved, stored) == [entries[0]] + rest && ([entries[0]] + rest)[1..] == rest;
      } else {
        assert MovedToEnd(entries, moved, stored) == rest;
      }
    }
  }

  /** Taking away the first entry. */
  lemma LastStoredOfRest(entries: seq<Entry>, item: Item)
    requires entries != [] && AreDistinct(Items(entries)) && item in Items(entries[1..])
    ensures LastStored(entries[1..], item) == LastStored(entries, item)
  {
    var i :| 0 <= i < |entries[1..]| && Items(entries[1..])[i] == item;
    assert Items(entries)[i + 1] == item && Items(entries)[0] != item;
  }

  /**
   * The cache holds the items asked for most recently, in order, and with each the time when it was
   * last said to need storing, if it was kept since.
   */
  lemma {:induction false} CacheIsRecent(queries: seq<Query>, limits: Limits)
    ensures Items(Run(queries, limits)) == Latest(Recency(queries), |Run(queries, limits)|)
    ensures forall item :: LastStored(Run(queries, limits), item) == LastKept(queries, item, limits)
  {
    hide After, LastStored, Items, Dropped, IsDue, Without, Latest;
    if queries == [] {
      NothingStored();
    } else {
      var n := |queries| - 1;
      var before, item, now := Run(queries[..n], limits), queries[n].item, queries[n].now;
      CacheIsRecent(queries[..n], limits);
      RecencyIsDistinct(queries[..n]);
      LatestIsDistinct(Recency(queries[..n]), |before|);
      StepKeepsOrder(Recency(queries[..n]), before, item, now, limits);
      forall other ensures LastStored(Run(queries, limits), other) == LastKept(queries, other, limits) {
        if Holds(queries, other, limits) {
          StepStores(before, item, now, limits, other);
        } else {
          LastStoredOfUnknown(Run(queries, limits), other);
        }
      }
    }
  }

  lemma NothingStored()
    ensures Items([]) == [] && Latest([], 0) == [] && forall item :: LastStored([], item) == EPOCH
  {
  }

  lemma LatestIsDistinct(items: seq<Item>, n: nat)
    requires AreDistinct(items)
    ensures AreDistinct(Latest(items, n)) && |Latest(items, n)| == if |items| <= n then |items| else n
  {
  }

  /** The items held change to those held before with the item moved to the end, less one perhaps. */
  lemma {:induction false} StepKeepsOrder(
    recency: seq<Item>, before: seq<Entry>, item: Item, now: Time, limits: Limits)
    requires AreDistinct(recency) && Items(before) == Latest(recency, |before|)
    ensures var after := After(before, item, now, limits);
            Items(after) == Latest(Dropped(recency, item) + [item], |after|)
  {
    hide Dropped, AreDistinct, After, IsDue;
    var older := recency[..|recency| - |before|];
    assert recency == older + Items(before);
    StepKeepsItems(before, item, now, limits);
    DroppedFromParts(older, Items(before), item);
    var kept := Dropped(Items(before), item) + [item];
    assert Dropped(recency, item) + [item] == Dropped(older, item) + kept;
    LatestOfSuffix(Dropped(older, item), kept, |After(before, item, now, limits)|);
  }

  /** One item leaves if there are too many, but only after a true answer. */
  lemma StepKeepsItems(before: seq<Entry>, item: Item, now: Time, limits: Limits)
    ensures var kept := Dropped(Items(before), item) + [item];
            Items(After(before, item, now, limits))
            == if IsDue(before, item, now, limits) && |kept| > limits.maxItems then kept[1..] else kept
  {
    hide Dropped;
    var stored := if IsDue(before, item, now, limits) then now else LastStored(before, item);
    var moved := MovedToEnd(before, item, stored);
    MovedItems(before, item, stored);
    assert Items(moved[1..]) == Items(moved)[1..];
  }

  lemma StepStores(before: seq<Entry>, item: Item, now: Time, limits: Limits, other: Item)
    requires AreDistinct(Items(before)) && other in Items(After(before, item, now, limits))
    ensures LastStored(After(before, item, now, limits), other)
         == if other == item && IsDue(before, item, now, limits) then now else LastStored(before, other)
  {
    var stored := if IsDue(before, item, now, limits) then now else LastStored(before, item);
    var moved := MovedToEnd(before, item, stored);
    MovedItems(before, item, stored);
    DroppedDistinct(Items(before), item);
    LastStoredOfOther(before, other, item, stored);
    assert Items(moved[1..]) == Items(moved)[1..];
    if After(before, item, now, limits) == moved[1..] && other in Items(moved[1..]) {
      LastStoredOfRest(moved, other);
    }
  }

  lemma MovedItems(entries: seq<Entry>, item: Item, stored: Time)
    ensures Items(MovedToEnd(entries, item, stored)) == Dropped(Items(entries), item) + [item]
  {
    WithoutIsDropped(entries, item);
    assert Items(Without(entries, item) + [Entry(item, stored)]) == Items(Without(entries, item)) + [item];
  }

  // ------------------------------------------------------------------------ the size

  /** The cache holds as many of the most recent items as it may. */
  predicate HoldsLatest(queries: seq<Query>, limits: Limits) {
    Items(Run(queries, limits)) == Latest(Recency(queries), limits.maxItems)
  }

  /** The query is not early, or for an item that is there, or there is room for one item more. */
  predicate FindsRoom(queries: seq<Query>, i: nat, limits: Limits)
    requires i < |queries|
  {
    || !IsEarly(queries[i], limits)
    || queries[i].item in Latest(Recency(queries[..i]), limits.maxItems)
    || |Recency(queries[..i])| < limits.maxItems
  }

  lemma RoomStep(queries: seq<Query>, limits: Limits)
    requires queries != [] && HoldsLatest(queries[..|queries| - 1], limits)
    ensures HoldsLatest(queries, limits) <==> FindsRoom(queries, |queries| - 1, limits)
  {
    hide After, LastStored, Items, Dropped, AreDistinct, Latest;
    var n := |queries| - 1;
    var before, item := Run(queries[..n], limits), queries[n].item;
    var recency := Recency(queries[..n]);
    RecencyIsDistinct(queries[..n]);
    LatestIsDistinct(recency, limits.maxItems);
    LatestNext(recency, item, limits.maxItems);
    StepKeepsItems(before, item, queries[n].now, limits);
    DroppedDistinct(Items(before), item);
    if item !in Items(before) {
      LastStoredOfUnknown(before, item);
    }
  }

  /** The cache never outgrows `max_items` if and only if every query finds room. */
  lemma {:induction false} SizeIsKept(queries: seq<Query>, limits: Limits)
    ensures (forall n | 0 <= n <= |queries| :: HoldsLatest(queries[..n], limits))
       <==> forall i | 0 <= i < |queries| :: FindsRoom(queries, i, limits)
  {
    hide HoldsLatest, FindsRoom;
    assert queries[..|queries|] == queries;
    if queries == [] {
      assert HoldsLatest([], limits) by { NothingHeld(limits); }
    } else {
      var shorter := queries[..|queries| - 1];
      SizeIsKept(shorter, limits);
      forall n | 0 <= n <= |shorter| ensures shorter[..n] == queries[..n] {
      }
      forall i | 0 <= i < |shorter| ensures FindsRoom(shorter, i, limits) == FindsRoom(queries, i, limits) {
        SameRoom(queries, i, limits);
      }
      if HoldsLatest(shorter, limits) {
        RoomStep(queries, limits);
      }
      assert shorter == queries[..|shorter|] && shorter[..|shorter|] == shorter;
    }
  }

  /** Early queries for two items, with room for one: nothing is said to need storing, and both are kept. */
  lemma EarlyCacheOutgrows()
    ensures var queries, limits := [Query("a", 5), Query("b", 5)], Limits(1, 10);
            && Items(Run(queries, limits)) == ["a", "b"]
            && !Answer(queries, 0, limits) && !Answer(queries, 1, limits)
            && FindsRoom(queries, 0, limits) && !FindsRoom(queries, 1, limits)
  {
    var queries, limits := [Query("a", 5), Query("b", 5)], Limits(1, 10);
    assert queries[..1] == [Query("a", 5)] && queries[..1][..0] == [];
    assert queries[..0] == [];
    assert Run(queries[..0], limits) == [];
    assert Run(queries[..1], limits) == [Entry("a", EPOCH)];
    assert Recency(queries[..1]) == ["a"];
    var a := Entry("a", EPOCH);
    assert [a][1..] == [];
    assert LastStored([a], "b") == LastStored([], "b") == EPOCH && Without([a], "b") == [a];
    assert Run(queries, limits) == [a, Entry("b", EPOCH)];
  }

  lemma NothingHeld(limits: Limits)
    ensures HoldsLatest([], limits)
  {
  }

  lemma SameRoom(queries: seq<Query>, i: nat, limits: Limits)
    requires i + 1 < |queries|
    ensures FindsRoom(queries[..|queries| - 1], i, limits) == FindsRoom(queries, i, limits)
  {
    assert queries[..|queries| - 1][..i] == queries[..i];
  }

  // --------------------------------------------------------------------- the answers

  /**
   * The whole behaviour: an item needs storing unless it was said to need it within the window and
   * was kept since, where an item that is not kept counts as stored at the epoch.
   */
  lemma {:induction false} AnswersExactly(queries: seq<Query>, i: nat, limits: Limits)
    requires i < |queries|
    ensures Answer(queries, i, limits)
        <==> || limits.window == 0
             || queries[i].now - LastKept(queries[..i], queries[i].item, limits) > limits.window
  {
    hide Recency, Latest, Run;
    CacheIsRecent(queries[..i], limits);
  }

  /** An item that was never asked for needs storing as soon as the window has passed since 1970. */
  lemma FirstAnswer(query: Query, limits: Limits)
    ensures Answer([query], 0, limits) <==> limits.window == 0 || query.now > limits.window
  {
    assert [query][..0] == [];
  }

  /** The query was for the item, was answered with true, and the item was kept from then on. */
  predicate IsKeptTrue(queries: seq<Query>, i: nat, item: Item, limits: Limits)
    requires i < |queries|
  {
    && queries[i].item == item && Answer(queries, i, limits)
    && forall k | i < k <= |queries| :: Holds(queries[..k], item, limits)
  }

  /** What `LastKept` means. */
  lemma {:induction false} LastKeptIsKept(queries: seq<Query>, item: Item, limits: Limits)
    ensures LastKept(queries, item, limits) == EPOCH
         || exists i :: 0 <= i < |queries| && IsKeptTrue(queries, i, item, limits)
                        && queries[i].now == LastKept(queries, item, limits)
  {
    hide Answer, Holds;
    if queries != [] && LastKept(queries, item, limits) != EPOCH {
      var n := |queries| - 1;
      assert queries[..|queries|] == queries;
      if IsTrueNow(queries, item, limits) {
        assert IsKeptTrue(queries, n, item, limits);
      } else {
        LastKeptIsKept(queries[..n], item, limits);
        var i :| 0 <= i < n && IsKeptTrue(queries[..n], i, item, limits)
                 && queries[..n][i].now == LastKept(queries[..n], item, limits);
        SameAnswer(queries, i, n, limits);
        forall k | i < k <= |queries| ensures Holds(queries[..k], item, limits) {
          assert k <= n ==> queries[..n][..k] == queries[..k];
        }
        assert IsKeptTrue(queries, i, item, limits);
      }
    }
  }

  lemma SameAnswer(queries: seq<Query>, i: nat, j: nat, limits: Limits)
    requires i < j <= |queries|
    ensures Answer(queries[..j], i, limits) == Answer(queries, i, limits) && queries[..j][i] == queries[i]
  {
    assert queries[..j][..i] == queries[..i];
  }

  ghost predicate IsClock(queries: seq<Query>) {
    forall i, j | 0 <= i < j < |queries| :: queries[i].now <= queries[j].now
  }

  /** The item was kept after the query, or at least the clock did not go back and the item is there. */
  ghost predicate IsThere(queries: seq<Query>, i: nat, item: Item, limits: Limits)
    requires i < |queries|
  {
    Holds(queries, item, limits)
    && (IsClock(queries) || forall k | i < k <= |queries| :: Holds(queries[..k], item, limits))
  }

  lemma {:induction false} LastKeptIsLater(queries: seq<Query>, item: Item, limits: Limits)
    requires limits.window > 0
    ensures LastKept(queries, item, limits) >= EPOCH
  {
    hide Answer, Holds;
    if queries != [] {
      var n := |queries| - 1;
      LastKeptIsLater(queries[..n], item, limits);
      AnswersExactly(queries, n, limits);
    }
  }

  /** No true answer for an item that is there is later than the last one. */
  lemma {:induction false} LastKeptIsLast(queries: seq<Query>, i: nat, item: Item, limits: Limits)
    requires limits.window > 0 && i < |queries| && queries[i].item == item && Answer(queries, i, limits)
    requires IsThere(queries, i, item, limits)
    ensures LastKept(queries, item, limits) >= queries[i].now
    decreases |queries|
  {
    hide Answer, Holds;
    var n := |queries| - 1;
    if i < n {
      SameAnswer(queries, i, n, limits);
      AnswersExactly(queries, n, limits);
      if Holds(queries[..n], item, limits) {
        forall k | i < k <= n ensures queries[..n][..k] == queries[..k] {
        }
        LastKeptIsLast(queries[..n], i, item, limits);
      } else {
        StaysAway(queries, item, limits);
        AnswersExactly(queries, i, limits);
        LastKeptIsLater(queries[..i], item, limits);
      }
    }
  }

  /** Who was not there and is now was asked for. */
  lemma StaysAway(queries: seq<Query>, item: Item, limits: Limits)
    requires queries != [] && Holds(queries, item, limits)
    requires !Holds(queries[..|queries| - 1], item, limits)
    ensures queries[|queries| - 1].item == item
    ensures LastKept(queries[..|queries| - 1], item, limits) == EPOCH
  {
    hide Dropped, Items, After;
    var n := |queries| - 1;
    StepKeepsItems(Run(queries[..n], limits), queries[n].item, queries[n].now, limits);
    OthersDropped(Items(Run(queries[..n], limits)), queries[n].item);
  }

  lemma {:induction false} OthersDropped(items: seq<Item>, item: Item)
    ensures forall other <- Dropped(items, item) :: other in items
  {
    if items != [] {
      OthersDropped(items[1..], item);
    }
  }

  /** Two true answers for an item that is still there lie more than the window apart. */
  lemma TrueAnswersAreApart(queries: seq<Query>, i: nat, j: nat, limits: Limits)
    requires i < j < |queries| && limits.window > 0 && queries[i].item == queries[j].item
    requires IsThere(queries[..j], i, queries[j].item, limits)
    requires Answer(queries, i, limits) && Answer(queries, j, limits)
    ensures queries[j].now - queries[i].now > limits.window
  {
    hide Answer, Holds, LastKept;
    SameAnswer(queries, i, j, limits);
    AnswersExactly(queries, j, limits);
    LastKeptIsLast(queries[..j], i, queries[j].item, limits);
  }

  /** An item is only said not to need storing early, or within the window of a true answer after which it was kept. */
  lemma FalseAnswersAreClose(queries: seq<Query>, j: nat, limits: Limits)
    requires j < |queries| && !Answer(queries, j, limits)
    ensures IsEarly(queries[j], limits)
         || exists i :: 0 <= i < j && IsKeptTrue(queries[..j], i, queries[j].item, limits)
                        && queries[j].now - queries[i].now <= limits.window
  {
    hide Answer, Holds, LastKept, IsKeptTrue;
    AnswersExactly(queries, j, limits);
    LastKeptIsKept(queries[..j], queries[j].item, limits);
  }

  /** While the clock does not go back, true answers are not forgotten with an eviction: the next one is true. */
  lemma {:induction false} KeptIsTrue(queries: seq<Query>, item: Item, limits: Limits)
    requires IsClock(queries)
    ensures Holds(queries, item, limits) ==> LastKept(queries, item, limits) == LastTrue(queries, item, limits)
  {
    hide Answer, Holds;
    if queries != [] && Holds(queries, item, limits) && !IsTrueNow(queries, item, limits) {
      var n := |queries| - 1;
      KeptIsTrue(queries[..n], item, limits);
      if !Holds(queries[..n], item, limits) {
        StaysAway(queries, item, limits);
        AnswersExactly(queries, n, limits);
        EarlyIsFalse(queries[..n], queries[n].now, item, limits);
      }
    }
  }

  /** Nothing is said to need storing while no more than the window has passed since the epoch. */
  lemma {:induction false} EarlyIsFalse(queries: seq<Query>, now: Time, item: Item, limits: Limits)
    requires IsClock(queries) && limits.window != 0 && now - EPOCH <= limits.window
    requires forall query <- queries :: query.now <= now
    ensures LastTrue(queries, item, limits) == LastKept(queries, item, limits) == EPOCH
  {
    hide Answer, Holds;
    if queries != [] {
      var n := |queries| - 1;
      EarlyIsFalse(queries[..n], now, item, limits);
      AnswersExactly(queries, n, limits);
      assert queries[n] in queries;
    }
  }

  /** The answers while the clock does not go back. */
  lemma {:induction false} AnswersOnClock(queries: seq<Query>, i: nat, limits: Limits)
    requires i < |queries| && IsClock(queries)
    ensures Answer(queries, i, limits)
        <==> || limits.window == 0
             || (!IsEarly(queries[i], limits) && !Holds(queries[..i], queries[i].item, limits))
             || queries[i].now - LastTrue(queries[..i], queries[i].item, limits) > limits.window
  {
    hide Answer, Holds, LastTrue;
    var item := queries[i].item;
    AnswersExactly(queries, i, limits);
    KeptIsTrue(queries[..i], item, limits);
    if !Holds(queries[..i], item, limits) && IsEarly(queries[i], limits) {
      EarlyIsFalse(queries[..i], queries[i].now, item, limits);
    }
  }
}
