/** Lists that are edited in place: objects that can be told apart even when they hold the same items. */
module MutableLists {

  class MutableList<T(==)> {
    var items: seq<T>

    constructor (items: seq<T>)
      ensures this.items == items
    {
      this.items := items;
    }

    /** `remove`: takes out the first item that equals `item`. */
    method Remove(item: T)
      requires item in items
      modifies this
      ensures items == RemoveFirst(old(items), item)
    {
      var k := 0;
      while items[k] != item
        invariant k < |items| && item !in items[..k]
        decreases |items| - k
      {
        k := k + 1;
      }
      RemoveFirstAt(items, k, item);
      items := items[..k] + items[k + 1..];
    }

    /** `insert(0, item)`. */
    method PushFront(item: T)
      modifies this
      ensures items == [item] + old(items)
    {
      items := [item] + items;
    }
  }

  function RemoveFirst<T(==)>(items: seq<T>, item: T): seq<T> {
    if items == [] then []
    else if items[0] == item then items[1..]
    else [items[0]] + RemoveFirst(items[1..], item)
  }

  lemma {:induction false} RemoveFirstAt<T>(items: seq<T>, k: nat, item: T)
    requires k < |items| && items[k] == item && item !in items[..k]
    ensures RemoveFirst(items, item) == items[..k] + items[k + 1..]
  {
    if k > 0 {
      assert items[0] == items[..k][0];
      assert items[1..][..k - 1] == items[..k][1..];
      RemoveFirstAt(items[1..], k - 1, item);
    }
  }

  /** No list object occurs twice, so that editing one leaves the others alone. */
  ghost predicate AreDistinct<T>(lists: seq<MutableList<T>>) {
    forall i, j | 0 <= i < j < |lists| :: lists[i] != lists[j]
  }

  ghost function Contents<T>(lists: seq<MutableList<T>>): (contents: seq<seq<T>>)
    reads set list | list in lists
    ensures |contents| == |lists| && forall i | 0 <= i < |lists| :: contents[i] == lists[i].items
  {
    seq(|lists|, i requires 0 <= i < |lists| reads lists => lists[i].items)
  }
}
