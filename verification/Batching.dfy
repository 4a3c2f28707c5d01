/** Grouping events into batches by their path. */
module Batching {
  import opened Common

  // ------------------------------------------------------------------ the program

  /** `partition(",")`: what is in front of the first comma, and what is behind it. */
  function PathOf(event: string): string {
    if event == "" || event[0] == ',' then "" else [event[0]] + PathOf(event[1..])
  }

  function MessageOf(event: string): string {
    if event == "" then "" else if event[0] == ',' then event[1..] else MessageOf(event[1..])
  }

  /** The path is what is in front of the first comma, the message what is behind it. */
  lemma {:induction false} EventIsSplit(path: string, message: string)
    requires ',' !in path
    ensures PathOf(path + "," + message) == path && MessageOf(path + "," + message) == message
    ensures PathOf(path) == path && MessageOf(path) == ""
  {
    if path == "" {
      assert "" + "," + message == "," + message && ("," + message)[1..] == message;
    } else {
      assert path[0] in path && forall c <- path[1..] :: c in path;
      EventIsSplit(path[1..], message);
      assert (path + "," + message)[1..] == path[1..] + "," + message;
      assert [path[0]] + path[1..] == path;
    }
  }

  function Semicolons(text: string): nat {
    if text == "" then 0 else (if text[0] == ';' then 1 else 0) + Semicolons(text[1..])
  }

  /** A path and the text of its unfinished batch. */
  datatype Pending = Pending(path: string, text: string)

  /** Where the path is in the mapping, or else its length. */
  function IndexOf(mapping: seq<Pending>, path: string): (i: nat)
    ensures i <= |mapping| && (i < |mapping| ==> mapping[i].path == path)
    ensures forall j | 0 <= j < i :: mapping[j].path != path
  {
    if mapping == [] || mapping[0].path == path then 0 else 1 + IndexOf(mapping[1..], path)
  }

  /** The mapping behind another event, kept in the order in which the paths came. */
  function Enter(mapping: seq<Pending>, event: string): (entered: seq<Pending>)
    ensures IndexOf(mapping, PathOf(event)) < |entered|
    ensures entered[IndexOf(mapping, PathOf(event))].path == PathOf(event)
  {
    var i := IndexOf(mapping, PathOf(event));
    if i < |mapping| then
      mapping[i := Pending(PathOf(event), mapping[i].text + ";" + MessageOf(event))]
    else mapping + [Pending(PathOf(event), event)]
  }

  function RemoveAt<T>(items: seq<T>, i: nat): (others: seq<T>)
    requires i < |items|
    ensures |others| == |items| - 1
  {
    items[..i] + items[i + 1..]
  }

  function Texts(mapping: seq<Pending>): (texts: seq<string>)
    ensures |texts| == |mapping| && forall i | 0 <= i < |texts| :: texts[i] == mapping[i].text
  {
    seq(|mapping|, i requires 0 <= i < |mapping| => mapping[i].text)
  }

  /** The batches that are still to come, given the events that are still to come. */
  function ToCome(mapping: seq<Pending>, events: seq<string>, batchSize: nat): seq<string>
    decreases events
  {
    if events == [] then Texts(mapping)
    else if batchSize == 1 then [events[0]] + ToCome(mapping, events[1..], batchSize)
    else
      var i, entered := IndexOf(mapping, PathOf(events[0])), Enter(mapping, events[0]);
      if Semicolons(entered[i].text) + 1 == batchSize then
        [entered[i].text] + ToCome(RemoveAt(entered, i), events[1..], batchSize)
      else ToCome(entered, events[1..], batchSize)
  }

  /** The next events of the input, which is cycled. */
  function Cycled(input: seq<string>, position: nat, n: nat): (events: seq<string>)
    requires input != []
    ensures |events| == n
  {
    seq(n, i requires 0 <= i < n => input[(position + i) % |input|])
  }

  lemma CycledNext(input: seq<string>, position: nat, n: nat)
    requires input != [] && n > 0
    ensures Cycled(input, position, n)[0] == input[position % |input|]
    ensures Cycled(input, position, n)[1..] == Cycled(input, position + 1, n - 1)
  {
  }

  lemma UnfoldToCome(mapping: seq<Pending>, events: seq<string>, batchSize: nat)
    ensures events == [] ==> ToCome(mapping, events, batchSize) == Texts(mapping)
    ensures events != [] ==>
              var i, entered := IndexOf(mapping, PathOf(events[0])), Enter(mapping, events[0]);
              ToCome(mapping, events, batchSize)
              == if batchSize == 1 then [events[0]] + ToCome(mapping, events[1..], batchSize)
                 else if Semicolons(entered[i].text) + 1 == batchSize then
                   [entered[i].text] + ToCome(RemoveAt(entered, i), events[1..], batchSize)
                 else ToCome(entered, events[1..], batchSize)
  {
    hide Enter, Semicolons, PathOf;
  }

  datatype Stop = BatchSizeTooSmall | NoMoreBatches

  class Batcher {
    const input: seq<string>
    const batchSize: int
    var position: nat
    var eventCount: nat
    var mapping: seq<Pending>

    constructor (input: seq<string>, batchSize: int, events: nat)
      ensures this.input == input && this.batchSize == batchSize
      ensures position == 0 && eventCount == events && mapping == []
    {
      this.input := input;
      this.batchSize := batchSize;
      position, eventCount, mapping := 0, events, [];
    }

    /** The batches that `__next__` will give. */
    ghost function Rest(): seq<string>
      requires batchSize >= 1
      reads this
    {
      if input == [] then [] else ToCome(mapping, Cycled(input, position, eventCount), batchSize)
    }

    /** `__next__`: runs a new generator up to its first yield, and leaves it there. */
    method Next() returns (result: Result<string, Stop>)
      modifies this
      ensures batchSize < 1 ==> result == Err(BatchSizeTooSmall)
      ensures batchSize >= 1 ==>
                if old(Rest()) == [] then result == Err(NoMoreBatches) && Rest() == []
                else result == Ok(old(Rest())[0] + "\n") && Rest() == old(Rest())[1..]
    {
      if batchSize < 1 {
        return Err(BatchSizeTooSmall);
      }
      if input == [] {
        return Err(NoMoreBatches);
      }
      result := NextBatch();
    }

    /** The loop over the events. */
    method NextBatch() returns (result: Result<string, Stop>)
      requires batchSize >= 1 && input != []
      modifies this
      ensures var before := ToCome(old(mapping), Cycled(input, old(position), old(eventCount)), batchSize);
              var after := ToCome(mapping, Cycled(input, position, eventCount), batchSize);
              if before == [] then result == Err(NoMoreBatches) && after == []
              else result == Ok(before[0] + "\n") && after == before[1..]
    {
      hide Enter, ToCome, Cycled, Semicolons, PathOf, Texts, RemoveAt;
      while eventCount > 0
        invariant ToCome(mapping, Cycled(input, position, eventCount), batchSize)
               == ToCome(old(mapping), Cycled(input, old(position), old(eventCount)), batchSize)
        decreases eventCount
      {
        UnfoldToCome(mapping, Cycled(input, position, eventCount), batchSize);
        CycledNext(input, position, eventCount);
        var event := input[position % |input|];
        position, eventCount := position + 1, eventCount - 1;
        if batchSize == 1 {
          return Ok(event + "\n");
        }
        var i := IndexOf(mapping, PathOf(event));
        mapping := Enter(mapping, event);
        if Semicolons(mapping[i].text) + 1 == batchSize {
          var message := mapping[i].text;
          mapping := RemoveAt(mapping, i);
          return Ok(message + "\n");
        }
      }
      result := FlushNext();
    }

    /** One more event is taken from the input when none is left to batch. */
    method FlushNext() returns (result: Result<string, Stop>)
      requires batchSize >= 1 && input != [] && eventCount == 0
      modifies this`position, this`mapping
      ensures var before := ToCome(old(mapping), Cycled(input, old(position), 0), batchSize);
              var after := ToCome(mapping, Cycled(input, position, 0), batchSize);
              if before == [] then result == Err(NoMoreBatches) && after == []
              else result == Ok(before[0] + "\n") && after == before[1..]
    {
      hide Enter, ToCome, Semicolons, PathOf;
      UnfoldToCome(mapping, Cycled(input, position, 0), batchSize);
      position := position + 1;
      if mapping == [] {
        UnfoldToCome(mapping, Cycled(input, position, 0), batchSize);
        return Err(NoMoreBatches);
      }
      var message := mapping[0].text;
      assert Texts(mapping)[1..] == Texts(mapping[1..]);
      mapping := mapping[1..];
      UnfoldToCome(mapping, Cycled(input, position, 0), batchSize);
      return Ok(message + "\n");
    }
  }

  function Lines(texts: seq<string>): (lines: seq<string>)
    ensures |lines| == |texts| && forall i | 0 <= i < |lines| :: lines[i] == texts[i] + "\n"
  {
    seq(|texts|, i requires 0 <= i < |texts| => texts[i] + "\n")
  }

  /** Iterates to exhaustion. */
  method AllBatches(input: seq<string>, batchSize: int, events: nat) returns (batches: seq<string>)
    requires batchSize >= 1
    ensures batches == Lines(if input == [] then [] else ToCome([], Cycled(input, 0, events), batchSize))
  {
    hide ToCome, Cycled;
    var batcher := new Batcher(input, batchSize, events);
    ghost var all := batcher.Rest();
    batches := [];
    while true
      invariant fresh(batcher) && batcher.batchSize == batchSize
      invariant |batches| <= |all| && batcher.Rest() == all[|batches|..]
      invariant batches == Lines(all[..|batches|])
      decreases |all| - |batches|
    {
      var next := batcher.Next();
      if next.Err? {
        assert all[..|batches|] == all;
        return;
      }
      batches := batches + [next.value];
    }
  }

  // ------------------------------------------------------- the batches as groups of events

  /** Events of one path, in order. */
  type Group = seq<string>

  function GroupIndex(groups: seq<Group>, path: string): (i: nat)
    ensures i <= |groups| && (i < |groups| ==> groups[i] != [] && PathOf(groups[i][0]) == path)
    ensures forall j | 0 <= j < i :: groups[j] == [] || PathOf(groups[j][0]) != path
  {
    if groups == [] || (groups[0] != [] && PathOf(groups[0][0]) == path) then 0
    else 1 + GroupIndex(groups[1..], path)
  }

  function AddTo(groups: seq<Group>, event: string): (added: seq<Group>)
    ensures GroupIndex(groups, PathOf(event)) < |added|
  {
    var i := GroupIndex(groups, PathOf(event));
    if i < |groups| then groups[i := groups[i] + [event]] else groups + [[event]]
  }

  /** The text of a batch: the first event, and the messages of the others. */
  function TextOf(group: Group): string {
    if group == [] then ""
    else if |group| == 1 then group[0]
    else TextOf(group[..|group| - 1]) + ";" + MessageOf(group[|group| - 1])
  }

  function Joined(messages: seq<string>): string {
    if messages == [] then ""
    else if |messages| == 1 then messages[0]
    else Joined(messages[..|messages| - 1]) + ";" + messages[|messages| - 1]
  }

  /** A batch has its path once, and then all messages with semicolons between them. */
  lemma {:induction false} TextIsJoined(path: string, messages: seq<string>, group: Group)
    requires ',' !in path && |group| == |messages| > 0
    requires forall i | 0 <= i < |group| :: group[i] == path + "," + messages[i]
    ensures TextOf(group) == path + "," + Joined(messages)
  {
    var n := |group| - 1;
    EventIsSplit(path, messages[n]);
    if n > 0 {
      TextIsJoined(path, messages[..n], group[..n]);
      assert path + "," + Joined(messages[..n]) + ";" + messages[n]
          == path + "," + (Joined(messages[..n]) + ";" + messages[n]);
    }
  }

  /** `_batch_size_reached`, and what is given out at once. */
  predicate IsReached(group: Group, size: nat) {
    size == 1 || Semicolons(TextOf(group)) + 1 == size
  }

  /** The groups whose texts are given out, of the pending ones and the events to come. */
  function Given(groups: seq<Group>, events: seq<string>, size: nat): seq<Group>
    decreases events
  {
    if events == [] then groups
    else
      var i, added := GroupIndex(groups, PathOf(events[0])), AddTo(groups, events[0]);
      if IsReached(added[i], size) then [added[i]] + Given(RemoveAt(added, i), events[1..], size)
      else Given(added, events[1..], size)
  }

  lemma UnfoldGiven(groups: seq<Group>, events: seq<string>, size: nat)
    ensures events == [] ==> Given(groups, events, size) == groups
    ensures events != [] ==>
              var i, added := GroupIndex(groups, PathOf(events[0])), AddTo(groups, events[0]);
              Given(groups, events, size)
              == if IsReached(added[i], size) then [added[i]] + Given(RemoveAt(added, i), events[1..], size)
                 else Given(added, events[1..], size)
  {
    hide AddTo, PathOf, IsReached;
  }

  /** The mapping holds the texts of the groups. */
  ghost predicate Holds(mapping: seq<Pending>, groups: seq<Group>) {
    && |mapping| == |groups|
    && forall i | 0 <= i < |groups| ::
         groups[i] != [] && mapping[i] == Pending(PathOf(groups[i][0]), TextOf(groups[i]))
  }

  lemma {:induction false} SameIndex(mapping: seq<Pending>, groups: seq<Group>, path: string)
    requires Holds(mapping, groups)
    ensures IndexOf(mapping, path) == GroupIndex(groups, path)
  {
    if groups != [] {
      SameIndex(mapping[1..], groups[1..], path);
    }
  }

  lemma EnterHolds(mapping: seq<Pending>, groups: seq<Group>, event: string)
    requires Holds(mapping, groups)
    ensures Holds(Enter(mapping, event), AddTo(groups, event))
    ensures IndexOf(mapping, PathOf(event)) == GroupIndex(groups, PathOf(event))
  {
    hide PathOf, MessageOf;
    SameIndex(mapping, groups, PathOf(event));
    var i := GroupIndex(groups, PathOf(event));
    if i < |groups| {
      assert (groups[i] + [event])[..|groups[i]|] == groups[i];
    }
  }

  /** What the program gives out are the texts of the groups. */
  lemma {:induction false} BatchesAreTexts(mapping: seq<Pending>, groups: seq<Group>, events: seq<string>, size: nat)
    requires Holds(mapping, groups) && size >= 1 && (size == 1 ==> groups == [])
    ensures var batches := Given(groups, events, size);
            && |ToCome(mapping, events, size)| == |batches|
            && forall i | 0 <= i < |batches| :: ToCome(mapping, events, size)[i] == TextOf(batches[i])
    decreases events
  {
    hide Enter, AddTo, TextOf, Semicolons, ToCome, Given, PathOf;
    UnfoldToCome(mapping, events, size);
    UnfoldGiven(groups, events, size);
    if events != [] {
      EnterHolds(mapping, groups, events[0]);
      var i, added := GroupIndex(groups, PathOf(events[0])), AddTo(groups, events[0]);
      var entered := Enter(mapping, events[0]);
      if size == 1 {
        AlwaysFull(events[0]);
        assert RemoveAt(added, 0) == groups;
        BatchesAreTexts(mapping, groups, events[1..], size);
      } else if IsReached(added[i], size) {
        BatchesAreTexts(RemoveAt(entered, i), RemoveAt(added, i), events[1..], size);
      } else {
        BatchesAreTexts(entered, added, events[1..], size);
      }
    }
  }

  lemma AlwaysFull(event: string)
    ensures AddTo([], event) == [[event]] && TextOf([event]) == event
  {
  }

  // ---------------------------------------------------------------- path by path

  function OfPath(events: seq<string>, path: string): seq<string> {
    if events == [] then []
    else (if PathOf(events[0]) == path then [events[0]] else []) + OfPath(events[1..], path)
  }

  predicate HasPath(group: Group, path: string) { group != [] && PathOf(group[0]) == path }

  /** The groups of a path, in the order in which they are given out. */
  function OfGroups(groups: seq<Group>, path: string): seq<Group> {
    if groups == [] then []
    else (if HasPath(groups[0], path) then [groups[0]] else []) + OfGroups(groups[1..], path)
  }

  /** What becomes of the events of one path alone, behind those that are pending. */
  function Cut(done: Group, events: seq<string>, size: nat): seq<Group>
    decreases |events|
  {
    if events == [] then if done == [] then [] else [done]
    else
      var more := done + [events[0]];
      if IsReached(more, size) then [more] + Cut([], events[1..], size) else Cut(more, events[1..], size)
  }

  function PendingOf(groups: seq<Group>, path: string): Group {
    var i := GroupIndex(groups, path);
    if i < |groups| then groups[i] else []
  }

  ghost predicate IsGroup(group: Group) {
    group != [] && forall i | 0 <= i < |group| :: PathOf(group[i]) == PathOf(group[0])
  }

  /** Groups of different paths. */
  ghost predicate ArePending(groups: seq<Group>) {
    && (forall i | 0 <= i < |groups| :: IsGroup(groups[i]))
    && forall i, j | 0 <= i < j < |groups| :: PathOf(groups[i][0]) != PathOf(groups[j][0])
  }

  lemma PendingAt(groups: seq<Group>, i: nat)
    requires ArePending(groups) && i < |groups|
    ensures PendingOf(groups, PathOf(groups[i][0])) == groups[i]
  {
    hide PathOf;
  }

  lemma PendingNowhere(groups: seq<Group>, path: string)
    requires ArePending(groups) && forall i | 0 <= i < |groups| :: PathOf(groups[i][0]) != path
    ensures PendingOf(groups, path) == [] && OfGroups(groups, path) == []
  {
    hide PathOf;
    NoGroups(groups, path);
  }

  lemma {:induction false} NoGroups(groups: seq<Group>, path: string)
    requires forall i | 0 <= i < |groups| :: !HasPath(groups[i], path)
    ensures OfGroups(groups, path) == []
  {
    if groups != [] {
      NoGroups(groups[1..], path);
    }
  }

  lemma {:induction false} OfGroupsOfParts(a: seq<Group>, b: seq<Group>, path: string)
    ensures OfGroups(a + b, path) == OfGroups(a, path) + OfGroups(b, path)
  {
    if a == [] {
      assert a + b == b;
    } else {
      assert (a + b)[1..] == a[1..] + b;
      OfGroupsOfParts(a[1..], b, path);
    }
  }

  /** Of pending groups, at most one is of the path. */
  lemma PendingGroups(groups: seq<Group>, path: string)
    requires ArePending(groups)
    ensures OfGroups(groups, path) == if PendingOf(groups, path) == [] then [] else [PendingOf(groups, path)]
  {
    hide PathOf, OfGroups;
    var i := GroupIndex(groups, path);
    if i < |groups| {
      assert groups == groups[..i] + ([groups[i]] + groups[i + 1..]);
      OfGroupsOfParts(groups[..i], [groups[i]] + groups[i + 1..], path);
      GivenFirst(groups[i], groups[i + 1..], path);
      OnlyAt(groups, i, path);
    } else {
      NoGroups(groups, path);
    }
  }

  lemma OnlyAt(groups: seq<Group>, i: nat, path: string)
    requires ArePending(groups) && i < |groups| && PathOf(groups[i][0]) == path
    ensures OfGroups(groups[..i], path) == [] && OfGroups(groups[i + 1..], path) == []
  {
    hide PathOf, OfGroups;
    NoGroups(groups[..i], path);
    NoGroups(groups[i + 1..], path);
  }

  lemma UnfoldAddTo(groups: seq<Group>, event: string)
    ensures var i := GroupIndex(groups, PathOf(event));
            AddTo(groups, event)
            == if i < |groups| then groups[..i] + [groups[i] + [event]] + groups[i + 1..] else groups + [[event]]
    ensures var i := GroupIndex(groups, PathOf(event));
            AddTo(groups, event)[..i] == groups[..i]
            && (i < |groups| ==> AddTo(groups, event)[i + 1..] == groups[i + 1..]
                                 && AddTo(groups, event)[i] == groups[i] + [event])
  {
    hide PathOf, GroupIndex;
  }

  /** Adding an event to its group. */
  lemma AddingKeepsPending(groups: seq<Group>, event: string)
    requires ArePending(groups)
    ensures var i, added := GroupIndex(groups, PathOf(event)), AddTo(groups, event);
            && added[i] == PendingOf(groups, PathOf(event)) + [event]
            && IsGroup(added[i]) && PathOf(added[i][0]) == PathOf(event)
            && ArePending(added) && ArePending(RemoveAt(added, i))
  {
    hide PathOf, AddTo, RemoveAt;
    UnfoldAddTo(groups, event);
    var i, added := GroupIndex(groups, PathOf(event)), AddTo(groups, event);
    var group := if i < |groups| then groups[i] + [event] else [event];
    assert PendingOf(groups, PathOf(event)) + [event] == group;
    ReplacedIsPending(groups, i, group, PathOf(event));
    assert i < |groups| ==> added == groups[i := group];
    assert added[i] == group;
    PendingWithout(added, i);
  }

  /** Replacing the group of the path, or adding the first one of it. */
  lemma ReplacedIsPending(groups: seq<Group>, i: nat, group: Group, path: string)
    requires ArePending(groups) && i <= |groups| && IsGroup(group) && PathOf(group[0]) == path
    requires forall j | 0 <= j < |groups| && j != i :: PathOf(groups[j][0]) != path
    ensures ArePending(if i < |groups| then groups[i := group] else groups + [group])
  {
    hide PathOf, IsGroup;
  }

  lemma PendingWithout(groups: seq<Group>, i: nat)
    requires i < |groups| && ArePending(groups)
    ensures ArePending(RemoveAt(groups, i))
  {
    hide PathOf, IsGroup;
    var others := RemoveAt(groups, i);
    assert forall j | 0 <= j < |others| :: others[j] == if j < i then groups[j] else groups[j + 1];
  }

  /** What is pending of a path when an event was added, and when its group was given out. */
  lemma PendingAfter(groups: seq<Group>, event: string, path: string)
    requires ArePending(groups)
    ensures var i, added := GroupIndex(groups, PathOf(event)), AddTo(groups, event);
            && PendingOf(added, path) == PendingOf(groups, path) + (if PathOf(event) == path then [event] else [])
            && PendingOf(RemoveAt(added, i), path) == if PathOf(event) == path then [] else PendingOf(groups, path)
  {
    hide PathOf, AddTo, PendingOf, ArePending, IsGroup, RemoveAt;
    AddingKeepsPending(groups, event);
    var i, added := GroupIndex(groups, PathOf(event)), AddTo(groups, event);
    if PathOf(event) == path {
      PendingAt(added, i);
      NoneWithout(added, i);
    } else {
      UnfoldAddTo(groups, event);
      OtherPending(groups, added, i, path);
      assert PendingOf(groups, path) + [] == PendingOf(groups, path);
    }
  }

  lemma NoneWithout(groups: seq<Group>, i: nat)
    requires ArePending(groups) && i < |groups| && ArePending(RemoveAt(groups, i))
    ensures PendingOf(RemoveAt(groups, i), PathOf(groups[i][0])) == []
  {
    hide PathOf, PendingOf;
    var others := RemoveAt(groups, i);
    assert forall j | 0 <= j < |others| :: others[j] == if j < i then groups[j] else groups[j + 1];
    PendingNowhere(others, PathOf(groups[i][0]));
  }

  /** The groups of other paths stay pending. */
  lemma OtherPending(groups: seq<Group>, added: seq<Group>, i: nat, path: string)
    requires ArePending(groups) && ArePending(added) && i < |added| && ArePending(RemoveAt(added, i))
    requires PathOf(added[i][0]) != path && (i < |groups| ==> PathOf(groups[i][0]) != path)
    requires |groups| <= |added| && forall j | 0 <= j < |added| && j != i :: j < |groups| && added[j] == groups[j]
    ensures PendingOf(added, path) == PendingOf(groups, path) == PendingOf(RemoveAt(added, i), path)
  {
    hide PathOf, PendingOf;
    var others := RemoveAt(added, i);
    assert forall j | 0 <= j < |others| :: others[j] == if j < i then added[j] else added[j + 1];
    if k :| 0 <= k < |groups| && PathOf(groups[k][0]) == path {
      PendingAt(groups, k);
      PendingAt(added, k);
      PendingAt(others, if k < i then k else k - 1);
    } else {
      PendingNowhere(groups, path);
      PendingNowhere(added, path);
      PendingNowhere(others, path);
    }
  }

  /** Paths do not disturb one another: each is batched as if it were alone. */
  lemma {:induction false} PathsAreApart(groups: seq<Group>, events: seq<string>, size: nat, path: string)
    requires ArePending(groups)
    ensures OfGroups(Given(groups, events, size), path) == Cut(PendingOf(groups, path), OfPath(events, path), size)
    decreases events
  {
    hide AddTo, PathOf, RemoveAt, Given, IsReached, ArePending, IsGroup, PendingOf;
    UnfoldGiven(groups, events, size);
    if events == [] {
      PendingGroups(groups, path);
    } else {
      var i, added := GroupIndex(groups, PathOf(events[0])), AddTo(groups, events[0]);
      AddingKeepsPending(groups, events[0]);
      PendingAfter(groups, events[0], path);
      var given := IsReached(added[i], size);
      var others := if given then RemoveAt(added, i) else added;
      PathsAreApart(others, events[1..], size, path);
      if PathOf(events[0]) == path {
        assert OfPath(events, path) == [events[0]] + OfPath(events[1..], path);
        assert ([events[0]] + OfPath(events[1..], path))[1..] == OfPath(events[1..], path);
      } else {
        assert PendingOf(groups, path) + [] == PendingOf(groups, path);
        assert OfPath(events, path) == [] + OfPath(events[1..], path) == OfPath(events[1..], path);
      }
      if given {
        GivenFirst(added[i], Given(others, events[1..], size), path);
      }
    }
  }

  lemma GivenFirst(group: Group, others: seq<Group>, path: string)
    ensures OfGroups([group] + others, path)
         == (if HasPath(group, path) then [group] else []) + OfGroups(others, path)
  {
    assert ([group] + others)[1..] == others;
  }

  // ---------------------------------------------------------------- conservation

  function Flat(groups: seq<Group>): seq<string> {
    if groups == [] then [] else groups[0] + Flat(groups[1..])
  }

  lemma {:induction false} FlatOfParts(a: seq<Group>, b: seq<Group>)
    ensures Flat(a + b) == Flat(a) + Flat(b)
  {
    if a == [] {
      assert a + b == b;
    } else {
      assert (a + b)[1..] == a[1..] + b;
      FlatOfParts(a[1..], b);
    }
  }

  /** No event of a path is lost, repeated or moved. */
  lemma {:induction false} CutConserves(done: Group, events: seq<string>, size: nat)
    ensures Flat(Cut(done, events, size)) == done + events
    decreases |events|
  {
    hide IsReached;
    if events == [] {
      assert done + [] == done && (done != [] ==> Flat([done]) == done + Flat([]));
    } else {
      var more, rest := done + [events[0]], events[1..];
      assert more + rest == done + events;
      if IsReached(more, size) {
        CutConserves([], rest, size);
        assert Flat([more] + Cut([], rest, size)) == more + Flat(Cut([], rest, size));
        assert [] + rest == rest;
      } else {
        CutConserves(more, rest, size);
      }
    }
  }

  lemma Around(groups: seq<Group>, i: nat)
    requires i < |groups|
    ensures |Flat(groups)| == |Flat(groups[..i])| + |groups[i]| + |Flat(groups[i + 1..])|
    ensures |Flat(RemoveAt(groups, i))| == |Flat(groups[..i])| + |Flat(groups[i + 1..])|
  {
    var a, b := groups[..i], groups[i + 1..];
    assert groups == a + ([groups[i]] + b);
    FlatOfParts(a, [groups[i]] + b);
    assert Flat([groups[i]] + b) == groups[i] + Flat(b);
    FlatOfParts(a, b);
  }

  lemma AddedOne(groups: seq<Group>, event: string)
    ensures |Flat(AddTo(groups, event))| == |Flat(groups)| + 1
  {
    hide PathOf, AddTo, Flat;
    var i := GroupIndex(groups, PathOf(event));
    UnfoldAddTo(groups, event);
    if i < |groups| {
      Around(groups, i);
      Around(AddTo(groups, event), i);
    } else {
      FlatOfParts(groups, [[event]]);
      assert Flat([[event]]) == [event] by { OneFlat([event]); }
    }
  }

  lemma OneFlat(group: Group)
    ensures Flat([group]) == group
  {
    assert [group][1..] == [] && group + [] == group;
  }

  /** All groups are of one path, and hold as many events as there are. */
  lemma {:induction false} GivenAreGroups(groups: seq<Group>, events: seq<string>, size: nat)
    requires ArePending(groups)
    ensures forall group <- Given(groups, events, size) :: IsGroup(group)
    ensures |Flat(Given(groups, events, size))| == |Flat(groups)| + |events|
    decreases events
  {
    hide AddTo, PathOf, RemoveAt, Given, IsReached, IsGroup, Flat;
    UnfoldGiven(groups, events, size);
    if events == [] {
      assert forall i | 0 <= i < |groups| :: IsGroup(groups[i]);
    } else {
      var i, added := GroupIndex(groups, PathOf(events[0])), AddTo(groups, events[0]);
      AddingKeepsPending(groups, events[0]);
      AddedOne(groups, events[0]);
      if IsReached(added[i], size) {
        var others := Given(RemoveAt(added, i), events[1..], size);
        GivenAreGroups(RemoveAt(added, i), events[1..], size);
        Around(added, i);
        FlatOfParts([added[i]], others);
        OneFlat(added[i]);
      } else {
        GivenAreGroups(added, events[1..], size);
      }
    }
  }

  /** Texts of groups of the events: each of one path, and of each path all events in their order. */
  ghost predicate AreBatchesOf(batches: seq<string>, groups: seq<Group>, events: seq<string>) {
    && |batches| == |groups|
    && (forall i | 0 <= i < |groups| :: batches[i] == TextOf(groups[i]))
    && (forall group <- groups :: IsGroup(group))
    && (forall path :: Flat(OfGroups(groups, path)) == OfPath(events, path))
    && |Flat(groups)| == |events|
  }

  /**
   * Iterating to exhaustion gives the events of the cycled input, as many as asked for, in batches
   * of one path that keep the order of the path's events; whatever the events are.
   */
  lemma {:induction false} BatchingConserves(input: seq<string>, batchSize: nat, n: nat)
    requires input != [] && batchSize >= 1
    ensures var events := Cycled(input, 0, n);
            AreBatchesOf(ToCome([], events, batchSize), Given([], events, batchSize), events)
  {
    hide PathOf, Given, ToCome, TextOf, OfGroups, OfPath, IsGroup, Cut;
    var events := Cycled(input, 0, n);
    BatchesAreTexts([], [], events, batchSize);
    GivenAreGroups([], events, batchSize);
    forall path ensures Flat(OfGroups(Given([], events, batchSize), path)) == OfPath(events, path) {
      PathsAreApart([], events, batchSize, path);
      CutConserves([], OfPath(events, path), batchSize);
      assert [] + OfPath(events, path) == OfPath(events, path);
    }
  }

  // ----------------------------------------------------------------------- sizes

  /** None of a path's groups is above the size, and only the last one may be below it. */
  predicate IsTight(groups: seq<Group>, size: nat) {
    forall i | 0 <= i < |groups| :: |groups[i]| <= size && (i + 1 < |groups| ==> |groups[i]| == size)
  }

  /** The semicolons that do not separate messages: in the first event, and in the other messages. */
  function Extra(group: Group): nat {
    if group == [] then 0
    else if |group| == 1 then Semicolons(group[0])
    else Extra(group[..|group| - 1]) + Semicolons(MessageOf(group[|group| - 1]))
  }

  /**
   * The events of one path, cut into groups of the size: no group but the last has a semicolon too
   * many, and no proper beginning of the last one has so many that it seems to be full.
   */
  predicate Fits(events: seq<string>, size: nat)
    decreases |events|
  {
    || size <= 1
    || if |events| <= size then forall k | 0 < k < |events| :: k + Extra(events[..k]) != size
       else Extra(events[..size]) == 0 && Fits(events[size..], size)
  }

  lemma {:induction false} SemicolonsOf(a: string, b: string)
    ensures Semicolons(a + b) == Semicolons(a) + Semicolons(b)
  {
    if a == "" {
      assert a + b == b;
    } else {
      assert (a + b)[1..] == a[1..] + b;
      SemicolonsOf(a[1..], b);
    }
  }

  /** The semicolons of a batch: those between its messages, and the others. */
  lemma {:induction false} SemicolonsOfBatch(group: Group)
    requires group != []
    ensures Semicolons(TextOf(group)) + 1 == |group| + Extra(group)
  {
    if |group| > 1 {
      var n := |group| - 1;
      SemicolonsOfBatch(group[..n]);
      SemicolonsOf(TextOf(group[..n]) + ";", MessageOf(group[n]));
      SemicolonsOf(TextOf(group[..n]), ";");
      assert ";"[1..] == "" && Semicolons(";") == 1;
      assert TextOf(group) == TextOf(group[..n]) + ";" + MessageOf(group[n]);
    }
  }

  /** Longer beginnings have no fewer. */
  lemma {:induction false} ExtraGrows(events: seq<string>, k: nat, m: nat)
    requires k <= m <= |events|
    ensures Extra(events[..k]) <= Extra(events[..m])
    decreases m
  {
    if k < m {
      assert events[..m][..m - 1] == events[..m - 1];
      ExtraGrows(events, k, m - 1);
    }
  }

  /** While the size is not reached, the events are one group. */
  lemma {:induction false} CutUnreached(done: Group, events: seq<string>, size: nat)
    requires size > 1
    requires var all := done + events; forall k | |done| < k <= |all| :: k + Extra(all[..k]) != size
    ensures Cut(done, events, size) == if done + events == [] then [] else [done + events]
    decreases |events|
  {
    hide Extra, TextOf, Semicolons;
    var all := done + events;
    if events != [] {
      var more := done + [events[0]];
      assert all[..|more|] == more && more + events[1..] == all;
      SemicolonsOfBatch(more);
      CutUnreached(more, events[1..], size);
    } else {
      assert all == done;
    }
  }

  /** When the size is reached, a group is given out. */
  lemma {:induction false} CutReached(done: Group, events: seq<string>, size: nat, k: nat)
    requires size > 1
    requires var all := done + events;
             && |done| < k <= |all| && k + Extra(all[..k]) == size
             && forall j | |done| < j < k :: j + Extra(all[..j]) != size
    ensures var all := done + events; Cut(done, events, size) == [all[..k]] + Cut([], all[k..], size)
    decreases |events|
  {
    hide Extra, TextOf, Semicolons;
    var all, more := done + events, done + [events[0]];
    assert all[..|more|] == more && more + events[1..] == all;
    SemicolonsOfBatch(more);
    if k == |more| {
      assert all[k..] == events[1..];
    } else {
      CutReached(more, events[1..], size, k);
    }
  }

  lemma {:induction false} CutIntoSingles(events: seq<string>)
    ensures |Cut([], events, 1)| == |events| && forall group <- Cut([], events, 1) :: |group| == 1
  {
    if events != [] {
      CutIntoSingles(events[1..]);
      assert [] + [events[0]] == [events[0]];
    }
  }

  lemma SomethingIsCut(events: seq<string>, size: nat)
    requires events != []
    ensures Cut([], events, size) != []
  {
    CutConserves([], events, size);
    assert [] + events == events;
  }

  /** The groups of a path have the sizes they should have exactly if its events fit. */
  lemma {:induction false} CutIsTight(events: seq<string>, size: nat)
    requires size >= 1
    ensures IsTight(Cut([], events, size), size) <==> Fits(events, size)
    decreases |events|
  {
    hide Cut, Extra;
    assert [] + events == events;
    if size == 1 {
      CutIntoSingles(events);
    } else if k: nat :| 0 < k < |events| && k < size && k + Extra(events[..k]) == size {
      ReachedTooSoon(events, size, k);
    } else if |events| <= size {
      ShortIsTight(events, size);
    } else {
      LongIsTight(events, size);
      if Extra(events[..size]) == 0 {
        CutIsTight(events[size..], size);
      }
    }
  }

  lemma ReachedTooSoon(events: seq<string>, size: nat, k: nat)
    requires size > 1 && 0 < k < |events| && k < size && k + Extra(events[..k]) == size
    ensures !IsTight(Cut([], events, size), size) && !Fits(events, size)
  {
    hide Cut, Extra;
    assert [] + events == events;
    forall j | 0 < j < k ensures j + Extra(events[..j]) != size {
      ExtraGrows(events, j, k);
    }
    CutReached([], events, size, k);
    SomethingIsCut(events[k..], size);
    var groups := Cut([], events, size);
    assert groups[0] == events[..k] && |groups| > 1;
    if |events| > size {
      ExtraGrows(events, k, size);
    }
  }

  lemma ShortIsTight(events: seq<string>, size: nat)
    requires size > 1 && |events| <= size
    requires forall k | 0 < k < |events| && k < size :: k + Extra(events[..k]) != size
    ensures IsTight(Cut([], events, size), size) && Fits(events, size)
  {
    hide Cut, Extra;
    var n := |events|;
    assert [] + events == events && events[..n] == events;
    if n > 0 && n + Extra(events) == size {
      CutReached([], events, size, n);
      assert events[n..] == [] && Cut([], [], size) == [] by { CutNothing(size); }
    } else {
      CutUnreached([], events, size);
    }
  }

  lemma CutNothing(size: nat)
    ensures Cut([], [], size) == []
  {
  }

  lemma LongIsTight(events: seq<string>, size: nat)
    requires size > 1 && |events| > size
    requires forall k | 0 < k < |events| && k < size :: k + Extra(events[..k]) != size
    ensures Extra(events[..size]) == 0 ==>
              (IsTight(Cut([], events, size), size) <==> IsTight(Cut([], events[size..], size), size))
    ensures Extra(events[..size]) > 0 ==> !IsTight(Cut([], events, size), size)
  {
    hide Cut, Extra;
    assert [] + events == events;
    if Extra(events[..size]) == 0 {
      CutReached([], events, size, size);
      SomethingIsCut(events[size..], size);
      TightBehind(events[..size], Cut([], events[size..], size), size);
    } else {
      CutUnreached([], events, size);
      assert |Cut([], events, size)[0]| > size;
    }
  }

  lemma TightBehind(group: Group, groups: seq<Group>, size: nat)
    requires |group| == size && groups != []
    ensures IsTight([group] + groups, size) <==> IsTight(groups, size)
  {
    var all := [group] + groups;
    assert forall i | 0 <= i < |groups| :: groups[i] == all[i + 1];
  }

  ghost predicate AllTight(groups: seq<Group>, size: nat) {
    forall path :: IsTight(OfGroups(groups, path), size)
  }

  ghost predicate AllFit(events: seq<string>, size: nat) {
    forall path :: Fits(OfPath(events, path), size)
  }

  /**
   * Of every path no batch is above the size and only the last one below it, if and only if the
   * semicolons in the events of every path allow for it.
   */
  lemma {:induction false} SizesHoldExactly(input: seq<string>, batchSize: nat, n: nat)
    requires input != [] && batchSize >= 1
    ensures var events := Cycled(input, 0, n);
            AllTight(Given([], events, batchSize), batchSize) <==> AllFit(events, batchSize)
  {
    hide PathOf, Given, OfGroups, OfPath, IsTight, Fits, Cut;
    var events := Cycled(input, 0, n);
    forall path
      ensures IsTight(OfGroups(Given([], events, batchSize), path), batchSize)
         <==> Fits(OfPath(events, path), batchSize)
    {
      PathsAreApart([], events, batchSize, path);
      CutIsTight(OfPath(events, path), batchSize);
    }
  }

  /** Without any semicolons the sizes always hold. */
  lemma {:induction false} NoSemicolonsFit(events: seq<string>, size: nat)
    requires forall event <- events :: Semicolons(event) == 0
    ensures Fits(events, size)
    decreases |events|
  {
    hide Extra, Semicolons;
    if size > 1 {
      forall k | 0 <= k <= |events| ensures Extra(events[..k]) == 0 {
        NoExtra(events[..k]);
      }
      if |events| > size {
        NoSemicolonsFit(events[size..], size);
      }
    }
  }

  lemma {:induction false} NoExtra(group: Group)
    requires forall event <- group :: Semicolons(event) == 0
    ensures Extra(group) == 0
  {
    if group != [] {
      assert group[|group| - 1] in group;
      MessageHasNoMore(group[|group| - 1]);
      NoExtra(group[..|group| - 1]);
    }
  }

  lemma {:induction false} MessageHasNoMore(event: string)
    ensures Semicolons(MessageOf(event)) <= Semicolons(event)
  {
    if event != "" && event[0] != ',' {
      MessageHasNoMore(event[1..]);
    }
  }

  /** A semicolon in a message is counted, so that here a batch is given out before it is full. */
  lemma SemicolonsCountTwice()
    ensures var events := ["p,;", "p,"];
            |ToCome([], events, 2)| == 2 && !Fits(events, 2)
  {
    var a, b := "p,;", "p,";
    assert [a, b][1..] == [b] && [a, b][..1] == [a];
    assert Semicolons(a) == 1 by {
      assert a[1..] == ",;" && ",;"[1..] == ";" && ";"[1..] == "";
      assert Semicolons(";") == 1 && Semicolons(",;") == 1;
    }
    assert Semicolons(b) == 0 by {
      assert b[1..] == "," && ","[1..] == "" && Semicolons(",") == 0;
    }
    hide PathOf, Semicolons;
    assert 1 + Extra([a, b][..1]) == 2;
    OneAfterTheOther(a, b);
  }

  lemma OneAfterTheOther(a: string, b: string)
    requires Semicolons(a) == 1 && Semicolons(b) == 0
    ensures |ToCome([], [a, b], 2)| == 2
  {
    hide PathOf, Semicolons, ToCome;
    UnfoldToCome([], [a, b], 2);
    assert Enter([], a) == [Pending(PathOf(a), a)] && [a, b][1..] == [b];
    assert RemoveAt(Enter([], a), 0) == [];
    UnfoldToCome([], [b], 2);
    var last := [Pending(PathOf(b), b)];
    assert Enter([], b) == last;
    UnfoldToCome(last, [b][1..], 2);
  }
}
