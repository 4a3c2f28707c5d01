/** The manager of the pipeline processes, and the runner that supervises it. */
module PipelineManager {
  import opened Common

  /** A process was created for an index; the id tells it from all others. */
  datatype Process = Process(index: nat, id: nat)

  datatype State = State(
    pipelines: seq<Process>,
    created: nat,
    starts: nat,
    stops: nat,
    failures: nat,
    restartCount: nat,
    restartTimeoutMs: nat,
    sleepsMs: seq<nat>)

  /** What `random.randint(100, 1000)` draws. */
  predicate IsDraw(draw: nat) { 100 <= draw <= 1000 }

  function Initial(draw: nat): State { State([], 0, 0, 0, 0, 0, draw, []) }

  /** New processes for the indices behind the list. */
  function Created(length: nat, id: nat, count: nat): (processes: seq<Process>)
    ensures |processes| == count
    ensures forall i | 0 <= i < count :: processes[i] == Process(length + i + 1, id + i)
  {
    seq(count, i requires 0 <= i < count => Process(length + i + 1, id + i))
  }

  /** `set_count`. */
  function SetCount(state: State, count: nat): State {
    var n := |state.pipelines|;
    if count < n then state.(pipelines := state.pipelines[..count], stops := state.stops + (n - count))
    else
      state.(pipelines := state.pipelines + Created(n, state.created, count - n),
             created := state.created + (count - n),
             starts := state.starts + (count - n))
  }

  function Reload(state: State, count: nat): State { SetCount(SetCount(state, 0), count) }

  /** Whether any process of the list is dead. */
  predicate HasFailed(pipelines: seq<Process>, dead: set<nat>) {
    exists i :: 0 <= i < |pipelines| && pipelines[i].id in dead
  }

  /** The positions of the dead processes, from `i` on. */
  function Failed(pipelines: seq<Process>, dead: set<nat>, i: nat): (positions: seq<nat>)
    requires i <= |pipelines|
    ensures forall k | 0 <= k < |positions| :: i <= positions[k] < |pipelines| && pipelines[positions[k]].id in dead
    ensures forall k, l | 0 <= k < l < |positions| :: positions[k] < positions[l]
    ensures forall j | i <= j < |pipelines| && pipelines[j].id in dead :: j in positions
    decreases |pipelines| - i
  {
    if i == |pipelines| then []
    else (if pipelines[i].id in dead then [i] else []) + Failed(pipelines, dead, i + 1)
  }

  lemma ReplacedNext(pipelines: seq<Process>, positions: seq<nat>, id: nat, k: nat)
    requires AreBelow(positions, |pipelines|)
    ensures Replaced(pipelines, positions[..0], id) == pipelines
    ensures k < |positions| ==>
              Replaced(pipelines, positions[..k + 1], id)
              == Replaced(pipelines, positions[..k], id)[positions[k] := Process(positions[k] + 1, id + k)]
  {
    if k < |positions| {
      assert positions[..k + 1][..k] == positions[..k];
    }
  }

  predicate AreBelow(positions: seq<nat>, n: nat) {
    forall k | 0 <= k < |positions| :: positions[k] < n
  }

  /** Each of these positions gets a new process for its index. */
  function Replaced(pipelines: seq<Process>, positions: seq<nat>, id: nat): (replaced: seq<Process>)
    requires AreBelow(positions, |pipelines|)
    ensures |replaced| == |pipelines|
  {
    if positions == [] then pipelines
    else
      var n := |positions| - 1;
      Replaced(pipelines, positions[..n], id)[positions[n] := Process(positions[n] + 1, id + n)]
  }

  function Waited(state: State): State {
    state.(restartCount := state.restartCount + 1,
           restartTimeoutMs := state.restartTimeoutMs * 2,
           sleepsMs := state.sleepsMs + [state.restartTimeoutMs])
  }

  /** `restart_failed_pipeline`, of a manager with the configured limit. */
  function RestartFailed(state: State, dead: set<nat>, draw: nat, limit: int): State {
    var failed := Failed(state.pipelines, dead, 0);
    if failed == [] then state.(restartCount := 0, restartTimeoutMs := draw)
    else
      var restarted := state.(
        pipelines := Replaced(state.pipelines, failed, state.created),
        created := state.created + |failed|,
        failures := state.failures + |failed|);
      if limit < 0 then restarted else Waited(restarted)
  }

  predicate ShouldExit(state: State, limit: int) { limit >= 0 && state.restartCount >= limit }

  class Manager {
    const limit: int
    var pipelines: seq<Process>
    var created: nat
    var starts: nat
    var stops: nat
    var failures: nat
    var restartCount: nat
    var restartTimeoutMs: nat
    var sleepsMs: seq<nat>

    ghost function Now(): State
      reads this
    {
      State(pipelines, created, starts, stops, failures, restartCount, restartTimeoutMs, sleepsMs)
    }

    constructor (limit: int, draw: nat)
      ensures this.limit == limit && Now() == Initial(draw)
    {
      this.limit := limit;
      pipelines, created, starts, stops, failures := [], 0, 0, 0, 0;
      restartCount, restartTimeoutMs, sleepsMs := 0, draw, [];
    }

    /** `_create_pipeline`. */
    method CreatePipeline(index: nat) returns (process: Process)
      modifies this`created
      ensures process == Process(index, old(created)) && created == old(created) + 1
    {
      process := Process(index, created);
      created := created + 1;
    }

    /** `_increase_to_count`. */
    method IncreaseToCount(count: nat)
      requires |pipelines| <= count
      modifies this
      ensures Now() == SetCount(old(Now()), count)
    {
      while |pipelines| < count
        invariant |old(pipelines)| <= |pipelines| <= count
        invariant Now() == SetCount(old(Now()), |pipelines|)
      {
        var process := CreatePipeline(|pipelines| + 1);
        pipelines := pipelines + [process];
        starts := starts + 1;
        assert Created(|old(pipelines)|, old(created), |pipelines| - |old(pipelines)|)
            == Created(|old(pipelines)|, old(created), |pipelines| - 1 - |old(pipelines)|) + [process];
      }
    }

    /** `_decrease_to_count`. */
    method DecreaseToCount(count: nat)
      requires count < |pipelines|
      modifies this
      ensures Now() == SetCount(old(Now()), count)
    {
      while |pipelines| > count
        invariant count <= |pipelines| <= |old(pipelines)|
        invariant pipelines == old(pipelines)[..|pipelines|]
        invariant Now() == old(Now()).(pipelines := pipelines,
                                       stops := old(stops) + (|old(pipelines)| - |pipelines|))
      {
        pipelines := pipelines[..|pipelines| - 1];
        stops := stops + 1;
      }
    }

    method SetPipelineCount(count: nat)
      modifies this
      ensures Now() == SetCount(old(Now()), count)
    {
      if count < |pipelines| {
        DecreaseToCount(count);
      } else {
        IncreaseToCount(count);
      }
    }

    method ReloadPipelines(count: nat)
      modifies this
      ensures Now() == Reload(old(Now()), count)
    {
      SetPipelineCount(0);
      SetPipelineCount(count);
    }

    method RestartFailedPipeline(dead: set<nat>, draw: nat)
      modifies this
      ensures Now() == RestartFailed(old(Now()), dead, draw, limit)
    {
      var failed := Failed(pipelines, dead, 0);
      if failed == [] {
        restartCount := 0;
        restartTimeoutMs := draw;
        return;
      }
      ReplaceFailed(failed);
      if limit < 0 {
        return;
      }
      WaitToRestart();
    }

    /** Pops each failed process, and inserts a new one in its place. */
    method ReplaceFailed(failed: seq<nat>)
      requires AreBelow(failed, |pipelines|)
      modifies this`pipelines, this`created, this`failures
      ensures pipelines == Replaced(old(pipelines), failed, old(created))
      ensures created == old(created) + |failed| && failures == old(failures) + |failed|
    {
      hide Replaced;
      ReplacedNext(pipelines, failed, created, 0);
      for k := 0 to |failed|
        invariant pipelines == Replaced(old(pipelines), failed[..k], old(created))
        invariant created == old(created) + k && failures == old(failures) + k
      {
        var index := failed[k];
        ghost var before := pipelines;
        pipelines := pipelines[..index] + pipelines[index + 1..];
        failures := failures + 1;
        var process := CreatePipeline(index + 1);
        pipelines := pipelines[..index] + [process] + pipelines[index..];
        assert pipelines == before[index := process];
        ReplacedNext(old(pipelines), failed, old(created), k);
      }
      assert failed[..|failed|] == failed;
    }

    /** `should_exit`. */
    method GivesUp() returns (giveUp: bool)
      ensures giveUp == ShouldExit(Now(), limit)
    {
      return limit >= 0 && restartCount >= limit;
    }

    method WaitToRestart()
      modifies this`restartCount, this`restartTimeoutMs, this`sleepsMs
      ensures Now() == Waited(old(Now()))
    {
      restartCount := restartCount + 1;
      sleepsMs := sleepsMs + [restartTimeoutMs];
      restartTimeoutMs := restartTimeoutMs * 2;
    }
  }

  // ----------------------------------------------------------------- every history

  datatype Operation =
    | SetTo(count: nat)
    | ReloadTo(count: nat)
    | CheckAlive(dead: set<nat>, draw: nat)

  function Apply(state: State, operation: Operation, limit: int): State {
    match operation
    case SetTo(count) => SetCount(state, count)
    case ReloadTo(count) => Reload(state, count)
    case CheckAlive(dead, draw) => RestartFailed(state, dead, draw, limit)
  }

  function Run(operations: seq<Operation>, draw: nat, limit: int): State {
    if operations == [] then Initial(draw)
    else
      var n := |operations| - 1;
      Apply(Run(operations[..n], draw, limit), operations[n], limit)
  }

  function Power(n: nat): nat { if n == 0 then 1 else 2 * Power(n - 1) }

  predicate AreDraws(operations: seq<Operation>) {
    forall operation <- operations | operation.CheckAlive? :: IsDraw(operation.draw)
  }

  /** Whether the operation finds a failed process. */
  predicate Finds(state: State, operation: Operation) {
    operation.CheckAlive? && HasFailed(state.pipelines, operation.dead)
  }

  /** How many checks in a row, the last ones, found a failed process. */
  function Streak(operations: seq<Operation>, draw: nat, limit: int): nat {
    if operations == [] then 0
    else
      var n := |operations| - 1;
      var others := Streak(operations[..n], draw, limit);
      if !operations[n].CheckAlive? then others
      else if Finds(Run(operations[..n], draw, limit), operations[n]) then others + 1
      else 0
  }

  /** The last draw, which is the first delay of a streak. */
  function LastDraw(operations: seq<Operation>, draw: nat, limit: int): nat {
    if operations == [] then draw
    else
      var n := |operations| - 1;
      if operations[n].CheckAlive? && !Finds(Run(operations[..n], draw, limit), operations[n]) then operations[n].draw
      else LastDraw(operations[..n], draw, limit)
  }

  function Sum(numbers: seq<nat>): nat {
    if numbers == [] then 0 else Sum(numbers[..|numbers| - 1]) + numbers[|numbers| - 1]
  }

  lemma FailedIsFailed(pipelines: seq<Process>, dead: set<nat>)
    ensures Failed(pipelines, dead, 0) == [] <==> !HasFailed(pipelines, dead)
  {
    if HasFailed(pipelines, dead) {
      var j :| 0 <= j < |pipelines| && pipelines[j].id in dead;
      assert j in Failed(pipelines, dead, 0);
    }
    var failed := Failed(pipelines, dead, 0);
    if failed != [] {
      assert pipelines[failed[0]].id in dead;
    }
  }

  /** Every process is where its index says, and all are distinct processes created so far. */
  ghost predicate IsInOrder(state: State) {
    && (forall i | 0 <= i < |state.pipelines| :: state.pipelines[i].index == i + 1)
    && (forall i | 0 <= i < |state.pipelines| :: state.pipelines[i].id < state.created)
    && forall i, j | 0 <= i < j < |state.pipelines| :: state.pipelines[i].id != state.pipelines[j].id
  }

  /** What replacing does: each position gets a new process of its index. */
  lemma {:induction false} ReplacedExactly(pipelines: seq<Process>, positions: seq<nat>, id: nat, i: nat)
    requires AreBelow(positions, |pipelines|) && i < |pipelines|
    requires forall k, l | 0 <= k < l < |positions| :: positions[k] != positions[l]
    ensures var replaced := Replaced(pipelines, positions, id);
            if i in positions then
              exists k :: 0 <= k < |positions| && positions[k] == i && replaced[i] == Process(i + 1, id + k)
            else replaced[i] == pipelines[i]
  {
    if positions != [] {
      var n := |positions| - 1;
      ReplacedExactly(pipelines, positions[..n], id, i);
      assert positions == positions[..n] + [positions[n]];
      if positions[n] != i && i in positions[..n] {
        var k :| 0 <= k < n && positions[..n][k] == i
                 && Replaced(pipelines, positions[..n], id)[i] == Process(i + 1, id + k);
        assert positions[k] == i;
      }
    }
  }

  /** A check replaces exactly the dead processes, each by a new one at its place. */
  lemma OnlyDeadAreReplaced(state: State, dead: set<nat>, draw: nat, limit: int, i: nat)
    requires i < |state.pipelines|
    ensures var before, after := state.pipelines, RestartFailed(state, dead, draw, limit);
            && |after.pipelines| == |before|
            && if before[i].id in dead then
                 exists k :: 0 <= k < |Failed(before, dead, 0)| && Failed(before, dead, 0)[k] == i
                             && after.pipelines[i] == Process(i + 1, state.created + k)
               else after.pipelines[i] == before[i]
  {
    hide Replaced, Failed;
    ReplacedExactly(state.pipelines, Failed(state.pipelines, dead, 0), state.created, i);
  }

  lemma RestartKeepsOrder(state: State, dead: set<nat>, draw: nat, limit: int)
    requires IsInOrder(state)
    ensures IsInOrder(RestartFailed(state, dead, draw, limit))
  {
    hide Replaced, Failed;
    var before, after := state.pipelines, RestartFailed(state, dead, draw, limit);
    var failed := Failed(before, dead, 0);
    forall i: nat | i < |before|
      ensures after.pipelines[i].index == i + 1 && after.pipelines[i].id < after.created
      ensures if before[i].id in dead then after.pipelines[i].id >= state.created
              else after.pipelines[i].id == before[i].id
    {
      OnlyDeadAreReplaced(state, dead, draw, limit, i);
    }
    forall i: nat, j: nat | i < j < |before| ensures after.pipelines[i].id != after.pipelines[j].id {
      OnlyDeadAreReplaced(state, dead, draw, limit, i);
      OnlyDeadAreReplaced(state, dead, draw, limit, j);
    }
  }

  lemma SetCountKeepsOrder(state: State, count: nat)
    requires IsInOrder(state) && state.starts == state.stops + |state.pipelines|
    ensures var after := SetCount(state, count);
            IsInOrder(after) && after.starts == after.stops + |after.pipelines| && |after.pipelines| == count
  {
  }

  /** Setting the count keeps the first processes, stops others from the end or starts new ones behind. */
  lemma SetCountKeepsFirst(state: State, count: nat)
    ensures var n, after := |state.pipelines|, SetCount(state, count);
            && |after.pipelines| == count
            && (forall i | 0 <= i < count :: after.pipelines[i]
                  == if i < n then state.pipelines[i] else Process(i + 1, state.created + i - n))
            && after.stops + count == state.stops + n + after.starts - state.starts
            && (count <= n ==> after.starts == state.starts && after.created == state.created)
            && (count >= n ==> after.stops == state.stops && after.created == state.created + count - n)
            && after.failures == state.failures && after.restartCount == state.restartCount
            && after.restartTimeoutMs == state.restartTimeoutMs && after.sleepsMs == state.sleepsMs
  {
  }

  /** A reload stops every process and starts as many new ones as are configured. */
  lemma ReloadReplaces(state: State, count: nat)
    ensures var after := Reload(state, count);
            && |after.pipelines| == count
            && (forall i | 0 <= i < count :: after.pipelines[i] == Process(i + 1, state.created + i))
            && after.created == state.created + count
            && after.stops == state.stops + |state.pipelines| && after.starts == state.starts + count
            && after.failures == state.failures && after.restartCount == state.restartCount
            && after.restartTimeoutMs == state.restartTimeoutMs && after.sleepsMs == state.sleepsMs
  {
    hide SetCount;
    SetCountKeepsFirst(state, 0);
    SetCountKeepsFirst(SetCount(state, 0), count);
  }

  /** A check counts the dead processes, and starts and stops none in the sense of the count. */
  lemma DeadAreCounted(state: State, dead: set<nat>, draw: nat, limit: int)
    ensures var after := RestartFailed(state, dead, draw, limit);
            var failed := |set i | 0 <= i < |state.pipelines| && state.pipelines[i].id in dead|;
            && after.failures == state.failures + failed && after.created == state.created + failed
            && after.starts == state.starts && after.stops == state.stops
  {
    hide Replaced, Failed;
    FailedAreDead(state.pipelines, dead, 0);
  }

  lemma {:induction false} FailedAreDead(pipelines: seq<Process>, dead: set<nat>, i: nat)
    requires i <= |pipelines|
    ensures |Failed(pipelines, dead, i)| == |set k | i <= k < |pipelines| && pipelines[k].id in dead|
    decreases |pipelines| - i
  {
    hide Failed;
    UnfoldFailed(pipelines, dead, i);
    DeadFrom(pipelines, dead, i);
    if i < |pipelines| {
      FailedAreDead(pipelines, dead, i + 1);
    }
  }

  lemma UnfoldFailed(pipelines: seq<Process>, dead: set<nat>, i: nat)
    requires i <= |pipelines|
    ensures |Failed(pipelines, dead, i)|
         == if i == |pipelines| then 0
            else |Failed(pipelines, dead, i + 1)| + if pipelines[i].id in dead then 1 else 0
  {
  }

  lemma DeadFrom(pipelines: seq<Process>, dead: set<nat>, i: nat)
    requires i <= |pipelines|
    ensures |set k | i <= k < |pipelines| && pipelines[k].id in dead|
         == if i == |pipelines| then 0
            else |set k | i + 1 <= k < |pipelines| && pipelines[k].id in dead|
                 + if pipelines[i].id in dead then 1 else 0
  {
    var here := set k | i <= k < |pipelines| && pipelines[k].id in dead;
    if i == |pipelines| {
      assert here == {};
    } else {
      var behind := set k | i + 1 <= k < |pipelines| && pipelines[k].id in dead;
      assert here == behind + if pipelines[i].id in dead then {i} else {};
    }
  }

  /** Processes are never taken back: the ones of a state are old, or were created since. */
  lemma StepKeepsOrReplaces(state: State, operation: Operation, limit: int)
    requires IsInOrder(state) && state.starts == state.stops + |state.pipelines|
    ensures var after := Apply(state, operation, limit);
            && after.created >= state.created
            && forall p <- after.pipelines ::
                 p.id >= state.created || (p in state.pipelines && !operation.ReloadTo?)
  {
    hide Replaced, Failed, SetCount;
    match operation
    case SetTo(count) => SetCountKeepsFirst(state, count);
    case ReloadTo(count) => ReloadReplaces(state, count);
    case CheckAlive(dead, draw) =>
      DeadAreCounted(state, dead, draw, limit);
      LengthIsKept(state, dead, draw, limit);
      forall i | 0 <= i < |state.pipelines|
        ensures var after := RestartFailed(state, dead, draw, limit).pipelines;
                i < |after| && (after[i].id >= state.created || after[i] == state.pipelines[i])
      {
        OnlyDeadAreReplaced(state, dead, draw, limit, i);
      }
  }

  /** Over every history: no process from before a reload is there behind it. */
  lemma {:induction false} ReloadedAreNew(operations: seq<Operation>, i: nat, draw: nat, limit: int)
    requires i < |operations| && operations[i].ReloadTo?
    ensures var before := Run(operations[..i], draw, limit);
            && (forall p <- before.pipelines :: p.id < before.created)
            && forall p <- Run(operations, draw, limit).pipelines :: p.id >= before.created
    decreases |operations|
  {
    hide Apply, IsInOrder;
    var n := |operations| - 1;
    var last := Run(operations[..n], draw, limit);
    RunsAreInOrder(operations[..n], draw, limit);
    RunsAreInOrder(operations[..i], draw, limit);
    IdsAreCreated(Run(operations[..i], draw, limit));
    StepKeepsOrReplaces(last, operations[n], limit);
    if i < n {
      assert operations[..n][..i] == operations[..i];
      ReloadedAreNew(operations[..n], i, draw, limit);
      CreatedGrows(operations[..n], i, draw, limit);
    }
  }

  lemma IdsAreCreated(state: State)
    requires IsInOrder(state)
    ensures forall p <- state.pipelines :: p.id < state.created
  {
  }

  lemma {:induction false} CreatedGrows(operations: seq<Operation>, i: nat, draw: nat, limit: int)
    requires i <= |operations|
    ensures Run(operations[..i], draw, limit).created <= Run(operations, draw, limit).created
    decreases |operations|
  {
    hide Apply, IsInOrder;
    var n := |operations| - 1;
    if i <= n {
      assert operations[..n][..i] == operations[..i];
      RunsAreInOrder(operations[..n], draw, limit);
      CreatedGrows(operations[..n], i, draw, limit);
      StepKeepsOrReplaces(Run(operations[..n], draw, limit), operations[n], limit);
    } else {
      assert operations[..i] == operations;
    }
  }

  /**
   * Over every history: processes are in the order of their indices, each once, and starts minus
   * stops are as many as there are.
   */
  lemma {:induction false} RunsAreInOrder(operations: seq<Operation>, draw: nat, limit: int)
    ensures var state := Run(operations, draw, limit);
            IsInOrder(state) && state.starts == state.stops + |state.pipelines|
  {
    hide IsInOrder, SetCount, Replaced, Failed;
    if operations == [] {
      NoneInOrder(draw);
    } else {
      var n := |operations| - 1;
      var before := Run(operations[..n], draw, limit);
      RunsAreInOrder(operations[..n], draw, limit);
      match operations[n]
      case SetTo(count) => SetCountKeepsOrder(before, count);
      case ReloadTo(count) =>
        SetCountKeepsOrder(before, 0);
        SetCountKeepsOrder(SetCount(before, 0), count);
      case CheckAlive(dead, redraw) => RestartKeepsOrder(before, dead, redraw, limit);
    }
  }

  lemma NoneInOrder(draw: nat)
    ensures IsInOrder(Initial(draw))
  {
  }

  /**
   * Over every history: the count is the length of the streak of failing checks, the delay is the
   * last draw doubled once for each of them, and they slept as a geometric series. Without a limit
   * there is neither a count nor a delay.
   */
  lemma {:induction false} DelaysDouble(operations: seq<Operation>, draw: nat, limit: int)
    requires IsDraw(draw) && AreDraws(operations)
    ensures IsDraw(LastDraw(operations, draw, limit))
    ensures Run(operations, draw, limit).restartCount == if limit >= 0 then Streak(operations, draw, limit) else 0
    ensures HasDoubled(Run(operations, draw, limit), LastDraw(operations, draw, limit))
  {
    hide Run, HasDoubled, Streak, LastDraw, IsDraw, Apply;
    UnfoldHistory(operations, draw, limit);
    if operations == [] {
      NothingDoubled(draw);
    } else {
      var n := |operations| - 1;
      DelaysDouble(operations[..n], draw, limit);
      StepDoubles(Run(operations[..n], draw, limit), operations[n], limit, LastDraw(operations[..n], draw, limit));
    }
  }

  /** The delay and the sleeps of the streak, of which the first is given. */
  ghost predicate HasDoubled(state: State, first: nat) {
    && state.restartTimeoutMs == first * Power(state.restartCount)
    && state.restartCount <= |state.sleepsMs|
    && Sum(state.sleepsMs[|state.sleepsMs| - state.restartCount..]) == first * (Power(state.restartCount) - 1)
  }

  lemma NothingDoubled(draw: nat)
    ensures HasDoubled(Initial(draw), draw)
  {
  }

  lemma UnfoldHistory(operations: seq<Operation>, draw: nat, limit: int)
    ensures operations == [] ==>
              && Run(operations, draw, limit) == Initial(draw)
              && Streak(operations, draw, limit) == 0 && LastDraw(operations, draw, limit) == draw
    ensures operations != [] ==>
              var n := |operations| - 1;
              var before := Run(operations[..n], draw, limit);
              var found := Finds(before, operations[n]);
              && Run(operations, draw, limit) == Apply(before, operations[n], limit)
              && Streak(operations, draw, limit)
                 == (if !operations[n].CheckAlive? then Streak(operations[..n], draw, limit)
                     else if found then Streak(operations[..n], draw, limit) + 1 else 0)
              && LastDraw(operations, draw, limit)
                 == (if operations[n].CheckAlive? && !found then operations[n].draw
                     else LastDraw(operations[..n], draw, limit))
  {
    hide Apply;
  }

  lemma StepDoubles(before: State, operation: Operation, limit: int, first: nat)
    requires HasDoubled(before, first) && (limit < 0 ==> before.restartCount == 0)
    ensures var after := Apply(before, operation, limit);
            && HasDoubled(after, if operation.CheckAlive? && !Finds(before, operation) then operation.draw else first)
            && after.restartCount
               == if !operation.CheckAlive? then before.restartCount
                  else if !Finds(before, operation) || limit < 0 then 0
                  else before.restartCount + 1
  {
    hide Failed, Replaced, HasFailed, Created, HasDoubled;
    if operation.CheckAlive? {
      FailedIsFailed(before.pipelines, operation.dead);
      var after := Apply(before, operation, limit);
      if Finds(before, operation) && limit >= 0 {
        WaitedDoubles(before, first);
        SameDelays(Waited(before), after, first);
      } else if Finds(before, operation) {
        SameDelays(before, after, first);
      } else {
        NewlyDoubled(after);
      }
    } else {
      SameDelays(before, Apply(before, operation, limit), first);
    }
  }

  lemma SameDelays(a: State, b: State, first: nat)
    requires HasDoubled(a, first)
    requires a.restartCount == b.restartCount && a.restartTimeoutMs == b.restartTimeoutMs && a.sleepsMs == b.sleepsMs
    ensures HasDoubled(b, first)
  {
  }

  lemma NewlyDoubled(state: State)
    requires state.restartCount == 0
    ensures HasDoubled(state, state.restartTimeoutMs)
  {
    hide Power, Sum;
    PowerAndSumBegin();
    assert state.sleepsMs[|state.sleepsMs|..] == [];
  }

  lemma WaitedDoubles(state: State, first: nat)
    requires HasDoubled(state, first)
    ensures HasDoubled(Waited(state), first)
  {
    hide Power, Sum;
    var n, after := state.restartCount, Waited(state);
    var slept := state.sleepsMs[|state.sleepsMs| - n..];
    assert after.sleepsMs[|after.sleepsMs| - (n + 1)..] == slept + [state.restartTimeoutMs];
    SumNext(slept, state.restartTimeoutMs);
    Doubling(first, n);
  }

  lemma PowerAndSumBegin()
    ensures Power(0) == 1 && Sum([]) == 0
  {
  }

  lemma SumNext(numbers: seq<nat>, number: nat)
    ensures Sum(numbers + [number]) == Sum(numbers) + number
  {
    assert (numbers + [number])[..|numbers|] == numbers;
  }

  lemma Doubling(first: nat, n: nat)
    ensures first * Power(n) * 2 == first * Power(n + 1)
    ensures first * (Power(n) - 1) + first * Power(n) == first * (Power(n + 1) - 1)
  {
  }

  // -------------------------------------------------------------------- the runner

  /** What the surroundings do in a round of the runner. */
  datatype Round = Round(exitReceived: bool, reloadTo: Option<nat>, dead: set<nat>, draw: nat)

  datatype Status = Running | Stopped | Failing

  datatype Supervision = Supervision(state: State, status: Status)

  /** What a round starts with: a changed configuration restarts all pipelines. */
  function Refreshed(state: State, reloadTo: Option<nat>): State {
    if reloadTo.Some? then Reload(state, reloadTo.value) else state
  }

  /** One iteration of `_iterate`. */
  function Supervise(state: State, round: Round, limit: int): Supervision {
    if round.exitReceived then Supervision(state, Stopped)
    else
      var refreshed := Refreshed(state, round.reloadTo);
      if ShouldExit(refreshed, limit) then Supervision(refreshed, Failing)
      else Supervision(RestartFailed(refreshed, round.dead, round.draw, limit), Running)
  }

  function Supervised(start: State, rounds: seq<Round>, limit: int): Supervision {
    if rounds == [] then Supervision(start, Running)
    else
      var n := |rounds| - 1;
      var before := Supervised(start, rounds[..n], limit);
      if before.status.Running? then Supervise(before.state, rounds[n], limit) else before
  }

  /** `_iterate`, with the rounds that the surroundings allow for. */
  method Iterate(manager: Manager, rounds: seq<Round>) returns (status: Status)
    modifies manager
    ensures Supervision(manager.Now(), status) == Supervised(old(manager.Now()), rounds, manager.limit)
  {
    status := Running;
    for i := 0 to |rounds|
      invariant status.Running?
      invariant Supervision(manager.Now(), status) == Supervised(old(manager.Now()), rounds[..i], manager.limit)
    {
      hide Reload, RestartFailed, Supervised;
      ghost var start := old(manager.Now());
      SupervisedNext(start, rounds, i, manager.limit);
      if rounds[i].exitReceived {
        StoppedStays(start, rounds, i + 1, manager.limit);
        return Stopped;
      }
      if rounds[i].reloadTo.Some? {
        manager.ReloadPipelines(rounds[i].reloadTo.value);
      }
      var giveUp := manager.GivesUp();
      if giveUp {
        StoppedStays(start, rounds, i + 1, manager.limit);
        return Failing;
      }
      manager.RestartFailedPipeline(rounds[i].dead, rounds[i].draw);
    }
    assert rounds[..|rounds|] == rounds;
  }

  lemma SupervisedNext(start: State, rounds: seq<Round>, i: nat, limit: int)
    requires i < |rounds|
    ensures var before := Supervised(start, rounds[..i], limit);
            Supervised(start, rounds[..i + 1], limit)
            == if before.status.Running? then Supervise(before.state, rounds[i], limit) else before
  {
    assert rounds[..i + 1][..i] == rounds[..i];
  }

  lemma {:induction false} StoppedStays(start: State, rounds: seq<Round>, i: nat, limit: int)
    requires i <= |rounds| && !Supervised(start, rounds[..i], limit).status.Running?
    ensures Supervised(start, rounds, limit) == Supervised(start, rounds[..i], limit)
    decreases |rounds|
  {
    if i == |rounds| {
      assert rounds[..i] == rounds;
    } else {
      var n := |rounds| - 1;
      assert rounds[..n][..i] == rounds[..i];
      StoppedStays(start, rounds[..n], i, limit);
    }
  }

  /**
   * One round: being told to stop ends it at once; a new configuration replaces every process; then the
   * runner gives up, or the dead processes are replaced and the others kept.
   */
  lemma RoundExactly(before: State, round: Round, limit: int)
    ensures Supervise(before, round, limit).status.Stopped? <==> round.exitReceived
    ensures round.exitReceived ==> Supervise(before, round, limit).state == before
    ensures !round.exitReceived ==>
              (Supervise(before, round, limit).status.Failing? <==> limit >= 0 && before.restartCount >= limit)
    ensures !round.exitReceived && round.reloadTo.Some? ==>
              var after := Supervise(before, round, limit).state;
              && |after.pipelines| == round.reloadTo.value
              && (forall i | 0 <= i < |after.pipelines| ::
                    after.pipelines[i].index == i + 1 && after.pipelines[i].id >= before.created)
              && after.stops == before.stops + |before.pipelines|
              && after.starts == before.starts + round.reloadTo.value
    ensures !round.exitReceived && round.reloadTo.None? ==>
              var after := Supervise(before, round, limit).state;
              && |after.pipelines| == |before.pipelines|
              && after.stops == before.stops && after.starts == before.starts
              && forall i | 0 <= i < |after.pipelines| ::
                   if Supervise(before, round, limit).status.Running? && before.pipelines[i].id in round.dead then
                     after.pipelines[i].index == i + 1 && after.pipelines[i].id >= before.created
                   else after.pipelines[i] == before.pipelines[i]
  {
    hide Reload, RestartFailed, HasFailed;
    if !round.exitReceived {
      var refreshed := Refreshed(before, round.reloadTo);
      if round.reloadTo.Some? {
        ReloadReplaces(before, round.reloadTo.value);
      }
      DeadAreCounted(refreshed, round.dead, round.draw, limit);
      LengthIsKept(refreshed, round.dead, round.draw, limit);
      forall i | 0 <= i < |refreshed.pipelines|
        ensures var after := RestartFailed(refreshed, round.dead, round.draw, limit).pipelines;
                if refreshed.pipelines[i].id in round.dead then
                  after[i].index == i + 1 && after[i].id >= refreshed.created
                else after[i] == refreshed.pipelines[i]
      {
        OnlyDeadAreReplaced(refreshed, round.dead, round.draw, limit, i);
      }
    }
  }

  lemma LengthIsKept(state: State, dead: set<nat>, draw: nat, limit: int)
    ensures |RestartFailed(state, dead, draw, limit).pipelines| == |state.pipelines|
  {
    hide Replaced, Failed;
  }

  /** Whether a round that is run finds a failed process. */
  predicate RoundFails(start: State, rounds: seq<Round>, i: nat, limit: int)
    requires i < |rounds|
  {
    HasFailed(Refreshed(Supervised(start, rounds[..i], limit).state, rounds[i].reloadTo).pipelines, rounds[i].dead)
  }

  /** How many rounds in a row, the last ones, failed. */
  function FailingRounds(start: State, rounds: seq<Round>, limit: int): nat {
    if rounds == [] then 0
    else
      var n := |rounds| - 1;
      if RoundFails(start, rounds, n, limit) then FailingRounds(start, rounds[..n], limit) + 1 else 0
  }

  /** While the runner runs, the count of the manager is the number of failing rounds in a row. */
  lemma {:induction false} CountsFailingRounds(start: State, rounds: seq<Round>, limit: int)
    requires start.restartCount == 0 && limit >= 0 && Supervised(start, rounds, limit).status.Running?
    ensures Supervised(start, rounds, limit).state.restartCount == FailingRounds(start, rounds, limit)
  {
    if rounds != [] {
      var n := |rounds| - 1;
      var before := Supervised(start, rounds[..n], limit).state;
      CountsFailingRounds(start, rounds[..n], limit);
      RoundCounts(before, rounds[n], limit);
      assert rounds[..n + 1] == rounds;
    }
  }

  lemma RoundCounts(before: State, round: Round, limit: int)
    requires limit >= 0
    ensures Refreshed(before, round.reloadTo).restartCount == before.restartCount
    ensures Supervise(before, round, limit).status.Running? ==>
              Supervise(before, round, limit).state.restartCount
              == if HasFailed(Refreshed(before, round.reloadTo).pipelines, round.dead) then before.restartCount + 1
                 else 0
  {
    hide Failed, HasFailed, Replaced, Created;
    FailedIsFailed(Refreshed(before, round.reloadTo).pipelines, round.dead);
  }

  /**
   * With a limit, the runner gives up in a round exactly if it is not told to stop and as many rounds
   * in a row as the limit says have failed before; so it never goes on behind that many.
   */
  lemma {:induction false} GivesUpExactly(start: State, rounds: seq<Round>, limit: int)
    requires start.restartCount == 0 && limit >= 0 && rounds != []
    requires Supervised(start, rounds[..|rounds| - 1], limit).status.Running?
    ensures var n := |rounds| - 1;
            Supervised(start, rounds, limit).status.Failing?
            <==> !rounds[n].exitReceived && FailingRounds(start, rounds[..n], limit) >= limit
    ensures Supervised(start, rounds, limit).status.Failing? ==>
              Supervised(start, rounds, limit).state.restartCount == limit
  {
    hide Reload, RestartFailed, HasFailed, FailingRounds, RoundFails;
    var n := |rounds| - 1;
    CountsFailingRounds(start, rounds[..n], limit);
    RunsWithinLimit(start, rounds[..n], limit);
    RoundCounts(Supervised(start, rounds[..n], limit).state, rounds[n], limit);
  }

  /** Two processes that are alive, and a first round in which nothing happens. */
  lemma ZeroGivesUpAtOnce(draw: nat)
    ensures var start, round := SetCount(Initial(draw), 2), Round(false, None, {}, draw);
            && !HasFailed(start.pipelines, round.dead)
            && Supervised(start, [round], 0).status == Failing
            && Supervised(start, [round], 1).status == Running
  {
    var start, round := SetCount(Initial(draw), 2), Round(false, None, {}, draw);
    assert [round][..0] == [];
    assert Supervised(start, [], 1) == Supervision(start, Running);
  }

  lemma {:induction false} RunsWithinLimit(start: State, rounds: seq<Round>, limit: int)
    requires start.restartCount == 0 && limit >= 0 && Supervised(start, rounds, limit).status.Running?
    ensures FailingRounds(start, rounds, limit) <= limit
  {
    hide Reload, RestartFailed, HasFailed, FailingRounds, RoundFails;
    CountsFailingRounds(start, rounds, limit);
    if rounds != [] {
      RoundCounts(Supervised(start, rounds[..|rounds| - 1], limit).state, rounds[|rounds| - 1], limit);
    }
  }

  /** Until it gives up, the runner has slept for its streak at most as a geometric series. */
  lemma {:induction false} SleepsAreBounded(start: State, rounds: seq<Round>, limit: int)
    requires start.restartCount == 0 && IsDraw(start.restartTimeoutMs) && limit >= 0
    requires forall i | 0 <= i < |rounds| :: IsDraw(rounds[i].draw)
    ensures var state := Supervised(start, rounds, limit).state;
            exists first :: IsDraw(first) && HasDoubled(state, first)
  {
    hide Reload, RestartFailed, HasDoubled, IsDraw;
    if rounds == [] {
      assert HasDoubled(start, start.restartTimeoutMs) by { StartDoubled(start); }
    } else {
      var n := |rounds| - 1;
      var before := Supervised(start, rounds[..n], limit);
      SleepsAreBounded(start, rounds[..n], limit);
      var first :| IsDraw(first) && HasDoubled(before.state, first);
      if before.status.Running? {
        RoundDoubles(before.state, rounds[n], limit, first);
      }
    }
  }

  lemma StartDoubled(start: State)
    requires start.restartCount == 0
    ensures HasDoubled(start, start.restartTimeoutMs)
  {
  }

  lemma RoundDoubles(before: State, round: Round, limit: int, first: nat)
    requires HasDoubled(before, first) && IsDraw(first) && IsDraw(round.draw) && limit >= 0
    ensures exists next :: IsDraw(next) && HasDoubled(Supervise(before, round, limit).state, next)
  {
    hide IsDraw, RestartFailed, HasFailed;
    if !round.exitReceived {
      var refreshed := Refreshed(before, round.reloadTo);
      var check := CheckAlive(round.dead, round.draw);
      assert HasDoubled(refreshed, first);
      StepDoubles(refreshed, check, limit, first);
      hide HasDoubled;
      var next := if ShouldExit(refreshed, limit) || Finds(refreshed, check) then first else round.draw;
      assert HasDoubled(Supervise(before, round, limit).state, next);
    }
  }
}
