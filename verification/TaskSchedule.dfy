/**
 The task schedule: one pre-allocated list of tasks for each phase. A pass over a queue walks the links
 of the list while the callbacks it runs take tasks, mostly their own, out of that same list.
 */
module TaskSchedule {
  import opened PreallocCells
  import opened PreallocList
  import opened SchedulePass
  import opened Sequences
  import opened Wrappers

  const POST_PROCESSING: int := -1
  const NUM_TASK_QUEUES: nat := 2

  datatype Error = Ok | Unspecific | InvalidPhase | DestructionPending

  /** One invocation of a task's callback. */
  datatype Visit = Visit(task: Pointer, phase: int)

  /** `tasks` without the first occurrence of `task`. */
  ghost function RemoveFirst(tasks: seq<Pointer>, task: Pointer): (rest: seq<Pointer>) {
    if tasks == [] then []
    else if tasks[0] == task then tasks[1..]
    else [tasks[0]] + RemoveFirst(tasks[1..], task)
  }

  /** The queue after a pass: each task that decides to leave is removed, wherever it occurs first. */
  ghost function AfterPass(tasks: seq<Pointer>, leaves: seq<bool>): (rest: seq<Pointer>)
    requires |leaves| == |tasks|
  {
    if tasks == [] then []
    else
      var n := |tasks| - 1;
      var rest := AfterPass(tasks[..n], leaves[..n]) + [tasks[n]];
      if leaves[n] then RemoveFirst(rest, tasks[n]) else rest
  }

  /** The tasks that stay. */
  ghost function Staying(tasks: seq<Pointer>, leaves: seq<bool>): (rest: seq<Pointer>)
    requires |leaves| == |tasks|
  {
    if tasks == [] then []
    else
      var n := |tasks| - 1;
      Staying(tasks[..n], leaves[..n]) + if leaves[n] then [] else [tasks[n]]
  }

  /** The callbacks run by a pass; tasks without a callback are passed over. */
  ghost function Visits(tasks: seq<Pointer>, callbacks: set<Pointer>, phase: int): (visits: seq<Visit>) {
    if tasks == [] then []
    else
      var n := |tasks| - 1;
      Visits(tasks[..n], callbacks, phase) + if tasks[n] in callbacks then [Visit(tasks[n], phase)] else []
  }

  /** Which tasks leave: those whose callback runs and decides so. */
  ghost function Leaves(tasks: seq<Pointer>, callbacks: set<Pointer>, decisions: seq<bool>): (leaves: seq<bool>)
    requires |decisions| == |tasks|
    ensures |leaves| == |tasks|
  {
    seq(|tasks|, i requires 0 <= i < |tasks| => decisions[i] && tasks[i] in callbacks)
  }

  /** The tasks held by the items of a list, in use or not. */
  ghost function HeldBy(root: Root): (held: seq<Pointer>) {
    seq(|root.items|, p requires 0 <= p < |root.items| => root.items[p].value)
  }

  /** What the callbacks take out, item by item; tasks without a callback take out nothing. */
  ghost function Turns(held: seq<Pointer>, callbacks: set<Pointer>, turns: seq<seq<Pointer>>): (r: seq<seq<Pointer>>)
    requires |turns| == |held|
    ensures |r| == |held|
  {
    seq(|held|, p requires 0 <= p < |held| => if held[p] in callbacks then turns[p] else [])
  }

  ghost function WalkOf(root: Root): Walk {
    Walk(root.Order(), map[])
  }

  lemma {:induction false} PassStarts(root: Root)
    requires root.Consistent()
    ensures Standing(WalkOf(root), HeldBy(root), root.first) && TasksOf(root.Order(), HeldBy(root)) == root.Values()
  {
    OrderIsWalk(root);
    ValuesAreHeld(root);
  }

  lemma {:induction false} OrderIsWalk(root: Root)
    requires root.Consistent()
    ensures IsWalk(WalkOf(root), HeldBy(root))
  {
    forall j, k | 0 <= j < k < |root.Order()|
      ensures root.Order()[j] < root.Order()[k]
    {
      LiveAtAscends(root.Cells(), j, k);
    }
  }

  lemma {:induction false} ValuesAreHeld(root: Root)
    requires root.Consistent()
    ensures Within(root.Order(), HeldBy(root)) && TasksOf(root.Order(), HeldBy(root)) == root.Values()
  {
    LiveAtMeaning(root.Cells());
    forall k | 0 <= k < |root.Order()|
      ensures root.Order()[k] < |root.items| && root.items[root.Order()[k]].value == root.Values()[k]
    {
      ChainItem(root, k);
    }
  }

  /** A pass over a queue: the items that remain and those that it visits. */
  ghost function PassOver(root: Root, callbacks: set<Pointer>, turns: seq<seq<Pointer>>): (r: (seq<nat>, seq<nat>))
    requires root.Consistent() && |turns| == |root.items|
    ensures Within(r.0, HeldBy(root)) && Within(r.1, HeldBy(root))
  {
    PassStarts(root);
    var held := HeldBy(root);
    PassOnlyTakes(WalkOf(root), held, Turns(held, callbacks, turns), root.first);
    var r := Pass(WalkOf(root), held, Turns(held, callbacks, turns), root.first);
    (r.0.order, r.1)
  }

  /** What a pass makes of a queue, if it runs it at all. */
  ghost function AfterRun(runs: bool, root: Root, callbacks: set<Pointer>, turns: seq<seq<Pointer>>): seq<Pointer>
    requires root.Consistent() && |turns| == |root.items|
  {
    if runs then TasksOf(PassOver(root, callbacks, turns).0, HeldBy(root)) else root.Values()
  }

  /** The callbacks that a pass runs, if it runs any. */
  ghost function VisitsIf(
    runs: bool, root: Root, callbacks: set<Pointer>, turns: seq<seq<Pointer>>, phase: int): seq<Visit>
    requires root.Consistent() && |turns| == |root.items|
  {
    if runs then Visits(TasksOf(PassOver(root, callbacks, turns).1, HeldBy(root)), callbacks, phase) else []
  }

  ghost predicate NoDuplicates(tasks: seq<Pointer>) {
    forall i, j :: 0 <= i < j < |tasks| ==> tasks[i] != tasks[j]
  }

  lemma {:induction false} RemoveFirstAt(tasks: seq<Pointer>, task: Pointer, k: nat)
    requires k < |tasks| && tasks[k] == task && task !in tasks[..k]
    ensures RemoveFirst(tasks, task) == tasks[..k] + tasks[k + 1..]
  {
    if k > 0 {
      assert tasks[0] == tasks[..k][0];
      assert tasks[1..][..k - 1] == tasks[..k][1..];
      RemoveFirstAt(tasks[1..], task, k - 1);
    }
  }

  /** With distinct tasks in the queue, a pass leaves exactly those that did not decide to leave, in order. */
  lemma {:induction false} PassKeepsStaying(tasks: seq<Pointer>, leaves: seq<bool>)
    requires |leaves| == |tasks| && NoDuplicates(tasks)
    ensures AfterPass(tasks, leaves) == Staying(tasks, leaves)
    ensures forall t :: t in Staying(tasks, leaves) ==> t in tasks
  {
    if tasks != [] {
      var n := |tasks| - 1;
      PassKeepsStaying(tasks[..n], leaves[..n]);
      var rest := AfterPass(tasks[..n], leaves[..n]);
      if leaves[n] {
        RemoveFirstAt(rest + [tasks[n]], tasks[n], |rest|);
      }
    }
  }

  /** Every task with a callback is called exactly as often as it stands in the queue. */
  lemma {:induction false} VisitsOnce(tasks: seq<Pointer>, callbacks: set<Pointer>, phase: int, task: Pointer)
    ensures multiset(Visits(tasks, callbacks, phase))[Visit(task, phase)] ==
            if task in callbacks then multiset(tasks)[task] else 0
  {
    if tasks != [] {
      var n := |tasks| - 1;
      VisitsOnce(tasks[..n], callbacks, phase, task);
      OneMoreOf(tasks[..n], tasks[n], task);
      OneMoreOf(Visits(tasks[..n], callbacks, phase), Visit(tasks[n], phase), Visit(task, phase));
      NothingAfter(Visits(tasks[..n], callbacks, phase));
      assert tasks == tasks[..n] + [tasks[n]];
    }
  }

  lemma {:induction false} OneMoreOf<T>(s: seq<T>, x: T, y: T)
    ensures multiset(s + [x])[y] == multiset(s)[y] + if x == y then 1 else 0
  {
  }

  ghost predicate NoDestructors(root: Root) {
    forall p :: 0 <= p < |root.items| ==> root.items[p].destructor == None
  }

  lemma {:induction false} NothingToDestroy(cells: seq<Cell>, overrideDeferred: bool)
    requires forall p :: 0 <= p < |cells| ==> cells[p].destructor == None
    ensures CompactionCalls(cells, None, overrideDeferred) == []
  {
    if cells != [] {
      NothingToDestroy(cells[..|cells| - 1], overrideDeferred);
    }
  }

  lemma {:induction false} AppendedNoDestructors(before: Root, after: Root, value: Pointer)
    requires before.Consistent() && NoDestructors(before) && after.Consistent() && after.Used() == before.Used() + 1
    requires after.Cells()[..after.Used()] == before.Cells()[..before.Used()] + [Cell(InUse, value, None)]
    ensures NoDestructors(after)
  {
    forall p | 0 <= p < |after.items|
      ensures after.items[p].destructor == None
    {
      assert Fits(after.items[p], p < after.Used());
      if p < after.Used() {
        assert after.Cells()[..after.Used()][p].destructor == None;
      }
    }
  }

  lemma {:induction false} PackedNoDestructors(after: Root, cells: seq<Cell>)
    requires after.Consistent() && after.Cells()[..after.Used()] == Packed(cells)
    ensures NoDestructors(after)
  {
    forall p | 0 <= p < |after.items|
      ensures after.items[p].destructor == None
    {
      assert Fits(after.items[p], p < after.Used());
      if p < after.Used() {
        assert after.Cells()[..after.Used()][p].destructor == None;
      }
    }
  }

  lemma {:induction false} SamePosition(root: Root, i: nat, k: nat)
    requires i < |root.Order()| && k < |root.Order()| && root.Order()[i] == root.Order()[k]
    ensures i == k
  {
    OrderAscendsAt(root, k);
  }

  lemma {:induction false} RemovedStaysSound(before: Root, after: Root, item: nat, k: nat)
    requires NoDestructors(before) && Null !in before.Values() && k < |before.Values()|
    requires item < |before.items| == |after.items|
    requires after.Cells() == before.Cells()[item := Punched(before.Cells()[item], None, true)]
    requires after.Values() == before.Values()[..k] + before.Values()[k + 1..]
    ensures NoDestructors(after) && Null !in after.Values()
  {
    forall p | 0 <= p < |after.items|
      ensures after.items[p].destructor == None
    {
      assert after.Cells()[p].destructor == None;
    }
  }

  /** Removing the first occurrence of the task a pass stands on only concerns what the pass has already seen. */
  lemma {:induction false} LeavingStep(tasks: seq<Pointer>, leaves: seq<bool>, i: nat, k: nat)
    requires |leaves| == |tasks| && i < |tasks| && leaves[i]
    requires var queue := AfterPass(tasks[..i], leaves[..i]) + tasks[i..];
             k < |queue| && queue[k] == tasks[i] && tasks[i] !in queue[..k]
    ensures var seen := AfterPass(tasks[..i], leaves[..i]);
            && k <= |seen|
            && AfterPass(tasks[..i + 1], leaves[..i + 1]) == Without(seen + [tasks[i]], k)
            && Without(seen + tasks[i..], k) == Without(seen + [tasks[i]], k) + tasks[i + 1..]
  {
    var seen := AfterPass(tasks[..i], leaves[..i]);
    var queue := seen + tasks[i..];
    assert queue[|seen|] == tasks[i];
    assert k <= |seen|;
    assert queue[..k] == (seen + [tasks[i]])[..k];
    RemoveFirstAt(seen + [tasks[i]], tasks[i], k);
    assert tasks[..i + 1][..i] == tasks[..i] && leaves[..i + 1][..i] == leaves[..i];
    WithoutPrefix(seen, tasks[i..], k);
  }

  lemma {:induction false} StayingStep(tasks: seq<Pointer>, leaves: seq<bool>, i: nat)
    requires |leaves| == |tasks| && i < |tasks| && !leaves[i]
    ensures AfterPass(tasks[..i + 1], leaves[..i + 1]) == AfterPass(tasks[..i], leaves[..i]) + [tasks[i]]
    ensures AfterPass(tasks[..i], leaves[..i]) + tasks[i..] ==
            AfterPass(tasks[..i + 1], leaves[..i + 1]) + tasks[i + 1..]
  {
    assert tasks[..i + 1][..i] == tasks[..i] && leaves[..i + 1][..i] == leaves[..i];
  }

  lemma {:induction false} WithoutPrefix<T>(seen: seq<T>, ahead: seq<T>, k: nat)
    requires ahead != [] && k <= |seen|
    ensures Without(seen + ahead, k) == Without(seen + [ahead[0]], k) + ahead[1..]
  {
  }

  /** Where the pass moves on to once the item it stands on, or one before it, has left the queue. */
  lemma {:induction false} NextAfterLeaving(w: Walk, held: seq<Pointer>, seen: seq<nat>, ahead: seq<nat>, task: Pointer)
    requires IsWalk(w, held) && ahead != [] && w.order == seen + ahead
    requires FirstOf(TasksOf(w.order, held), task) <= |seen|
    ensures var (k, after) := (FirstOf(TasksOf(w.order, held), task), TakenOut(w, held, task));
            && after.order == Without(seen + [ahead[0]], k) + ahead[1..]
            && Known(after, ahead[0]) && NextOf(after, ahead[0]) == LinkTo(ahead, 1)
  {
    var k, after := FirstOf(TasksOf(w.order, held), task), TakenOut(w, held, task);
    WithoutPrefix(seen, ahead, k);
    LeavingKeeps(w, held, k);
    if k < |seen| {
      assert after.order[|seen| - 1] == ahead[0];
      IndexIs(after.order, |seen| - 1);
    }
  }

  lemma {:induction false} NextAfterStaying(w: Walk, held: seq<Pointer>, seen: seq<nat>, ahead: seq<nat>)
    requires IsWalk(w, held) && ahead != [] && w.order == seen + ahead
    ensures w.order == seen + [ahead[0]] + ahead[1..]
    ensures Known(w, ahead[0]) && NextOf(w, ahead[0]) == LinkTo(ahead, 1)
  {
    assert w.order[|seen|] == ahead[0];
    IndexIs(w.order, |seen|);
  }

  /** Callbacks that take out nothing but their own tasks; `leaves` tells which of the tasks in the queue do. */
  ghost predicate OwnTurns(order: seq<nat>, held: seq<Pointer>, turns: seq<seq<Pointer>>, leaves: seq<bool>)
    requires Within(order, held) && |turns| == |held| && |leaves| == |order|
  {
    forall i :: 0 <= i < |order| ==> turns[order[i]] == if leaves[i] then [held[order[i]]] else []
  }

  /** A pass over the items in `order` whose callbacks take out their own tasks has come to the i-th of them. */
  ghost predicate PassAt(w: Walk, held: seq<Pointer>, order: seq<nat>, leaves: seq<bool>, seen: seq<nat>, i: nat) {
    && IsWalk(w, held) && Within(order, held) && Within(seen, held) && i <= |leaves| == |order|
    && w.order == seen + order[i..]
    && TasksOf(seen, held) == AfterPass(TasksOf(order, held)[..i], leaves[..i])
  }

  lemma {:induction false} TasksOfParts(a: seq<nat>, b: seq<nat>, held: seq<Pointer>)
    requires Within(a, held) && Within(b, held)
    ensures Within(a + b, held) && TasksOf(a + b, held) == TasksOf(a, held) + TasksOf(b, held)
  {
    assert forall k :: 0 <= k < |a + b| ==> (a + b)[k] == if k < |a| then a[k] else b[k - |a|];
  }

  /** The tasks of a queue from which one is removed. */
  lemma {:induction false} TasksOfWithout(order: seq<nat>, held: seq<Pointer>, k: nat)
    requires Within(order, held) && k < |order|
    ensures Within(Without(order, k), held)
    ensures TasksOf(Without(order, k), held) == Without(TasksOf(order, held), k)
  {
    var rest := Without(order, k);
    assert forall j :: 0 <= j < |rest| ==> rest[j] == order[if j < k then j else j + 1];
  }

  lemma {:induction false} OwnTurnStays(
    w: Walk, held: seq<Pointer>, order: seq<nat>, leaves: seq<bool>, seen: seq<nat>, i: nat)
    requires PassAt(w, held, order, leaves, seen, i) && i < |order| && !leaves[i]
    ensures PassAt(w, held, order, leaves, seen + [order[i]], i + 1)
    ensures Known(w, order[i]) && NextOf(w, order[i]) == LinkTo(order, i + 1)
  {
    NextAfterStaying(w, held, seen, order[i..]);
    StayingStep(TasksOf(order, held), leaves, i);
    TasksOfParts(seen, [order[i]], held);
    assert TasksOf([order[i]], held) == [TasksOf(order, held)[i]];
    assert order[i..][1..] == order[i + 1..];
  }

  /** What a queue looks like to the callback that takes its own task out. */
  lemma {:induction false} OwnTaskAhead(
    w: Walk, held: seq<Pointer>, order: seq<nat>, leaves: seq<bool>, seen: seq<nat>, i: nat)
    requires PassAt(w, held, order, leaves, seen, i) && i < |order|
    ensures var tasks := TasksOf(order, held);
            TasksOf(w.order, held) == AfterPass(tasks[..i], leaves[..i]) + tasks[i..]
  {
    TasksOfParts(seen, order[i..], held);
    assert TasksOf(order[i..], held) == TasksOf(order, held)[i..];
  }

  lemma {:induction false} OwnTurnLeaves(
    w: Walk, held: seq<Pointer>, order: seq<nat>, leaves: seq<bool>, seen: seq<nat>, i: nat)
    returns (seenNow: seq<nat>)
    requires PassAt(w, held, order, leaves, seen, i) && i < |order| && leaves[i]
    ensures var after := TakenOut(w, held, held[order[i]]);
            && PassAt(after, held, order, leaves, seenNow, i + 1)
            && Known(after, order[i]) && NextOf(after, order[i]) == LinkTo(order, i + 1)
  {
    var tasks := TasksOf(order, held);
    var k := FirstOf(TasksOf(w.order, held), tasks[i]);
    OwnTaskAhead(w, held, order, leaves, seen, i);
    assert TasksOf(w.order, held)[|seen|] == tasks[i];
    LeavingStep(tasks, leaves, i, k);
    NextAfterLeaving(w, held, seen, order[i..], tasks[i]);
    TakenOutKeeps(w, held, tasks[i]);
    SeenWithout(held, seen, order[i], k);
    assert order[i..][1..] == order[i + 1..];
    seenNow := Without(seen + [order[i]], k);
  }

  lemma {:induction false} SeenWithout(held: seq<Pointer>, seen: seq<nat>, p: nat, k: nat)
    requires Within(seen, held) && p < |held| && k <= |seen|
    ensures Within(Without(seen + [p], k), held)
    ensures TasksOf(Without(seen + [p], k), held) == Without(TasksOf(seen, held) + [held[p]], k)
  {
    TasksOfParts(seen, [p], held);
    TasksOfWithout(seen + [p], held, k);
    assert TasksOf([p], held) == [held[p]];
  }

  lemma {:induction false} OwnTurn(
    w: Walk, held: seq<Pointer>, order: seq<nat>, leaves: seq<bool>, turn: seq<Pointer>, seen: seq<nat>, i: nat)
    returns (seenNow: seq<nat>)
    requires PassAt(w, held, order, leaves, seen, i) && i < |order|
    requires turn == if leaves[i] then [held[order[i]]] else []
    ensures order[i] in w.order
    ensures var after := AfterTurn(w, held, turn);
            && PassAt(after, held, order, leaves, seenNow, i + 1)
            && Known(after, order[i]) && NextOf(after, order[i]) == LinkTo(order, i + 1)
  {
    assert w.order[|seen|] == order[i];
    OneTask(w, held, held[order[i]]);
    if leaves[i] {
      seenNow := OwnTurnLeaves(w, held, order, leaves, seen, i);
    } else {
      seenNow := seen + [order[i]];
      OwnTurnStays(w, held, order, leaves, seen, i);
    }
  }

  lemma {:induction false} OwnPassEnds(w: Walk, held: seq<Pointer>, order: seq<nat>, leaves: seq<bool>, seen: seq<nat>)
    requires PassAt(w, held, order, leaves, seen, |order|)
    ensures TasksOf(w.order, held) == AfterPass(TasksOf(order, held), leaves) && order[|order|..] == []
  {
    var tasks := TasksOf(order, held);
    assert tasks[..|order|] == tasks && leaves[..|order|] == leaves && seen + [] == seen;
  }

  lemma {:induction false} OwnPassFurther(
    w: Walk, held: seq<Pointer>, order: seq<nat>, turns: seq<seq<Pointer>>, i: nat, after: Walk)
    requires i < |order| && |turns| == |held| && Standing(w, held, ItemAt(order[i])) && order[i] in w.order
    requires after == AfterTurn(w, held, turns[order[i]])
    requires Known(after, order[i]) && NextOf(after, order[i]) == LinkTo(order, i + 1)
    ensures Standing(after, held, LinkTo(order, i + 1))
    ensures var rest := Pass(after, held, turns, LinkTo(order, i + 1));
            var r := Pass(w, held, turns, LinkTo(order, i));
            r.0 == rest.0 && (rest.1 == order[i + 1..] ==> r.1 == order[i..])
    ensures OnlyScheduled(after, held, turns, LinkTo(order, i + 1)) ==> OnlyScheduled(w, held, turns, LinkTo(order, i))
  {
    PassFurther(w, held, turns, order[i], after);
    assert [order[i]] + order[i + 1..] == order[i..];
  }

  lemma {:induction false} OwnPass(
    w: Walk, held: seq<Pointer>, order: seq<nat>, turns: seq<seq<Pointer>>, leaves: seq<bool>, seen: seq<nat>, i: nat)
    requires PassAt(w, held, order, leaves, seen, i) && Standing(w, held, LinkTo(order, i))
    requires |turns| == |held| && OwnTurns(order, held, turns, leaves)
    ensures var r := Pass(w, held, turns, LinkTo(order, i));
            && r.1 == order[i..]
            && Within(r.0.order, held) && TasksOf(r.0.order, held) == AfterPass(TasksOf(order, held), leaves)
    ensures OnlyScheduled(w, held, turns, LinkTo(order, i))
    decreases |order| - i
  {
    if i == |order| {
      OwnPassEnds(w, held, order, leaves, seen);
    } else {
      var seenNow := OwnTurn(w, held, order, leaves, turns[order[i]], seen, i);
      var after := AfterTurn(w, held, turns[order[i]]);
      OwnPassFurther(w, held, order, turns, i, after);
      OwnPass(after, held, order, turns, leaves, seenNow, i + 1);
    }
  }

  /**
   Whatever tasks the callbacks of a pass unschedule: it visits items in the order of the queue, each one at most once,
   none that was not in the queue at its start, and all that are in the queue at its end. It visits only items that are
   in the queue at that time if and only if no callback takes out its own item and after that the one next to it.
   */
  lemma {:induction false} PassExactly(root: Root, callbacks: set<Pointer>, turns: seq<seq<Pointer>>)
    requires root.Consistent() && |turns| == |root.items|
    ensures var (after, visited) := PassOver(root, callbacks, turns);
            && Ascends(visited) && (forall p :: p in visited ==> p in root.Order())
            && (forall p :: p in after ==> p in visited)
    ensures var (w, held, acts) := (WalkOf(root), HeldBy(root), Turns(HeldBy(root), callbacks, turns));
            Standing(w, held, root.first) &&
            (OnlyScheduled(w, held, acts, root.first) <==> NoneStrands(w, held, acts, root.first))
  {
    PassStarts(root);
    var (w, held, acts) := (WalkOf(root), HeldBy(root), Turns(HeldBy(root), callbacks, turns));
    PassOnlyTakes(w, held, acts, root.first);
    StayingIsVisited(w, held, acts, root.first);
    VisitedWasThere(w, held, acts, root.first);
    OnlyScheduledExactly(w, held, acts, root.first);
    forall p | p in PassOver(root, callbacks, turns).0
      ensures root.first.ItemAt? && root.first.pos <= p
    {
      var k :| 0 <= k < |root.Order()| && root.Order()[k] == p;
      assert k > 0 ==> root.Order()[0] < root.Order()[k];
    }
  }

  /**
   If callbacks take out nothing but their own tasks, as `decisions` says, a pass calls every task scheduled at its
   start, in order, and only while it is scheduled, and takes out those that leave.
   */
  lemma {:induction false} PassOfOwnTurns(
    root: Root, callbacks: set<Pointer>, turns: seq<seq<Pointer>>, decisions: seq<bool>, phase: int)
    requires root.Consistent() && |turns| == |root.items| && |decisions| == |root.Values()| == |root.Order()|
    requires forall i :: 0 <= i < |decisions| ==>
               root.Order()[i] < |turns| &&
               turns[root.Order()[i]] == if decisions[i] then [root.Values()[i]] else []
    ensures AfterRun(true, root, callbacks, turns) ==
            AfterPass(root.Values(), Leaves(root.Values(), callbacks, decisions))
    ensures VisitsIf(true, root, callbacks, turns, phase) == Visits(root.Values(), callbacks, phase)
    ensures Standing(WalkOf(root), HeldBy(root), root.first)
    ensures OnlyScheduled(WalkOf(root), HeldBy(root), Turns(HeldBy(root), callbacks, turns), root.first)
  {
    var (held, order, leaves) := (HeldBy(root), root.Order(), Leaves(root.Values(), callbacks, decisions));
    PassStarts(root);
    OwnTurnsOf(held, order, root.Values(), callbacks, turns, decisions);
    NothingSeen(order, held);
    OwnPass(WalkOf(root), held, order, Turns(held, callbacks, turns), leaves, [], 0);
  }

  lemma {:induction false} NothingSeen(order: seq<nat>, held: seq<Pointer>)
    ensures order[0..] == order && [] + order == order && Within([], held) && TasksOf([], held) == []
  {
  }

  lemma {:induction false} OwnTurnsOf(
    held: seq<Pointer>, order: seq<nat>, tasks: seq<Pointer>, callbacks: set<Pointer>, turns: seq<seq<Pointer>>,
    decisions: seq<bool>)
    requires |turns| == |held| && Within(order, held) && tasks == TasksOf(order, held) && |decisions| == |order|
    requires forall i :: 0 <= i < |decisions| ==> turns[order[i]] == if decisions[i] then [tasks[i]] else []
    ensures OwnTurns(order, held, Turns(held, callbacks, turns), Leaves(tasks, callbacks, decisions))
  {
    forall i | 0 <= i < |order|
      ensures Turns(held, callbacks, turns)[order[i]] ==
              if Leaves(tasks, callbacks, decisions)[i] then [held[order[i]]] else []
    {
      assert held[order[i]] == tasks[i];
    }
  }

  /** A list whose items lead to where a walk says. */
  ghost predicate Shows(root: Root, w: Walk, held: seq<Pointer>) {
    && root.Consistent() && IsWalk(w, held) && HeldBy(root) == held && root.Order() == w.order
    && forall p :: p in w.left ==> root.items[p].next == w.left[p]
  }

  lemma {:induction false} ShownNext(root: Root, w: Walk, held: seq<Pointer>, p: nat)
    requires Shows(root, w, held) && Known(w, p)
    ensures p < |root.items| && root.items[p].next == NextOf(w, p) && root.items[p].value == held[p]
  {
    if p !in w.left {
      ChainItem(root, IndexIn(w.order, p));
    }
  }

  lemma {:induction false} FirstIs(tasks: seq<Pointer>, task: Pointer, k: nat)
    requires k <= |tasks| && task !in tasks[..k] && (k < |tasks| ==> tasks[k] == task)
    ensures FirstOf(tasks, task) == k
  {
    if k > 0 {
      assert tasks[0] == tasks[..k][0];
      assert tasks[1..][..k - 1] == tasks[..k][1..];
      FirstIs(tasks[1..], task, k - 1);
    }
  }

  /** Taking out the k-th item, which is the first one that holds `task`. */
  lemma {:induction false} ShowsTakenOut(before: Root, after: Root, w: Walk, held: seq<Pointer>, task: Pointer, k: nat)
    requires Shows(before, w, held) && after.Consistent() && k < |before.Values()| == |before.Order()|
    requires before.Values()[k] == task && task !in before.Values()[..k]
    requires after.Order() == Without(before.Order(), k) && HeldBy(after) == held && OthersLeadOn(before, after)
    requires before.Order()[k] < |after.items| && after.items[before.Order()[k]].next == LinkTo(before.Order(), k + 1)
    ensures Shows(after, TakenOut(w, held, task), held)
  {
    PassStarts(before);
    FirstIs(before.Values(), task, k);
    TakenOutKeeps(w, held, task);
  }

  lemma {:induction false} ShowsUnchanged(root: Root, w: Walk, held: seq<Pointer>, task: Pointer)
    requires Shows(root, w, held) && task !in root.Values()
    ensures TakenOut(w, held, task) == w
  {
    PassStarts(root);
    FirstIs(root.Values(), task, |root.Values()|);
  }

  lemma {:induction false} PunchedHolds(before: Root, after: Root, item: nat)
    requires item < |before.items|
    requires after.Cells() == before.Cells()[item := Punched(before.Cells()[item], None, true)]
    ensures HeldBy(after) == HeldBy(before)
  {
    forall p | 0 <= p < |before.items|
      ensures |after.items| == |before.items| && after.items[p].value == before.items[p].value
    {
      assert after.Cells()[p].value == before.Cells()[p].value;
    }
  }

  lemma {:induction false} VisitsStep(before: seq<nat>, p: nat, held: seq<Pointer>, callbacks: set<Pointer>, phase: int)
    requires Within(before, held) && p < |held|
    ensures Within(before + [p], held)
    ensures Visits(TasksOf(before + [p], held), callbacks, phase) ==
            Visits(TasksOf(before, held), callbacks, phase) +
            if held[p] in callbacks then [Visit(held[p], phase)] else []
  {
    TasksOfParts(before, [p], held);
    var tasks := TasksOf(before + [p], held);
    assert tasks[..|tasks| - 1] == TasksOf(before, held);
  }

  lemma {:induction false} NotYet(tasks: seq<Pointer>, k: nat, task: Pointer)
    requires k < |tasks| && task !in tasks[..k] && tasks[k] != task
    ensures task !in tasks[..k + 1]
  {
    assert tasks[..k + 1] == tasks[..k] + [tasks[k]];
  }

  class TaskSchedule {
    const queues: seq<PreallocList>
    var destructionPending: bool
    ghost var visits: seq<Visit>   // every callback invocation made so far

    ghost predicate Valid()
      reads this, queues
    {
      && |queues| == NUM_TASK_QUEUES
      && queues[0] != queues[1]
      && Sound(queues[0])
      && Sound(queues[1])
    }

    /** A queue never holds NULL, and never has a destructor recorded. */
    static ghost predicate Sound(queue: PreallocList)
      reads queue
    {
      queue.Valid() && NoDestructors(queue.root) && Null !in queue.root.Values()
    }

    constructor ()
      ensures Valid() && fresh(queues[0]) && fresh(queues[1])
      ensures !destructionPending && visits == []
      ensures queues[0].root.Values() == [] == queues[1].root.Values()
    {
      var before := new PreallocList();
      var after := new PreallocList();
      queues, destructionPending, visits := [before, after], false, [];
      new;
      NothingLive(before.root.Cells());
      NothingLive(after.root.Cells());
    }

    /** The objects an operation on `phase` may touch. */
    ghost function QueueOf(phase: int): set<object>
      requires |queues| == NUM_TASK_QUEUES
    {
      if 0 <= phase < NUM_TASK_QUEUES then {queues[phase]} else {}
    }

    /** `blockAvailable` tells whether the queue could allocate a block, should it need one. */
    method ScheduleTask(task: Pointer, phase: int, blockAvailable: bool) returns (err: Error)
      requires Valid()
      modifies QueueOf(phase)
      ensures Valid()
      ensures err == if task == Null then Unspecific
                     else if phase < 0 || phase >= NUM_TASK_QUEUES then InvalidPhase
                     else if destructionPending then DestructionPending
                     else if old(queues[phase].root.Used() == |queues[phase].root.items|) && !blockAvailable then
                       Unspecific
                     else Ok
      ensures 0 <= phase < NUM_TASK_QUEUES ==>
        queues[phase].root.Values() == old(queues[phase].root.Values()) + if err == Ok then [task] else []
    {
      if task == Null {
        return Unspecific;
      }
      if phase < 0 || phase >= NUM_TASK_QUEUES {
        return InvalidPhase;
      }
      if destructionPending {
        return DestructionPending;
      }
      var ok := Enqueue(queues[phase], task, blockAvailable);
      return if ok then Ok else Unspecific;
    }

    static method Enqueue(queue: PreallocList, task: Pointer, blockAvailable: bool) returns (ok: bool)
      requires Sound(queue) && task != Null
      modifies queue
      ensures Sound(queue)
      ensures ok <==> old(queue.root.Used() != |queue.root.items|) || blockAvailable
      ensures queue.root.Values() == old(queue.root.Values()) + if ok then [task] else []
    {
      ghost var before := queue.root;
      ok := queue.Append(task, blockAvailable);
      if ok {
        AppendedNoDestructors(before, queue.root, task);
      }
    }

    /** Finds the first item holding `task`, walking the chain; `k` is its index. */
    static method Find(queue: PreallocList, task: Pointer) returns (item: Link, ghost k: nat)
      requires queue.Valid()
      ensures item == NoItem ==> task !in queue.root.Values()
      ensures item != NoItem ==>
                k < |queue.root.Values()| == |queue.root.Order()| && item == ItemAt(queue.root.Order()[k])
      ensures item != NoItem ==> queue.root.Values()[k] == task && task !in queue.root.Values()[..k]
      ensures item != NoItem ==> item.pos < |queue.root.items| && queue.root.items[item.pos].status == InUse
    {
      k := 0;
      item := queue.root.first;
      SizeOfValues(queue.root);
      while item != NoItem
        invariant k <= |queue.root.Order()| == |queue.root.Values()| && item == LinkTo(queue.root.Order(), k)
        invariant task !in queue.root.Values()[..k]
        decreases |queue.root.Order()| - k
      {
        ChainItem(queue.root, k);
        if queue.root.items[item.pos].value == task {
          return;
        }
        NotYet(queue.root.Values(), k, task);
        item := queue.root.items[item.pos].next;
        k := k + 1;
      }
    }

    /** Takes the first occurrence of `task` out of the queue; the item taken out still leads to its successor. */
    static method Dequeue(queue: PreallocList, task: Pointer) returns (ok: bool, ghost k: nat)
      requires Sound(queue)
      modifies queue
      ensures Sound(queue) && queue.calls == old(queue.calls)
      ensures ok <==> task in old(queue.root.Values())
      ensures !ok ==> unchanged(queue)
      ensures ok ==> k < |old(queue.root.Values())| == |old(queue.root.Order())|
      ensures ok ==> old(queue.root.Values())[k] == task && task !in old(queue.root.Values())[..k]
      ensures ok ==> queue.root.Values() == old(queue.root.Values())[..k] + old(queue.root.Values())[k + 1..]
      ensures ok ==> queue.root.Order() == old(queue.root.Order())[..k] + old(queue.root.Order())[k + 1..]
      ensures ok ==> var p := old(queue.root.Order())[k];
                     p < |queue.root.items| && queue.root.items[p].next == LinkTo(old(queue.root.Order()), k + 1)
      ensures ok ==> HeldBy(queue.root) == old(HeldBy(queue.root)) && OthersLeadOn(old(queue.root), queue.root)
    {
      var item;
      item, k := Find(queue, task);
      if item == NoItem {
        return false, k;
      }
      ghost var before := queue.root;
      ChainItem(before, k);
      ghost var i;
      ok, i := queue.DeleteItem(item.pos, None, true);
      SamePosition(before, i, k);
      RemovedStaysSound(before, queue.root, item.pos, k);
      PunchedHolds(before, queue.root, item.pos);
    }

    /** Unscheduling during a pass, which may fail. */
    static method TakeOut(queue: PreallocList, task: Pointer, ghost held: seq<Pointer>, ghost w: Walk)
      requires Sound(queue) && Shows(queue.root, w, held)
      modifies queue
      ensures Sound(queue) && queue.calls == old(queue.calls)
      ensures Shows(queue.root, TakenOut(w, held, task), held)
    {
      ghost var before := queue.root;
      var ok;
      ghost var k;
      ok, k := Dequeue(queue, task);
      if ok {
        ShowsTakenOut(before, queue.root, w, held, task, k);
      } else {
        ShowsUnchanged(before, w, held, task);
      }
    }

    /** A callback that unschedules some tasks. */
    static method RunCallback(queue: PreallocList, turn: seq<Pointer>, ghost held: seq<Pointer>, ghost w: Walk)
      requires Sound(queue) && Shows(queue.root, w, held)
      modifies queue
      ensures Sound(queue) && queue.calls == old(queue.calls)
      ensures Shows(queue.root, AfterTurn(w, held, turn), held)
    {
      ghost var now := w;
      assert turn[0..] == turn;
      for i := 0 to |turn|
        invariant Sound(queue) && queue.calls == old(queue.calls)
        invariant Shows(queue.root, now, held) && AfterTurn(now, held, turn[i..]) == AfterTurn(w, held, turn)
      {
        assert turn[i..][1..] == turn[i + 1..];
        TakeOut(queue, turn[i], held, now);
        now := TakenOut(now, held, turn[i]);
      }
      assert turn[|turn|..] == [];
    }

    /** Runs the callback of the task at `item`, which may take out any tasks, and moves on. */
    static method RunItem(
      queue: PreallocList, phase: int, item: nat, callbacks: set<Pointer>, turn: seq<Pointer>,
      ghost held: seq<Pointer>, ghost w: Walk)
      returns (next: Link, ghost now: Walk, ghost ran: seq<Visit>)
      requires Sound(queue) && Shows(queue.root, w, held) && Standing(w, held, ItemAt(item))
      modifies queue
      ensures Sound(queue) && queue.calls == old(queue.calls)
      ensures now == AfterTurn(w, held, if held[item] in callbacks then turn else []) && Shows(queue.root, now, held)
      ensures Known(now, item) && next == NextOf(now, item)
      ensures ran == if held[item] in callbacks then [Visit(held[item], phase)] else []
    {
      ShownNext(queue.root, w, held, item);
      TurnKeeps(w, held, if held[item] in callbacks then turn else []);
      ran, now := [], w;
      var task := queue.root.items[item].value;
      if task in callbacks {
        ran, now := [Visit(task, phase)], AfterTurn(w, held, turn);
        RunCallback(queue, turn, held, w);
      }
      ShownNext(queue.root, now, held, item);
      next := queue.root.items[item].next;
    }

    /** Walks the queue and runs every callback; `turns` tells, item by item, which tasks its callback unschedules. */
    static method RunQueue(queue: PreallocList, phase: int, callbacks: set<Pointer>, turns: seq<seq<Pointer>>)
      returns (ghost ran: seq<Visit>)
      requires Sound(queue) && |turns| == |queue.root.items|
      modifies queue
      ensures Sound(queue) && queue.calls == old(queue.calls)
      ensures ran == VisitsIf(true, old(queue.root), callbacks, turns, phase)
      ensures queue.root.Order() == PassOver(old(queue.root), callbacks, turns).0
      ensures queue.root.Values() == AfterRun(true, old(queue.root), callbacks, turns)
    {
      PassStarts(queue.root);
      ghost var held, w := HeldBy(queue.root), WalkOf(queue.root);
      ghost var acts := Turns(held, callbacks, turns);
      ghost var whole := Pass(w, held, acts, queue.root.first);
      ghost var visited: seq<nat> := [];
      ran := [];
      var item := queue.root.first;
      while item != NoItem
        invariant Sound(queue) && queue.calls == old(queue.calls)
        invariant Shows(queue.root, w, held) && OnTheWay(whole, visited, w, held, acts, item)
        invariant ran == Visits(TasksOf(visited, held), callbacks, phase)
        decreases if item.ItemAt? then |held| - item.pos else 0
      {
        ghost var p, before := item.pos, w;
        ghost var one;
        item, w, one := RunItem(queue, phase, item.pos, callbacks, turns[item.pos], held, w);
        FurtherOnTheWay(whole, visited, before, held, acts, p, w);
        VisitsStep(visited, p, held, callbacks, phase);
        visited, ran := visited + [p], ran + one;
      }
      NothingAfter(visited);
      ValuesAreHeld(queue.root);
    }

    /** Whether a pass for `phase` runs queue `q`: post-processing runs all queues, other phases their own. */
    predicate Runs(phase: int, q: nat)
      reads `destructionPending
    {
      !destructionPending && (phase == POST_PROCESSING || phase == q)
    }

    /** A pass. `turns` holds one script for each queue, see RunQueue. */
    method RunTasks(phase: int, callbacks: set<Pointer>, turns: seq<seq<seq<Pointer>>>)
      requires Valid() && |turns| == NUM_TASK_QUEUES
      requires |turns[0]| == |queues[0].root.items| && |turns[1]| == |queues[1].root.items|
      modifies `visits, queues
      ensures Valid()
      ensures visits == old(visits) + VisitsIf(Runs(phase, 0), old(queues[0].root), callbacks, turns[0], phase)
                        + VisitsIf(Runs(phase, 1), old(queues[1].root), callbacks, turns[1], phase)
      ensures queues[0].root.Values() == AfterRun(Runs(phase, 0), old(queues[0].root), callbacks, turns[0])
      ensures queues[1].root.Values() == AfterRun(Runs(phase, 1), old(queues[1].root), callbacks, turns[1])
      ensures queues[0].calls == old(queues[0].calls) && queues[1].calls == old(queues[1].calls)
    {
      if phase == POST_PROCESSING {
        RunPostProcessing(callbacks, turns);
      } else if 0 <= phase < NUM_TASK_QUEUES {
        RunPhase(phase, callbacks, turns[phase]);
      }
      NothingAfter(old(visits));
      NothingAfter(visits);
    }

    method RunPostProcessing(callbacks: set<Pointer>, turns: seq<seq<seq<Pointer>>>)
      requires Valid() && |turns| == NUM_TASK_QUEUES
      requires |turns[0]| == |queues[0].root.items| && |turns[1]| == |queues[1].root.items|
      modifies `visits, queues
      ensures Valid()
      ensures visits ==
              old(visits) + VisitsIf(!destructionPending, old(queues[0].root), callbacks, turns[0], POST_PROCESSING)
                        + VisitsIf(!destructionPending, old(queues[1].root), callbacks, turns[1], POST_PROCESSING)
      ensures queues[0].root.Values() ==
              AfterRun(!destructionPending, old(queues[0].root), callbacks, turns[0])
      ensures queues[1].root.Values() ==
              AfterRun(!destructionPending, old(queues[1].root), callbacks, turns[1])
      ensures queues[0].calls == old(queues[0].calls) && queues[1].calls == old(queues[1].calls)
    {
      if destructionPending {
        return;
      }
      ghost var first := RunQueue(queues[0], POST_PROCESSING, callbacks, turns[0]);
      ghost var second := RunQueue(queues[1], POST_PROCESSING, callbacks, turns[1]);
      visits := visits + first + second;
    }

    method RunPhase(phase: nat, callbacks: set<Pointer>, turns: seq<seq<Pointer>>)
      requires Valid() && phase < NUM_TASK_QUEUES && Sound(queues[phase]) && |turns| == |queues[phase].root.items|
      modifies `visits, queues[phase]
      ensures Valid()
      ensures visits == old(visits) + VisitsIf(!destructionPending, old(queues[phase].root), callbacks, turns, phase)
      ensures queues[phase].root.Values() ==
              AfterRun(!destructionPending, old(queues[phase].root), callbacks, turns)
      ensures queues[phase].calls == old(queues[phase].calls)
    {
      if destructionPending {
        return;
      }
      ghost var ran := RunQueue(queues[phase], phase, callbacks, turns);
      visits := visits + ran;
    }

    method UnscheduleTask(task: Pointer, phase: int) returns (err: Error)
      requires Valid()
      modifies QueueOf(phase)
      ensures Valid()
      ensures err == if task == Null then Unspecific
                     else if phase < 0 || phase >= NUM_TASK_QUEUES then InvalidPhase
                     else if task !in old(queues[phase].root.Values()) then Unspecific
                     else Ok
      ensures err == Ok ==> queues[phase].root.Values() == RemoveFirst(old(queues[phase].root.Values()), task)
      ensures err != Ok && 0 <= phase < NUM_TASK_QUEUES ==> queues[phase].root == old(queues[phase].root)
    {
      if task == Null {
        return Unspecific;
      }
      if phase < 0 || phase >= NUM_TASK_QUEUES {
        return InvalidPhase;
      }
      ghost var tasks := queues[phase].root.Values();
      var ok;
      ghost var k;
      ok, k := Dequeue(queues[phase], task);
      if !ok {
        return Unspecific;
      }
      RemoveFirstAt(tasks, task, k);
      return Ok;
    }

    /**
     Compacts every queue, going on if one fails. No task is freed: nothing was ever recorded to do so.
     `allocations` tells for each queue how many block allocations would succeed.
     */
    method CleanSchedule(allocations: seq<nat>) returns (err: Error)
      requires Valid() && |allocations| == NUM_TASK_QUEUES
      modifies queues
      ensures Valid()
      ensures err == if destructionPending then DestructionPending
                     else if old(CanCompact(queues[0], allocations[0]) && CanCompact(queues[1], allocations[1])) then Ok
                     else Unspecific
      ensures err == Ok ==> !queues[0].root.HasDeleted() && !queues[1].root.HasDeleted()
      ensures queues[0].root.Values() == old(queues[0].root.Values()) && queues[0].calls == old(queues[0].calls)
      ensures queues[1].root.Values() == old(queues[1].root.Values()) && queues[1].calls == old(queues[1].calls)
    {
      if destructionPending {
        return DestructionPending;
      }
      var first := CompactQueue(queues[0], allocations[0]);
      var second := CompactQueue(queues[1], allocations[1]);
      return if first && second then Ok else Unspecific;
    }

    static predicate CanCompact(queue: PreallocList, allocations: nat)
      reads queue
    {
      !queue.root.dirty || BlocksFor(queue.root.size) <= allocations
    }

    static method CompactQueue(queue: PreallocList, allocations: nat) returns (ok: bool)
      requires Sound(queue)
      modifies queue
      ensures Sound(queue)
      ensures ok <==> old(CanCompact(queue, allocations))
      ensures ok ==> !queue.root.HasDeleted()
      ensures queue.root.Values() == old(queue.root.Values()) && queue.calls == old(queue.calls)
    {
      ghost var cells, wasDirty := queue.root.Cells(), queue.root.dirty;
      ok := queue.Compact(None, false, allocations);
      NothingToDestroy(cells, false);
      if ok && wasDirty {
        PackedNoDestructors(queue.root, cells);
      }
    }
  }
}
