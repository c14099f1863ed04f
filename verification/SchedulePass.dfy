/**
 A pass over a queue of tasks while callbacks take any tasks out of that queue. The pass only ever follows the link of
 the item it stands on; an item that has left keeps the link that it had then.
 */
module SchedulePass {
  import opened PreallocCells
  import opened PreallocList
  import opened Sequences

  /** The items in the queue, and where those lead to that have left it during the pass. */
  datatype Walk = Walk(order: seq<nat>, left: map<nat, Link>)

  ghost predicate Ascends(order: seq<nat>) {
    forall j, k :: 0 <= j < k < |order| ==> order[j] < order[k]
  }

  /** `held` tells, item by item, which task it holds. */
  ghost predicate Within(order: seq<nat>, held: seq<Pointer>) {
    forall k :: 0 <= k < |order| ==> order[k] < |held|
  }

  ghost function TasksOf(order: seq<nat>, held: seq<Pointer>): (tasks: seq<Pointer>)
    requires Within(order, held)
    ensures |tasks| == |order|
  {
    seq(|order|, k requires 0 <= k < |order| => held[order[k]])
  }

  /** `q` is a place to move on to from `p`: nothing in the queue lies between them. */
  ghost predicate LeadsOn(order: seq<nat>, p: nat, q: Link) {
    && (q.ItemAt? ==> p < q.pos)
    && (forall k :: 0 <= k < |order| && p < order[k] ==> q.ItemAt? && q.pos <= order[k])
  }

  ghost predicate Known(w: Walk, p: nat) {
    p in w.order || p in w.left
  }

  ghost predicate IsWalk(w: Walk, held: seq<Pointer>) {
    && Ascends(w.order) && Within(w.order, held)
    && (forall p :: p in w.left ==> p !in w.order && p < |held| && LeadsOn(w.order, p, w.left[p]))
    && (forall p :: p in w.left && w.left[p].ItemAt? ==> Known(w, w.left[p].pos))
  }

  ghost function IndexIn(order: seq<nat>, p: nat): (k: nat)
    requires p in order
    ensures k < |order| && order[k] == p
  {
    if order[0] == p then 0 else 1 + IndexIn(order[1..], p)
  }

  /** Where the link of an item leads to. */
  ghost function NextOf(w: Walk, p: nat): Link
    requires Known(w, p)
  {
    if p in w.left then w.left[p] else LinkTo(w.order, IndexIn(w.order, p) + 1)
  }

  /** The place in the queue of the first item that holds a task; the length of the queue if there is none. */
  ghost function FirstOf(tasks: seq<Pointer>, task: Pointer): (k: nat)
    ensures k <= |tasks| && task !in tasks[..k] && (k < |tasks| ==> tasks[k] == task)
  {
    if tasks == [] || tasks[0] == task then 0 else 1 + FirstOf(tasks[1..], task)
  }

  /** Dropping element `k` of a sequence. */
  ghost function Without<T>(s: seq<T>, k: nat): (rest: seq<T>)
    requires k < |s|
  {
    s[..k] + s[k + 1..]
  }

  /** Unscheduling a task. */
  ghost function TakenOut(w: Walk, held: seq<Pointer>, task: Pointer): (after: Walk)
    requires Within(w.order, held)
    ensures Within(after.order, held)
  {
    var k := FirstOf(TasksOf(w.order, held), task);
    if k == |w.order| then w else Walk(Without(w.order, k), w.left[w.order[k] := LinkTo(w.order, k + 1)])
  }

  /** A callback that unschedules some tasks, one after the other. */
  ghost function AfterTurn(w: Walk, held: seq<Pointer>, turn: seq<Pointer>): (after: Walk)
    requires Within(w.order, held)
    ensures Within(after.order, held)
    decreases |turn|
  {
    if turn == [] then w else AfterTurn(TakenOut(w, held, turn[0]), held, turn[1..])
  }

  lemma {:induction false} NextLeadsOn(w: Walk, held: seq<Pointer>, p: nat)
    requires IsWalk(w, held) && Known(w, p)
    ensures LeadsOn(w.order, p, NextOf(w, p))
    ensures NextOf(w, p).ItemAt? ==> Known(w, NextOf(w, p).pos) && NextOf(w, p).pos < |held|
  {
    if p !in w.left {
      IndexLeadsOn(w.order, IndexIn(w.order, p));
    }
  }

  lemma {:induction false} IndexLeadsOn(order: seq<nat>, k: nat)
    requires Ascends(order) && k < |order|
    ensures LeadsOn(order, order[k], LinkTo(order, k + 1))
  {
    assert forall j :: 0 <= j <= k ==> order[j] <= order[k];
  }

  lemma {:induction false} IndexIs(order: seq<nat>, k: nat)
    requires Ascends(order) && k < |order|
    ensures IndexIn(order, order[k]) == k
  {
    assert forall j :: 0 <= j < |order| && j != k ==> order[j] != order[k];
  }

  lemma {:induction false} WithoutMeans(order: seq<nat>, k: nat)
    requires Ascends(order) && k < |order|
    ensures Ascends(Without(order, k))
    ensures forall p :: p in Without(order, k) <==> p in order && p != order[k]
  {
    var rest := Without(order, k);
    forall p | p in order && p != order[k]
      ensures p in rest
    {
      var j :| 0 <= j < |order| && order[j] == p;
      assert rest[if j < k then j else j - 1] == p;
    }
    assert forall j :: 0 <= j < |rest| ==> rest[j] == order[if j < k then j else j + 1];
  }

  /** Unscheduling a task keeps where all items lead to that have left before. */
  lemma {:induction false} TakenOutKeeps(w: Walk, held: seq<Pointer>, task: Pointer)
    requires IsWalk(w, held)
    ensures IsWalk(TakenOut(w, held, task), held)
    ensures forall p :: p in TakenOut(w, held, task).order ==> p in w.order
    ensures forall p :: Known(w, p) <==> Known(TakenOut(w, held, task), p)
    ensures forall p :: p in w.left ==>
              p in TakenOut(w, held, task).left && TakenOut(w, held, task).left[p] == w.left[p]
  {
    var k := FirstOf(TasksOf(w.order, held), task);
    if k < |w.order| {
      LeavingKeeps(w, held, k);
    }
  }

  lemma {:induction false} LeavingKeeps(w: Walk, held: seq<Pointer>, k: nat)
    requires IsWalk(w, held) && k < |w.order|
    ensures var after := Walk(Without(w.order, k), w.left[w.order[k] := LinkTo(w.order, k + 1)]);
            && IsWalk(after, held)
            && (forall p :: p in after.order <==> p in w.order && p != w.order[k])
            && (forall p :: Known(w, p) <==> Known(after, p))
  {
    WithoutMeans(w.order, k);
    IndexLeadsOn(w.order, k);
    var after := Walk(Without(w.order, k), w.left[w.order[k] := LinkTo(w.order, k + 1)]);
    forall p | p in after.left
      ensures LeadsOn(after.order, p, after.left[p])
    {
      StillLeadsOn(w.order, k, p, after.left[p]);
    }
    assert LinkTo(w.order, k + 1).ItemAt? ==> w.order[k + 1] in w.order && w.order[k + 1] != w.order[k];
  }

  lemma {:induction false} StillLeadsOn(order: seq<nat>, k: nat, p: nat, q: Link)
    requires k < |order| && LeadsOn(order, p, q)
    ensures LeadsOn(Without(order, k), p, q)
  {
    var rest := Without(order, k);
    assert forall j :: 0 <= j < |rest| ==> rest[j] == order[if j < k then j else j + 1];
  }

  lemma {:induction false} TurnKeeps(w: Walk, held: seq<Pointer>, turn: seq<Pointer>)
    requires IsWalk(w, held)
    ensures IsWalk(AfterTurn(w, held, turn), held)
    ensures forall p :: p in AfterTurn(w, held, turn).order ==> p in w.order
    ensures forall p :: Known(w, p) <==> Known(AfterTurn(w, held, turn), p)
    decreases |turn|
  {
    if turn != [] {
      TakenOutKeeps(w, held, turn[0]);
      TurnKeeps(TakenOut(w, held, turn[0]), held, turn[1..]);
    }
  }

  ghost predicate Standing(w: Walk, held: seq<Pointer>, at: Link) {
    IsWalk(w, held) && (at.ItemAt? ==> Known(w, at.pos) && at.pos < |held|)
  }

  lemma {:induction false} TurnMovesOn(w: Walk, held: seq<Pointer>, turn: seq<Pointer>, p: nat)
    requires Standing(w, held, ItemAt(p))
    ensures var after := AfterTurn(w, held, turn);
            && Known(after, p) && Standing(after, held, NextOf(after, p))
            && LeadsOn(after.order, p, NextOf(after, p))
  {
    TurnKeeps(w, held, turn);
    NextLeadsOn(AfterTurn(w, held, turn), held, p);
  }

  /**
   A pass that stands at an item: the queue after it, and the items that it visits. `turns` tells, item by item, what
   its callback unschedules.
   */
  ghost function Pass(w: Walk, held: seq<Pointer>, turns: seq<seq<Pointer>>, at: Link): (r: (Walk, seq<nat>))
    requires Standing(w, held, at) && |turns| == |held|
    decreases if at.ItemAt? then |held| - at.pos else 0
  {
    if at == NoItem then (w, [])
    else
      TurnMovesOn(w, held, turns[at.pos], at.pos);
      var after := AfterTurn(w, held, turns[at.pos]);
      var rest := Pass(after, held, turns, NextOf(after, at.pos));
      (rest.0, [at.pos] + rest.1)
  }

  /** Whether each item that a pass visits is in the queue then. */
  ghost predicate OnlyScheduled(w: Walk, held: seq<Pointer>, turns: seq<seq<Pointer>>, at: Link)
    requires Standing(w, held, at) && |turns| == |held|
    decreases if at.ItemAt? then |held| - at.pos else 0
  {
    if at == NoItem then true
    else
      TurnMovesOn(w, held, turns[at.pos], at.pos);
      var after := AfterTurn(w, held, turns[at.pos]);
      at.pos in w.order && OnlyScheduled(after, held, turns, NextOf(after, at.pos))
  }

  /** Whether unscheduling a task takes out the item `p`. */
  ghost predicate TakesOut(w: Walk, held: seq<Pointer>, task: Pointer, p: nat)
    requires Within(w.order, held)
  {
    var k := FirstOf(TasksOf(w.order, held), task);
    k < |w.order| && w.order[k] == p
  }

  /** Whether a callback takes out the item `p`. */
  ghost predicate TurnTakesOut(w: Walk, held: seq<Pointer>, turn: seq<Pointer>, p: nat)
    requires Within(w.order, held)
    decreases |turn|
  {
    turn != [] &&
    (TakesOut(w, held, turn[0], p) || TurnTakesOut(TakenOut(w, held, turn[0]), held, turn[1..], p))
  }

  /** Whether a callback takes out its own item `p` and after that the one that was next to it by then. */
  ghost predicate Strands(w: Walk, held: seq<Pointer>, turn: seq<Pointer>, p: nat)
    requires Within(w.order, held)
    decreases |turn|
  {
    turn != [] &&
    var after := TakenOut(w, held, turn[0]);
    if TakesOut(w, held, turn[0], p) then
      NextOf(w, p).ItemAt? && TurnTakesOut(after, held, turn[1..], NextOf(w, p).pos)
    else
      Strands(after, held, turn[1..], p)
  }

  /** An item that is taken out leaves the queue for where it leads to then. */
  lemma {:induction false} TakenOutLeaves(w: Walk, held: seq<Pointer>, task: Pointer, p: nat)
    requires IsWalk(w, held) && p in w.order
    ensures var after := TakenOut(w, held, task);
            && IsWalk(after, held)
            && if TakesOut(w, held, task, p) then p in after.left && p !in after.order && after.left[p] == NextOf(w, p)
               else p in after.order && p !in after.left
  {
    var k := FirstOf(TasksOf(w.order, held), task);
    if k < |w.order| {
      IndexIs(w.order, k);
      LeavingKeeps(w, held, k);
      assert w.order[k] !in w.left;
    }
  }

  lemma {:induction false} LeftStays(w: Walk, held: seq<Pointer>, task: Pointer, p: nat)
    requires IsWalk(w, held) && p in w.left
    ensures var after := TakenOut(w, held, task);
            IsWalk(after, held) && p in after.left && after.left[p] == w.left[p] && p !in after.order
  {
    TakenOutKeeps(w, held, task);
  }

  /** What has left stays away, and its link stays as it is. */
  lemma {:induction false} LeftForGood(w: Walk, held: seq<Pointer>, turn: seq<Pointer>, p: nat)
    requires IsWalk(w, held) && p in w.left
    ensures var after := AfterTurn(w, held, turn);
            p in after.left && after.left[p] == w.left[p] && p !in after.order
    decreases |turn|
  {
    if turn != [] {
      LeftStays(w, held, turn[0], p);
      LeftForGood(TakenOut(w, held, turn[0]), held, turn[1..], p);
    }
  }

  lemma {:induction false} TakenExactly(w: Walk, held: seq<Pointer>, turn: seq<Pointer>, p: nat)
    requires IsWalk(w, held) && p in w.order
    ensures p in AfterTurn(w, held, turn).order <==> !TurnTakesOut(w, held, turn, p)
    decreases |turn|
  {
    if turn != [] {
      TakenOutLeaves(w, held, turn[0], p);
      if TakesOut(w, held, turn[0], p) {
        LeftForGood(TakenOut(w, held, turn[0]), held, turn[1..], p);
      } else {
        TakenExactly(TakenOut(w, held, turn[0]), held, turn[1..], p);
      }
    }
  }

  /** After a turn the item that the pass stands on leads to one in the queue, unless the turn strands it. */
  lemma {:induction false} StrandedExactly(w: Walk, held: seq<Pointer>, turn: seq<Pointer>, p: nat)
    requires IsWalk(w, held) && p in w.order
    ensures Known(AfterTurn(w, held, turn), p)
    ensures var (after, next) := (AfterTurn(w, held, turn), NextOf(AfterTurn(w, held, turn), p));
            (next.ItemAt? ==> next.pos in after.order) <==> !Strands(w, held, turn, p)
    decreases |turn|
  {
    if turn != [] {
      var after := TakenOut(w, held, turn[0]);
      TakenOutLeaves(w, held, turn[0], p);
      if TakesOut(w, held, turn[0], p) {
        LeftForGood(after, held, turn[1..], p);
        NextStillThere(w, held, turn[0], p);
        if NextOf(w, p).ItemAt? {
          TakenExactly(after, held, turn[1..], NextOf(w, p).pos);
        }
      } else {
        StrandedExactly(after, held, turn[1..], p);
      }
    }
  }

  lemma {:induction false} NextStillThere(w: Walk, held: seq<Pointer>, task: Pointer, p: nat)
    requires IsWalk(w, held) && TakesOut(w, held, task, p)
    ensures NextOf(w, p).ItemAt? ==> NextOf(w, p).pos in TakenOut(w, held, task).order
  {
    var k := FirstOf(TasksOf(w.order, held), task);
    IndexIs(w.order, k);
    LeavingKeeps(w, held, k);
    assert w.order[k] !in w.left;
    assert k + 1 < |w.order| ==> w.order[k + 1] in w.order && w.order[k + 1] != w.order[k];
  }

  /** Whether no callback that a pass runs strands it. */
  ghost predicate NoneStrands(w: Walk, held: seq<Pointer>, turns: seq<seq<Pointer>>, at: Link)
    requires Standing(w, held, at) && |turns| == |held|
    decreases if at.ItemAt? then |held| - at.pos else 0
  {
    if at == NoItem then true
    else
      TurnMovesOn(w, held, turns[at.pos], at.pos);
      var after := AfterTurn(w, held, turns[at.pos]);
      !Strands(w, held, turns[at.pos], at.pos) && NoneStrands(after, held, turns, NextOf(after, at.pos))
  }

  /** A pass visits only scheduled tasks if and only if no callback strands it. */
  lemma {:induction false} OnlyScheduledExactly(w: Walk, held: seq<Pointer>, turns: seq<seq<Pointer>>, at: Link)
    requires Standing(w, held, at) && |turns| == |held| && (at.ItemAt? ==> at.pos in w.order)
    ensures OnlyScheduled(w, held, turns, at) <==> NoneStrands(w, held, turns, at)
    decreases if at.ItemAt? then |held| - at.pos else 0
  {
    if at.ItemAt? {
      var turn := turns[at.pos];
      TurnMovesOn(w, held, turn, at.pos);
      StrandedExactly(w, held, turn, at.pos);
      var after := AfterTurn(w, held, turn);
      var next := NextOf(after, at.pos);
      if next.ItemAt? ==> next.pos in after.order {
        OnlyScheduledExactly(after, held, turns, next);
      }
    }
  }

  /** What a pass keeps of the queue is among what it found there. */
  lemma {:induction false} PassOnlyTakes(w: Walk, held: seq<Pointer>, turns: seq<seq<Pointer>>, at: Link)
    requires Standing(w, held, at) && |turns| == |held|
    ensures var r := Pass(w, held, turns, at);
            IsWalk(r.0, held) && (forall p :: p in r.0.order ==> p in w.order) && Within(r.1, held)
    decreases if at.ItemAt? then |held| - at.pos else 0
  {
    if at.ItemAt? {
      TurnKeeps(w, held, turns[at.pos]);
      TurnMovesOn(w, held, turns[at.pos], at.pos);
      var after := AfterTurn(w, held, turns[at.pos]);
      PassOnlyTakes(after, held, turns, NextOf(after, at.pos));
    }
  }

  /** A pass visits its items in ascending order, so each one once, and none in the queue at its end is passed over. */
  lemma {:induction false} StayingIsVisited(w: Walk, held: seq<Pointer>, turns: seq<seq<Pointer>>, at: Link)
    requires Standing(w, held, at) && |turns| == |held|
    ensures var r := Pass(w, held, turns, at);
            && Ascends(r.1) && (forall p :: p in r.1 ==> at.ItemAt? && at.pos <= p)
            && (forall p :: p in r.0.order && at.ItemAt? && at.pos <= p ==> p in r.1)
    decreases if at.ItemAt? then |held| - at.pos else 0
  {
    if at.ItemAt? {
      TurnMovesOn(w, held, turns[at.pos], at.pos);
      var after := AfterTurn(w, held, turns[at.pos]);
      var next := NextOf(after, at.pos);
      StayingIsVisited(after, held, turns, next);
      PassOnlyTakes(after, held, turns, next);
      FirstThenRest(at.pos, Pass(after, held, turns, next).1);
    }
  }

  /** A pass visits nothing but what was in the queue at its start. */
  lemma {:induction false} VisitedWasThere(w: Walk, held: seq<Pointer>, turns: seq<seq<Pointer>>, at: Link)
    requires Standing(w, held, at) && |turns| == |held|
    ensures forall p :: p in Pass(w, held, turns, at).1 ==> Known(w, p)
    decreases if at.ItemAt? then |held| - at.pos else 0
  {
    if at.ItemAt? {
      TurnKeeps(w, held, turns[at.pos]);
      TurnMovesOn(w, held, turns[at.pos], at.pos);
      var after := AfterTurn(w, held, turns[at.pos]);
      VisitedWasThere(after, held, turns, NextOf(after, at.pos));
    }
  }

  lemma {:induction false} FirstThenRest(p: nat, rest: seq<nat>)
    requires Ascends(rest) && forall q :: q in rest ==> p < q
    ensures Ascends([p] + rest)
    ensures forall q :: q in [p] + rest <==> q == p || q in rest
  {
    assert forall k :: 0 < k < |[p] + rest| ==> ([p] + rest)[k] == rest[k - 1] && rest[k - 1] in rest;
    forall q | q in rest
      ensures q in [p] + rest
    {
      var k :| 0 <= k < |rest| && rest[k] == q;
      assert ([p] + rest)[k + 1] == q;
    }
  }

  lemma {:induction false} PassFurther(w: Walk, held: seq<Pointer>, turns: seq<seq<Pointer>>, p: nat, after: Walk)
    requires Standing(w, held, ItemAt(p)) && |turns| == |held| && after == AfterTurn(w, held, turns[p])
    ensures Known(after, p) && Standing(after, held, NextOf(after, p))
    ensures var (r, rest) := (Pass(w, held, turns, ItemAt(p)), Pass(after, held, turns, NextOf(after, p)));
            r.0 == rest.0 && r.1 == [p] + rest.1
    ensures OnlyScheduled(w, held, turns, ItemAt(p)) <==>
            p in w.order && OnlyScheduled(after, held, turns, NextOf(after, p))
  {
    TurnMovesOn(w, held, turns[p], p);
  }

  /** What a pass has come to, at `item`, with some items visited, is on its way to the result of the whole pass. */
  ghost predicate OnTheWay(
    whole: (Walk, seq<nat>), visited: seq<nat>, w: Walk, held: seq<Pointer>, turns: seq<seq<Pointer>>, item: Link)
  {
    && Standing(w, held, item) && |turns| == |held| && Within(visited, held)
    && whole.0 == Pass(w, held, turns, item).0 && whole.1 == visited + Pass(w, held, turns, item).1
  }

  lemma {:induction false} FurtherOnTheWay(
    whole: (Walk, seq<nat>), visited: seq<nat>, w: Walk, held: seq<Pointer>, turns: seq<seq<Pointer>>, p: nat,
    after: Walk)
    requires OnTheWay(whole, visited, w, held, turns, ItemAt(p)) && after == AfterTurn(w, held, turns[p])
    ensures Known(after, p) && OnTheWay(whole, visited + [p], after, held, turns, NextOf(after, p))
    ensures NextOf(after, p).ItemAt? ==> p < NextOf(after, p).pos < |held|
  {
    PassFurther(w, held, turns, p, after);
    NextLeadsOn(after, held, p);
    Regrouped(visited, [p], Pass(after, held, turns, NextOf(after, p)).1);
  }

  lemma {:induction false} OneTask(w: Walk, held: seq<Pointer>, task: Pointer)
    requires Within(w.order, held)
    ensures AfterTurn(w, held, [task]) == TakenOut(w, held, task) && AfterTurn(w, held, []) == w
  {
    assert [task][1..] == [];
  }

  /** Two tasks: the first one's callback unschedules both, itself first. The second one is called nevertheless. */
  lemma {:induction false} StrandingTurn(held: seq<Pointer>, turns: seq<seq<Pointer>>, w: Walk)
    requires |held| == |turns| == 2 && held[0] != held[1] && turns[0] == held && turns[1] == []
    requires w == Walk([0, 1], map[])
    ensures IsWalk(w, held)
    ensures var r := Pass(w, held, turns, ItemAt(0)); r.0.order == [] && r.1 == [0] + [1]
    ensures !OnlyScheduled(w, held, turns, ItemAt(0))
  {
    var after := Walk([], map[0 := ItemAt(1), 1 := NoItem]);
    BothTakenOut(held, w);
    PassFurther(w, held, turns, 0, after);
    SecondVisit(held, turns, after);
  }

  lemma {:induction false} SecondVisit(held: seq<Pointer>, turns: seq<seq<Pointer>>, w: Walk)
    requires |held| == |turns| == 2 && turns[1] == [] && w == Walk([], map[0 := ItemAt(1), 1 := NoItem])
    ensures Standing(w, held, ItemAt(1)) && !OnlyScheduled(w, held, turns, ItemAt(1))
    ensures Pass(w, held, turns, ItemAt(1)).0 == w && Pass(w, held, turns, ItemAt(1)).1 == [1]
  {
    PassFurther(w, held, turns, 1, w);
  }

  lemma {:induction false} BothTakenOut(held: seq<Pointer>, w: Walk)
    requires |held| == 2 && held[0] != held[1] && w == Walk([0, 1], map[])
    ensures AfterTurn(w, held, held) == Walk([], map[0 := ItemAt(1), 1 := NoItem])
  {
    FirstTakenOut(held, w);
    SecondTakenOut(held, TakenOut(w, held, held[0]));
    OneTask(TakenOut(w, held, held[0]), held, held[1]);
    assert held[1..] == [held[1]];
  }

  lemma {:induction false} FirstTakenOut(held: seq<Pointer>, w: Walk)
    requires |held| == 2 && held[0] != held[1] && w == Walk([0, 1], map[])
    ensures TakenOut(w, held, held[0]) == Walk([1], map[0 := ItemAt(1)])
  {
    assert Without([0, 1], 0) == [1];
  }

  lemma {:induction false} SecondTakenOut(held: seq<Pointer>, w: Walk)
    requires |held| == 2 && w == Walk([1], map[0 := ItemAt(1)])
    ensures TakenOut(w, held, held[1]) == Walk([], map[0 := ItemAt(1), 1 := NoItem])
  {
    assert Without([1], 0) == [];
  }
}
