/** What a CMTR command does to the simulator's commands, as a trace, and when such a trace is balanced. */
module CmtrTrace {
  import opened Sequences

  /** Something done to the entry of a given index. A queued end is carried out later by the simulator's thread. */
  datatype Event = Begin(entry: nat) | End(entry: nat) | Once(entry: nat) | QueuedEnd(entry: nat)

  /** How many events of a trace are `e`. */
  ghost function Count(trace: seq<Event>, e: Event): (n: nat) {
    if trace == [] then 0 else Count(trace[..|trace| - 1], e) + if trace[|trace| - 1] == e then 1 else 0
  }

  /** Begins minus ends of an entry. */
  ghost function Depth(trace: seq<Event>, i: nat): int {
    Count(trace, Begin(i)) - Count(trace, End(i)) - Count(trace, QueuedEnd(i))
  }

  /** Begins and ends of an entry take turns, starting with a begin. */
  ghost predicate Alternates(trace: seq<Event>, i: nat) {
    trace == [] || (Alternates(trace[..|trace| - 1], i) && 0 <= Depth(trace, i) <= 1)
  }

  /** Every entry alternates and is held just when its last begin has no end yet. */
  ghost predicate Balanced(trace: seq<Event>, held: seq<bool>) {
    forall i :: 0 <= i < |held| ==> Alternates(trace, i) && Depth(trace, i) == if held[i] then 1 else 0
  }

  /** One event for each of the first `n` entries, in order. */
  function Begins(n: nat): (events: seq<Event>) {
    if n == 0 then [] else Begins(n - 1) + [Begin(n - 1)]
  }

  function Onces(n: nat): (events: seq<Event>) {
    if n == 0 then [] else Onces(n - 1) + [Once(n - 1)]
  }

  /** Ends of the held entries from the last one down to entry `from`. */
  function Ends(held: seq<bool>, from: nat): (events: seq<Event>)
    decreases |held| - from
  {
    if from >= |held| then [] else Ends(held, from + 1) + if held[from] then [End(from)] else []
  }

  /** Queued ends of the held entries, from the last one down to `from`, where queueing works. */
  function QueuedEnds(held: seq<bool>, queued: seq<bool>, from: nat): (events: seq<Event>)
    requires |queued| == |held|
    decreases |held| - from
  {
    if from >= |held| then []
    else QueuedEnds(held, queued, from + 1) + if held[from] && queued[from] then [QueuedEnd(from)] else []
  }

  ghost predicate AllHeld(held: seq<bool>, value: bool) {
    forall i :: 0 <= i < |held| ==> held[i] == value
  }

  lemma {:induction false} CountAppend(trace: seq<Event>, e: Event, x: Event)
    ensures Count(trace + [x], e) == Count(trace, e) + if x == e then 1 else 0
  {
    assert (trace + [x])[..|trace|] == trace;
  }

  lemma {:induction false} OneMore(trace: seq<Event>, x: Event, i: nat)
    ensures Depth(trace + [x], i) ==
            Depth(trace, i) + if x == Begin(i) then 1 else if x == End(i) || x == QueuedEnd(i) then -1 else 0
    ensures Alternates(trace + [x], i) <==> Alternates(trace, i) && 0 <= Depth(trace + [x], i) <= 1
  {
    CountAppend(trace, Begin(i), x);
    CountAppend(trace, End(i), x);
    CountAppend(trace, QueuedEnd(i), x);
    assert (trace + [x])[..|trace|] == trace;
  }

  lemma {:induction false} AfterBegins(trace: seq<Event>, n: nat, i: nat)
    requires Alternates(trace, i) && Depth(trace, i) == 0
    ensures Alternates(trace + Begins(n), i) && Depth(trace + Begins(n), i) == if i < n then 1 else 0
  {
    if n == 0 {
      NothingAfter(trace);
    } else {
      AfterBegins(trace, n - 1, i);
      OneMore(trace + Begins(n - 1), Begin(n - 1), i);
      Regrouped(trace, Begins(n - 1), [Begin(n - 1)]);
    }
  }

  lemma {:induction false} AfterOnces(trace: seq<Event>, n: nat, i: nat)
    requires Alternates(trace, i) && 0 <= Depth(trace, i) <= 1
    ensures Alternates(trace + Onces(n), i) && Depth(trace + Onces(n), i) == Depth(trace, i)
  {
    if n == 0 {
      NothingAfter(trace);
    } else {
      AfterOnces(trace, n - 1, i);
      OneMore(trace + Onces(n - 1), Once(n - 1), i);
      Regrouped(trace, Onces(n - 1), [Once(n - 1)]);
    }
  }

  lemma {:induction false} AfterEnds(trace: seq<Event>, held: seq<bool>, from: nat, i: nat)
    requires i < |held| && Alternates(trace, i) && Depth(trace, i) == if held[i] then 1 else 0
    ensures Alternates(trace + Ends(held, from), i)
    ensures Depth(trace + Ends(held, from), i) == if held[i] && i < from then 1 else 0
    decreases |held| - from
  {
    if from >= |held| {
      NothingAfter(trace);
    } else {
      AfterEnds(trace, held, from + 1, i);
      if held[from] {
        OneMore(trace + Ends(held, from + 1), End(from), i);
        Regrouped(trace, Ends(held, from + 1), [End(from)]);
      } else {
        NothingAfter(Ends(held, from + 1));
      }
    }
  }

  lemma {:induction false} AfterQueuedEnds(trace: seq<Event>, held: seq<bool>, queued: seq<bool>, from: nat, i: nat)
    requires |queued| == |held| && i < |held| && Alternates(trace, i) && Depth(trace, i) == if held[i] then 1 else 0
    ensures Alternates(trace + QueuedEnds(held, queued, from), i)
    ensures Depth(trace + QueuedEnds(held, queued, from), i) == if held[i] && (i < from || !queued[i]) then 1 else 0
    decreases |held| - from
  {
    if from >= |held| {
      NothingAfter(trace);
    } else {
      AfterQueuedEnds(trace, held, queued, from + 1, i);
      if held[from] && queued[from] {
        OneMore(trace + QueuedEnds(held, queued, from + 1), QueuedEnd(from), i);
        Regrouped(trace, QueuedEnds(held, queued, from + 1), [QueuedEnd(from)]);
      } else {
        NothingAfter(QueuedEnds(held, queued, from + 1));
      }
    }
  }

  lemma {:induction false} BeginCounts(trace: seq<Event>, n: nat, i: nat)
    ensures Count(trace + Begins(n), Begin(i)) == Count(trace, Begin(i)) + if i < n then 1 else 0
    ensures Count(trace + Begins(n), Once(i)) == Count(trace, Once(i))
    ensures Count(trace + Begins(n), End(i)) == Count(trace, End(i))
  {
    if n == 0 {
      NothingAfter(trace);
    } else {
      BeginCounts(trace, n - 1, i);
      CountAppend(trace + Begins(n - 1), Begin(i), Begin(n - 1));
      CountAppend(trace + Begins(n - 1), Once(i), Begin(n - 1));
      CountAppend(trace + Begins(n - 1), End(i), Begin(n - 1));
      Regrouped(trace, Begins(n - 1), [Begin(n - 1)]);
    }
  }

  lemma {:induction false} OnceCounts(trace: seq<Event>, n: nat, i: nat)
    ensures Count(trace + Onces(n), Once(i)) == Count(trace, Once(i)) + if i < n then 1 else 0
    ensures Count(trace + Onces(n), Begin(i)) == Count(trace, Begin(i))
    ensures Count(trace + Onces(n), End(i)) == Count(trace, End(i))
  {
    if n == 0 {
      NothingAfter(trace);
    } else {
      OnceCounts(trace, n - 1, i);
      CountAppend(trace + Onces(n - 1), Once(i), Once(n - 1));
      CountAppend(trace + Onces(n - 1), Begin(i), Once(n - 1));
      CountAppend(trace + Onces(n - 1), End(i), Once(n - 1));
      Regrouped(trace, Onces(n - 1), [Once(n - 1)]);
    }
  }

  lemma {:induction false} EndCounts(trace: seq<Event>, held: seq<bool>, from: nat, i: nat)
    ensures Count(trace + Ends(held, from), Begin(i)) == Count(trace, Begin(i))
    ensures Count(trace + Ends(held, from), Once(i)) == Count(trace, Once(i))
    ensures Count(trace + Ends(held, from), End(i)) ==
            Count(trace, End(i)) + if from <= i && i < |held| && held[i] then 1 else 0
    decreases |held| - from
  {
    if from >= |held| {
      NothingAfter(trace);
    } else {
      EndCounts(trace, held, from + 1, i);
      if held[from] {
        CountAppend(trace + Ends(held, from + 1), Begin(i), End(from));
        CountAppend(trace + Ends(held, from + 1), Once(i), End(from));
        CountAppend(trace + Ends(held, from + 1), End(i), End(from));
        Regrouped(trace, Ends(held, from + 1), [End(from)]);
      } else {
        NothingAfter(Ends(held, from + 1));
      }
    }
  }

  /** Termination begins and triggers nothing. */
  lemma {:induction false} QueuedEndCounts(trace: seq<Event>, held: seq<bool>, queued: seq<bool>, from: nat, e: Event)
    requires |queued| == |held| && !e.QueuedEnd?
    ensures Count(trace + QueuedEnds(held, queued, from), e) == Count(trace, e)
    decreases |held| - from
  {
    if from >= |held| {
      NothingAfter(trace);
    } else {
      QueuedEndCounts(trace, held, queued, from + 1, e);
      if held[from] && queued[from] {
        CountAppend(trace + QueuedEnds(held, queued, from + 1), e, QueuedEnd(from));
        Regrouped(trace, QueuedEnds(held, queued, from + 1), [QueuedEnd(from)]);
      } else {
        NothingAfter(QueuedEnds(held, queued, from + 1));
      }
    }
  }
}
