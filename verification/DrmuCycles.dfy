/** Which cycles of a DRMU command reach their targets, told from the clock values of its frames, in all units. */
module DrmuCycles {
  import opened Drmu
  import opened Wrappers

  /** The base time after the first `n` frames of a run in which nothing fails. */
  ghost function Base(m: Manipulation, inputs: seq<Input>, n: nat): int
    requires n <= |inputs|
  {
    if n == 0 then m.work.baseTime
    else if m.settings.interval <= 0 then Base(m, inputs, n - 1)
    else if !m.settings.isIntervalFrames then
      CatchUp(Base(m, inputs, n - 1), m.settings.interval, inputs[n - 1].clock)
    else if (n - 1) % m.settings.interval == 0 then inputs[n - 1].clock
    else Base(m, inputs, n - 1)
  }

  /** Whether frame `j` starts a cycle. */
  ghost predicate Starts(m: Manipulation, inputs: seq<Input>, j: nat)
    requires j < |inputs|
  {
    || j == 0
    || (0 < m.settings.interval &&
        if m.settings.isIntervalFrames then j % m.settings.interval == 0
        else Base(m, inputs, j) + m.settings.interval <= inputs[j].clock)
  }

  /** The first frame of the cycle that is running after `n` frames. */
  ghost function First(m: Manipulation, inputs: seq<Input>, n: nat): (s: nat)
    requires 0 < n <= |inputs|
    ensures s < n
  {
    if Starts(m, inputs, n - 1) then n - 1 else First(m, inputs, n - 1)
  }

  /** Whether frame `j` of the cycle that frame `s` started submits the targets. */
  ghost predicate Reaches(m: Manipulation, inputs: seq<Input>, s: nat, j: nat)
    requires s <= j < |inputs|
  {
    || m.settings.immediate
    || (if m.settings.isDurationFrames then m.settings.duration <= j - s + 1
        else m.settings.duration <= inputs[j].clock - Base(m, inputs, j + 1))
  }

  /** Whether the current cycle has reached the targets after `n` frames. */
  ghost predicate Reached(m: Manipulation, inputs: seq<Input>, n: nat)
    requires 0 < n <= |inputs|
  {
    exists j :: First(m, inputs, n) <= j < n && Reaches(m, inputs, First(m, inputs, n), j)
  }

  /** A command that has not seen a frame yet. */
  ghost predicate New(m: Manipulation) {
    && Movable(m) && !m.initialized && !m.work.cycleComplete
    && m.work.durationFrames == 0 && m.work.intervalRemaining <= 1
  }

  lemma {:induction false} CreatedNew(s: Settings, now: int, datarefs: seq<Dataref>)
    requires 0 < s.duration && datarefs != []
    requires forall i :: 0 <= i < |datarefs| ==> |datarefs[i].base| == |datarefs[i].target|
    ensures New(Create(s, now, datarefs))
  {
  }

  /** Whether a frame that works on a cycle is at its end. */
  predicate Arrives(s: Settings, w: Clockwork, now: int) {
    s.immediate || if s.isDurationFrames then w.durationFrames >= s.duration else now - w.baseTime >= s.duration
  }

  lemma {:induction false} ProgressArrives(s: Settings, w: Clockwork, now: int)
    requires 0 < s.duration && 0 <= w.durationFrames
    ensures Progress(s, w, now) >= 1.0 <==> Arrives(s, w, now)
  {
    if !s.immediate {
      var passed := if now < w.baseTime then 0 else now - w.baseTime;
      WholeWay(if s.isDurationFrames then w.durationFrames else passed, s.duration);
    }
  }

  lemma {:induction false} UpdateArrives(m: Manipulation, input: Input)
    requires Movable(m) && Healthy(m, input) && 0 <= m.work.durationFrames && !m.work.cycleComplete
    ensures var (after, work) := (Update(m, input), Counted(m.settings, m.work));
            && after.settings == m.settings && !after.failed && after.initialized == m.initialized
            && after.work == work.(cycleComplete := Arrives(m.settings, work, input.clock))
            && after.done == (after.work.cycleComplete && m.settings.interval <= 0)
            && after.datarefs == AllFetched(m, input.readings)
  {
    var work := Counted(m.settings, m.work);
    ProgressArrives(m.settings, work, input.clock);
    HealthyRow(m, input, Progress(m.settings, work, input.clock));
  }

  /** What a frame in which nothing fails does to the clockwork. */
  lemma {:induction false} HealthyFrame(m: Manipulation, input: Input)
    requires Movable(m) && Healthy(m, input) && 0 <= m.work.durationFrames
    requires m.work.cycleComplete ==> 0 < m.settings.interval
    ensures var (after, ticked) := (Frame(m, input), Ticked(m.settings, m.work, input.clock));
            var work := Counted(m.settings, ticked);
            && after.settings == m.settings && !after.failed && after.initialized
            && after.work == (if ticked.cycleComplete then ticked
                              else work.(cycleComplete := Arrives(m.settings, work, input.clock)))
            && after.done == (after.work.cycleComplete && m.settings.interval <= 0)
    ensures var after := Frame(m, input); !after.done ==> Movable(after)
  {
    FrameKeepsSound(m, input);
    var work := Ticked(m.settings, m.work, input.clock);
    if !work.cycleComplete {
      var updateBase :=
        if Restarts(m.settings, m.work, input.clock) || !m.initialized then AnyFetches(m.datarefs) else m.updateBase;
      UpdateArrives(m.(initialized := true, work := work, updateBase := updateBase), input);
    }
  }

  /** What is known after `n` frames. */
  ghost predicate Tracked(m: Manipulation, inputs: seq<Input>, n: nat, after: Manipulation)
    requires n <= |inputs|
  {
    && after.settings == m.settings && !after.failed
    && (!after.done ==> Movable(after))
    && after.done == (after.work.cycleComplete && m.settings.interval <= 0)
    && after.work.baseTime == Base(m, inputs, n)
    && 0 <= after.work.durationFrames
    && if n == 0 then New(after)
       else
         && (0 < m.settings.interval && m.settings.isIntervalFrames ==>
               after.work.intervalRemaining == m.settings.interval - (n - 1) % m.settings.interval)
         && (after.work.cycleComplete <==> Reached(m, inputs, n))
         && (!after.work.cycleComplete && !m.settings.immediate && m.settings.isDurationFrames ==>
               after.work.durationFrames == n - First(m, inputs, n))
  }

  /** The next frame of a cycle counted in frames. */
  lemma {:induction false} NextPosition(n: nat, interval: int)
    requires 0 < interval && 0 < n
    ensures (n - 1) % interval == interval - 1 <==> n % interval == 0
    ensures n % interval != 0 ==> n % interval == (n - 1) % interval + 1
  {
    var (q, r) := ((n - 1) / interval, (n - 1) % interval);
    assert n == q * interval + (r + 1);
    if r + 1 == interval {
      Remainder(q + 1, interval, 0);
      assert (q + 1) * interval == q * interval + interval;
    } else {
      Remainder(q, interval, r + 1);
    }
  }

  lemma {:induction false} Remainder(q: int, interval: int, r: nat)
    requires r < interval
    ensures (q * interval + r) % interval == r
  {
    var x := q * interval + r;
    var k := x / interval - q;
    assert x == (x / interval) * interval + x % interval;
    assert k * interval == (x / interval) * interval - q * interval == r - x % interval;
    assert k >= 1 ==> k * interval >= interval;
    assert k <= -1 ==> k * interval <= -interval;
  }

  lemma {:induction false} TickedNext(m: Manipulation, inputs: seq<Input>, n: nat, after: Manipulation)
    requires n < |inputs| && Tracked(m, inputs, n, after) && New(m)
    requires n == 0 ==> after == m
    ensures var work := Ticked(m.settings, after.work, inputs[n].clock);
            && work.baseTime == Base(m, inputs, n + 1)
            && (0 < m.settings.interval && m.settings.isIntervalFrames ==>
                  work.intervalRemaining == m.settings.interval - n % m.settings.interval)
            && (Restarts(m.settings, after.work, inputs[n].clock) ==> Starts(m, inputs, n))
            && (Starts(m, inputs, n) && 0 < n ==> Restarts(m.settings, after.work, inputs[n].clock))
  {
    if n > 0 && 0 < m.settings.interval {
      NextPosition(n, m.settings.interval);
    }
  }

  lemma {:induction false} ReachedNext(m: Manipulation, inputs: seq<Input>, n: nat)
    requires n < |inputs|
    ensures var s := First(m, inputs, n + 1);
            Reached(m, inputs, n + 1) <==> Reaches(m, inputs, s, n) || (!Starts(m, inputs, n) && Reached(m, inputs, n))
  {
    var s := First(m, inputs, n + 1);
    if Starts(m, inputs, n) {
      assert s == n;
    } else if Reached(m, inputs, n) {
      var j :| First(m, inputs, n) <= j < n && Reaches(m, inputs, s, j);
    }
  }

  lemma {:induction false} TrackedNext(m: Manipulation, inputs: seq<Input>, n: nat, after: Manipulation)
    requires n < |inputs| && Tracked(m, inputs, n, after) && New(m) && Healthy(after, inputs[n])
    requires n == 0 ==> after == m
    ensures Tracked(m, inputs, n + 1, Frame(after, inputs[n]))
  {
    TickedNext(m, inputs, n, after);
    ReachedNext(m, inputs, n);
    if !after.done {
      HealthyFrame(after, inputs[n]);
    }
  }

  /** The state after the first `n` frames of a run in which nothing fails. */
  ghost function After(m: Manipulation, inputs: seq<Input>, n: nat): Manipulation
    requires New(m) && AllHealthy(m, inputs) && n <= |inputs|
  {
    Run(m, inputs[..n])
  }

  lemma {:induction false} NextFrame(m: Manipulation, inputs: seq<Input>, n: nat)
    requires New(m) && AllHealthy(m, inputs) && n < |inputs|
    ensures Healthy(After(m, inputs, n), inputs[n])
    ensures After(m, inputs, n + 1) == Frame(After(m, inputs, n), inputs[n])
  {
    HealthyLater(m, Run(m, inputs[..n]), inputs[n]);
    assert inputs[..n + 1][..n] == inputs[..n];
  }

  lemma {:induction false} FollowFrame(m: Manipulation, inputs: seq<Input>, n: nat)
    requires New(m) && AllHealthy(m, inputs) && n < |inputs|
    requires Tracked(m, inputs, n, After(m, inputs, n)) && (n == 0 ==> After(m, inputs, 0) == m)
    ensures Tracked(m, inputs, n + 1, After(m, inputs, n + 1))
  {
    NextFrame(m, inputs, n);
    TrackedNext(m, inputs, n, After(m, inputs, n));
  }

  lemma {:induction false} Follow(m: Manipulation, inputs: seq<Input>, n: nat)
    requires New(m) && AllHealthy(m, inputs) && n <= |inputs|
    ensures Tracked(m, inputs, n, After(m, inputs, n))
  {
    assert inputs[..0] == [];
    for k := 0 to n
      invariant Tracked(m, inputs, k, After(m, inputs, k))
    {
      FollowFrame(m, inputs, k);
    }
  }

  /**
   When nothing fails, the current cycle has reached its targets if and only if one of its frames was late enough: the
   one with the number of the duration, or one with a clock value that long after the base time. This is so for all
   settings.
   */
  lemma {:induction false} CompleteExactly(m: Manipulation, inputs: seq<Input>)
    requires New(m) && AllHealthy(m, inputs) && inputs != []
    ensures Run(m, inputs).work.cycleComplete <==> Reached(m, inputs, |inputs|)
    ensures Run(m, inputs).work.baseTime == Base(m, inputs, |inputs|)
    ensures !Run(m, inputs).failed
  {
    Follow(m, inputs, |inputs|);
    assert inputs[..|inputs|] == inputs;
  }

  lemma {:induction false} FirstInFrames(m: Manipulation, inputs: seq<Input>, n: nat)
    requires 0 < n <= |inputs| && m.settings.isIntervalFrames && 0 < m.settings.interval
    ensures First(m, inputs, n) == n - 1 - (n - 1) % m.settings.interval
  {
    if n == 1 {
      Remainder(0, m.settings.interval, 0);
    } else {
      NextPosition(n - 1, m.settings.interval);
      if !Starts(m, inputs, n - 1) {
        FirstInFrames(m, inputs, n - 1);
      }
    }
  }

  lemma {:induction false} FirstStarts(m: Manipulation, inputs: seq<Input>, n: nat)
    requires 0 < n <= |inputs|
    ensures Starts(m, inputs, First(m, inputs, n))
  {
    if !Starts(m, inputs, n - 1) {
      FirstStarts(m, inputs, n - 1);
    }
  }

  /** The base time stays the same during a cycle. */
  lemma {:induction false} BaseInCycle(m: Manipulation, inputs: seq<Input>, n: nat, j: nat)
    requires 0 < n <= |inputs| && First(m, inputs, n) <= j < n
    ensures Base(m, inputs, j + 1) == Base(m, inputs, n)
  {
    if j < n - 1 {
      BaseInCycle(m, inputs, n - 1, j);
    }
  }

  lemma {:induction false} CatchUpGrows(baseTime: int, interval: int, now: int)
    requires 0 < interval
    ensures baseTime <= CatchUp(baseTime, interval, now)
    ensures interval <= now - baseTime ==> baseTime + interval <= CatchUp(baseTime, interval, now)
    decreases now - baseTime
  {
    if now - baseTime >= interval {
      CatchUpGrows(baseTime + interval, interval, now);
    }
  }

  lemma {:induction false} BaseGrows(m: Manipulation, inputs: seq<Input>, i: nat, j: nat)
    requires i <= j <= |inputs| && !m.settings.isIntervalFrames && 0 < m.settings.interval
    ensures Base(m, inputs, i) <= Base(m, inputs, j)
    decreases j
  {
    if i < j {
      BaseGrows(m, inputs, i, j - 1);
      CatchUpGrows(Base(m, inputs, j - 1), m.settings.interval, inputs[j - 1].clock);
    }
  }

  /** A duration in frames is over once that many frames belong to the cycle. */
  lemma {:induction false} DurationInFrames(m: Manipulation, inputs: seq<Input>)
    requires New(m) && AllHealthy(m, inputs) && inputs != []
    requires !m.settings.immediate && m.settings.isDurationFrames
    ensures Run(m, inputs).work.cycleComplete <==> m.settings.duration <= |inputs| - First(m, inputs, |inputs|)
  {
    CompleteExactly(m, inputs);
    var s := First(m, inputs, |inputs|);
    if m.settings.duration <= |inputs| - s {
      assert Reaches(m, inputs, s, |inputs| - 1);
    }
  }

  /** A duration in milliseconds is over if one of the frames of the cycle comes that long after the base time. */
  lemma {:induction false} DurationInTime(m: Manipulation, inputs: seq<Input>)
    requires New(m) && AllHealthy(m, inputs) && inputs != []
    requires !m.settings.immediate && !m.settings.isDurationFrames
    ensures Run(m, inputs).work.cycleComplete <==>
            exists j :: First(m, inputs, |inputs|) <= j < |inputs| &&
                        Run(m, inputs).work.baseTime + m.settings.duration <= inputs[j].clock
  {
    CompleteExactly(m, inputs);
    var (n, s) := (|inputs|, First(m, inputs, |inputs|));
    forall j | s <= j < n
      ensures Reaches(m, inputs, s, j) <==> Base(m, inputs, n) + m.settings.duration <= inputs[j].clock
    {
      BaseInCycle(m, inputs, n, j);
    }
  }

  /** Only the frames of the current cycle have clock values that belong to it. */
  lemma {:induction false} WithinInterval(m: Manipulation, inputs: seq<Input>, n: nat, j: nat)
    requires 0 < n <= |inputs| && j < n && !m.settings.isIntervalFrames && 0 < m.settings.interval
    ensures First(m, inputs, n) <= j ==> inputs[j].clock < Base(m, inputs, n) + m.settings.interval
    ensures j < First(m, inputs, n) ==> inputs[j].clock < Base(m, inputs, n)
  {
    var f := First(m, inputs, n);
    if f <= j {
      BaseInCycle(m, inputs, n, j);
    } else {
      FirstStarts(m, inputs, n);
      BaseInCycle(m, inputs, n, f);
      BaseGrows(m, inputs, j + 1, f);
      CatchUpGrows(Base(m, inputs, f), m.settings.interval, inputs[f].clock);
    }
  }

  /**
   With both in milliseconds, a cycle has reached its targets if and only if some frame came between the duration and
   the interval after the base time: a later frame starts the next cycle instead.
   */
  lemma {:induction false} InTimeExactly(m: Manipulation, inputs: seq<Input>)
    requires New(m) && AllHealthy(m, inputs) && inputs != []
    requires !m.settings.immediate && !m.settings.isDurationFrames
    requires !m.settings.isIntervalFrames && 0 < m.settings.interval
    ensures var base := Run(m, inputs).work.baseTime;
            Run(m, inputs).work.cycleComplete <==>
            exists j :: 0 <= j < |inputs| &&
                        base + m.settings.duration <= inputs[j].clock < base + m.settings.interval
  {
    DurationInTime(m, inputs);
    CompleteExactly(m, inputs);
    forall j | 0 <= j < |inputs|
      ensures First(m, inputs, |inputs|) <= j ==>
                inputs[j].clock < Base(m, inputs, |inputs|) + m.settings.interval
      ensures j < First(m, inputs, |inputs|) ==> inputs[j].clock < Base(m, inputs, |inputs|)
    {
      WithinInterval(m, inputs, |inputs|, j);
    }
  }

  /** So no cycle ever reaches its targets if the duration is not shorter than the interval, whatever happens. */
  lemma {:induction false} NeverInTime(m: Manipulation, inputs: seq<Input>)
    requires Sound(m) && forall i :: 0 <= i < |inputs| ==> Fits(m, inputs[i])
    requires !m.settings.immediate && !m.settings.isDurationFrames && !m.settings.isIntervalFrames
    requires 0 < m.settings.interval <= m.settings.duration && !m.work.cycleComplete
    ensures !Run(m, inputs).work.cycleComplete
  {
    if inputs != [] {
      var before, input := Run(m, inputs[..|inputs| - 1]), inputs[|inputs| - 1];
      NeverInTime(m, inputs[..|inputs| - 1]);
      assert |before.datarefs| == |Targets(before.datarefs)| == |m.datarefs|;
      NotInThisFrame(before, input);
    }
  }

  lemma {:induction false} NotInThisFrame(m: Manipulation, input: Input)
    requires Sound(m) && Fits(m, input) && !m.work.cycleComplete
    requires !m.settings.immediate && !m.settings.isDurationFrames && !m.settings.isIntervalFrames
    requires 0 < m.settings.interval <= m.settings.duration
    ensures !Frame(m, input).work.cycleComplete
  {
    var work := Ticked(m.settings, m.work, input.clock);
    WholeWay(if input.clock < work.baseTime then 0 else input.clock - work.baseTime, m.settings.duration);
  }

  /**
   With both in frames, a run in which nothing fails and that is as long as the interval has a complete cycle in it if
   and only if the duration is not longer than the interval; else every cycle is cut off by the next one.
   */
  lemma {:induction false} InFramesExactly(m: Manipulation, inputs: seq<Input>)
    requires New(m) && AllHealthy(m, inputs)
    requires !m.settings.immediate && m.settings.isDurationFrames
    requires m.settings.isIntervalFrames && 0 < m.settings.interval <= |inputs|
    ensures (exists n {:trigger inputs[..n]} :: 0 < n <= |inputs| && Run(m, inputs[..n]).work.cycleComplete) <==>
            m.settings.duration <= m.settings.interval
  {
    forall n | 0 < n <= |inputs|
      ensures Run(m, inputs[..n]).work.cycleComplete <==>
              m.settings.duration <= (n - 1) % m.settings.interval + 1
    {
      DurationInFrames(m, inputs[..n]);
      FirstInFrames(m, inputs[..n], n);
    }
    var (d, i) := (m.settings.duration, m.settings.interval);
    if d <= i {
      Remainder(0, i, d - 1);
      assert Run(m, inputs[..d]).work.cycleComplete;
    }
  }

  /** Moving a dataref for 1000 ms every 1000 ms: the frame that comes right in time starts anew. */
  lemma {:induction false} RestartsInTime(input: Input, later: Input)
    requires input == Input(true, 999, true, [Some([0.0])], [true]) && later == input.(clock := 1000)
    ensures var m := Create(Settings(false, 1000, false, 1000, false), 0, [Dataref(false, [0.0], [1.0])]);
            New(m) && AllHealthy(m, [input, later]) && !Run(m, [input, later]).work.cycleComplete
  {
    var m := Create(Settings(false, 1000, false, 1000, false), 0, [Dataref(false, [0.0], [1.0])]);
    NeverInTime(m, [input, later]);
  }

  /** Moving it for 900 ms every 1000 ms: no frame comes in the 100 ms in which the targets would be submitted. */
  lemma {:induction false} NoFrameInTime(input: Input, later: Input)
    requires input == Input(true, 890, true, [Some([0.0])], [true]) && later == input.(clock := 1010)
    ensures var m := Create(Settings(false, 1000, false, 900, false), 0, [Dataref(false, [0.0], [1.0])]);
            && New(m) && AllHealthy(m, [input, later])
            && !Run(m, [input]).work.cycleComplete && !Run(m, [input, later]).work.cycleComplete
  {
    var m := Create(Settings(false, 1000, false, 900, false), 0, [Dataref(false, [0.0], [1.0])]);
    var inputs := [input, later];
    BasesOf(m, [input]);
    InTimeExactly(m, [input]);
    CompleteExactly(m, [input]);
    BasesOf(m, inputs);
    InTimeExactly(m, inputs);
    CompleteExactly(m, inputs);
  }

  lemma {:induction false} BasesOf(m: Manipulation, inputs: seq<Input>)
    requires m.work.baseTime == 0 && m.settings.interval == 1000 && !m.settings.isIntervalFrames
    requires 0 < |inputs| <= 2 && inputs[0].clock == 890 && (|inputs| == 2 ==> inputs[1].clock == 1010)
    ensures Base(m, inputs, |inputs|) == if |inputs| == 1 then 0 else 1000
  {
    assert CatchUp(0, 1000, 890) == 0;
    assert Base(m, inputs, 1) == CatchUp(Base(m, inputs, 0), 1000, inputs[0].clock);
    if |inputs| == 2 {
      assert CatchUp(1000, 1000, 1010) == 1000 && CatchUp(0, 1000, 1010) == 1000;
      assert Base(m, inputs, 2) == CatchUp(Base(m, inputs, 1), 1000, inputs[1].clock);
    }
  }
}
