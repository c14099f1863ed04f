/**
 When a CMTR command that holds starts its rounds and when it finishes, told from the clock values of its frames alone,
 for times in milliseconds, in frames, and for either mix of them.
 */
module CmtrTimetable {
  import opened Cmtr
  import opened CmtrCycles
  import opened CmtrTrace
  import opened Intervals
  import opened Wrappers

  /** A frame that the command does not skip: it has a clock value if it needs one. */
  ghost predicate Usable(c: Command, inputs: seq<Input>, j: nat)
    requires j < |inputs| && FramesOnly(inputs)
  {
    c.settings.requiresTime ==> 0 <= inputs[j].clock
  }

  /** How many frames are not skipped. */
  ghost function Ticks(c: Command, inputs: seq<Input>, from: nat, to: nat): (n: nat)
    requires to <= |inputs| && FramesOnly(inputs)
  {
    if to <= from then 0 else Ticks(c, inputs, from, to - 1) + if Usable(c, inputs, to - 1) then 1 else 0
  }

  ghost function TimeOf(c: Command, inputs: seq<Input>, j: nat): int
    requires j < |inputs| && FramesOnly(inputs)
  {
    Now(c, inputs[j].clock)
  }

  /** Whether in frame `j` the interval has passed since the round that frame `s` started. */
  ghost predicate Due(c: Command, inputs: seq<Input>, s: nat, j: nat)
    requires s < j < |inputs| && FramesOnly(inputs) && 0 < c.settings.interval
  {
    && Usable(c, inputs, j)
    && if c.settings.isIntervalFrames then c.settings.interval <= Ticks(c, inputs, s + 1, j + 1)
       else NextDue(c.timers.intervalDue, c.settings.interval, TimeOf(c, inputs, s)) <= TimeOf(c, inputs, j)
  }

  /** Whether in frame `j` the time to hold has passed since frame `s`. */
  ghost predicate Over(c: Command, inputs: seq<Input>, s: nat, j: nat)
    requires s < j < |inputs| && FramesOnly(inputs)
  {
    && Usable(c, inputs, j)
    && if c.settings.isDurationFrames then c.settings.duration <= Ticks(c, inputs, s + 1, j + 1)
       else TimeOf(c, inputs, s) + c.settings.duration <= TimeOf(c, inputs, j)
  }

  /** Frame `j` is the first one after `s` in which the interval has passed. */
  ghost predicate NextStart(c: Command, inputs: seq<Input>, s: nat, j: nat)
    requires FramesOnly(inputs) && 0 < c.settings.interval
  {
    s < j < |inputs| && Due(c, inputs, s, j) && forall i :: s < i < j ==> !Due(c, inputs, s, i)
  }

  /** Frame `j` is the first one after `s` in which the interval or the time to hold has passed. */
  ghost predicate LastRoundEnds(c: Command, inputs: seq<Input>, s: nat, j: nat)
    requires FramesOnly(inputs) && 0 < c.settings.interval
  {
    && s < j < |inputs| && (Due(c, inputs, s, j) || Over(c, inputs, s, j))
    && forall i :: s < i < j ==> !Due(c, inputs, s, i) && !Over(c, inputs, s, i)
  }

  /** The frames that start the rounds of a new command: the first one that is not skipped, then one per interval. */
  ghost predicate Timetable(c: Command, inputs: seq<Input>, starts: seq<nat>)
    requires FramesOnly(inputs) && 0 < c.settings.interval
  {
    && (forall k :: 0 <= k < |starts| ==> starts[k] < |inputs|)
    && (starts != [] ==> Usable(c, inputs, starts[0]) && forall i :: 0 <= i < starts[0] ==> !Usable(c, inputs, i))
    && (forall k {:trigger starts[k]} :: 0 < k < |starts| ==> NextStart(c, inputs, starts[k - 1], starts[k]))
  }

  /** A command right after its creation that is to hold `times` times. */
  ghost predicate NewHolding(c: Command, times: int) {
    && Sound(c) && c.scheduled && !c.initialized && !c.failed && !c.finishing
    && 0 < c.settings.duration && c.times == times && 0 < times && c.trace == []
  }

  /** The state after the first `n` frames, `rounds` rounds having started, the last one in frame `s`. */
  ghost predicate InRound(c: Command, inputs: seq<Input>, n: nat, s: nat, after: Command, left: int, rounds: nat)
    requires FramesOnly(inputs) && 0 < c.settings.interval
  {
    && s < n <= |inputs| && after.settings == c.settings && |after.held| == |c.held|
    && Sound(after) && after.scheduled && after.initialized && !after.failed && !after.finishing
    && after.times == left && 0 <= left && (left == 0 ==> after.holding)
    && Timed(c, inputs, n, s, after)
    && (after.holding <==> forall j :: s < j < n ==> !Over(c, inputs, s, j))
    && (forall j :: s < j < n ==> !Due(c, inputs, s, j))
    && (forall i :: 0 <= i < |c.held| ==> Count(after.trace, Begin(i)) == rounds)
  }

  /** What the timers are. */
  ghost predicate Timed(c: Command, inputs: seq<Input>, n: nat, s: nat, after: Command)
    requires FramesOnly(inputs) && 0 < c.settings.interval && s < n <= |inputs|
  {
    && (if c.settings.isIntervalFrames then
          after.timers.intervalRemaining == c.settings.interval - Ticks(c, inputs, s + 1, n)
        else after.timers.intervalDue == NextDue(c.timers.intervalDue, c.settings.interval, TimeOf(c, inputs, s)))
    && (after.holding ==>
          if c.settings.isDurationFrames then
            after.timers.durationRemaining == c.settings.duration - Ticks(c, inputs, s + 1, n)
          else after.timers.durationDue == TimeOf(c, inputs, s) + c.settings.duration)
  }

  /** Moving on twice is moving on once. */
  lemma {:induction false} NextDueTwice(due: int, interval: int, earlier: int, later: int)
    requires 0 < interval && earlier <= later
    ensures NextDue(NextDue(due, interval, earlier), interval, later) == NextDue(due, interval, later)
    decreases earlier - due
  {
    if due <= earlier {
      NextDueTwice(due + interval, interval, earlier, later);
    }
  }

  /** What decides about a frame is what the clock values say. */
  lemma {:induction false} Decided(
    c: Command, inputs: seq<Input>, n: nat, s: nat, after: Command, left: int, rounds: nat)
    requires FramesOnly(inputs) && 0 < c.settings.interval && InRound(c, inputs, n, s, after, left, rounds)
    requires n < |inputs| && Usable(c, inputs, n) && 0 < c.settings.duration
    ensures StartsCycle(after, TimeOf(c, inputs, n)) <==> Due(c, inputs, s, n)
    ensures Releases(after, TimeOf(c, inputs, n)) <==>
              after.holding && (Due(c, inputs, s, n) || Over(c, inputs, s, n))
  {
  }

  lemma {:induction false} FrameCounts(c: Command, clock: int, rounds: nat)
    requires Sound(c) && Active(c, clock) && c.initialized && 0 < c.settings.duration
    requires forall i :: 0 <= i < |c.held| ==> Count(c.trace, Begin(i)) == rounds
    ensures forall i :: 0 <= i < |c.held| ==>
      Count(Frame(c, clock, true).trace, Begin(i)) == rounds + if StartsCycle(c, Now(c, clock)) then 1 else 0
  {
    forall i | 0 <= i < |c.held|
      ensures Count(Frame(c, clock, true).trace, Begin(i)) == rounds + if StartsCycle(c, Now(c, clock)) then 1 else 0
    {
      ActionCounts(c, Now(c, clock), i);
    }
  }

  /** A frame that starts no round and does not finish the command. */
  lemma {:induction false} StaysInRound(
    c: Command, inputs: seq<Input>, n: nat, s: nat, after: Command, left: int, rounds: nat)
    requires FramesOnly(inputs) && 0 < c.settings.interval && InRound(c, inputs, n, s, after, left, rounds)
    requires n < |inputs| && 0 < c.settings.duration && !Due(c, inputs, s, n)
    requires left == 0 ==> !Over(c, inputs, s, n)
    ensures InRound(c, inputs, n + 1, s, Frame(after, inputs[n].clock, true), left, rounds)
  {
    FrameKeepsSound(after, inputs[n].clock, true);
    if Usable(c, inputs, n) {
      Decided(c, inputs, n, s, after, left, rounds);
      FrameCounts(after, inputs[n].clock, rounds);
    }
  }

  /** A frame that starts another round. */
  lemma {:induction false} StartsNextRound(
    c: Command, inputs: seq<Input>, n: nat, s: nat, after: Command, left: int, rounds: nat)
    requires FramesOnly(inputs) && 0 < c.settings.interval && InRound(c, inputs, n, s, after, left, rounds)
    requires n < |inputs| && 0 < c.settings.duration && Due(c, inputs, s, n) && 0 < left
    ensures InRound(c, inputs, n + 1, n, Frame(after, inputs[n].clock, true), left - 1, rounds + 1)
    ensures NextStart(c, inputs, s, n)
  {
    FrameKeepsSound(after, inputs[n].clock, true);
    Decided(c, inputs, n, s, after, left, rounds);
    FrameCounts(after, inputs[n].clock, rounds);
    var (due, interval) := (c.timers.intervalDue, c.settings.interval);
    if !c.settings.isIntervalFrames {
      NextDueTwice(due, interval, TimeOf(c, inputs, s), TimeOf(c, inputs, n));
    }
  }

  /** The frame that finishes the command, and whether it starts one round too many. */
  lemma {:induction false} Finishes(
    c: Command, inputs: seq<Input>, n: nat, s: nat, after: Command, rounds: nat)
    requires FramesOnly(inputs) && 0 < c.settings.interval && InRound(c, inputs, n, s, after, 0, rounds)
    requires n < |inputs| && 0 < c.settings.duration && (Due(c, inputs, s, n) || Over(c, inputs, s, n))
    ensures var last := Frame(after, inputs[n].clock, true);
            && last.finishing && |last.held| == |c.held|
            && forall i :: 0 <= i < |c.held| ==>
                 Count(last.trace, Begin(i)) == rounds + if Due(c, inputs, s, n) then 1 else 0
    ensures LastRoundEnds(c, inputs, s, n)
  {
    Decided(c, inputs, n, s, after, 0, rounds);
    FrameCounts(after, inputs[n].clock, rounds);
  }

  lemma {:induction false} StartsFirstRound(c: Command, times: int, inputs: seq<Input>, n: nat)
    requires NewHolding(c, times) && FramesOnly(inputs) && n < |inputs| && Usable(c, inputs, n)
    ensures InRound(c, inputs, n + 1, n, Frame(c, inputs[n].clock, true), times - 1, 1)
  {
    var clock := inputs[n].clock;
    FrameKeepsSound(c, clock, true);
    forall i | 0 <= i < |c.held|
      ensures Count(Frame(c, clock, true).trace, Begin(i)) == 1
    {
      ActionCounts(c, Now(c, clock), i);
    }
  }

  /** The command has finished in frame `e`. */
  ghost predicate Finished(c: Command, times: int, inputs: seq<Input>, starts: seq<nat>, e: nat, after: Command)
    requires FramesOnly(inputs) && 0 < c.settings.interval
  {
    && 0 < times == |starts| && LastRoundEnds(c, inputs, starts[times - 1], e)
    && |after.held| == |c.held|
    && forall i :: 0 <= i < |c.held| ==>
         Count(after.trace, Begin(i)) == times + if Due(c, inputs, starts[times - 1], e) then 1 else 0
  }

  /** What the first `n` frames have led to. */
  ghost predicate LedTo(c: Command, times: int, inputs: seq<Input>, n: nat, starts: seq<nat>, after: Command)
    requires FramesOnly(inputs) && 0 < c.settings.interval && n <= |inputs|
  {
    && Timetable(c, inputs, starts) && (forall k :: 0 <= k < |starts| ==> starts[k] < n) && |starts| <= times
    && (starts == [] ==> after == c && forall i :: 0 <= i < n ==> !Usable(c, inputs, i))
    && (starts != [] && !after.finishing ==>
          InRound(c, inputs, n, starts[|starts| - 1], after, times - |starts|, |starts|))
    && after.settings == c.settings
    && (starts != [] && after.finishing ==> exists e :: 0 <= e < n && Finished(c, times, inputs, starts, e, after))
  }

  lemma {:induction false} TimetableGrows(c: Command, inputs: seq<Input>, starts: seq<nat>, n: nat)
    requires FramesOnly(inputs) && 0 < c.settings.interval && Timetable(c, inputs, starts)
    requires starts != [] && NextStart(c, inputs, starts[|starts| - 1], n)
    ensures Timetable(c, inputs, starts + [n])
  {
    var more := starts + [n];
    forall k {:trigger more[k]} | 0 < k < |more|
      ensures NextStart(c, inputs, more[k - 1], more[k])
    {
      if k < |starts| {
        assert NextStart(c, inputs, starts[k - 1], starts[k]);
      }
    }
  }

  lemma {:induction false} LedToAnotherRound(
    c: Command, times: int, inputs: seq<Input>, n: nat, starts: seq<nat>, after: Command)
    requires NewHolding(c, times) && FramesOnly(inputs) && n < |inputs| && LedTo(c, times, inputs, n, starts, after)
    requires starts != [] && !after.finishing && Due(c, inputs, starts[|starts| - 1], n) && |starts| < times
    ensures LedTo(c, times, inputs, n + 1, starts + [n], Frame(after, inputs[n].clock, true))
  {
    StartsNextRound(c, inputs, n, starts[|starts| - 1], after, times - |starts|, |starts|);
    TimetableGrows(c, inputs, starts, n);
  }

  lemma {:induction false} LedToTheEnd(
    c: Command, times: int, inputs: seq<Input>, n: nat, starts: seq<nat>, after: Command)
    requires NewHolding(c, times) && FramesOnly(inputs) && n < |inputs| && LedTo(c, times, inputs, n, starts, after)
    requires starts != [] && !after.finishing && times == |starts|
    requires Due(c, inputs, starts[times - 1], n) || Over(c, inputs, starts[times - 1], n)
    ensures LedTo(c, times, inputs, n + 1, starts, Frame(after, inputs[n].clock, true))
  {
    Finishes(c, inputs, n, starts[times - 1], after, times);
    assert Finished(c, times, inputs, starts, n, Frame(after, inputs[n].clock, true));
  }

  lemma {:induction false} LedToNext(
    c: Command, times: int, inputs: seq<Input>, n: nat, starts: seq<nat>, after: Command) returns (more: seq<nat>)
    requires NewHolding(c, times) && FramesOnly(inputs) && n < |inputs| && LedTo(c, times, inputs, n, starts, after)
    ensures LedTo(c, times, inputs, n + 1, more, Frame(after, inputs[n].clock, true))
  {
    more := starts;
    if starts == [] {
      if Usable(c, inputs, n) {
        StartsFirstRound(c, times, inputs, n);
        more := [n];
      }
    } else if !after.finishing {
      var s := starts[|starts| - 1];
      if times == |starts| && (Due(c, inputs, s, n) || Over(c, inputs, s, n)) {
        LedToTheEnd(c, times, inputs, n, starts, after);
      } else if Due(c, inputs, s, n) {
        LedToAnotherRound(c, times, inputs, n, starts, after);
        more := starts + [n];
      } else {
        StaysInRound(c, inputs, n, s, after, times - |starts|, |starts|);
      }
    }
  }

  /** Where any run of frames has led to. */
  lemma {:induction false} Follow(c: Command, times: int, inputs: seq<Input>, n: nat) returns (starts: seq<nat>)
    requires NewHolding(c, times) && FramesOnly(inputs) && n <= |inputs|
    ensures AllFit(c, inputs[..n]) && LedTo(c, times, inputs, n, starts, Run(c, inputs[..n]))
  {
    if n == 0 {
      starts := [];
    } else {
      starts := Follow(c, times, inputs, n - 1);
      starts := LedToNext(c, times, inputs, n - 1, starts, Run(c, inputs[..n - 1]));
      LastFrameOf(c, inputs, n);
    }
  }

  lemma {:induction false} LastFrameOf(c: Command, inputs: seq<Input>, n: nat)
    requires 0 < c.settings.interval && FramesOnly(inputs) && 0 < n <= |inputs| && AllFit(c, inputs[..n - 1])
    ensures AllFit(c, inputs[..n])
    ensures Run(c, inputs[..n]) == Frame(Run(c, inputs[..n - 1]), inputs[n - 1].clock, true)
  {
    assert inputs[..n][..n - 1] == inputs[..n - 1];
    assert inputs[n - 1] == FrameInput(inputs[n - 1].clock, true);
  }

  /** First frames are unique, so the clock values determine the timetable. */
  lemma {:induction false} SameTimetable(c: Command, inputs: seq<Input>, a: seq<nat>, b: seq<nat>, k: nat)
    requires FramesOnly(inputs) && 0 < c.settings.interval && Timetable(c, inputs, a) && Timetable(c, inputs, b)
    requires k < |a| && k < |b|
    ensures a[k] == b[k]
  {
    if k > 0 {
      SameTimetable(c, inputs, a, b, k - 1);
      assert NextStart(c, inputs, a[k - 1], a[k]) && NextStart(c, inputs, b[k - 1], b[k]);
    }
  }

  lemma {:induction false} StartsAscend(c: Command, inputs: seq<Input>, starts: seq<nat>, k: nat, l: nat)
    requires FramesOnly(inputs) && 0 < c.settings.interval && Timetable(c, inputs, starts) && k <= l < |starts|
    ensures starts[k] <= starts[l]
    decreases l
  {
    if k < l {
      StartsAscend(c, inputs, starts, k, l - 1);
      assert NextStart(c, inputs, starts[l - 1], starts[l]);
    }
  }

  /** The rounds of a command that is to hold `times` times, as the clock values have it. */
  ghost predicate RoundTimes(c: Command, times: int, inputs: seq<Input>, starts: seq<nat>, e: nat)
    requires FramesOnly(inputs) && 0 < c.settings.interval
  {
    0 < times == |starts| && Timetable(c, inputs, starts) && LastRoundEnds(c, inputs, starts[times - 1], e)
  }

  lemma {:induction false} AllStarted(
    c: Command, times: int, inputs: seq<Input>, starts: seq<nat>, e: nat, n: nat, after: Command)
    requires FramesOnly(inputs) && 0 < c.settings.interval && n <= |inputs|
    requires RoundTimes(c, times, inputs, starts, e) && LedTo(c, times, inputs, n, starts, after)
    ensures after.finishing <==> e < n
    ensures e < n ==> Finished(c, times, inputs, starts, e, after)
  {
    if after.finishing {
      var f :| 0 <= f < n && Finished(c, times, inputs, starts, f, after);
      assert f == e;
    }
  }

  lemma {:induction false} StillStarting(
    c: Command, times: int, inputs: seq<Input>, starts: seq<nat>, e: nat, n: nat, found: seq<nat>, after: Command)
    requires NewHolding(c, times) && FramesOnly(inputs) && n <= |inputs|
    requires RoundTimes(c, times, inputs, starts, e) && LedTo(c, times, inputs, n, found, after) && |found| < times
    ensures !after.finishing && n <= e
  {
    StartsAscend(c, inputs, starts, |found|, times - 1);
    if found != [] {
      SameTimetable(c, inputs, found, starts, |found| - 1);
      assert NextStart(c, inputs, starts[|found| - 1], starts[|found|]);
    }
  }

  /** A command is finishing from the end of its last round on, not before. */
  lemma {:induction false} FinishesIn(c: Command, times: int, inputs: seq<Input>, starts: seq<nat>, e: nat, n: nat)
    requires NewHolding(c, times) && FramesOnly(inputs) && RoundTimes(c, times, inputs, starts, e) && n <= |inputs|
    ensures AllFit(c, inputs[..n]) && (Run(c, inputs[..n]).finishing <==> e < n)
    ensures e < n ==> Finished(c, times, inputs, starts, e, Run(c, inputs[..n]))
  {
    var found := Follow(c, times, inputs, n);
    if |found| == times {
      forall k | 0 <= k < |found|
        ensures found[k] == starts[k]
      {
        SameTimetable(c, inputs, found, starts, k);
      }
      assert found == starts;
      AllStarted(c, times, inputs, starts, e, n, Run(c, inputs[..n]));
    } else {
      StillStarting(c, times, inputs, starts, e, n, found, Run(c, inputs[..n]));
    }
  }

  /**
   A command that is to hold N times finishes in the first frame after the start of its N-th round in which the
   interval or the time to hold has passed. It has then held exactly N times if and only if the interval has not passed
   in that frame; else it has started one round more. This holds for any clock values and all units.
   */
  lemma {:induction false} RoundsByClock(
    duration: int, isDurationFrames: bool, times: int, interval: int, isIntervalFrames: bool, entries: nat, now: int,
    inputs: seq<Input>, starts: seq<nat>, e: nat, i: nat)
    requires Create(duration, isDurationFrames, times, interval, isIntervalFrames, entries, now).Some?
    requires 0 < duration && 0 < times && i < entries && FramesOnly(inputs)
    requires var c := Create(duration, isDurationFrames, times, interval, isIntervalFrames, entries, now).value;
             RoundTimes(c, times, inputs, starts, e)
    ensures var c := Create(duration, isDurationFrames, times, interval, isIntervalFrames, entries, now).value;
            && Run(c, inputs).finishing && Run(c, inputs[..e + 1]).finishing && !Run(c, inputs[..e]).finishing
            && (Count(Run(c, inputs).trace, Begin(i)) == times <==> !Due(c, inputs, starts[times - 1], e))
            && Count(Run(c, inputs).trace, Begin(i)) == times + if Due(c, inputs, starts[times - 1], e) then 1 else 0
  {
    var c := Create(duration, isDurationFrames, times, interval, isIntervalFrames, entries, now).value;
    CreatedSound(duration, isDurationFrames, times, interval, isIntervalFrames, entries, now);
    FinishesIn(c, times, inputs, starts, e, e);
    FinishesIn(c, times, inputs, starts, e, e + 1);
    FinishesIn(c, times, inputs, starts, e, |inputs|);
    assert inputs[..|inputs|] == inputs;
  }

  /** Every run of frames in which the command finishes is of that kind. */
  lemma {:induction false} ClockOfFinishing(
    duration: int, isDurationFrames: bool, times: int, interval: int, isIntervalFrames: bool, entries: nat, now: int,
    inputs: seq<Input>) returns (starts: seq<nat>, e: nat)
    requires Create(duration, isDurationFrames, times, interval, isIntervalFrames, entries, now).Some?
    requires 0 < duration && 0 < times && FramesOnly(inputs)
    requires var c := Create(duration, isDurationFrames, times, interval, isIntervalFrames, entries, now).value;
             Run(c, inputs).finishing
    ensures var c := Create(duration, isDurationFrames, times, interval, isIntervalFrames, entries, now).value;
            RoundTimes(c, times, inputs, starts, e)
  {
    var c := Create(duration, isDurationFrames, times, interval, isIntervalFrames, entries, now).value;
    CreatedSound(duration, isDurationFrames, times, interval, isIntervalFrames, entries, now);
    starts := Follow(c, times, inputs, |inputs|);
    assert inputs[..|inputs|] == inputs;
    e :| 0 <= e < |inputs| && Finished(c, times, inputs, starts, e, Run(c, inputs));
  }

  /**
   Holding for 900 ms every 1000 ms, twice, with a late third frame: that frame finds both the hold over and the next
   cycle due, so that a third round starts although the time to hold is shorter than the interval.
   */
  lemma {:induction false} LateFrame(inputs: seq<Input>)
    requires inputs == [FrameInput(1, true), FrameInput(1000, true), FrameInput(2500, true)]
    ensures var c := Create(900, false, 2, 1000, false, 1, 0).value;
            Run(c, inputs).finishing && Count(Run(c, inputs).trace, Begin(0)) == 3
  {
    var c := Create(900, false, 2, 1000, false, 1, 0).value;
    assert NextDue(1000, 1000, 1) == 1000;
    assert NextDue(1000, 1000, 1000) == 2000;
    assert Due(c, inputs, 0, 1) && Due(c, inputs, 1, 2);
    assert NextStart(c, inputs, 0, 1) && LastRoundEnds(c, inputs, 1, 2);
    RoundsByClock(900, false, 2, 1000, false, 1, 0, inputs, [0, 1], 2, 0);
  }
}
