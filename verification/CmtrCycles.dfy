/** What CMTR commands do over whole runs: balanced holds, exact numbers of cycles, no drift. */
module CmtrCycles {
  import opened Cmtr
  import opened CmtrTrace
  import opened Intervals
  import opened Sequences
  import opened Wrappers

  ghost predicate AllFit(c: Command, inputs: seq<Input>) {
    forall i :: 0 <= i < |inputs| ==> Fits(c, inputs[i])
  }

  /** The command after a run of frames and terminations, in any order. */
  ghost function Run(c: Command, inputs: seq<Input>): (after: Command)
    requires 0 < c.settings.interval && AllFit(c, inputs)
    ensures after.settings == c.settings && |after.held| == |c.held|
  {
    if inputs == [] then c
    else
      var before, input := Run(c, inputs[..|inputs| - 1]), inputs[|inputs| - 1];
      assert Fits(c, input);
      Step(before, input)
  }

  /** Begins and ends stay balanced over every run, and time-based due times stay on the grid they started on. */
  lemma {:induction false} RunKeepsSound(c: Command, inputs: seq<Input>)
    requires Sound(c) && AllFit(c, inputs)
    ensures Sound(Run(c, inputs))
    ensures OnGrid(c.timers.intervalDue, c.settings.interval, Run(c, inputs).timers.intervalDue)
  {
    if inputs == [] {
      assert c.timers.intervalDue == GridPoint(c.timers.intervalDue, c.settings.interval, 0);
    } else {
      var front, input := inputs[..|inputs| - 1], inputs[|inputs| - 1];
      RunKeepsSound(c, front);
      var before := Run(c, front);
      assert Fits(c, input);
      if input.FrameInput? {
        FrameKeepsSound(before, input.clock, input.found);
        StaysOnGrid(c.timers.intervalDue, c.settings.interval, before.timers.intervalDue, Now(before, input.clock));
      } else {
        TerminateKeepsSound(before, input.unschedules, input.queued);
      }
    }
  }

  /** Over every run whatever is held is flagged, and while the command is scheduled the flag tells exactly. */
  lemma {:induction false} HeldIsFlagged(c: Command, inputs: seq<Input>)
    requires Sound(c) && (true in c.held ==> c.holding) && AllFit(c, inputs)
    ensures var after := Run(c, inputs);
            (true in after.held ==> after.holding) && (after.scheduled ==> FlagTells(after))
  {
    if inputs == [] {
      assert c.scheduled ==> c.held[0] == c.holding;
    } else {
      var front, input := inputs[..|inputs| - 1], inputs[|inputs| - 1];
      HeldIsFlagged(c, front);
      RunKeepsSound(c, front);
      assert Fits(c, input);
      StepIsFlagged(Run(c, front), input);
    }
  }

  lemma {:induction false} StepIsFlagged(c: Command, input: Input)
    requires Sound(c) && (true in c.held ==> c.holding) && Fits(c, input)
    ensures var after := Step(c, input);
            (true in after.held ==> after.holding) && (after.scheduled ==> FlagTells(after))
  {
    if input.FrameInput? {
      FrameKeepsSound(c, input.clock, input.found);
      var after := Frame(c, input.clock, input.found);
      assert after.scheduled ==> after.held[0] == after.holding;
    } else {
      FlagAfterTermination(c, input.unschedules, input.queued);
      assert c.scheduled ==> c.held[0] == c.holding;
    }
  }

  /** How many cycles an entry has started, holding or triggering. */
  ghost function Started(trace: seq<Event>, i: nat): nat {
    Count(trace, Begin(i)) + Count(trace, Once(i))
  }

  /** At most one cycle starts per frame, however much time has passed. */
  lemma {:induction false} OneCyclePerFrame(c: Command, clock: int, found: bool, i: nat)
    requires 0 < c.settings.interval && i < |c.held|
    ensures Started(c.trace, i) <= Started(Frame(c, clock, found).trace, i) <= Started(c.trace, i) + 1
  {
    ActionCounts(c, Now(c, clock), i);
  }

  /** How often entry `i` has been triggered by a command that does not hold, or held by one that does. */
  ghost function Rounds(settings: Settings, trace: seq<Event>, i: nat): nat {
    Count(trace, if settings.duration > 0 then Begin(i) else Once(i))
  }

  /**
   How the rounds relate to the repetitions used up: N triggers and no more without holding; with holding, one round
   more than N exactly when the command is still holding although it is finishing.
   */
  ghost predicate Counted(c: Command, times: int) {
    && Sound(c)
    && (times == INFINITE_REPETITION ==> c.times == times && !c.finishing)
    && (times > 0 ==> 0 <= c.times <= times)
    && (c.finishing ==> c.times == 0)
    && (c.times == 0 ==> c.finishing || c.holding)
    && (times > 0 ==> forall i :: 0 <= i < |c.held| ==>
          Rounds(c.settings, c.trace, i) == times - c.times + if c.finishing && c.holding then 1 else 0)
  }

  lemma {:induction false} CreatedCounted(
    duration: int, isDurationFrames: bool, times: int, interval: int, isIntervalFrames: bool, entries: nat, now: int)
    requires Create(duration, isDurationFrames, times, interval, isIntervalFrames, entries, now).Some?
    ensures Counted(Create(duration, isDurationFrames, times, interval, isIntervalFrames, entries, now).value, times)
  {
    CreatedSound(duration, isDurationFrames, times, interval, isIntervalFrames, entries, now);
  }

  lemma {:induction false} CycleCounted(c: Command, times: int, now: int)
    requires Counted(c, times) && (times > 0 || times == INFINITE_REPETITION)
    requires c.scheduled && !c.finishing && !c.failed && Sound(Cycle(c, now))
    ensures Counted(Cycle(c, now), times)
  {
    var after := Cycle(c, now);
    if times > 0 {
      forall i | 0 <= i < |c.held|
        ensures Rounds(after.settings, after.trace, i) ==
                times - after.times + if after.finishing && after.holding then 1 else 0
      {
        ActionCounts(c, now, i);
        assert Rounds(c.settings, c.trace, i) == times - c.times;
      }
    }
  }

  lemma {:induction false} TerminateCounted(c: Command, times: int, unschedules: bool, queued: seq<bool>)
    requires Counted(c, times) && |queued| == |c.held|
    ensures Counted(Terminate(c, unschedules, queued).0, times)
  {
    TerminateKeepsSound(c, unschedules, queued);
    forall i | 0 <= i < |c.held|
      ensures Rounds(c.settings, Terminate(c, unschedules, queued).0.trace, i) == Rounds(c.settings, c.trace, i)
    {
      QueuedEndCounts(c.trace, c.held, queued, 0, if c.settings.duration > 0 then Begin(i) else Once(i));
    }
  }

  /**
   Over every run, whatever the clock: a command that is to repeat N times finishes after exactly N rounds, unless
   it is still holding when it decides to finish, in which case it has started one round more. A command without
   holding therefore triggers exactly N times, and one with infinite repetition never finishes.
   */
  lemma {:induction false} RunCounted(c: Command, times: int, inputs: seq<Input>)
    requires Counted(c, times) && (times > 0 || times == INFINITE_REPETITION) && AllFit(c, inputs)
    ensures Counted(Run(c, inputs), times)
  {
    if inputs != [] {
      var front, input := inputs[..|inputs| - 1], inputs[|inputs| - 1];
      RunCounted(c, times, front);
      var before := Run(c, front);
      assert Fits(c, input);
      if input.TerminateInput? {
        TerminateCounted(before, times, input.unschedules, input.queued);
      } else {
        FrameKeepsSound(before, input.clock, input.found);
        if Active(before, input.clock) && (before.initialized || input.found) {
          CycleCounted(before, times, Now(before, input.clock));
        }
      }
    }
  }

  /**
   Over every run of a new command, whatever the clock and the interval: without holding, it is finishing exactly from
   the N-th trigger on; with holding, exactly N rounds have been started when it is, and one more if it still holds.
   With infinite repetition it never is.
   */
  lemma {:induction false} RoundsWhenFinishing(
    duration: int, isDurationFrames: bool, times: int, interval: int, isIntervalFrames: bool, entries: nat, now: int,
    inputs: seq<Input>, i: nat)
    requires Create(duration, isDurationFrames, times, interval, isIntervalFrames, entries, now).Some? && i < entries
    requires AllFit(Create(duration, isDurationFrames, times, interval, isIntervalFrames, entries, now).value, inputs)
    ensures var c := Create(duration, isDurationFrames, times, interval, isIntervalFrames, entries, now).value;
            var after := Run(c, inputs);
            && (times == INFINITE_REPETITION ==> !after.finishing)
            && (times > 0 && duration == 0 ==> (after.finishing <==> Count(after.trace, Once(i)) == times))
            && (times > 0 && duration > 0 && after.finishing ==>
                  Count(after.trace, Begin(i)) == times + if after.holding then 1 else 0)
  {
    var c := Create(duration, isDurationFrames, times, interval, isIntervalFrames, entries, now).value;
    CreatedCounted(duration, isDurationFrames, times, interval, isIntervalFrames, entries, now);
    RunCounted(c, times, inputs);
    var after := Run(c, inputs);
    assert times > 0 ==> Rounds(after.settings, after.trace, i) ==
                         times - after.times + if after.finishing && after.holding then 1 else 0;
  }

  /** A command that measures in milliseconds, holding since time `t`. */
  ghost predicate HeldSince(c: Command, t: int) {
    && Sound(c) && c.scheduled && c.initialized && !c.failed && !c.finishing && c.holding
    && c.settings.requiresTime && !c.settings.isIntervalFrames && !c.settings.isDurationFrames
    && c.timers.durationDue == t + c.settings.duration
  }

  /** Frames at times before a hold is over and before the next cycle is due. */
  ghost predicate Early(inputs: seq<Input>, t: int, c: Command) {
    forall i :: 0 <= i < |inputs| ==>
      inputs[i].FrameInput? && inputs[i].clock < t + c.settings.duration && inputs[i].clock < c.timers.intervalDue
  }

  /**
   Measured in milliseconds, a hold lasts from the frame that starts it over all frames before its time is over, and
   the first frame then, unless the next cycle is due, ends it for all entries.
   */
  lemma {:induction false} HoldLasts(c: Command, t: int, inputs: seq<Input>, clock: int)
    requires HeldSince(c, t) && Early(inputs, t, c)
    ensures AllFit(c, inputs) && HeldSince(Run(c, inputs), t) && Run(c, inputs).trace == c.trace
    ensures 0 <= clock && t + c.settings.duration <= clock < c.timers.intervalDue ==>
      var after := Frame(Run(c, inputs), clock, true);
      !after.holding && after.trace == c.trace + Ends(c.held, 0)
  {
    HoldLastsOn(c, t, inputs);
    var before := Run(c, inputs);
    assert before.held == c.held;
    NothingAfter(Ends(c.held, 0));
  }

  lemma {:induction false} HoldLastsOn(c: Command, t: int, inputs: seq<Input>)
    requires HeldSince(c, t) && Early(inputs, t, c)
    ensures AllFit(c, inputs) && HeldSince(Run(c, inputs), t)
    ensures Run(c, inputs).trace == c.trace && Run(c, inputs).timers.intervalDue == c.timers.intervalDue
  {
    if inputs != [] {
      var front, input := inputs[..|inputs| - 1], inputs[|inputs| - 1];
      HoldLastsOn(c, t, front);
      var before := Run(c, front);
      FrameKeepsSound(before, input.clock, input.found);
      NothingAfter(before.trace);
    }
  }

  /** The frame that starts a cycle holds, and remembers the time. */
  lemma {:induction false} HoldStarts(c: Command, clock: int, found: bool)
    requires Sound(c) && Active(c, clock) && (c.initialized || found) && StartsCycle(c, clock)
    requires c.settings.requiresTime && !c.settings.isIntervalFrames && !c.settings.isDurationFrames
    requires 0 < c.settings.duration && c.times != 0
    ensures HeldSince(Frame(c, clock, found), clock)
    ensures Frame(c, clock, found).timers.intervalDue == NextDue(c.timers.intervalDue, c.settings.interval, clock)
  {
    FrameKeepsSound(c, clock, found);
  }

  /** Frames only, with all simulator commands found. */
  ghost predicate FramesOnly(inputs: seq<Input>) {
    forall i :: 0 <= i < |inputs| ==> inputs[i].FrameInput? && inputs[i].found
  }

  /** A command that counts both its repetition interval and the time to hold in frames. */
  ghost predicate InFrames(c: Command) {
    c.settings.isIntervalFrames && c.settings.isDurationFrames && !c.settings.requiresTime && 0 < c.settings.duration
  }

  /** The command at frame `p` of cycle `k`, both counted from 0. */
  ghost predicate At(c: Command, times: int, k: nat, p: nat) {
    && Sound(c) && c.scheduled && c.initialized && !c.failed && InFrames(c)
    && p < c.settings.interval
    && c.timers.intervalRemaining == c.settings.interval - p
    && c.holding == (p < c.settings.duration)
    && (c.holding ==> c.timers.durationRemaining == c.settings.duration - p)
    && c.times == (if k < times then times - 1 - k else 0)
    && c.finishing == Last(c, times, k, p)
    && (k >= times ==> c.finishing)
    && (k == times - 1 ==> p <= c.settings.duration)
    && forall i :: 0 <= i < |c.held| ==> Count(c.trace, Begin(i)) == k + 1
  }

  /**
   The frame in which the command finishes: with the release in the last cycle if cycles are longer than the time to
   hold; else only with the start of another one.
   */
  ghost predicate Last(c: Command, times: int, k: nat, p: nat) {
    if c.settings.duration < c.settings.interval then k == times - 1 && p == c.settings.duration
    else k == times && p == 0
  }

  lemma {:induction false} FirstFrameAt(c: Command, times: int, clock: int)
    requires Sound(c) && c.scheduled && !c.initialized && !c.failed && !c.finishing && InFrames(c)
    requires c.times == times >= 2 && c.trace == []
    ensures At(Frame(c, clock, true), times, 0, 0)
  {
    FrameKeepsSound(c, clock, true);
    forall i | 0 <= i < |c.held|
      ensures Count(Frame(c, clock, true).trace, Begin(i)) == 1
    {
      ActionCounts(c, 0, i);
    }
  }

  lemma {:induction false} NextFrameAt(c: Command, times: int, k: nat, p: nat, clock: int, found: bool)
    requires At(c, times, k, p) && times >= 2 && !c.finishing
    ensures At(Frame(c, clock, found), times, if p == c.settings.interval - 1 then k + 1 else k,
               if p == c.settings.interval - 1 then 0 else p + 1)
  {
    FrameKeepsSound(c, clock, found);
    forall i | 0 <= i < |c.held|
      ensures Count(Frame(c, clock, found).trace, Begin(i)) == k + 1 + if p == c.settings.interval - 1 then 1 else 0
    {
      ActionCounts(c, 0, i);
    }
  }

  /** A command right after its creation that counts in frames and is to repeat at least twice. */
  ghost predicate NewInFrames(c: Command, times: int) {
    && Sound(c) && c.scheduled && !c.initialized && !c.failed && !c.finishing && InFrames(c)
    && c.times == times && 2 <= times && c.trace == []
  }

  lemma {:induction false} CreatedInFrames(duration: int, times: int, interval: int, entries: nat, now: int)
    requires 0 < duration && 2 <= times && 0 < interval && 0 < entries
    ensures var command := Create(duration, true, times, interval, true, entries, now);
            && command.Some? && NewInFrames(command.value, times)
            && command.value.settings.interval == interval && command.value.settings.duration == duration
  {
    CreatedSound(duration, true, times, interval, true, entries, now);
  }

  /** How many frames pass between the first one and the one that finishes the command. */
  ghost function LastFrame(settings: Settings, times: int): int {
    if settings.duration < settings.interval then (times - 1) * settings.interval + settings.duration
    else times * settings.interval
  }

  lemma {:induction false} AtMeetsLast(c: Command, times: int, k: nat, p: nat)
    requires At(c, times, k, p) && 2 <= times
    ensures k * c.settings.interval + p <= LastFrame(c.settings, times)
    ensures c.finishing <==> k * c.settings.interval + p == LastFrame(c.settings, times)
  {
    var interval := c.settings.interval;
    if c.settings.duration < interval {
      if k < times - 1 {
        WholeCycles(k, times - 1, interval);
      }
    } else if k < times {
      WholeCycles(k, times, interval);
    }
  }

  lemma {:induction false} WholeCycles(k: int, n: int, interval: int)
    requires k < n && 0 < interval
    ensures k * interval + interval <= n * interval
  {
    assert (k + 1) * interval <= n * interval;
  }

  /** How far `m` frames after the first one get. */
  ghost function Reached(settings: Settings, times: int, m: nat): int {
    if m < LastFrame(settings, times) then m else LastFrame(settings, times)
  }

  lemma {:induction false} OneFrameOn(c: Command, times: int, k: nat, p: nat, m: nat, clock: int, found: bool)
    returns (k': nat, p': nat)
    requires At(c, times, k, p) && 2 <= times && k * c.settings.interval + p == Reached(c.settings, times, m)
    ensures At(Frame(c, clock, found), times, k', p')
    ensures k' * c.settings.interval + p' == Reached(c.settings, times, m + 1)
  {
    k', p' := k, p;
    AtMeetsLast(c, times, k, p);
    if !c.finishing {
      NextFrameAt(c, times, k, p, clock, found);
      if p == c.settings.interval - 1 {
        k', p' := k + 1, 0;
      } else {
        p' := p + 1;
      }
      NextPosition(k, p, c.settings.interval);
    }
  }

  lemma {:induction false} NextPosition(k: nat, p: nat, interval: int)
    requires p < interval
    ensures p == interval - 1 ==> (k + 1) * interval == k * interval + p + 1
  {
  }

  /** After the first frame and `m` more, with all commands found, the command is where `m` frames take it. */
  lemma {:induction false} FramesLeadTo(c: Command, times: int, inputs: seq<Input>) returns (k: nat, p: nat)
    requires NewInFrames(c, times) && FramesOnly(inputs) && inputs != []
    ensures At(Run(c, inputs), times, k, p)
    ensures k * c.settings.interval + p == Reached(c.settings, times, |inputs| - 1)
  {
    var front, input := inputs[..|inputs| - 1], inputs[|inputs| - 1];
    assert input.found;
    if front == [] {
      k, p := 0, 0;
      assert Run(c, front) == c;
      FirstFrameAt(c, times, input.clock);
      AtMeetsLast(Run(c, inputs), times, k, p);
    } else {
      k, p := FramesLeadTo(c, times, front);
      k, p := OneFrameOn(Run(c, front), times, k, p, |front| - 1, input.clock, input.found);
    }
  }

  /**
   Counted in frames, a command that is to repeat N times starts exactly N cycles if and only if the time to hold is
   shorter than the interval, and N + 1 else. It finishes after the frame LastFrame says, not before.
   */
  lemma {:induction false} CyclesExactly(c: Command, times: int, inputs: seq<Input>, i: nat)
    requires NewInFrames(c, times) && FramesOnly(inputs) && i < |c.held|
    ensures Run(c, inputs).finishing <==> |inputs| > LastFrame(c.settings, times)
    ensures Run(c, inputs).finishing ==>
      (Count(Run(c, inputs).trace, Begin(i)) == times <==> c.settings.duration < c.settings.interval)
    ensures Run(c, inputs).finishing ==>
      Count(Run(c, inputs).trace, Begin(i)) == times + if c.settings.duration < c.settings.interval then 0 else 1
  {
    if inputs == [] {
      assert times * c.settings.interval >= 0 && (times - 1) * c.settings.interval >= 0;
    } else {
      var k, p := FramesLeadTo(c, times, inputs);
      AtMeetsLast(Run(c, inputs), times, k, p);
    }
  }
}
