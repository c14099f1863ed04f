/** The CMTR command: holds and releases, or triggers, simulator commands in timed cycles. */
module Cmtr {
  import opened CmtrTrace
  import opened Intervals
  import opened Sequences
  import opened Wrappers

  const INT32_MAX: int := 0x7FFF_FFFF

  /** The parameters a command keeps from its creation on. */
  datatype Settings = Settings(
    requiresTime: bool, interval: int, isIntervalFrames: bool, duration: int, isDurationFrames: bool)

  /** The due times, for times in milliseconds, and the frame counters, for times in frames. */
  datatype Timers = Timers(intervalDue: int, intervalRemaining: int, durationDue: int, durationRemaining: int)

  datatype Command = Command(
    settings: Settings, timers: Timers, times: int,
    initialized: bool, failed: bool, finishing: bool, holding: bool, scheduled: bool,
    held: seq<bool>, trace: seq<Event>)

  /** A new command for `entries` simulator commands; None if a parameter is refused or the clock fails. */
  function Create(
    duration: int, isDurationFrames: bool, times: int, interval: int, isIntervalFrames: bool, entries: nat, now: int)
    : (command: Option<Command>)
  {
    if duration < 0 || (times < 1 && times != INFINITE_REPETITION) || interval <= 0 || entries == 0 then None
    else
      var period := if times == 1 then INT32_MAX else interval;
      var inFrames := times != 1 && isIntervalFrames;
      var requiresTime := !inFrames || !isDurationFrames;
      if requiresTime && now < 0 then None
      else
        var start := if requiresTime then now else 0;
        Some(Command(
               Settings(requiresTime, period, inFrames, duration, isDurationFrames),
               Timers(if inFrames then 0 else start + period, 0, 0, 0), times,
               false, false, false, false, true, Row(entries, false), []))
  }

  /** `n` times the same flag. */
  function Row(n: nat, value: bool): seq<bool> {
    seq(n, _ => value)
  }

  /** Whether a frame starts a new cycle. */
  function StartsCycle(c: Command, now: int): bool {
    || !c.initialized
    || (if c.settings.isIntervalFrames then c.timers.intervalRemaining <= 1 else now >= c.timers.intervalDue)
  }

  /** Whether a frame begins with the release of what is held: for the next cycle or since the time to hold is over. */
  function Releases(c: Command, now: int): bool {
    c.holding &&
    (|| StartsCycle(c, now)
     || (c.settings.duration > 0 &&
         if c.settings.isDurationFrames then c.timers.durationRemaining <= 1 else now >= c.timers.durationDue))
  }

  /** The timers after a frame. */
  function NextTimers(c: Command, now: int): Timers
    requires 0 < c.settings.interval
  {
    var starts := StartsCycle(c, now);
    var holds := c.settings.duration > 0;
    var t := c.timers;
    Timers(
      if starts && !c.settings.isIntervalFrames then NextDue(t.intervalDue, c.settings.interval, now)
      else t.intervalDue,
      if !c.settings.isIntervalFrames then t.intervalRemaining
      else if starts then c.settings.interval else t.intervalRemaining - 1,
      if starts && holds && !c.settings.isDurationFrames then now + c.settings.duration else t.durationDue,
      if !holds || !c.settings.isDurationFrames then t.durationRemaining
      else if starts then c.settings.duration else if c.holding then t.durationRemaining - 1 else t.durationRemaining)
  }

  /** What a frame does to the simulator's commands. */
  function Actions(c: Command, now: int): seq<Event> {
    (if Releases(c, now) then Ends(c.held, 0) else []) +
    (if !StartsCycle(c, now) then [] else if c.settings.duration > 0 then Begins(|c.held|) else Onces(|c.held|))
  }

  /** A frame of an active command at time `now`. */
  function Cycle(c: Command, now: int): Command
    requires 0 < c.settings.interval
  {
    var starts, releases, holds := StartsCycle(c, now), Releases(c, now), c.settings.duration > 0;
    var times := if starts && c.times > 0 then c.times - 1 else c.times;
    var finishing := c.finishing || (releases && c.times == 0) || (starts && !holds && times == 0);
    Command(
      c.settings, NextTimers(c, now), times, true, c.failed, finishing,
      if starts then holds else c.holding && !releases, c.scheduled,
      if starts then Row(|c.held|, holds) else if releases then Row(|c.held|, false) else c.held,
      c.trace + Actions(c, now))
  }

  /** Whether a frame gets as far as looking at the command. */
  predicate Active(c: Command, clock: int) {
    c.scheduled && !c.failed && !c.finishing && (c.settings.requiresTime ==> 0 <= clock)
  }

  function Now(c: Command, clock: int): int {
    if c.settings.requiresTime then clock else 0
  }

  /**
   One flight loop frame. `clock` is the session clock (negative on failure); `found` tells whether all
   simulator commands are found and the channel can be confirmed, which matters on the first frame only.
   */
  function Frame(c: Command, clock: int, found: bool): Command
    requires 0 < c.settings.interval
  {
    if !Active(c, clock) then c
    else if !c.initialized && !found then c.(failed := true)
    else Cycle(c, Now(c, clock))
  }

  /** The entries still held after termination; `queued` tells for which entries queueing an end works. */
  function StillHeld(held: seq<bool>, queued: seq<bool>): (still: seq<bool>)
    requires |queued| == |held|
    ensures |still| == |held|
  {
    seq(|held|, i requires 0 <= i < |held| => held[i] && !queued[i])
  }

  /** Termination, and whether it succeeds. `unschedules` tells whether unscheduling works. */
  function Terminate(c: Command, unschedules: bool, queued: seq<bool>): (r: (Command, bool))
    requires |queued| == |c.held|
  {
    if c.scheduled && !unschedules then (c, false)
    else
      var held := StillHeld(c.held, queued);
      (c.(scheduled := false, held := held, trace := c.trace + QueuedEnds(c.held, queued, 0)), true !in held)
  }

  datatype Input =
    | FrameInput(clock: int, found: bool)
    | TerminateInput(unschedules: bool, queued: seq<bool>)

  ghost predicate Fits(c: Command, input: Input) {
    input.TerminateInput? ==> |input.queued| == |c.held|
  }

  ghost function Step(c: Command, input: Input): (after: Command)
    requires 0 < c.settings.interval && Fits(c, input)
    ensures after.settings == c.settings && |after.held| == |c.held|
  {
    match input
    case FrameInput(clock, found) => Frame(c, clock, found)
    case TerminateInput(unschedules, queued) => Terminate(c, unschedules, queued).0
  }

  /** What every run keeps. */
  ghost predicate Sound(c: Command) {
    && 0 < c.settings.interval && 0 <= c.settings.duration
    && c.held != []
    && Balanced(c.trace, c.held)
    && (c.scheduled ==> AllHeld(c.held, c.holding))
    && (!c.initialized ==> !c.holding)
    && (c.settings.duration == 0 ==> !c.holding)
  }

  lemma {:induction false} CreatedSound(
    duration: int, isDurationFrames: bool, times: int, interval: int, isIntervalFrames: bool, entries: nat, now: int)
    requires Create(duration, isDurationFrames, times, interval, isIntervalFrames, entries, now).Some?
    ensures Sound(Create(duration, isDurationFrames, times, interval, isIntervalFrames, entries, now).value)
  {
  }

  /** A release before the next cycle, then the holds or triggers of that cycle: the entry takes turns throughout. */
  lemma {:induction false} AfterActions(c: Command, now: int, i: nat)
    requires Sound(c) && c.scheduled && i < |c.held|
    ensures Alternates(c.trace + Actions(c, now), i)
    ensures 0 < c.settings.interval && Depth(c.trace + Actions(c, now), i) == if Cycle(c, now).holding then 1 else 0
  {
    var n, released := |c.held|, if Releases(c, now) then Ends(c.held, 0) else [];
    var trace := c.trace + released;
    if Releases(c, now) {
      AfterEnds(c.trace, c.held, 0, i);
    } else {
      NothingAfter(c.trace);
    }
    if !StartsCycle(c, now) {
      NothingAfter(released);
    } else if c.settings.duration > 0 {
      AfterBegins(trace, n, i);
      Regrouped(c.trace, released, Begins(n));
    } else {
      AfterOnces(trace, n, i);
      Regrouped(c.trace, released, Onces(n));
    }
  }

  lemma {:induction false} FrameKeepsSound(c: Command, clock: int, found: bool)
    requires Sound(c)
    ensures Sound(Frame(c, clock, found))
  {
    if Active(c, clock) && (c.initialized || found) {
      forall i | 0 <= i < |c.held|
        ensures Alternates(Frame(c, clock, found).trace, i)
        ensures Depth(Frame(c, clock, found).trace, i) == if Frame(c, clock, found).holding then 1 else 0
      {
        AfterActions(c, Now(c, clock), i);
      }
    }
  }

  /** A successful termination leaves no begin without an end, issued or queued. */
  lemma {:induction false} TerminateKeepsSound(c: Command, unschedules: bool, queued: seq<bool>)
    requires Sound(c) && |queued| == |c.held|
    ensures var (after, ok) := Terminate(c, unschedules, queued);
            && Sound(after)
            && (ok ==> !after.scheduled && forall i :: 0 <= i < |c.held| ==> Depth(after.trace, i) == 0)
  {
    var (after, ok) := Terminate(c, unschedules, queued);
    if !c.scheduled || unschedules {
      forall i | 0 <= i < |c.held|
        ensures Alternates(after.trace, i) && Depth(after.trace, i) == if after.held[i] then 1 else 0
      {
        AfterQueuedEnds(c.trace, c.held, queued, 0, i);
      }
    }
  }

  /** Whether the holding flag tells if any commands are held. */
  predicate FlagTells(c: Command) {
    c.holding <==> true in c.held
  }

  /** Whether a termination leaves the entries as they are. */
  predicate Refuses(c: Command, unschedules: bool) {
    c.scheduled && !unschedules
  }

  /**
   Termination ends holds but leaves the holding flag alone. So the flag tells afterwards if any commands are held if
   and only if it was not set, or a hold is left: because unscheduling or queueing an end fails.
   */
  lemma {:induction false} FlagAfterTermination(c: Command, unschedules: bool, queued: seq<bool>)
    requires Sound(c) && |queued| == |c.held| && (true in c.held ==> c.holding)
    ensures var after := Terminate(c, unschedules, queued).0;
            && after.holding == c.holding && (true in after.held ==> after.holding)
            && (FlagTells(after) <==>
                  || !c.holding
                  || (if Refuses(c, unschedules) then true in c.held
                      else exists i :: 0 <= i < |queued| && c.held[i] && !queued[i]))
  {
    var after := Terminate(c, unschedules, queued).0;
    if !Refuses(c, unschedules) {
      HeldAfterTermination(c, queued);
    }
  }

  lemma {:induction false} HeldAfterTermination(c: Command, queued: seq<bool>)
    requires |queued| == |c.held|
    ensures true in StillHeld(c.held, queued) <==> exists i :: 0 <= i < |queued| && c.held[i] && !queued[i]
    ensures true in StillHeld(c.held, queued) ==> true in c.held
  {
    var still := StillHeld(c.held, queued);
    if i :| 0 <= i < |queued| && c.held[i] && !queued[i] {
      assert still[i];
    }
    if true in still {
      var i :| 0 <= i < |still| && still[i];
      assert c.held[i];
    }
  }

  /**
   For a command that holds all of its entries or none, as each one does while it is scheduled: the flag tells
   afterwards if any are held if and only if it was not set, or an end cannot be queued; it tells that all are held or
   none if and only if it was not set or no end can be queued. A refused termination changes neither.
   */
  lemma {:induction false} FlagOutlivesHold(c: Command, unschedules: bool, queued: seq<bool>)
    requires Sound(c) && AllHeld(c.held, c.holding) && |queued| == |c.held|
    ensures var after := Terminate(c, unschedules, queued).0;
            FlagTells(after) <==>
            Refuses(c, unschedules) || !c.holding || exists i :: 0 <= i < |queued| && !queued[i]
    ensures var after := Terminate(c, unschedules, queued).0;
            AllHeld(after.held, after.holding) <==>
            Refuses(c, unschedules) || !c.holding || forall i :: 0 <= i < |queued| ==> !queued[i]
  {
    assert c.held[0] == c.holding;
    AllOrNoneStillHeld(c.held, c.holding, queued);
  }

  lemma {:induction false} AllOrNoneStillHeld(held: seq<bool>, holding: bool, queued: seq<bool>)
    requires held != [] && AllHeld(held, holding) && |queued| == |held|
    ensures true in StillHeld(held, queued) <==> holding && exists i :: 0 <= i < |queued| && !queued[i]
    ensures AllHeld(StillHeld(held, queued), holding) <==> !holding || forall i :: 0 <= i < |queued| ==> !queued[i]
  {
    var still := StillHeld(held, queued);
    assert forall i :: 0 <= i < |queued| ==> still[i] == (holding && !queued[i]);
    if i :| 0 <= i < |queued| && !queued[i] {
      assert still[i] == holding;
    }
  }

  /** If all ends can be queued, nothing is held afterwards and every begin has its end. */
  lemma {:induction false} NothingStillHeld(c: Command, unschedules: bool, queued: seq<bool>)
    requires Sound(c) && !Refuses(c, unschedules) && |queued| == |c.held| && forall i :: 0 <= i < |queued| ==> queued[i]
    ensures var after := Terminate(c, unschedules, queued).0;
            forall i :: 0 <= i < |c.held| ==> !after.held[i] && Depth(after.trace, i) == 0
  {
    TerminateKeepsSound(c, unschedules, queued);
  }

  /** Holding one command every 20 frames for 10 frames, terminated after the first one: still flagged, nothing held. */
  lemma {:induction false} StillFlagged()
    ensures Create(10, true, 2, 20, true, 1, 0).Some?
    ensures var holding := Frame(Create(10, true, 2, 20, true, 1, 0).value, 0, true);
            var after := Terminate(holding, true, [true]).0;
            holding.held == [true] && after.held == [false] && after.holding && !after.scheduled
  {
    var holding := Frame(Create(10, true, 2, 20, true, 1, 0).value, 0, true);
    assert holding.held == Row(1, true) == [true];
    assert StillHeld([true], [true]) == [false];
  }

  /** What a frame adds to the counts of an entry. */
  lemma {:induction false} ActionCounts(c: Command, now: int, i: nat)
    requires i < |c.held|
    ensures var (after, starts, holds) := (c.trace + Actions(c, now), StartsCycle(c, now), c.settings.duration > 0);
            && Count(after, Begin(i)) == Count(c.trace, Begin(i)) + (if starts && holds then 1 else 0)
            && Count(after, Once(i)) == Count(c.trace, Once(i)) + (if starts && !holds then 1 else 0)
            && Count(after, End(i)) == Count(c.trace, End(i)) + (if Releases(c, now) && c.held[i] then 1 else 0)
  {
    var released := if Releases(c, now) then Ends(c.held, 0) else [];
    var trace := c.trace + released;
    if Releases(c, now) {
      EndCounts(c.trace, c.held, 0, i);
    } else {
      NothingAfter(c.trace);
    }
    if !StartsCycle(c, now) {
      NothingAfter(released);
    } else if c.settings.duration > 0 {
      BeginCounts(trace, |c.held|, i);
      Regrouped(c.trace, released, Begins(|c.held|));
    } else {
      OnceCounts(trace, |c.held|, i);
      Regrouped(c.trace, released, Onces(|c.held|));
    }
  }
}
