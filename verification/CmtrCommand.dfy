/** The CMTR command as an object whose frames and termination change it in place. */
module CmtrCommand {
  import opened Cmtr
  import opened CmtrTrace
  import opened Intervals
  import opened Sequences
  import opened Wrappers

  class CommandCmtr {
    const settings: Settings
    var intervalDueTime: int
    var intervalRemainingFrames: int
    var durationDueTime: int
    var durationRemainingFrames: int
    var timesRemaining: int
    var initialized: bool
    var failed: bool
    var finishing: bool
    var holding: bool
    var scheduled: bool
    /** For each simulator command, whether it is held. */
    const held: array<bool>
    /** What has been done to the simulator's commands so far. */
    var trace: seq<Event>

    ghost function State(): Command
      reads this, held
    {
      Command(
        settings, Timers(intervalDueTime, intervalRemainingFrames, durationDueTime, durationRemainingFrames),
        timesRemaining, initialized, failed, finishing, holding, scheduled, held[..], trace)
    }

    constructor (settings: Settings, times: int, intervalDueTime: int, entries: nat)
      ensures fresh(held)
      ensures State() == Command(
                settings, Timers(intervalDueTime, 0, 0, 0), times,
                false, false, false, false, true, Row(entries, false), [])
    {
      this.settings := settings;
      this.intervalDueTime := intervalDueTime;
      intervalRemainingFrames, durationDueTime, durationRemainingFrames := 0, 0, 0;
      timesRemaining := times;
      initialized, failed, finishing, holding, scheduled := false, false, false, false, true;
      held := new bool[entries](_ => false);
      trace := [];
      new;
      assert held[..] == Row(entries, false);
    }

    /** Ends the held commands, the last one first. */
    method ReleaseAllHeld()
      modifies `trace, `holding, held
      ensures trace == old(trace + Ends(held[..], 0)) && held[..] == Row(held.Length, false) && !holding
    {
      var i := held.Length;
      while i > 0
        invariant 0 <= i <= held.Length
        invariant held[..i] == old(held[..])[..i] && held[i..] == Row(held.Length - i, false)
        invariant trace == old(trace) + Ends(old(held[..]), i)
      {
        i := i - 1;
        if held[i] {
          trace := trace + [End(i)];
        }
        held[i] := false;
      }
      holding := false;
    }

    /** Begins all commands, the first one first. */
    method HoldAll()
      modifies `trace, `holding, held
      ensures trace == old(trace) + Begins(held.Length) && held[..] == Row(held.Length, true) && holding
    {
      holding := true;
      for i := 0 to held.Length
        invariant holding && held[..i] == Row(i, true)
        invariant trace == old(trace) + Begins(i)
      {
        trace := trace + [Begin(i)];
        held[i] := true;
      }
      assert held[..] == held[..held.Length];
    }

    /** Triggers all commands, the first one first, unless they are held. */
    method TriggerAll()
      modifies `trace, held
      ensures holding ==> trace == old(trace) && held[..] == old(held[..])
      ensures !holding ==> trace == old(trace) + Onces(held.Length) && held[..] == Row(held.Length, false)
    {
      if holding {
        return;
      }
      for i := 0 to held.Length
        invariant held[..i] == Row(i, false)
        invariant trace == old(trace) + Onces(i)
      {
        trace := trace + [Once(i)];
        held[i] := false;
      }
      assert held[..] == held[..held.Length];
    }

    /** Counts a frame of the interval or compares its due time; a new cycle, if due, moves them on. */
    method TickInterval(now: int, first: bool) returns (shouldHold: bool)
      requires 0 < settings.interval
      modifies `intervalRemainingFrames, `intervalDueTime
      ensures var c := old(State()).(initialized := !first);
              && shouldHold == StartsCycle(c, now)
              && intervalDueTime == NextTimers(c, now).intervalDue
              && intervalRemainingFrames == NextTimers(c, now).intervalRemaining
    {
      shouldHold := first;
      if settings.isIntervalFrames {
        intervalRemainingFrames := intervalRemainingFrames - 1;
        shouldHold := shouldHold || intervalRemainingFrames <= 0;
      } else {
        shouldHold := shouldHold || now >= intervalDueTime;
      }
      if shouldHold {
        if settings.isIntervalFrames {
          intervalRemainingFrames := settings.interval;
        } else {
          intervalDueTime := AdvancePast(intervalDueTime, settings.interval, now);
        }
      }
    }

    /** Counts a frame of the time to hold, unless a new cycle releases anyway, and tells whether to release. */
    method TickDuration(now: int, shouldHold: bool) returns (shouldRelease: bool)
      modifies `durationRemainingFrames
      ensures var due :=
                if settings.isDurationFrames then old(durationRemainingFrames) <= 1 else now >= durationDueTime;
              && shouldRelease == (holding && (shouldHold || (settings.duration > 0 && due)))
      ensures durationRemainingFrames == old(durationRemainingFrames) -
                if holding && !shouldHold && settings.duration > 0 && settings.isDurationFrames then 1 else 0
    {
      shouldRelease := shouldHold && holding;
      if !shouldRelease && holding && settings.duration > 0 {
        if settings.isDurationFrames {
          durationRemainingFrames := durationRemainingFrames - 1;
          shouldRelease := durationRemainingFrames <= 0;
        } else {
          shouldRelease := now >= durationDueTime;
        }
      }
    }

    /** One flight loop frame; `clock` and `found` are what the session clock and the simulator answer. */
    method ProcessFlightloop(clock: int, found: bool)
      requires Sound(State())
      modifies this, held
      ensures State() == old(Frame(State(), clock, found))
    {
      if !scheduled || failed || finishing {
        return;
      }
      var now := 0;
      if settings.requiresTime {
        now := clock;
        if now < 0 {
          return;
        }
      }
      var first := !initialized;
      if first {
        if !found {
          failed := true;
          return;
        }
        initialized := true;
      }
      ProcessActive(now, first);
    }

    /** Releases what is held; the command is finishing if no repetition remains. */
    method ReleaseForFrame()
      modifies `trace, `holding, `finishing, held
      ensures trace == old(trace + Ends(held[..], 0)) && held[..] == Row(held.Length, false) && !holding
      ensures finishing == (old(finishing) || timesRemaining == 0)
    {
      if timesRemaining == 0 {
        finishing := true;
      }
      ReleaseAllHeld();
    }

    /** Starts a cycle, holding or triggering all commands. */
    method StartCycle(now: int)
      requires !holding
      modifies `timesRemaining, `durationRemainingFrames, `durationDueTime, `trace, `holding, `finishing, held
      ensures timesRemaining == old(timesRemaining) - if old(timesRemaining) > 0 then 1 else 0
      ensures holding == (settings.duration > 0) && held[..] == Row(held.Length, holding)
      ensures trace == old(trace) + if holding then Begins(held.Length) else Onces(held.Length)
      ensures finishing == (old(finishing) || (!holding && timesRemaining == 0))
      ensures durationRemainingFrames ==
              if holding && settings.isDurationFrames then settings.duration else old(durationRemainingFrames)
      ensures durationDueTime ==
              if holding && !settings.isDurationFrames then now + settings.duration else old(durationDueTime)
    {
      if timesRemaining > 0 {
        timesRemaining := timesRemaining - 1;
      }
      if settings.duration > 0 {
        if settings.isDurationFrames {
          durationRemainingFrames := settings.duration;
        } else {
          durationDueTime := now + settings.duration;
        }
        HoldAll();
      } else {
        if timesRemaining == 0 {
          finishing := true;
        }
        TriggerAll();
      }
    }

    /** The part of a frame that counts time, releases, and holds or triggers. */
    method ProcessActive(now: int, first: bool)
      requires initialized && scheduled && Sound(State().(initialized := !first))
      modifies this, held
      ensures State() == old(Cycle(State().(initialized := !first), now))
    {
      ghost var c := State().(initialized := !first);
      var shouldHold := TickInterval(now, first);
      var shouldRelease := TickDuration(now, shouldHold);
      assert shouldRelease == Releases(c, now);
      if shouldRelease {
        ReleaseForFrame();
      }
      if shouldHold {
        StartCycle(now);
      }
      ActionsDone(c, now);
      assert Timers(intervalDueTime, intervalRemainingFrames, durationDueTime, durationRemainingFrames) ==
             NextTimers(c, now);
    }

    /** Unschedules the command and queues the ends of what it still holds, the last one first. */
    method Terminate(unschedules: bool, queued: seq<bool>) returns (ok: bool)
      requires |queued| == held.Length
      modifies this, held
      ensures (State(), ok) == old(Cmtr.Terminate(State(), unschedules, queued))
    {
      if scheduled {
        if !unschedules {
          return false;
        }
        scheduled := false;
      }
      var failedToRelease := QueueEnds(queued);
      ok := failedToRelease == 0;
    }

    /** Tries to queue an end for each held command; those it fails for stay held. */
    method QueueEnds(queued: seq<bool>) returns (failedToRelease: nat)
      requires |queued| == held.Length
      modifies `trace, held
      ensures trace == old(trace + QueuedEnds(held[..], queued, 0))
      ensures held[..] == StillHeld(old(held[..]), queued)
      ensures failedToRelease == 0 <==> true !in held[..]
    {
      failedToRelease := 0;
      ghost var before := held[..];
      var i := held.Length;
      while i > 0
        invariant 0 <= i <= held.Length
        invariant forall j :: 0 <= j < i ==> held[j] == before[j]
        invariant forall j :: i <= j < held.Length ==> held[j] == (before[j] && !queued[j])
        invariant failedToRelease == 0 <==> forall j :: i <= j < held.Length ==> !held[j]
        invariant trace == old(trace) + QueuedEnds(before, queued, i)
      {
        i := i - 1;
        if held[i] {
          if queued[i] {
            trace := trace + [QueuedEnd(i)];
            held[i] := false;
          } else {
            failedToRelease := failedToRelease + 1;
          }
        }
      }
      assert held[..] == StillHeld(before, queued);
    }
  }

  lemma {:induction false} ActionsDone(c: Command, now: int)
    ensures c.trace + Actions(c, now) ==
            (if Releases(c, now) then c.trace + Ends(c.held, 0) else c.trace) +
            (if !StartsCycle(c, now) then [] else if c.settings.duration > 0 then Begins(|c.held|) else Onces(|c.held|))
  {
    if !Releases(c, now) {
      NothingAfter(c.trace);
    }
  }

  /** Creates a command, or null if a parameter is refused or the clock fails. */
  method CreateCommand(
    duration: int, isDurationFrames: bool, times: int, interval: int, isIntervalFrames: bool, entries: nat, clock: int)
    returns (command: CommandCmtr?)
    ensures var created := Create(duration, isDurationFrames, times, interval, isIntervalFrames, entries, clock);
            && (command != null <==> created.Some?)
            && (command != null ==> fresh(command) && fresh(command.held) && command.State() == created.value)
  {
    command := null;
    if duration < 0 || (times < 1 && times != INFINITE_REPETITION) || interval <= 0 {
      return;
    }
    var period, inFrames := interval, isIntervalFrames;
    if times == 1 {
      period, inFrames := INT32_MAX, false;
    }
    var requiresTime := !inFrames || !isDurationFrames;
    var now := 0;
    if requiresTime {
      now := clock;
      if now < 0 {
        return;
      }
    }
    if entries == 0 {
      return;
    }
    var intervalDueTime := 0;
    if !inFrames {
      intervalDueTime := now + period;
    }
    command := new CommandCmtr(
      Settings(requiresTime, period, inFrames, duration, isDurationFrames), times, intervalDueTime, entries);
  }
}
