/** The DRMU command as an object whose frames change it in place. */
module DrmuCommand {
  import opened Drmu
  import opened Wrappers

  class CommandDrmu {
    const settings: Settings
    var baseTimeMillis: int
    var intervalRemainingFrames: int
    var durationFrames: int
    var cycleComplete: bool
    var initialized: bool
    var failed: bool
    var done: bool
    var updateBaseValues: bool
    var datarefs: seq<Dataref>
    /** What has been submitted so far, frame by frame. */
    var trace: seq<Row>

    ghost function State(): Manipulation
      reads this
    {
      Manipulation(
        settings, Clockwork(baseTimeMillis, intervalRemainingFrames, durationFrames, cycleComplete),
        initialized, failed, done, updateBaseValues, datarefs, trace)
    }

    constructor (settings: Settings, now: int, datarefs: seq<Dataref>)
      ensures State() == Create(settings, now, datarefs)
    {
      this.settings := settings;
      baseTimeMillis, intervalRemainingFrames, durationFrames, cycleComplete := now, 0, 0, false;
      initialized, failed, done, updateBaseValues := false, false, false, false;
      this.datarefs := datarefs;
      trace := [];
    }

    /** Decides whether a new cycle is due and moves the base time on. */
    method Tick(now: int) returns (restart: bool)
      modifies `baseTimeMillis, `intervalRemainingFrames, `durationFrames, `cycleComplete
      ensures restart == old(Restarts(settings, State().work, now))
      ensures State().work == old(Ticked(settings, State().work, now))
    {
      var millisSinceBase := now - baseTimeMillis;
      if millisSinceBase < 0 {
        millisSinceBase := 0;
      }
      restart := false;
      if settings.interval > 0 {
        if settings.isIntervalFrames {
          intervalRemainingFrames := intervalRemainingFrames - 1;
          if intervalRemainingFrames <= 0 {
            intervalRemainingFrames := settings.interval;
            baseTimeMillis := now;
            restart := true;
          }
        } else {
          while millisSinceBase >= settings.interval
            invariant millisSinceBase == if now < baseTimeMillis then 0 else now - baseTimeMillis
            invariant CatchUp(baseTimeMillis, settings.interval, now) ==
                      old(CatchUp(baseTimeMillis, settings.interval, now))
            invariant if restart then old(now - baseTimeMillis >= settings.interval)
                      else baseTimeMillis == old(baseTimeMillis)
            invariant unchanged(`intervalRemainingFrames) && unchanged(`durationFrames) && unchanged(`cycleComplete)
            decreases now - baseTimeMillis
          {
            baseTimeMillis := baseTimeMillis + settings.interval;
            millisSinceBase := now - baseTimeMillis;
            restart := true;
          }
        }
      }
      if restart {
        cycleComplete := false;
        durationFrames := 0;
      }
    }

    /** How far the cycle has got, counting this frame. */
    method MeasureProgress(now: int) returns (progress: real)
      requires 0 < settings.duration
      modifies `durationFrames
      ensures State().work == old(Counted(settings, State().work))
      ensures progress == Progress(settings, State().work, now)
    {
      progress := 1.0;
      if !settings.immediate {
        if !settings.isDurationFrames {
          var millisSinceBase := now - baseTimeMillis;
          if millisSinceBase < 0 {
            millisSinceBase := 0;
          }
          progress := millisSinceBase as real / settings.duration as real;
        } else {
          durationFrames := durationFrames + 1;
          progress := durationFrames as real / settings.duration as real;
        }
        if progress < 0.0 {
          progress := 0.0;
        }
      }
    }

    /** Fetches the base values of one dataref if needed and computes what to submit for it. */
    method ComputeValues(d: Dataref, progress: real, reading: Option<seq<real>>)
      returns (fetched: Dataref, values: Option<seq<real>>)
      ensures fetched == Fetched(d, updateBaseValues, reading)
      ensures values == Submitted(d, updateBaseValues, reading, progress)
    {
      fetched, values := d, None;
      if updateBaseValues && d.fetchesBase {
        if reading.None? || |reading.value| != |d.target| {
          return;
        }
        fetched := d.(base := reading.value);
      }
      if progress >= 1.0 {
        values := Some(fetched.target);
      } else if |fetched.base| == |fetched.target| {
        var line := LinearValues(fetched.base, fetched.target, progress);
        values := Some(line);
      }
    }

    /** Works on all datarefs in turn, also after one has failed. */
    method UpdateDatarefs(progress: real, readings: seq<Option<seq<real>>>, writes: seq<bool>)
      returns (allSuccess: bool)
      requires |readings| == |writes| == |datarefs|
      modifies `datarefs, `cycleComplete, `done, `trace
      ensures datarefs == old(AllFetched(State(), readings))
      ensures var row := old(AllSubmitted(State(), readings, progress));
              && trace == old(trace) + [row]
              && allSuccess == AllWritten(row, writes)
              && cycleComplete == (old(cycleComplete) || (progress >= 1.0 && AnySubmitted(row)))
              && done == if progress >= 1.0 && AnySubmitted(row) then settings.interval <= 0 else old(done)
    {
      allSuccess := true;
      var row: Row := [];
      ghost var given, m := datarefs, State();
      ghost var all, bases := AllSubmitted(m, readings, progress), AllFetched(m, readings);
      for i := 0 to |datarefs|
        invariant |datarefs| == |given| && forall j :: i <= j < |given| ==> datarefs[j] == given[j]
        invariant forall j :: 0 <= j < i ==> datarefs[j] == bases[j]
        invariant |row| == i && forall j :: 0 <= j < i ==> row[j] == all[j]
        invariant unchanged(`trace)
        invariant allSuccess == AllWritten(row, writes)
        invariant cycleComplete == (old(cycleComplete) || (progress >= 1.0 && AnySubmitted(row)))
        invariant done == if progress >= 1.0 && AnySubmitted(row) then settings.interval <= 0 else old(done)
      {
        var fetched, values := ComputeValues(datarefs[i], progress, readings[i]);
        datarefs := datarefs[i := fetched];
        OneMoreRow(row, values, writes);
        row := row + [values];
        if values.Some? && progress >= 1.0 {
          cycleComplete := true;
          done := settings.interval <= 0;
        }
        allSuccess := allSuccess && values.Some? && writes[i];
      }
      assert row == all && datarefs == bases;
      trace := trace + [row];
    }

    /** One flight loop frame. */
    method ProcessFlightloop(input: Input)
      requires 0 < settings.duration && Fits(State(), input)
      modifies this
      ensures State() == old(Frame(State(), input))
    {
      if failed || done {
        return;
      }
      if !initialized {
        if !input.ready {
          failed := true;
          return;
        }
        initialized := true;
        updateBaseValues := AnyFetches(datarefs);
      }
      if input.clock < 0 {
        failed := true;
        return;
      }
      var restart := Tick(input.clock);
      if cycleComplete && !restart {
        return;
      }
      if restart {
        updateBaseValues := AnyFetches(datarefs);
      }
      UpdateCycle(input);
    }

    method UpdateCycle(input: Input)
      requires 0 < settings.duration && Fits(State(), input) && !failed && !done
      modifies this
      ensures State() == old(Update(State(), input))
    {
      var progress := MeasureProgress(input.clock);
      if !input.locks {
        failed := true;
        return;
      }
      var allSuccess := UpdateDatarefs(progress, input.readings, input.writes);
      if !allSuccess {
        failed := true;
        return;
      }
      updateBaseValues := false;
    }
  }

  lemma {:induction false} OneMoreRow(row: Row, values: Option<seq<real>>, writes: seq<bool>)
    requires |row| < |writes|
    ensures AnySubmitted(row + [values]) <==> AnySubmitted(row) || values.Some?
    ensures AllWritten(row + [values], writes) <==> AllWritten(row, writes) && values.Some? && writes[|row|]
  {
    var longer := row + [values];
    assert longer[|row|] == values && forall i :: 0 <= i < |row| ==> longer[i] == row[i];
  }
}
