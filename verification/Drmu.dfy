/** The DRMU command: moves the values of datarefs to their targets, at once or in a line, once or in cycles. */
module Drmu {
  import opened Intervals
  import opened Wrappers

  datatype Settings = Settings(
    immediate: bool, interval: int, isIntervalFrames: bool, duration: int, isDurationFrames: bool)

  /** Where the values of a dataref start from, maybe read anew for each cycle, and where they are to get to. */
  datatype Dataref = Dataref(fetchesBase: bool, base: seq<real>, target: seq<real>)

  datatype Clockwork = Clockwork(baseTime: int, intervalRemaining: int, durationFrames: int, cycleComplete: bool)

  /** What a frame submits for each dataref, if it gets that far. */
  type Row = seq<Option<seq<real>>>

  datatype Manipulation = Manipulation(
    settings: Settings, work: Clockwork, initialized: bool, failed: bool, done: bool, updateBase: bool,
    datarefs: seq<Dataref>, trace: seq<Row>)

  function Create(settings: Settings, now: int, datarefs: seq<Dataref>): Manipulation {
    Manipulation(settings, Clockwork(now, 0, 0, false), false, false, false, false, datarefs, [])
  }

  /** Where a value is on its way from `base` to `target`. */
  function Blend(base: real, target: real, progress: real): real {
    base + progress * (target - base)
  }

  predicate Between(x: real, y: real, z: real) {
    x <= y <= z || z <= y <= x
  }

  /** The values at a given progress. */
  function Linear(base: seq<real>, target: seq<real>, progress: real): (values: seq<real>)
    requires |base| == |target|
    ensures |values| == |target|
  {
    seq(|target|, i requires 0 <= i < |target| => Blend(base[i], target[i], progress))
  }

  method LinearValues(base: seq<real>, target: seq<real>, progress: real) returns (values: seq<real>)
    requires |base| == |target|
    ensures values == Linear(base, target, progress)
  {
    values := [];
    for i := 0 to |target|
      invariant values == Linear(base, target, progress)[..i]
    {
      var diff := target[i] - base[i];
      values := values + [base[i] + progress * diff];
      assert values[i] == Linear(base, target, progress)[i];
    }
  }

  /** The base time once the catch-up loop has moved it within an interval of now. */
  function CatchUp(baseTime: int, interval: int, now: int): (moved: int)
    requires 0 < interval
    ensures now < moved + interval
    ensures baseTime <= now ==> moved <= now
    decreases now - baseTime
  {
    if now - baseTime >= interval then CatchUp(baseTime + interval, interval, now) else baseTime
  }

  predicate Restarts(s: Settings, w: Clockwork, now: int) {
    s.interval > 0 && if s.isIntervalFrames then w.intervalRemaining <= 1 else now - w.baseTime >= s.interval
  }

  /** The clockwork after the part of a frame that decides about a new cycle. */
  function Ticked(s: Settings, w: Clockwork, now: int): Clockwork {
    var restarts := Restarts(s, w, now);
    Clockwork(
      if s.interval <= 0 then w.baseTime
      else if s.isIntervalFrames then if restarts then now else w.baseTime
      else CatchUp(w.baseTime, s.interval, now),
      if s.interval <= 0 || !s.isIntervalFrames then w.intervalRemaining
      else if restarts then s.interval else w.intervalRemaining - 1,
      if restarts then 0 else w.durationFrames,
      w.cycleComplete && !restarts)
  }

  /** The clockwork after a frame that works on the cycle has counted itself. */
  function Counted(s: Settings, w: Clockwork): Clockwork {
    if !s.immediate && s.isDurationFrames then w.(durationFrames := w.durationFrames + 1) else w
  }

  /** How far a cycle has got. */
  function Progress(s: Settings, w: Clockwork, now: int): (p: real)
    requires 0 < s.duration
  {
    if s.immediate then 1.0
    else if s.isDurationFrames then AtLeastZero(w.durationFrames as real / s.duration as real)
    else AtLeastZero((if now < w.baseTime then 0 else now - w.baseTime) as real / s.duration as real)
  }

  function AtLeastZero(x: real): real {
    if x < 0.0 then 0.0 else x
  }

  /** A dataref after a frame; `read` is what reading its values gives, None on failure. */
  function Fetched(d: Dataref, updateBase: bool, read: Option<seq<real>>): Dataref {
    if updateBase && d.fetchesBase && read.Some? && |read.value| == |d.target| then d.(base := read.value) else d
  }

  function Submitted(d: Dataref, updateBase: bool, read: Option<seq<real>>, progress: real): Option<seq<real>> {
    if updateBase && d.fetchesBase && (read.None? || |read.value| != |d.target|) then None
    else if progress >= 1.0 then Some(d.target)
    else if |Fetched(d, updateBase, read).base| != |d.target| then None
    else Some(Linear(Fetched(d, updateBase, read).base, d.target, progress))
  }

  function AllFetched(m: Manipulation, readings: seq<Option<seq<real>>>): (datarefs: seq<Dataref>)
    requires |readings| == |m.datarefs|
  {
    seq(|m.datarefs|, i requires 0 <= i < |m.datarefs| => Fetched(m.datarefs[i], m.updateBase, readings[i]))
  }

  function AllSubmitted(m: Manipulation, readings: seq<Option<seq<real>>>, progress: real): (row: Row)
    requires |readings| == |m.datarefs|
  {
    seq(|m.datarefs|, i requires 0 <= i < |m.datarefs| => Submitted(m.datarefs[i], m.updateBase, readings[i], progress))
  }

  predicate AnyFetches(datarefs: seq<Dataref>) {
    exists i :: 0 <= i < |datarefs| && datarefs[i].fetchesBase
  }

  predicate AllWritten(row: Row, writes: seq<bool>)
    requires |row| <= |writes|
  {
    forall i :: 0 <= i < |row| ==> row[i].Some? && writes[i]
  }

  predicate AnySubmitted(row: Row) {
    exists i :: 0 <= i < |row| && row[i].Some?
  }

  /**
   What a frame meets: whether all datarefs are found, the session clock, whether the registry of proxies can be
   locked, what reading each dataref gives and whether writing it (and copying for the monitor) works.
   */
  datatype Input = Input(ready: bool, clock: int, locks: bool, readings: seq<Option<seq<real>>>, writes: seq<bool>)

  predicate Fits(m: Manipulation, input: Input) {
    |input.readings| == |m.datarefs| && |input.writes| == |m.datarefs|
  }

  /** A frame that works on the current cycle. */
  function Update(m: Manipulation, input: Input): Manipulation
    requires 0 < m.settings.duration && Fits(m, input)
  {
    var work := Counted(m.settings, m.work);
    if !input.locks then m.(work := work, failed := true)
    else
      var progress := Progress(m.settings, work, input.clock);
      var row := AllSubmitted(m, input.readings, progress);
      var completes := progress >= 1.0 && AnySubmitted(row);
      Manipulation(
        m.settings, work.(cycleComplete := completes || work.cycleComplete), m.initialized,
        !AllWritten(row, input.writes), completes && m.settings.interval <= 0,
        m.updateBase && !AllWritten(row, input.writes), AllFetched(m, input.readings), m.trace + [row])
  }

  /** Whether a frame gets as far as working with the time. */
  predicate Active(m: Manipulation, input: Input) {
    !m.failed && !m.done && (m.initialized || input.ready) && 0 <= input.clock
  }

  /** One flight loop frame. */
  function Frame(m: Manipulation, input: Input): Manipulation
    requires 0 < m.settings.duration && Fits(m, input)
  {
    if m.failed || m.done then m
    else if !m.initialized && !input.ready then m.(failed := true)
    else
      var updateBase := if m.initialized then m.updateBase else AnyFetches(m.datarefs);
      var m' := m.(initialized := true, updateBase := updateBase);
      if input.clock < 0 then m'.(failed := true)
      else
        var work := Ticked(m.settings, m.work, input.clock);
        if work.cycleComplete then m'.(work := work)
        else
          var restarts := Restarts(m.settings, m.work, input.clock);
          Update(m'.(work := work, updateBase := if restarts then AnyFetches(m.datarefs) else updateBase), input)
  }

  /** A value on its way lies between base and target, and gets no further away from the target. */
  lemma {:induction false} BlendApproaches(base: real, target: real, p: real, q: real)
    requires 0.0 <= p <= q <= 1.0
    ensures Between(base, Blend(base, target, p), target)
    ensures Between(Blend(base, target, p), Blend(base, target, q), target)
  {
    var diff := target - base;
    var stretch := if 0.0 <= diff then diff else -diff;
    Product(p, stretch);
    Product(q - p, stretch);
    Product(1.0 - q, stretch);
    assert Blend(base, target, p) == base + p * diff && Blend(base, target, q) == base + q * diff;
    if 0.0 > diff {
      assert p * diff == -(p * stretch) && q * diff == -(q * stretch);
    }
  }

  lemma {:induction false} Product(x: real, y: real)
    requires 0.0 <= x && 0.0 <= y
    ensures 0.0 <= x * y
  {
  }

  /** All values lie between base and target. */
  ghost predicate OnTheWay(d: Dataref, values: seq<real>) {
    |values| == |d.target| == |d.base| && forall j :: 0 <= j < |values| ==> Between(d.base[j], values[j], d.target[j])
  }

  /** What is submitted for a dataref is the exact target, or still on the way there from its base. */
  lemma {:induction false} SubmittedMeans(d: Dataref, updateBase: bool, reading: Option<seq<real>>, progress: real)
    requires 0.0 <= progress && Submitted(d, updateBase, reading, progress).Some?
    ensures var values := Submitted(d, updateBase, reading, progress).value;
            if progress >= 1.0 then values == d.target else OnTheWay(Fetched(d, updateBase, reading), values)
  {
    if progress < 1.0 {
      var from := Fetched(d, updateBase, reading);
      forall j | 0 <= j < |d.target|
        ensures Between(from.base[j], Blend(from.base[j], d.target[j], progress), d.target[j])
      {
        BlendApproaches(from.base[j], d.target[j], progress, 1.0);
      }
    }
  }

  lemma {:induction false} CatchUpStaysOnGrid(start: int, baseTime: int, interval: int, now: int)
    requires 0 < interval && OnGrid(start, interval, baseTime)
    ensures OnGrid(start, interval, CatchUp(baseTime, interval, now))
    decreases now - baseTime
  {
    if now - baseTime >= interval {
      var k: nat :| baseTime == GridPoint(start, interval, k);
      assert GridPoint(start, interval, k + 1) == baseTime + interval;
      CatchUpStaysOnGrid(start, baseTime + interval, interval, now);
    }
  }

  /** What every run keeps: a completed cycle has submitted exactly the targets; only a single cycle is ever done. */
  ghost predicate Sound(m: Manipulation) {
    && 0 < m.settings.duration
    && (m.work.cycleComplete && !m.failed ==> m.trace != [] && m.trace[|m.trace| - 1] == Targets(m.datarefs))
    && (m.done ==> m.work.cycleComplete && m.settings.interval <= 0)
  }

  ghost function Targets(datarefs: seq<Dataref>): (row: Row) {
    seq(|datarefs|, i requires 0 <= i < |datarefs| => Some(datarefs[i].target))
  }

  /** A frame keeps what the command was created with. */
  ghost predicate SameParameters(m: Manipulation, n: Manipulation) {
    m.settings == n.settings && Targets(m.datarefs) == Targets(n.datarefs)
  }

  lemma {:induction false} UpdateKeepsSound(m: Manipulation, input: Input)
    requires 0 < m.settings.duration && Fits(m, input) && !m.work.cycleComplete && !m.done
    ensures Sound(Update(m, input)) && SameParameters(m, Update(m, input))
  {
    if input.locks {
      var work := Counted(m.settings, m.work);
      var progress := Progress(m.settings, work, input.clock);
      var row := AllSubmitted(m, input.readings, progress);
      assert Targets(m.datarefs) == Targets(AllFetched(m, input.readings));
      if progress >= 1.0 && AllWritten(row, input.writes) {
        forall i | 0 <= i < |row|
          ensures row[i] == Some(m.datarefs[i].target)
        {
          assert row[i].Some?;
        }
        assert row == Targets(m.datarefs);
      }
    }
  }

  lemma {:induction false} FrameKeepsSound(m: Manipulation, input: Input)
    requires Sound(m) && Fits(m, input)
    ensures Sound(Frame(m, input)) && SameParameters(m, Frame(m, input))
  {
    if Active(m, input) {
      var work := Ticked(m.settings, m.work, input.clock);
      if !work.cycleComplete {
        var updateBase := if m.initialized then m.updateBase else AnyFetches(m.datarefs);
        UpdateKeepsSound(
          m.(initialized := true, work := work,
             updateBase := if Restarts(m.settings, m.work, input.clock) then AnyFetches(m.datarefs) else updateBase),
          input);
      }
    }
  }

  /** What a frame submits, if it gets that far: one row, with exact targets or values on the way from the bases. */
  lemma {:induction false} FrameSubmits(m: Manipulation, input: Input, i: nat)
    requires Sound(m) && Fits(m, input) && i < |m.datarefs|
    ensures var (rows, after) := (|m.trace|, Frame(m, input));
            && (after.trace == m.trace || (|after.trace| == rows + 1 && after.trace[..rows] == m.trace))
            && |after.datarefs| == |m.datarefs|
            && (after.trace != m.trace && |after.trace[rows]| == |m.datarefs| && after.trace[rows][i].Some? ==>
                  || after.trace[rows][i].value == m.datarefs[i].target
                  || OnTheWay(after.datarefs[i], after.trace[rows][i].value))
  {
    if Active(m, input) {
      var work := Ticked(m.settings, m.work, input.clock);
      if !work.cycleComplete && input.locks {
        var updateBase :=
          if Restarts(m.settings, m.work, input.clock) || !m.initialized then AnyFetches(m.datarefs) else m.updateBase;
        var progress := Progress(m.settings, Counted(m.settings, work), input.clock);
        if Submitted(m.datarefs[i], updateBase, input.readings[i], progress).Some? {
          SubmittedMeans(m.datarefs[i], updateBase, input.readings[i], progress);
        }
      }
    }
  }

  /** A run of frames. */
  ghost function Run(m: Manipulation, inputs: seq<Input>): (after: Manipulation)
    requires Sound(m) && forall i :: 0 <= i < |inputs| ==> Fits(m, inputs[i])
    ensures Sound(after) && SameParameters(m, after)
  {
    if inputs == [] then m
    else
      var before, input := Run(m, inputs[..|inputs| - 1]), inputs[|inputs| - 1];
      assert |before.datarefs| == |Targets(before.datarefs)| == |m.datarefs| && Fits(m, input);
      FrameKeepsSound(before, input);
      Frame(before, input)
  }

  /** Over every run the base time of an interval in milliseconds stays on its grid. */
  lemma {:induction false} RunStaysOnGrid(m: Manipulation, inputs: seq<Input>)
    requires Sound(m) && forall i :: 0 <= i < |inputs| ==> Fits(m, inputs[i])
    requires 0 < m.settings.interval && !m.settings.isIntervalFrames
    ensures OnGrid(m.work.baseTime, m.settings.interval, Run(m, inputs).work.baseTime)
  {
    if inputs == [] {
      assert m.work.baseTime == GridPoint(m.work.baseTime, m.settings.interval, 0);
    } else {
      var front, input := inputs[..|inputs| - 1], inputs[|inputs| - 1];
      RunStaysOnGrid(m, front);
      var before := Run(m, front);
      CatchUpStaysOnGrid(m.work.baseTime, before.work.baseTime, m.settings.interval, input.clock);
      assert |before.datarefs| == |Targets(before.datarefs)| == |m.datarefs| && Fits(m, input);
      FrameMovesBase(before, input);
    }
  }

  /** A frame that gets to it moves the base time to the start of the interval that now is in. */
  lemma {:induction false} FrameMovesBase(m: Manipulation, input: Input)
    requires 0 < m.settings.duration && Fits(m, input) && 0 < m.settings.interval && !m.settings.isIntervalFrames
    ensures var baseTime := Frame(m, input).work.baseTime;
            if Active(m, input) then
              && baseTime == CatchUp(m.work.baseTime, m.settings.interval, input.clock)
              && (m.work.baseTime <= input.clock ==> baseTime <= input.clock < baseTime + m.settings.interval)
            else
              baseTime == m.work.baseTime
  {
  }

  /** A command that moves its values in a line, over a number of frames. */
  ghost predicate Prepared(m: Manipulation) {
    && Sound(m) && !m.settings.immediate && m.settings.isDurationFrames && !m.failed
    && m.datarefs != [] && forall i :: 0 <= i < |m.datarefs| ==> |m.datarefs[i].base| == |m.datarefs[i].target|
  }

  /** A frame in which nothing fails. */
  ghost predicate Healthy(m: Manipulation, input: Input) {
    && Fits(m, input) && input.ready && 0 <= input.clock && input.locks
    && forall i :: 0 <= i < |m.datarefs| ==>
         input.writes[i] && input.readings[i].Some? && |input.readings[i].value| == |m.datarefs[i].target|
  }

  /** The row submitted in the `n`-th frame of a cycle, counted from 1. */
  ghost function LineRow(datarefs: seq<Dataref>, n: nat, duration: int): (row: Row)
    requires 0 < duration && forall i :: 0 <= i < |datarefs| ==> |datarefs[i].base| == |datarefs[i].target|
  {
    if n >= duration then Targets(datarefs)
    else
      seq(|datarefs|, i requires 0 <= i < |datarefs| =>
        Some(Linear(datarefs[i].base, datarefs[i].target, n as real / duration as real)))
  }

  lemma {:induction false} WholeWay(n: nat, duration: int)
    requires 0 < duration
    ensures 0.0 <= n as real / duration as real
    ensures n as real / duration as real >= 1.0 <==> n >= duration
  {
    var p := n as real / duration as real;
    assert p * duration as real == n as real;
    if p >= 1.0 {
      assert 0.0 <= (p - 1.0) * duration as real by { Product(p - 1.0, duration as real); }
    }
  }

  lemma {:induction false} HealthyUpdate(m: Manipulation, input: Input)
    requires Prepared(m) && Healthy(m, input) && !m.done && !m.work.cycleComplete && 0 <= m.work.durationFrames
    ensures var (after, n) := (Update(m, input), m.work.durationFrames + 1);
            && Prepared(after) && after.initialized == m.initialized && !after.updateBase
            && after.datarefs == AllFetched(m, input.readings)
            && after.work == m.work.(durationFrames := n, cycleComplete := n >= m.settings.duration)
            && after.done == (n >= m.settings.duration && m.settings.interval <= 0)
            && after.trace == m.trace + [LineRow(after.datarefs, n, m.settings.duration)]
  {
    UpdateKeepsSound(m, input);
    var n := m.work.durationFrames + 1;
    WholeWay(n, m.settings.duration);
    var progress := n as real / m.settings.duration as real;
    var row := AllSubmitted(m, input.readings, progress);
    assert row[0].Some?;
    var after := Update(m, input);
    assert row == LineRow(after.datarefs, n, m.settings.duration);
  }

  /** A command without repetition after `n` frames that have submitted something. */
  ghost predicate OnLine(m: Manipulation, n: nat) {
    && Prepared(m) && m.settings.interval <= 0 && n <= m.settings.duration
    && m.work.durationFrames == n && |m.trace| == n
    && m.done == m.work.cycleComplete == (n >= m.settings.duration)
    && (n > 0 ==> m.initialized && !m.updateBase)
    && forall j :: 0 <= j < n ==> m.trace[j] == LineRow(m.datarefs, j + 1, m.settings.duration)
  }

  lemma {:induction false} NextOnLine(m: Manipulation, n: nat, input: Input)
    requires OnLine(m, n) && Healthy(m, input)
    ensures OnLine(Frame(m, input), if n < m.settings.duration then n + 1 else n)
  {
    if n < m.settings.duration {
      var m' := m.(initialized := true, updateBase := if m.initialized then m.updateBase else AnyFetches(m.datarefs));
      assert Ticked(m.settings, m.work, input.clock) == m.work;
      HealthyUpdate(m', input);
      assert n > 0 ==> AllFetched(m', input.readings) == m.datarefs;
    }
  }

  /** A new command that counts its duration in frames meets what the two results below ask for. */
  lemma {:induction false} CreatedPrepared(s: Settings, now: int, datarefs: seq<Dataref>)
    requires 0 < s.duration && !s.immediate && s.isDurationFrames && datarefs != []
    requires forall i :: 0 <= i < |datarefs| ==> |datarefs[i].base| == |datarefs[i].target|
    ensures Prepared(Create(s, now, datarefs))
    ensures s.interval <= 0 ==> OnLine(Create(s, now, datarefs), 0)
  {
  }

  /** A run in which nothing fails. */
  ghost predicate AllHealthy(m: Manipulation, inputs: seq<Input>) {
    forall i :: 0 <= i < |inputs| ==> Healthy(m, inputs[i])
  }

  /**
   Without repetition the values move in a line: the n-th of D frames submits the bases plus n/D of the way, the D-th
   one exactly the targets; then the command is done and submits nothing more.
   */
  lemma {:induction false} LineExactly(m: Manipulation, inputs: seq<Input>)
    requires OnLine(m, 0) && AllHealthy(m, inputs)
    ensures OnLine(Run(m, inputs), if |inputs| < m.settings.duration then |inputs| else m.settings.duration)
  {
    if inputs != [] {
      var front, input := inputs[..|inputs| - 1], inputs[|inputs| - 1];
      LineExactly(m, front);
      HealthyLater(m, Run(m, front), input);
      NextOnLine(Run(m, front), if |front| < m.settings.duration then |front| else m.settings.duration, input);
    }
  }

  lemma {:induction false} HealthyLater(m: Manipulation, later: Manipulation, input: Input)
    requires SameParameters(m, later)
    ensures Healthy(m, input) <==> Healthy(later, input)
  {
    assert |m.datarefs| == |Targets(m.datarefs)| && |later.datarefs| == |Targets(later.datarefs)|;
    forall i | 0 <= i < |m.datarefs|
      ensures m.datarefs[i].target == later.datarefs[i].target
    {
      assert Targets(m.datarefs)[i] == Targets(later.datarefs)[i];
    }
  }

  /** A command that repeats every so many frames, at frame `p` of a cycle, counted from 0. */
  ghost predicate InCycle(m: Manipulation, p: nat) {
    && Prepared(m) && m.settings.isIntervalFrames && m.initialized && !m.done && !m.updateBase
    && p < m.settings.interval && m.work.intervalRemaining == m.settings.interval - p
    && m.work.durationFrames == (if p + 1 < m.settings.duration then p + 1 else m.settings.duration)
    && m.work.cycleComplete == (p + 1 >= m.settings.duration)
  }

  lemma {:induction false} NextInCycle(m: Manipulation, p: nat, input: Input)
    requires InCycle(m, p) && Healthy(m, input)
    ensures InCycle(Frame(m, input), if p == m.settings.interval - 1 then 0 else p + 1)
  {
    var restarts := p == m.settings.interval - 1;
    assert Restarts(m.settings, m.work, input.clock) == restarts;
    var work := Ticked(m.settings, m.work, input.clock);
    if !work.cycleComplete {
      HealthyUpdate(m.(work := work, updateBase := if restarts then AnyFetches(m.datarefs) else false), input);
    }
  }

  lemma {:induction false} FirstInCycle(m: Manipulation, input: Input)
    requires Prepared(m) && Healthy(m, input) && m.settings.isIntervalFrames && 0 < m.settings.interval
    requires !m.done && !m.work.cycleComplete && m.work.intervalRemaining <= 1
    ensures InCycle(Frame(m, input), 0)
  {
    var work := Ticked(m.settings, m.work, input.clock);
    HealthyUpdate(m.(initialized := true, work := work, updateBase := AnyFetches(m.datarefs)), input);
  }

  /**
   Counted in frames, the cycles start every `interval` frames, and one is complete after `p + 1` of its frames if and
   only if the duration is not more than that.
   */
  lemma {:induction false} CyclesReachTargets(m: Manipulation, inputs: seq<Input>) returns (k: nat, p: nat)
    requires Prepared(m) && AllHealthy(m, inputs) && inputs != []
    requires m.settings.isIntervalFrames && 0 < m.settings.interval && m.work.intervalRemaining <= 1
    requires !m.done && !m.work.cycleComplete
    ensures InCycle(Run(m, inputs), p) && |inputs| - 1 == k * m.settings.interval + p
    ensures Run(m, inputs).work.cycleComplete <==> p + 1 >= m.settings.duration
  {
    var front, input := inputs[..|inputs| - 1], inputs[|inputs| - 1];
    HealthyLater(m, Run(m, front), input);
    if front == [] {
      k, p := 0, 0;
      FirstInCycle(m, input);
    } else {
      k, p := CyclesReachTargets(m, front);
      NextInCycle(Run(m, front), p, input);
      if p == m.settings.interval - 1 {
        assert (k + 1) * m.settings.interval == k * m.settings.interval + m.settings.interval;
        k, p := k + 1, 0;
      } else {
        p := p + 1;
      }
    }
  }

  /** Datarefs that can be moved. */
  ghost predicate Movable(m: Manipulation) {
    && Sound(m) && !m.failed && !m.done
    && m.datarefs != [] && forall i :: 0 <= i < |m.datarefs| ==> |m.datarefs[i].base| == |m.datarefs[i].target|
  }

  lemma {:induction false} HealthyRow(m: Manipulation, input: Input, progress: real)
    requires Movable(m) && Healthy(m, input)
    ensures var row := AllSubmitted(m, input.readings, progress); AnySubmitted(row) && AllWritten(row, input.writes)
  {
    assert AllSubmitted(m, input.readings, progress)[0].Some?;
  }

  /**
   When nothing fails: an immediate command completes each cycle in its first frame; one with a duration in
   milliseconds exactly once that much time has passed since the base time of the cycle.
   */
  lemma {:induction false} CompletesInTime(m: Manipulation, input: Input)
    requires Movable(m) && Healthy(m, input) && (m.settings.immediate || !m.settings.isDurationFrames)
    ensures var (after, earlier) := (Frame(m, input), Ticked(m.settings, m.work, input.clock).cycleComplete);
            && !after.failed
            && (after.work.cycleComplete <==>
                  earlier || m.settings.immediate || input.clock - after.work.baseTime >= m.settings.duration)
            && (earlier ==> after.trace == m.trace)
            && (!earlier ==> |after.trace| == |m.trace| + 1)
            && (!earlier && after.work.cycleComplete ==> after.trace[|m.trace|] == Targets(m.datarefs))
  {
    FrameKeepsSound(m, input);
    var work := Ticked(m.settings, m.work, input.clock);
    if !work.cycleComplete {
      var updateBase :=
        if Restarts(m.settings, m.work, input.clock) || !m.initialized then AnyFetches(m.datarefs) else m.updateBase;
      var m' := m.(initialized := true, work := work, updateBase := updateBase);
      HealthyRow(m', input, Progress(m.settings, work, input.clock));
      WholeWay(if input.clock < work.baseTime then 0 else input.clock - work.baseTime, m.settings.duration);
    }
  }
}
