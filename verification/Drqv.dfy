/** The DRQV command: samples datarefs in the flight loop and sends each sample from post-processing. */
module Drqv {
  import opened Intervals

  /** A sample is taken, sent with more to follow, or sent as the last one, closing the channel. */
  datatype Kind = Sample | Data | Final

  /** Something that concerns the sample taken at a time. */
  datatype Event = Event(kind: Kind, at: int)

  datatype Query = Query(
    interval: int, isIntervalFrames: bool, wait: int, notBefore: int,
    times: int, initialized: bool, failed: bool, scheduled: bool,
    timestamp: int, trace: seq<Event>)

  /** A new query at time `now`; `times` is either positive or stands for infinite repetition. */
  function Create(interval: int, isIntervalFrames: bool, times: int, now: int): Query {
    Query(interval, isIntervalFrames, 0, now, times, false, false, true, 0, [])
  }

  predicate ShouldRun(q: Query, now: int) {
    !q.initialized || (if q.isIntervalFrames then q.wait <= 1 else now >= q.notBefore)
  }

  predicate MoreToCome(q: Query) {
    q.times > 0 || q.times == INFINITE_REPETITION
  }

  /** The timers after a frame. */
  function Ticked(q: Query, now: int): Query
    requires 0 < q.interval
  {
    var runs := ShouldRun(q, now);
    q.(initialized := true,
       wait := if !q.isIntervalFrames then q.wait else if runs then q.interval else q.wait - 1,
       notBefore := if runs && !q.isIntervalFrames then NextDue(q.notBefore, q.interval, now) else q.notBefore)
  }

  /** One flight loop frame: `ready` if all datarefs are found, `dataOk` if all of them can be read. */
  function Frame(q: Query, clock: int, ready: bool, dataOk: bool): Query
    requires 0 < q.interval
  {
    if !q.scheduled || q.failed || clock < 0 then q
    else if !q.initialized && !ready then q.(failed := true)
    else if !ShouldRun(q, clock) || !MoreToCome(q) then Ticked(q, clock)
    else
      Ticked(q, clock).(
        times := if q.times > 0 then q.times - 1 else q.times, timestamp := clock, failed := !dataOk,
        trace := q.trace + [Event(Sample, clock)])
  }

  /** Post-processing: whether encoding, sending with more to come, and unscheduling work is up to the environment. */
  function Post(q: Query, encodes: bool, sends: bool, unschedules: bool): Query {
    if !q.scheduled then q
    else if q.failed then q.(scheduled := !unschedules)
    else if !q.initialized || q.timestamp <= 0 then q
    else if !encodes then q.(failed := true)
    else if MoreToCome(q) then q.(trace := q.trace + [Event(Data, q.timestamp)], failed := !sends, timestamp := 0)
    else q.(trace := q.trace + [Event(Final, q.timestamp)], scheduled := !unschedules)
  }

  datatype Input =
    | FrameInput(clock: int, ready: bool, dataOk: bool)
    | PostInput(encodes: bool, sends: bool, unschedules: bool)

  ghost function Step(q: Query, input: Input): (after: Query)
    requires 0 < q.interval
    ensures after.interval == q.interval && after.isIntervalFrames == q.isIntervalFrames
  {
    match input
    case FrameInput(clock, ready, dataOk) => Frame(q, clock, ready, dataOk)
    case PostInput(encodes, sends, unschedules) => Post(q, encodes, sends, unschedules)
  }

  /** Frames and post-processing in any order. */
  ghost function Run(q: Query, inputs: seq<Input>): (after: Query)
    requires 0 < q.interval
    ensures after.interval == q.interval && after.isIntervalFrames == q.isIntervalFrames
  {
    if inputs == [] then q else Step(Run(q, inputs[..|inputs| - 1]), inputs[|inputs| - 1])
  }

  ghost function Count(trace: seq<Event>, kind: Kind): nat {
    if trace == [] then 0 else Count(trace[..|trace| - 1], kind) + if trace[|trace| - 1].kind == kind then 1 else 0
  }

  /** The time of the latest sample; 0 without any. */
  ghost function Latest(trace: seq<Event>): int {
    if trace == [] then 0
    else if trace[|trace| - 1].kind == Sample then trace[|trace| - 1].at
    else Latest(trace[..|trace| - 1])
  }

  /** Everything that is sent is the latest sample. */
  ghost predicate UpToDate(trace: seq<Event>) {
    trace != [] ==>
      && UpToDate(trace[..|trace| - 1])
      && trace[|trace| - 1].at == Latest(trace)
  }

  lemma {:induction false} OneMore(trace: seq<Event>, e: Event, kind: Kind)
    ensures Count(trace + [e], kind) == Count(trace, kind) + if e.kind == kind then 1 else 0
    ensures Latest(trace + [e]) == if e.kind == Sample then e.at else Latest(trace)
    ensures UpToDate(trace + [e]) <==> UpToDate(trace) && (e.kind == Sample || e.at == Latest(trace))
  {
    assert (trace + [e])[..|trace|] == trace;
  }

  lemma {:induction false} OneMoreEvent(trace: seq<Event>, e: Event)
    ensures Count(trace + [e], Sample) == Count(trace, Sample) + if e.kind == Sample then 1 else 0
    ensures Count(trace + [e], Data) == Count(trace, Data) + if e.kind == Data then 1 else 0
    ensures Count(trace + [e], Final) == Count(trace, Final) + if e.kind == Final then 1 else 0
    ensures Latest(trace + [e]) == if e.kind == Sample then e.at else Latest(trace)
    ensures UpToDate(trace + [e]) <==> UpToDate(trace) && (e.kind == Sample || e.at == Latest(trace))
  {
    OneMore(trace, e, Sample);
    OneMore(trace, e, Data);
    OneMore(trace, e, Final);
  }

  /** How what is sent relates to what was sampled, for a query that is to repeat `times` times. */
  ghost predicate Ledger(q: Query, times: int) {
    && 0 < q.interval && 0 <= q.timestamp && (q.timestamp > 0 ==> q.initialized)
    && (times == INFINITE_REPETITION ==> q.times == times)
    && (times > 0 ==>
          0 <= q.times <= times && Count(q.trace, Sample) == times - q.times && Count(q.trace, Data) < times)
    && UpToDate(q.trace)
    && (q.timestamp > 0 ==> q.timestamp == Latest(q.trace))
    && Count(q.trace, Data) + (if q.timestamp > 0 then 1 else 0) <= Count(q.trace, Sample)
    && (Count(q.trace, Final) > 0 ==> q.times == 0 && q.timestamp > 0)
  }

  lemma {:induction false} CreatedLedger(interval: int, isIntervalFrames: bool, times: int, now: int)
    requires 0 < interval && (times > 0 || times == INFINITE_REPETITION)
    ensures OnTrack(Create(interval, isIntervalFrames, times, now), times, true)
    ensures Answered(Create(interval, isIntervalFrames, times, now), times, true)
    ensures !isIntervalFrames ==> OnSchedule(Create(interval, isIntervalFrames, times, now), now)
  {
    assert now == GridPoint(now, interval, 0);
  }

  /** Whether a frame takes a sample. */
  predicate Samples(q: Query, clock: int, ready: bool) {
    q.scheduled && !q.failed && 0 <= clock && (q.initialized || ready) && ShouldRun(q, clock) && MoreToCome(q)
  }

  /** What a frame does to times, data and trace. */
  lemma {:induction false} FrameSamples(q: Query, clock: int, ready: bool, dataOk: bool)
    requires 0 < q.interval
    ensures var after := Frame(q, clock, ready, dataOk);
            && after.interval == q.interval && after.scheduled == q.scheduled && (q.initialized ==> after.initialized)
            && (ready && dataOk ==> after.failed == q.failed)
            && if Samples(q, clock, ready) then
                 && after.initialized && after.timestamp == clock && after.trace == q.trace + [Event(Sample, clock)]
                 && after.times == if q.times > 0 then q.times - 1 else q.times
               else after.timestamp == q.timestamp && after.trace == q.trace && after.times == q.times
  {
  }

  lemma {:induction false} FrameKeepsLedger(q: Query, times: int, clock: int, ready: bool, dataOk: bool)
    requires Ledger(q, times) && (times > 0 || times == INFINITE_REPETITION)
    ensures Ledger(Frame(q, clock, ready, dataOk), times)
  {
    FrameSamples(q, clock, ready, dataOk);
    if Samples(q, clock, ready) {
      OneMoreEvent(q.trace, Event(Sample, clock));
    }
  }

  lemma {:induction false} PostKeepsLedger(q: Query, times: int, encodes: bool, sends: bool, unschedules: bool)
    requires Ledger(q, times) && (times > 0 || times == INFINITE_REPETITION)
    ensures Ledger(Post(q, encodes, sends, unschedules), times)
  {
    var sent := Event(if MoreToCome(q) then Data else Final, q.timestamp);
    OneMoreEvent(q.trace, sent);
  }

  /**
   Over every run: one sample per repetition used up; what is sent is always the latest sample and no sample is sent
   twice with more to follow; less than N are sent so; the final one only follows the N-th sample, and with infinite
   repetition there is none.
   */
  lemma {:induction false} RunKeepsLedger(q: Query, times: int, inputs: seq<Input>)
    requires Ledger(q, times) && (times > 0 || times == INFINITE_REPETITION)
    ensures Ledger(Run(q, inputs), times)
  {
    if inputs != [] {
      var front, input := inputs[..|inputs| - 1], inputs[|inputs| - 1];
      RunKeepsLedger(q, times, front);
      match input
      case FrameInput(clock, ready, dataOk) =>
        FrameKeepsLedger(Run(q, front), times, clock, ready, dataOk);
      case PostInput(encodes, sends, unschedules) =>
        PostKeepsLedger(Run(q, front), times, encodes, sends, unschedules);
    }
  }

  /** Unless unscheduling fails, the channel is closed with a final sample at most once, and nothing follows. */
  lemma {:induction false} FinishesOnce(q: Query, inputs: seq<Input>)
    requires 0 < q.interval && q.trace == []
    requires forall i :: 0 <= i < |inputs| && inputs[i].PostInput? ==> inputs[i].unschedules
    ensures Count(Run(q, inputs).trace, Final) <= if Run(q, inputs).scheduled then 0 else 1
  {
    if inputs != [] {
      var front, input := inputs[..|inputs| - 1], inputs[|inputs| - 1];
      FinishesOnce(q, front);
      var before := Run(q, front);
      match input
      case FrameInput(clock, ready, dataOk) =>
        OneMore(before.trace, Event(Sample, clock), Final);
      case PostInput(encodes, sends, unschedules) =>
        OneMore(before.trace, Event(Data, before.timestamp), Final);
        OneMore(before.trace, Event(Final, before.timestamp), Final);
    }
  }

  /** Frames and post-processing take turns, the session clock has started and nothing fails. */
  ghost predicate Healthy(inputs: seq<Input>) {
    forall i :: 0 <= i < |inputs| ==>
      if i % 2 == 0 then inputs[i].FrameInput? && inputs[i].clock > 0 && inputs[i].ready && inputs[i].dataOk
      else inputs[i] == PostInput(true, true, true)
  }

  /** What holds before a frame, or before post-processing, when nothing fails. */
  ghost predicate OnTrack(q: Query, times: int, beforeFrame: bool) {
    && Ledger(q, times) && !q.failed
    && Count(q.trace, Data) + (if q.timestamp > 0 then 1 else 0) == Count(q.trace, Sample)
    && (q.times == 0 ==> q.timestamp > 0)
    && (q.scheduled ==> Count(q.trace, Final) == 0)
    && (!q.scheduled ==> q.times == 0 && q.timestamp > 0 && Count(q.trace, Final) == 1)
    && (beforeFrame ==> q.scheduled == (q.times != 0) && (q.timestamp > 0 ==> !q.scheduled))
  }

  lemma {:induction false} HealthyFrame(q: Query, times: int, clock: int)
    requires OnTrack(q, times, true) && (times > 0 || times == INFINITE_REPETITION) && clock > 0
    ensures OnTrack(Frame(q, clock, true, true), times, false)
  {
    FrameKeepsLedger(q, times, clock, true, true);
    FrameSamples(q, clock, true, true);
    if Samples(q, clock, true) {
      OneMoreEvent(q.trace, Event(Sample, clock));
    }
  }

  lemma {:induction false} HealthyPost(q: Query, times: int)
    requires OnTrack(q, times, false) && (times > 0 || times == INFINITE_REPETITION)
    ensures OnTrack(Post(q, true, true, true), times, true)
  {
    PostKeepsLedger(q, times, true, true, true);
    OneMoreEvent(q.trace, Event(if MoreToCome(q) then Data else Final, q.timestamp));
  }

  lemma {:induction false} HealthyStep(q: Query, times: int, input: Input, isFrame: bool)
    requires OnTrack(q, times, isFrame) && (times > 0 || times == INFINITE_REPETITION)
    requires if isFrame then input.FrameInput? && input.clock > 0 && input.ready && input.dataOk
             else input == PostInput(true, true, true)
    ensures OnTrack(Step(q, input), times, !isFrame)
  {
    if isFrame {
      HealthyFrame(q, times, input.clock);
    } else {
      HealthyPost(q, times);
    }
  }

  /**
   When nothing fails, every sample is sent by the post-processing that follows it: N - 1 times with more to follow
   and once as the final one, after which the query is over.
   */
  lemma {:induction false} EverySampleSent(q: Query, times: int, inputs: seq<Input>)
    requires OnTrack(q, times, true) && (times > 0 || times == INFINITE_REPETITION) && Healthy(inputs)
    ensures OnTrack(Run(q, inputs), times, |inputs| % 2 == 0)
  {
    if inputs != [] {
      var front, input := inputs[..|inputs| - 1], inputs[|inputs| - 1];
      var isFrame := |front| % 2 == 0;
      EverySampleSent(q, times, front);
      assert isFrame == (|inputs| % 2 != 0);
      HealthyStep(Run(q, front), times, input, isFrame);
    }
  }

  /** How many samples were taken after the first millisecond of the session; one at time 0 is taken for no data. */
  ghost function Timed(trace: seq<Event>): (n: nat) {
    if trace == [] then 0
    else
      var e := trace[|trace| - 1];
      Timed(trace[..|trace| - 1]) + if e.kind == Sample && e.at > 0 then 1 else 0
  }

  /** Frames and post-processing take turns and nothing fails; the session may be in its first millisecond. */
  ghost predicate HealthyFromZero(inputs: seq<Input>) {
    forall i :: 0 <= i < |inputs| ==>
      if i % 2 == 0 then inputs[i].FrameInput? && inputs[i].clock >= 0 && inputs[i].ready && inputs[i].dataOk
      else inputs[i] == PostInput(true, true, true)
  }

  /** One message per sample that was not taken at time 0, and an end if and only if the last one was not. */
  ghost predicate Answered(q: Query, times: int, beforeFrame: bool) {
    && Ledger(q, times) && !q.failed
    && Count(q.trace, Final) == (if q.scheduled then 0 else 1)
    && Timed(q.trace) ==
       Count(q.trace, Data) + Count(q.trace, Final) + (if q.scheduled && q.timestamp > 0 then 1 else 0)
    && (beforeFrame && q.scheduled ==> q.timestamp == 0)
    && (q.times == 0 ==> Latest(q.trace) == q.timestamp && (beforeFrame ==> (q.scheduled <==> Latest(q.trace) == 0)))
    && (!q.scheduled ==> q.times == 0)
  }

  lemma {:induction false} OneMoreTimed(trace: seq<Event>, e: Event)
    ensures Timed(trace + [e]) == Timed(trace) + if e.kind == Sample && e.at > 0 then 1 else 0
  {
    assert (trace + [e])[..|trace|] == trace;
  }

  lemma {:induction false} AnsweredFrame(q: Query, times: int, clock: int)
    requires Answered(q, times, true) && (times > 0 || times == INFINITE_REPETITION) && clock >= 0
    ensures Answered(Frame(q, clock, true, true), times, false)
  {
    FrameKeepsLedger(q, times, clock, true, true);
    FrameSamples(q, clock, true, true);
    if Samples(q, clock, true) {
      OneMoreTimed(q.trace, Event(Sample, clock));
      OneMoreEvent(q.trace, Event(Sample, clock));
    }
  }

  lemma {:induction false} AnsweredPost(q: Query, times: int)
    requires Answered(q, times, false) && (times > 0 || times == INFINITE_REPETITION)
    ensures Answered(Post(q, true, true, true), times, true)
  {
    PostKeepsLedger(q, times, true, true, true);
    var e := Event(if MoreToCome(q) then Data else Final, q.timestamp);
    OneMoreTimed(q.trace, e);
    OneMoreEvent(q.trace, e);
  }

  lemma {:induction false} AnsweredNext(q: Query, times: int, input: Input, isFrame: bool)
    requires Answered(q, times, isFrame) && (times > 0 || times == INFINITE_REPETITION)
    requires if isFrame then input.FrameInput? && input.clock >= 0 && input.ready && input.dataOk
             else input == PostInput(true, true, true)
    ensures Answered(Step(q, input), times, !isFrame)
  {
    if isFrame {
      AnsweredFrame(q, times, input.clock);
    } else {
      AnsweredPost(q, times);
    }
  }

  lemma {:induction false} OverIfTimed(q: Query, times: int)
    requires Answered(q, times, true)
    ensures !q.scheduled <==> q.times == 0 && Latest(q.trace) > 0
  {
  }

  /**
   When nothing fails, after each post-processing there was one message for each sample that was not taken at time 0,
   and the query is over if and only if the N-th sample was taken and not at time 0.
   */
  lemma {:induction false} TimedSamplesSent(q: Query, times: int, inputs: seq<Input>)
    requires Answered(q, times, true) && (times > 0 || times == INFINITE_REPETITION) && HealthyFromZero(inputs)
    ensures Answered(Run(q, inputs), times, |inputs| % 2 == 0)
    ensures var after := Run(q, inputs);
            |inputs| % 2 == 0 ==> (!after.scheduled <==> after.times == 0 && Latest(after.trace) > 0)
  {
    if inputs != [] {
      var front, input := inputs[..|inputs| - 1], inputs[|inputs| - 1];
      var isFrame := |front| % 2 == 0;
      TimedSamplesSent(q, times, front);
      assert isFrame == (|inputs| % 2 != 0);
      AnsweredNext(Run(q, front), times, input, isFrame);
    }
    if |inputs| % 2 == 0 {
      OverIfTimed(Run(q, inputs), times);
    }
  }

  /** A query whose last sample was taken at time 0 stays scheduled for good and sends nothing more. */
  lemma {:induction false} NeverOver(q: Query, inputs: seq<Input>)
    requires 0 < q.interval && q.initialized && q.scheduled && !q.failed && q.times == 0 && q.timestamp == 0
    ensures var after := Run(q, inputs);
            after.trace == q.trace && after.scheduled && !after.failed && after.times == 0 && after.timestamp == 0 &&
            after.initialized
  {
    if inputs != [] {
      NeverOver(q, inputs[..|inputs| - 1]);
    }
  }

  /** A query for one sample whose first frame comes in the first millisecond. */
  lemma {:induction false} NeverAnswered(interval: int, isIntervalFrames: bool, inputs: seq<Input>)
    requires 0 < interval && inputs != [] && inputs[0] == FrameInput(0, true, true)
    ensures var after := Run(Create(interval, isIntervalFrames, 1, 0), inputs);
            after.scheduled && after.trace == [Event(Sample, 0)]
  {
    var q := Create(interval, isIntervalFrames, 1, 0);
    assert inputs[..1] == [inputs[0]] && [inputs[0]][..0] == [];
    assert Run(q, inputs[..1]) == Step(q, inputs[0]);
    assert [] + [Event(Sample, 0)] == [Event(Sample, 0)];
    NeverOver(Step(q, inputs[0]), inputs[1..]);
    RunInParts(q, inputs, 1);
  }

  lemma {:induction false} RunInParts(q: Query, inputs: seq<Input>, k: nat)
    requires 0 < q.interval && k <= |inputs|
    ensures Run(q, inputs) == Run(Run(q, inputs[..k]), inputs[k..])
    decreases |inputs|
  {
    if k == |inputs| {
      assert inputs[..k] == inputs;
    } else {
      var n := |inputs| - 1;
      RunInParts(q, inputs[..n], k);
      assert inputs[..n][..k] == inputs[..k] && inputs[..n][k..] == inputs[k..][..n - k];
    }
  }

  /** Between any two samples lies a point of the grid that starts at `start`: no interval is sampled twice. */
  ghost predicate Spaced(trace: seq<Event>, start: int, interval: int) {
    trace != [] ==>
      && Spaced(trace[..|trace| - 1], start, interval)
      && (trace[|trace| - 1].kind == Sample && Count(trace[..|trace| - 1], Sample) > 0 ==>
            exists k: nat :: Latest(trace[..|trace| - 1]) < GridPoint(start, interval, k) <= trace[|trace| - 1].at)
  }

  /** What the time until the next sample keeps, for an interval in milliseconds. */
  ghost predicate OnSchedule(q: Query, start: int) {
    && 0 < q.interval && !q.isIntervalFrames
    && OnGrid(start, q.interval, q.notBefore)
    && Spaced(q.trace, start, q.interval)
    && (Count(q.trace, Sample) > 0 ==> q.initialized && Latest(q.trace) < q.notBefore)
  }

  lemma {:induction false} SpacedOneMore(trace: seq<Event>, e: Event, start: int, interval: int)
    requires Spaced(trace, start, interval)
    requires e.kind == Sample && Count(trace, Sample) > 0 ==>
               exists k: nat :: Latest(trace) < GridPoint(start, interval, k) <= e.at
    ensures Spaced(trace + [e], start, interval)
    ensures Latest(trace + [e]) == if e.kind == Sample then e.at else Latest(trace)
    ensures Count(trace + [e], Sample) == Count(trace, Sample) + if e.kind == Sample then 1 else 0
  {
    OneMore(trace, e, Sample);
    assert (trace + [e])[..|trace|] == trace;
  }

  lemma {:induction false} FrameKeepsSchedule(q: Query, start: int, clock: int, ready: bool, dataOk: bool)
    requires OnSchedule(q, start)
    ensures OnSchedule(Frame(q, clock, ready, dataOk), start)
  {
    StaysOnGrid(start, q.interval, q.notBefore, clock);
    if ShouldRun(q, clock) {
      var k: nat :| q.notBefore == GridPoint(start, q.interval, k);
      SpacedOneMore(q.trace, Event(Sample, clock), start, q.interval);
    }
  }

  /** Over every run, with any clock: the due time stays on its grid and no interval is sampled twice. */
  lemma {:induction false} RunKeepsSchedule(q: Query, start: int, inputs: seq<Input>)
    requires OnSchedule(q, start)
    ensures OnSchedule(Run(q, inputs), start)
  {
    if inputs != [] {
      var front, input := inputs[..|inputs| - 1], inputs[|inputs| - 1];
      RunKeepsSchedule(q, start, front);
      var before := Run(q, front);
      if input.FrameInput? {
        FrameKeepsSchedule(before, start, input.clock, input.ready, input.dataOk);
      } else {
        var sent := Event(if MoreToCome(before) then Data else Final, before.timestamp);
        SpacedOneMore(before.trace, sent, start, q.interval);
      }
    }
  }

  /** Frames only, in which nothing fails. */
  ghost predicate HealthyFrames(inputs: seq<Input>) {
    forall i :: 0 <= i < |inputs| ==>
      inputs[i].FrameInput? && inputs[i].clock >= 0 && inputs[i].ready && inputs[i].dataOk
  }

  /** `p` frames after the `k`-th interval has started, counted from 0, for an interval in frames. */
  ghost predicate At(q: Query, times: int, k: nat, p: nat) {
    && q.isIntervalFrames && q.initialized && !q.failed && q.scheduled
    && p < q.interval && q.wait == q.interval - p
    && q.times == (if times == INFINITE_REPETITION then times else if k < times then times - 1 - k else 0)
    && Count(q.trace, Sample) == if times == INFINITE_REPETITION || k < times then k + 1 else times
  }

  lemma {:induction false} NextFrameAt(q: Query, times: int, k: nat, p: nat, clock: int)
    requires At(q, times, k, p) && (times > 0 || times == INFINITE_REPETITION) && 0 <= clock
    ensures At(Frame(q, clock, true, true), times, if p == q.interval - 1 then k + 1 else k,
               if p == q.interval - 1 then 0 else p + 1)
  {
    OneMore(q.trace, Event(Sample, clock), Sample);
  }

  lemma {:induction false} FirstFrameAt(q: Query, times: int, clock: int)
    requires q == Create(q.interval, true, times, q.notBefore) && 0 < q.interval
    requires (times > 0 || times == INFINITE_REPETITION) && 0 <= clock
    ensures At(Frame(q, clock, true, true), times, 0, 0)
  {
    OneMore([], Event(Sample, clock), Sample);
    assert [] + [Event(Sample, clock)] == [Event(Sample, clock)];
  }

  /** Counted in frames, samples are taken in the first frame and every `interval` frames from there, up to N. */
  lemma {:induction false} SampledEvery(q: Query, times: int, inputs: seq<Input>) returns (k: nat, p: nat)
    requires q == Create(q.interval, true, times, q.notBefore) && 0 < q.interval
    requires (times > 0 || times == INFINITE_REPETITION) && HealthyFrames(inputs) && inputs != []
    ensures At(Run(q, inputs), times, k, p) && |inputs| - 1 == k * q.interval + p
  {
    var front, input := inputs[..|inputs| - 1], inputs[|inputs| - 1];
    assert input == FrameInput(input.clock, true, true);
    if front == [] {
      k, p := 0, 0;
      FirstFrameAt(q, times, input.clock);
    } else {
      k, p := SampledEvery(q, times, front);
      k, p := NextSample(Run(q, front), times, k, p, input.clock);
    }
  }

  lemma {:induction false} NextSample(q: Query, times: int, k: nat, p: nat, clock: int) returns (k': nat, p': nat)
    requires At(q, times, k, p) && (times > 0 || times == INFINITE_REPETITION) && 0 <= clock
    ensures At(Frame(q, clock, true, true), times, k', p')
    ensures k' * q.interval + p' == k * q.interval + p + 1
  {
    NextFrameAt(q, times, k, p, clock);
    if p == q.interval - 1 {
      k', p' := k + 1, 0;
      assert (k + 1) * q.interval == k * q.interval + q.interval;
    } else {
      k', p' := k, p + 1;
    }
  }

  class CommandDrqv {
    const interval: int
    const isIntervalFrames: bool
    var intervalWait: int
    var intervalNotBefore: int
    var timesRemaining: int
    var initialized: bool
    var failed: bool
    var scheduled: bool
    var timestamp: int
    var trace: seq<Event>

    ghost function State(): Query
      reads this
    {
      Query(interval, isIntervalFrames, intervalWait, intervalNotBefore, timesRemaining, initialized, failed, scheduled,
            timestamp, trace)
    }

    constructor (interval: int, isIntervalFrames: bool, times: int, now: int)
      ensures State() == Create(interval, isIntervalFrames, times, now)
    {
      this.interval, this.isIntervalFrames := interval, isIntervalFrames;
      intervalWait, intervalNotBefore, timesRemaining := 0, now, times;
      initialized, failed, scheduled, timestamp, trace := false, false, true, 0, [];
    }

    method ProcessFlightloop(clock: int, ready: bool, dataOk: bool)
      requires 0 < interval
      modifies this
      ensures State() == old(Frame(State(), clock, ready, dataOk))
    {
      if !scheduled || failed || clock < 0 {
        return;
      }
      var shouldRun := false;
      if !initialized {
        if !ready {
          failed := true;
          return;
        }
        initialized := true;
        shouldRun := true;
      } else if !isIntervalFrames {
        shouldRun := clock >= intervalNotBefore;
      } else {
        intervalWait := intervalWait - 1;
        shouldRun := intervalWait <= 0;
      }
      if !shouldRun {
        return;
      }
      if isIntervalFrames {
        intervalWait := interval;
      } else {
        intervalNotBefore := AdvancePast(intervalNotBefore, interval, clock);
      }
      if timesRemaining > 0 {
        timesRemaining := timesRemaining - 1;
      } else if timesRemaining != INFINITE_REPETITION {
        return;
      }
      timestamp := clock;
      trace := trace + [Event(Sample, clock)];
      if !dataOk {
        failed := true;
      }
    }

    method ProcessPost(encodes: bool, sends: bool, unschedules: bool)
      modifies this
      ensures State() == old(Post(State(), encodes, sends, unschedules))
    {
      if !scheduled {
        return;
      }
      if failed {
        Terminate(unschedules);
        return;
      }
      if !initialized || timestamp <= 0 {
        return;
      }
      if !encodes {
        failed := true;
        return;
      }
      var willContinue := timesRemaining > 0 || timesRemaining == INFINITE_REPETITION;
      if willContinue {
        trace := trace + [Event(Data, timestamp)];
      } else {
        trace := trace + [Event(Final, timestamp)];
        Terminate(unschedules);
        return;
      }
      if !sends {
        failed := true;
      }
      timestamp := 0;
    }

    method Terminate(unschedules: bool)
      modifies `scheduled
      ensures scheduled == (old(scheduled) && !unschedules)
    {
      if scheduled && unschedules {
        scheduled := false;
      }
    }
  }
}
