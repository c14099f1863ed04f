/** What a session sends about one channel: acknowledgement first, nothing after the end, errors last. */
module ChannelProtocol {
  import opened ChannelIds
  import opened MessageFormat

  const CURRENT_TIME: int := -1

  datatype Action = ActErr | ActAckContinue | ActAckClose | ActContinue | ActClose

  datatype State = Initial | Confirmed | Closed

  datatype Error = Ok | Unspecific | InvalidState | MemoryAllocation | Network | NoSuchChannel

  /** The outside world during one call: the session clock (negative on failure), the allocator, the network. */
  datatype Env = Env(clock: int, allocates: bool, delivers: bool)

  /** A channel: its ID, its state, and the lines about it that the network has accepted. */
  datatype Channel = Channel(id: nat, state: State, wire: seq<Line>)

  predicate Continues(action: Action) {
    action == ActContinue || action == ActAckContinue
  }

  function StampOf(timestamp: int, env: Env): int {
    if timestamp == CURRENT_TIME then env.clock else timestamp
  }

  /** Whether an action is refused in a state. */
  predicate Refused(state: State, action: Action) {
    || state == Closed
    || (state == Confirmed && (action == ActAckContinue || action == ActAckClose))
    || (state == Initial && action == ActContinue)
  }

  /** Whether a call gets as far as the network. */
  predicate Reaches(state: State, action: Action, timestamp: int, env: Env) {
    0 <= StampOf(timestamp, env) && !Refused(state, action) && env.allocates
  }

  function LineFor(c: Channel, action: Action, timestamp: nat, message: string): Line {
    Line(
      Continues(action),
      if action == ActErr then Err else if message == "" || c.state == Initial then Ack else NoPrefix,
      c.id, timestamp, message)
  }

  /** One message: the channel afterwards and the result reported. */
  function Sent(c: Channel, action: Action, timestamp: int, message: string, env: Env): (r: (Channel, Error)) {
    if StampOf(timestamp, env) < 0 then (c, Unspecific)
    else if Refused(c.state, action) then (c, InvalidState)
    else if !env.allocates then (c, MemoryAllocation)
    else
      var state := if Continues(action) then Confirmed else Closed;
      if env.delivers then
        (Channel(c.id, state, c.wire + [LineFor(c, action, StampOf(timestamp, env), message)]), Ok)
      else (Channel(c.id, state, c.wire), Network)
  }

  /** The calls commands make. The last world is that of the error message following a failure. */
  datatype Call =
    | Confirm(timestamp: int, message: string, env: Env, errorEnv: Env)
    | Continue(timestamp: int, message: string, env: Env, errorEnv: Env)
    | Finish(timestamp: int, message: string, env: Env, errorEnv: Env)
    | Fail(timestamp: int, message: string, env: Env)
    | Destroy(env: Env, notifies: bool)

  function ActionOf(c: Channel, call: Call): Action {
    match call
    case Confirm(_, _, _, _) => ActAckContinue
    case Continue(_, _, _, _) => ActContinue
    case Finish(_, _, _, _) => if c.state == Initial then ActAckClose else ActClose
    case Fail(_, _, _) => ActErr
    case Destroy(_, _) => ActClose
  }

  function FailureMessage(call: Call): string {
    match call
    case Confirm(_, _, _, _) => "failed to confirm channel"
    case Continue(_, _, _, _) => "failed to continue channel"
    case _ => "failed to finish channel"
  }

  /** A call: its message and, should that fail, an error message. */
  function Called(c: Channel, call: Call): (r: (Channel, Error)) {
    match call
    case Fail(timestamp, message, env) => Sent(c, ActErr, timestamp, message, env)
    case Destroy(env, notifies) =>
      if c.state == Closed || !notifies then (c.(state := Closed), Ok)
      else var (after, err) := Sent(c, ActClose, CURRENT_TIME, "", env); (after.(state := Closed), Ok)
    case _ =>
      var (after, err) := Sent(c, ActionOf(c, call), call.timestamp, call.message, call.env);
      if err == Ok then (after, Ok)
      else (Sent(after, ActErr, call.timestamp, FailureMessage(call), call.errorEnv).0, err)
  }

  function Run(c: Channel, calls: seq<Call>): (after: Channel) {
    if calls == [] then c else Called(Run(c, calls[..|calls| - 1]), calls[|calls| - 1]).0
  }

  /** What a client relies on. */
  ghost predicate WellFormed(wire: seq<Line>) {
    && (wire != [] ==> wire[0].prefix != NoPrefix)
    && (forall i :: 0 <= i < |wire| - 1 ==> wire[i].continues && wire[i].prefix != Err)
    && (wire != [] && wire[|wire| - 1].prefix == Err ==> !wire[|wire| - 1].continues)
  }

  /** A channel whose next message will not break the order either. */
  ghost predicate Fine(c: Channel) {
    && WellFormed(c.wire)
    && (c.state == Initial ==> c.wire == [])
    && (c.state == Confirmed ==> c.wire != [] && c.wire[|c.wire| - 1].continues)
  }

  /**
   A confirmation that was lost on the network without the client being told: neither clock nor allocator
   may fail for the error message that follows.
   */
  predicate LosesConfirmation(c: Channel, call: Call) {
    && call.Confirm?
    && Reaches(c.state, ActAckContinue, call.timestamp, call.env)
    && !call.env.delivers
    && !Reaches(Confirmed, ActErr, call.timestamp, call.errorEnv)
  }

  /** Each call keeps the order of messages, unless it is a confirmation lost without notice. */
  lemma {:induction false} CallKeepsOrder(c: Channel, call: Call)
    requires Fine(c)
    ensures WellFormed(Called(c, call).0.wire)
    ensures Fine(Called(c, call).0) <==> !LosesConfirmation(c, call)
  {
    match call
    case Fail(timestamp, message, env) =>
      SentKeepsOrder(c, ActErr, timestamp, message, env);
    case Destroy(env, notifies) =>
      SentKeepsOrder(c, ActClose, CURRENT_TIME, "", env);
    case Confirm(timestamp, message, env, errorEnv) =>
      SentKeepsOrder(c, ActAckContinue, timestamp, message, env);
      var after := Sent(c, ActAckContinue, timestamp, message, env).0;
      if Fine(after) {
        SentKeepsOrder(after, ActErr, timestamp, FailureMessage(call), errorEnv);
      } else {
        ErrorAfterLoss(after, timestamp, FailureMessage(call), errorEnv);
      }
    case Continue(timestamp, message, env, errorEnv) =>
      SentKeepsOrder(c, ActContinue, timestamp, message, env);
      var after := Sent(c, ActContinue, timestamp, message, env).0;
      SentKeepsOrder(after, ActErr, timestamp, FailureMessage(call), errorEnv);
    case Finish(timestamp, message, env, errorEnv) =>
      var action := ActionOf(c, call);
      SentKeepsOrder(c, action, timestamp, message, env);
      SentKeepsOrder(Sent(c, action, timestamp, message, env).0, ActErr, timestamp, FailureMessage(call), errorEnv);
  }

  lemma {:induction false} SentKeepsOrder(c: Channel, action: Action, timestamp: int, message: string, env: Env)
    requires Fine(c)
    ensures var after := Sent(c, action, timestamp, message, env).0;
            && WellFormed(after.wire)
            && (Fine(after) <==> !(c.state == Initial && action == ActAckContinue &&
                                   Reaches(c.state, action, timestamp, env) && !env.delivers))
            && (!Fine(after) ==> after == Channel(c.id, Confirmed, []))
  {
  }

  lemma {:induction false} ErrorAfterLoss(c: Channel, timestamp: int, message: string, env: Env)
    requires c.state == Confirmed && c.wire == []
    ensures var after := Sent(c, ActErr, timestamp, message, env).0;
            WellFormed(after.wire) && (Fine(after) <==> Reaches(Confirmed, ActErr, timestamp, env))
  {
  }

  /** None of the calls loses a confirmation. */
  ghost predicate NothingLost(c: Channel, calls: seq<Call>) {
    forall i :: 0 <= i < |calls| ==> !LosesConfirmation(Run(c, calls[..i]), calls[i])
  }

  /** While no confirmation is lost, a channel stays fit for the next call. InOrderIfErrorsGetOut builds on this. */
  lemma {:induction false} RunKeepsOrder(id: nat, calls: seq<Call>)
    requires NothingLost(Channel(id, Initial, []), calls)
    ensures Fine(Run(Channel(id, Initial, []), calls))
  {
    var c := Channel(id, Initial, []);
    if calls != [] {
      var n := |calls| - 1;
      forall i | 0 <= i < n
        ensures !LosesConfirmation(Run(c, calls[..n][..i]), calls[..n][i])
      {
        assert calls[..n][..i] == calls[..i];
      }
      RunKeepsOrder(id, calls[..n]);
      CallKeepsOrder(Run(c, calls[..n]), calls[n]);
    }
  }

  /**
   A call that puts a line without a prefix first on the wire: the channel counts as confirmed although the client was
   told nothing, and a message that is not empty gets through.
   */
  predicate BareFirst(c: Channel, call: Call) {
    && c.state == Confirmed && c.wire == []
    && (call.Continue? || call.Finish?) && call.message != ""
    && Reaches(c.state, ActionOf(c, call), call.timestamp, call.env)
    && call.env.delivers
  }

  ghost predicate NoBareFirst(c: Channel, calls: seq<Call>) {
    forall i :: 0 <= i < |calls| ==> !BareFirst(Run(c, calls[..i]), calls[i])
  }

  /** All is well, or a confirmation is lost and nothing was sent since. */
  ghost predicate StillFine(c: Channel) {
    Fine(c) || (c.state == Confirmed && c.wire == [])
  }

  ghost predicate StartsBare(c: Channel) {
    c.wire != [] && c.wire[0].prefix == NoPrefix
  }

  lemma {:induction false} CallAfterLoss(c: Channel, call: Call)
    requires c.state == Confirmed && c.wire == []
    ensures !BareFirst(c, call) ==> StillFine(Called(c, call).0)
    ensures BareFirst(c, call) ==> StartsBare(Called(c, call).0)
  {
    if !call.Fail? && !call.Destroy? {
      var after := Sent(c, ActionOf(c, call), call.timestamp, call.message, call.env).0;
      if after == c {
        ErrorAfterLoss(c, call.timestamp, FailureMessage(call), call.errorEnv);
      }
    }
  }

  /** What was sent stays sent. */
  lemma {:induction false} CallsOnlyAdd(c: Channel, call: Call)
    ensures |c.wire| <= |Called(c, call).0.wire| && Called(c, call).0.wire[..|c.wire|] == c.wire
  {
  }

  /**
   Whatever calls a channel sees and however clock, allocator and network fail, its messages are in order if and only
   if no call put a bare line first.
   */
  lemma {:induction false} InOrderExactly(id: nat, calls: seq<Call>)
    ensures var c := Channel(id, Initial, []);
            WellFormed(Run(c, calls).wire) <==> NoBareFirst(c, calls)
    ensures var c := Channel(id, Initial, []);
            if NoBareFirst(c, calls) then StillFine(Run(c, calls)) else StartsBare(Run(c, calls))
  {
    var c := Channel(id, Initial, []);
    if calls != [] {
      var n := |calls| - 1;
      InOrderExactly(id, calls[..n]);
      NoneBefore(c, calls);
      var before := Run(c, calls[..n]);
      CallsOnlyAdd(before, calls[n]);
      if Fine(before) {
        CallKeepsOrder(before, calls[n]);
        StaysFine(before, calls[n]);
      } else if StillFine(before) {
        CallAfterLoss(before, calls[n]);
      }
    }
  }

  lemma {:induction false} StaysFine(c: Channel, call: Call)
    requires Fine(c)
    ensures StillFine(Called(c, call).0) && !BareFirst(c, call)
  {
    CallKeepsOrder(c, call);
  }

  lemma {:induction false} NoneBefore(c: Channel, calls: seq<Call>)
    requires calls != []
    ensures var n := |calls| - 1;
            NoBareFirst(c, calls) <==> NoBareFirst(c, calls[..n]) && !BareFirst(Run(c, calls[..n]), calls[n])
  {
    var n := |calls| - 1;
    forall i | 0 <= i < n
      ensures BareFirst(Run(c, calls[..n][..i]), calls[..n][i]) <==> BareFirst(Run(c, calls[..i]), calls[i])
    {
      assert calls[..n][..i] == calls[..i];
    }
  }

  /** If clock and allocator work for the error message that may follow a confirmation, messages are in order. */
  lemma {:induction false} InOrderIfErrorsGetOut(id: nat, calls: seq<Call>)
    requires forall call <- calls | call.Confirm? ::
               0 <= StampOf(call.timestamp, call.errorEnv) && call.errorEnv.allocates
    ensures Fine(Run(Channel(id, Initial, []), calls))
  {
    RunKeepsOrder(id, calls);
  }

  /** A confirmation lost without notice can put a bare line first on the wire. */
  lemma {:induction false} LostConfirmation(id: nat, message: string)
    requires message != ""
    ensures var lost := Confirm(CURRENT_TIME, "", Env(0, true, false), Env(-1, true, true));
            var next := Continue(CURRENT_TIME, message, Env(1, true, true), Env(1, true, true));
            && LosesConfirmation(Channel(id, Initial, []), lost)
            && Run(Channel(id, Initial, []), [lost, next]).wire == [Line(true, NoPrefix, id, 1, message)]
            && !WellFormed(Run(Channel(id, Initial, []), [lost, next]).wire)
  {
    var lost := Confirm(CURRENT_TIME, "", Env(0, true, false), Env(-1, true, true));
    var next := Continue(CURRENT_TIME, message, Env(1, true, true), Env(1, true, true));
    assert [lost, next][..1] == [lost] && [lost][..0] == [];
    assert Run(Channel(id, Initial, []), [lost]) == Channel(id, Confirmed, []);
  }

  /** The bytes of some lines, one after the other. */
  ghost function Bytes(wire: seq<Line>): (bytes: string) {
    if wire == [] then "" else Bytes(wire[..|wire| - 1]) + Text(wire[|wire| - 1])
  }

  lemma {:induction false} BytesOfMore(wire: seq<Line>, line: Line)
    ensures Bytes(wire + [line]) == Bytes(wire) + Text(line)
  {
    assert (wire + [line])[..|wire|] == wire;
  }

  class ChannelObject {
    const id: nat
    var state: State
    ghost var wire: seq<Line>     // the lines accepted by the network
    ghost var output: string      // the bytes accepted by the network

    ghost predicate Valid()
      reads this
    {
      output == Bytes(wire)
    }

    ghost function AsChannel(): Channel
      reads this
    {
      Channel(id, state, wire)
    }

    constructor (id: nat)
      ensures Valid() && AsChannel() == Channel(id, Initial, [])
    {
      this.id, state, wire, output := id, Initial, [], "";
    }

    method SendChannel(action: Action, timestamp: int, message: string, env: Env) returns (err: Error)
      requires Valid()
      modifies this
      ensures Valid() && (AsChannel(), err) == Sent(old(AsChannel()), action, timestamp, message, env)
    {
      var stamp := timestamp;
      if stamp == CURRENT_TIME {
        stamp := env.clock;
      }
      if stamp < 0 {
        return Unspecific;
      }
      if state == Closed {
        return InvalidState;
      }
      if state == Confirmed && (action == ActAckContinue || action == ActAckClose) {
        return InvalidState;
      }
      if state == Initial && action == ActContinue {
        return InvalidState;
      }

      var continues := action == ActContinue || action == ActAckContinue;
      var needsPrefix := |message| == 0 || state == Initial || action == ActErr;
      if !env.allocates {
        return MemoryAllocation;
      }
      var prefix := if needsPrefix then (if action == ActErr then Err else Ack) else NoPrefix;
      assert Line(continues, prefix, id, stamp, message) == LineFor(AsChannel(), action, stamp, message);
      err := SendLine(Line(continues, prefix, id, stamp, message), env.delivers);
      state := if continues then Confirmed else Closed;
    }

    /** Formats a line and hands it to the network. */
    method SendLine(line: Line, delivers: bool) returns (err: Error)
      requires Valid()
      modifies `wire, `output
      ensures Valid() && wire == if delivers then old(wire) + [line] else old(wire)
      ensures err == if delivers then Ok else Network
    {
      var out, outLength := FormatLine(line);
      if !delivers {
        return Network;
      }
      BytesOfMore(wire, line);
      wire := wire + [line];
      output := output + out[..outLength];
      err := Ok;
    }
  }

  method ConfirmChannel(channel: ChannelObject?, timestamp: int, message: string, env: Env, errorEnv: Env)
    returns (err: Error)
    requires channel != null ==> channel.Valid()
    modifies channel
    ensures channel == null ==> err == NoSuchChannel
    ensures channel != null ==> channel.Valid()
    ensures channel != null ==>
              (channel.AsChannel(), err) ==
              Called(old(channel.AsChannel()), Confirm(timestamp, message, env, errorEnv))
  {
    if channel == null {
      return NoSuchChannel;
    }
    err := channel.SendChannel(ActAckContinue, timestamp, message, env);
    if err != Ok {
      var _ := ErrorChannel(channel, timestamp, "failed to confirm channel", errorEnv);
    }
  }

  method ContinueChannel(channel: ChannelObject?, timestamp: int, message: string, env: Env, errorEnv: Env)
    returns (err: Error)
    requires channel != null ==> channel.Valid()
    modifies channel
    ensures channel == null ==> err == NoSuchChannel
    ensures channel != null ==> channel.Valid()
    ensures channel != null ==>
              (channel.AsChannel(), err) ==
              Called(old(channel.AsChannel()), Continue(timestamp, message, env, errorEnv))
  {
    if channel == null {
      return NoSuchChannel;
    }
    err := channel.SendChannel(ActContinue, timestamp, message, env);
    if err != Ok {
      var _ := ErrorChannel(channel, timestamp, "failed to continue channel", errorEnv);
    }
  }

  method FinishChannel(channel: ChannelObject?, timestamp: int, message: string, env: Env, errorEnv: Env)
    returns (err: Error)
    requires channel != null ==> channel.Valid()
    modifies channel
    ensures channel == null ==> err == NoSuchChannel
    ensures channel != null ==> channel.Valid()
    ensures channel != null ==>
              (channel.AsChannel(), err) ==
              Called(old(channel.AsChannel()), Finish(timestamp, message, env, errorEnv))
  {
    if channel == null {
      return NoSuchChannel;
    }
    var action := if channel.state == Initial then ActAckClose else ActClose;
    err := channel.SendChannel(action, timestamp, message, env);
    if err != Ok {
      var _ := ErrorChannel(channel, timestamp, "failed to finish channel", errorEnv);
    }
  }

  method ErrorChannel(channel: ChannelObject?, timestamp: int, message: string, env: Env) returns (err: Error)
    requires channel != null ==> channel.Valid()
    modifies channel
    ensures channel == null ==> err == NoSuchChannel
    ensures channel != null ==> channel.Valid()
    ensures channel != null ==>
              (channel.AsChannel(), err) == Called(old(channel.AsChannel()), Fail(timestamp, message, env))
  {
    if channel == null {
      return NoSuchChannel;
    }
    err := channel.SendChannel(ActErr, timestamp, message, env);
  }

  /** Closing a channel that is about to be destroyed; `notifies` is false if the whole session goes down. */
  method CloseForDestruction(channel: ChannelObject, env: Env, notifies: bool)
    requires channel.Valid()
    modifies channel
    ensures channel.Valid() && channel.AsChannel() == Called(old(channel.AsChannel()), Destroy(env, notifies)).0
  {
    if channel.state != Closed {
      if notifies {
        var _ := channel.SendChannel(ActClose, CURRENT_TIME, "", env);
      }
      channel.state := Closed;
    }
  }
}
