/** The server manager: starts, stops and restarts the server as requested, until it is shut down for good. */
module ServerManager {

  /** `first` and `next` are the running states to go through; `server` tells whether there is a server. */
  datatype Manager = Manager(
    server: bool, changeState: bool, first: bool, next: bool, shutdown: bool, interventionNeeded: bool)

  /** What comes of trying to start the server: it may be refused for now or need the user to fix the settings. */
  datatype StartResult = Started | StartFailed | BadSettings

  /** What a maintenance meets: whether it gets the lock, how it finds the server, and what its attempts come to. */
  datatype Circumstances = Circumstances(locks: bool, serverOk: bool, start: StartResult, stops: bool)

  function Create(): Manager {
    Manager(false, false, false, false, false, false)
  }

  function Request(m: Manager, first: bool, next: bool, locks: bool): (Manager, bool) {
    if !locks then (m, false)
    else if m.shutdown && (first || next) then (m.(interventionNeeded := false), false)
    else (m.(first := first, next := next, changeState := true, interventionNeeded := false), true)
  }

  /** The running state to go for: the first one, or the next one if the first is there already. */
  function Target(m: Manager): bool {
    if m.server == m.first then m.next else m.first
  }

  /** One maintenance, and whether it reports success. */
  function Maintained(m: Manager, c: Circumstances): (Manager, bool) {
    if !c.locks then (m, false)
    else if !m.changeState then (m, !m.server || c.serverOk)
    else
      var target := Target(m);
      var on := m.(first := target);
      if target == m.server && target == m.next then (on.(changeState := false), !m.server || c.serverOk)
      else if if target then c.start == Started else c.stops || !m.server then
        (on.(server := target, changeState := target != m.next), true)
      else
        var needed := m.interventionNeeded || (target && c.start == BadSettings);
        (on.(interventionNeeded := needed, changeState := !needed), false)
  }

  /** What is asked of the manager from outside; all but maintenance end with one. */
  datatype Call = Start | Stop | Restart | Shutdown | Maintenance

  function Perform(m: Manager, call: Call, locks: bool, c: Circumstances): (Manager, bool) {
    if call.Maintenance? then Maintained(m, c)
    else
      var asked := if call.Shutdown? then m.(shutdown := true) else m;
      var (requested, ok) := Request(asked, call.Start?, call.Start? || call.Restart?, locks);
      if ok then Maintained(requested, c) else (requested, false)
  }

  /** A start is only tried without a server, so no running one is ever lost, and a stop only with one. */
  lemma {:induction false} TriesOnlyChanges(m: Manager, c: Circumstances)
    requires m.changeState && !(Target(m) == m.server && Target(m) == m.next)
    ensures Target(m) != m.server
  {
  }

  /** Where requests lead: what is wanted next is there and nothing remains to be done. */
  predicate Settled(m: Manager) {
    !m.changeState && m.server == m.next
  }

  predicate Helpful(c: Circumstances) {
    c.locks && c.start == Started && c.stops
  }

  /** If starting and stopping work, two maintenances settle any request, and one is enough unless it is a restart. */
  lemma {:induction false} Converges(m: Manager, c: Circumstances, d: Circumstances)
    requires m.changeState && Helpful(c) && Helpful(d)
    ensures Settled(Maintained(Maintained(m, c).0, d).0) && Maintained(Maintained(m, c).0, d).0.next == m.next
    ensures Settled(Maintained(m, c).0) <==> !(m.server && !m.first && m.next) && !(!m.server && m.first && !m.next)
  {
  }

  /** How many successful attempts are needed until nothing remains to be done. */
  function Remaining(m: Manager): (n: nat)
    ensures n <= 2
  {
    if !m.changeState then 0
    else (if Target(m) == m.server then 0 else 1) + (if Target(m) == m.next then 0 else 1)
  }

  /** How many of some circumstances let every attempt work. */
  function HelpfulCount(circumstances: seq<Circumstances>): (n: nat) {
    if circumstances == [] then 0
    else
      HelpfulCount(circumstances[..|circumstances| - 1]) +
      if Helpful(circumstances[|circumstances| - 1]) then 1 else 0
  }

  /** The manager after some maintenances, without any request between them. */
  function MaintainedAll(m: Manager, circumstances: seq<Circumstances>): (after: Manager) {
    if circumstances == [] then m
    else Maintained(MaintainedAll(m, circumstances[..|circumstances| - 1]), circumstances[|circumstances| - 1]).0
  }

  /** A manager that goes on trying: the settings are no reason to give up. */
  predicate Trying(m: Manager) {
    !m.interventionNeeded && (m.changeState || Settled(m))
  }

  lemma {:induction false} MaintainedProgresses(m: Manager, c: Circumstances)
    requires Trying(m) && c.start != BadSettings
    ensures var after := Maintained(m, c).0;
            && Trying(after) && after.next == m.next
            && Remaining(after) <= Remaining(m)
            && (Helpful(c) && m.changeState ==> Remaining(after) < Remaining(m) || Settled(after))
            && (Settled(m) ==> Settled(after))
  {
  }

  /**
   However often attempts fail in between: two maintenances in which they work settle any request, unless the settings
   keep the server from starting.
   */
  lemma {:induction false} SettlesDespiteFailures(m: Manager, circumstances: seq<Circumstances>)
    requires Trying(m) && forall i :: 0 <= i < |circumstances| ==> circumstances[i].start != BadSettings
    ensures var after := MaintainedAll(m, circumstances);
            && Trying(after) && after.next == m.next
            && (Settled(after) || Remaining(after) + HelpfulCount(circumstances) <= Remaining(m))
            && (2 <= HelpfulCount(circumstances) ==> Settled(after))
  {
    if circumstances != [] {
      var n := |circumstances| - 1;
      SettlesDespiteFailures(m, circumstances[..n]);
      MaintainedProgresses(MaintainedAll(m, circumstances[..n]), circumstances[n]);
    }
  }

  /** Once settled, maintenance changes nothing. */
  lemma {:induction false} StaysSettled(m: Manager, c: Circumstances)
    requires Settled(m)
    ensures Maintained(m, c).0 == m
  {
  }

  /** Gone for good. */
  predicate Gone(m: Manager) {
    m.shutdown && !m.server && !m.first && !m.next
  }

  /** A state reached by any sequence of calls in any circumstances. */
  ghost predicate IsRun(states: seq<Manager>, calls: seq<Call>, locks: seq<bool>, circumstances: seq<Circumstances>) {
    && |states| == |calls| + 1 && |locks| == |circumstances| == |calls|
    && forall i :: 0 <= i < |calls| ==> states[i + 1] == Perform(states[i], calls[i], locks[i], circumstances[i]).0
  }

  lemma {:induction false} PerformStaysGone(m: Manager, call: Call, locks: bool, c: Circumstances)
    requires Gone(m)
    ensures Gone(Perform(m, call, locks, c).0)
  {
  }

  lemma {:induction false} SuccessfulShutdown(m: Manager, locks: bool, c: Circumstances)
    requires Perform(m, Shutdown, locks, c).1
    ensures Gone(Perform(m, Shutdown, locks, c).0)
  {
  }

  /** Once a shutdown has succeeded there is no server in any later state, whatever is called and whatever happens. */
  lemma {:induction false} GoneForGood(
    states: seq<Manager>, calls: seq<Call>, locks: seq<bool>, circumstances: seq<Circumstances>, i: nat, j: nat)
    requires IsRun(states, calls, locks, circumstances) && i < j < |states|
    requires calls[i] == Shutdown && Perform(states[i], calls[i], locks[i], circumstances[i]).1
    ensures Gone(states[j])
  {
    if j == i + 1 {
      SuccessfulShutdown(states[i], locks[i], circumstances[i]);
    } else {
      GoneForGood(states, calls, locks, circumstances, i, j - 1);
      PerformStaysGone(states[j - 1], calls[j - 1], locks[j - 1], circumstances[j - 1]);
      assert states[j - 1 + 1] == Perform(states[j - 1], calls[j - 1], locks[j - 1], circumstances[j - 1]).0;
    }
  }

  /** Without the lock a shutdown only sets its flag, and every maintenance does what it would have done before. */
  lemma {:induction false} FailedShutdown(m: Manager, c: Circumstances, circumstances: seq<Circumstances>)
    ensures Perform(m, Shutdown, false, c) == (m.(shutdown := true), false)
    ensures MaintainedAll(m.(shutdown := true), circumstances) ==
            MaintainedAll(m, circumstances).(shutdown := true)
  {
    if circumstances != [] {
      var n := |circumstances| - 1;
      FailedShutdown(m, c, circumstances[..n]);
      FlagIgnored(MaintainedAll(m, circumstances[..n]), circumstances[n]);
    }
  }

  lemma {:induction false} FlagIgnored(m: Manager, c: Circumstances)
    ensures Maintained(m.(shutdown := true), c).0 == Maintained(m, c).0.(shutdown := true)
  {
  }

  /** Whether the server is still to be started. */
  predicate StartPending(m: Manager) {
    !m.server && m.changeState && Target(m)
  }

  /** Shut down, without a server and with none to come. */
  predicate Ended(m: Manager) {
    m.shutdown && !m.server && !StartPending(m)
  }

  /** A shutdown while there is no server ends it all unless it fails to get the lock and a start is pending. */
  lemma {:induction false} ShutdownEnds(m: Manager, locks: bool, c: Circumstances)
    requires !m.server
    ensures Ended(Perform(m, Shutdown, locks, c).0) <==> locks || !StartPending(m)
  {
  }

  /** In that case the next maintenance that works starts a server, although it is shut down. */
  lemma {:induction false} StartsAfterShutdown(m: Manager, c: Circumstances, d: Circumstances)
    requires !m.server
    ensures Maintained(Perform(m, Shutdown, false, c).0, d).0.server <==>
            StartPending(m) && d.locks && d.start == Started
  {
  }

  /** A start stays pending when it fails, and so does a restart once the server is stopped. */
  lemma {:induction false} StartsPend(c: Circumstances)
    requires c.locks
    ensures c.start == StartFailed ==> StartPending(Perform(Create(), Start, true, c).0)
    ensures c.stops ==> forall m: Manager :: m.server && !m.shutdown ==> StartPending(Perform(m, Restart, true, c).0)
  {
  }

  /** In all other cases no server follows, whatever is called in whatever circumstances. */
  lemma {:induction false} StaysEnded(
    states: seq<Manager>, calls: seq<Call>, locks: seq<bool>, circumstances: seq<Circumstances>, i: nat, j: nat)
    requires IsRun(states, calls, locks, circumstances) && i <= j < |states| && Ended(states[i])
    ensures Ended(states[j])
    decreases j
  {
    if i < j {
      StaysEnded(states, calls, locks, circumstances, i, j - 1);
      assert states[j - 1 + 1] == Perform(states[j - 1], calls[j - 1], locks[j - 1], circumstances[j - 1]).0;
    }
  }

  /** A shutdown that gets the lock: none is wanted any more, even if the server could not be stopped yet. */
  predicate Closing(m: Manager) {
    m.shutdown && !m.first && !m.next
  }

  /** After a shutdown that gets the lock a server that is still there may go, but none is started. */
  lemma {:induction false} RecordedShutdown(
    states: seq<Manager>, calls: seq<Call>, locks: seq<bool>, circumstances: seq<Circumstances>, i: nat, j: nat)
    requires IsRun(states, calls, locks, circumstances) && i < j < |states| && calls[i] == Shutdown && locks[i]
    ensures Closing(states[j]) && (states[j].server ==> states[j - 1].server)
    decreases j
  {
    if i < j - 1 {
      RecordedShutdown(states, calls, locks, circumstances, i, j - 1);
    }
    assert states[j - 1 + 1] == Perform(states[j - 1], calls[j - 1], locks[j - 1], circumstances[j - 1]).0;
  }

  class ManagedServer {
    var server: bool
    var changeState: bool
    var wantedStateFirst: bool
    var wantedStateNext: bool
    var shutdown: bool
    var userInterventionNeeded: bool

    function State(): Manager
      reads this
    {
      Manager(server, changeState, wantedStateFirst, wantedStateNext, shutdown, userInterventionNeeded)
    }

    constructor ()
      ensures State() == Create()
    {
      server, changeState, wantedStateFirst, wantedStateNext := false, false, false, false;
      shutdown, userInterventionNeeded := false, false;
    }

    method UpdateWantedState(first: bool, next: bool, locks: bool) returns (ok: bool)
      modifies this
      ensures (State(), ok) == old(Request(State(), first, next, locks))
    {
      if !locks {
        return false;
      }
      userInterventionNeeded := false;
      if shutdown && (first || next) {
        return false;
      }
      wantedStateFirst := first;
      wantedStateNext := next;
      changeState := true;
      ok := true;
    }

    method DoServerStart(result: StartResult) returns (ok: bool)
      modifies `server, `userInterventionNeeded
      ensures server == (old(server) || result == Started) && ok == (result == Started)
      ensures userInterventionNeeded == (old(userInterventionNeeded) || result == BadSettings)
    {
      match result
      case Started => server, ok := true, true;
      case StartFailed => ok := false;
      case BadSettings => userInterventionNeeded, ok := true, false;
    }

    method DoServerStop(stops: bool) returns (ok: bool)
      modifies `server
      ensures server == (old(server) && !stops) && ok == (!old(server) || stops)
    {
      if !server {
        return true;
      }
      if !stops {
        return false;
      }
      server := false;
      ok := true;
    }

    method Maintain(c: Circumstances) returns (ok: bool)
      modifies this
      ensures (State(), ok) == old(Maintained(State(), c))
    {
      if !c.locks {
        return false;
      }
      ok := true;
      if server {
        ok := c.serverOk;
      }
      if !changeState {
        return;
      }
      var currentState := server;
      var matchesFirst := currentState == wantedStateFirst;
      if matchesFirst {
        wantedStateFirst := wantedStateNext;
        matchesFirst := currentState == wantedStateFirst;
      }
      var toggles := wantedStateFirst != wantedStateNext;
      if !toggles && matchesFirst {
        changeState := false;
        return;
      }
      if wantedStateFirst {
        ok := DoServerStart(c.start);
      } else {
        ok := DoServerStop(c.stops);
      }
      if !ok {
        if userInterventionNeeded {
          changeState := false;
        }
        return;
      }
      if !toggles {
        changeState := false;
      }
    }

    method UpdateWantedStateAndMaintain(first: bool, next: bool, locks: bool, c: Circumstances) returns (ok: bool)
      modifies this
      ensures var (requested, wanted) := old(Request(State(), first, next, locks));
              (State(), ok) == if wanted then Maintained(requested, c) else (requested, false)
    {
      ok := UpdateWantedState(first, next, locks);
      if ok {
        ok := Maintain(c);
      }
    }

    method PerformCall(call: Call, locks: bool, c: Circumstances) returns (ok: bool)
      modifies this
      ensures (State(), ok) == old(Perform(State(), call, locks, c))
    {
      match call
      case Start => ok := UpdateWantedStateAndMaintain(true, true, locks, c);
      case Stop => ok := UpdateWantedStateAndMaintain(false, false, locks, c);
      case Restart => ok := UpdateWantedStateAndMaintain(false, true, locks, c);
      case Shutdown =>
        shutdown := true;
        ok := UpdateWantedStateAndMaintain(false, false, locks, c);
      case Maintenance => ok := Maintain(c);
    }
  }
}
