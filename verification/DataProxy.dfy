/** Proxies for datarefs: reserved by an owner, registered with the simulator, dropped and cleaned up later. */
module DataProxy {
  import opened Wrappers

  datatype State = Inactive | Reserved | Registered | Dropped

  datatype Permission = SessionOnly | XprcOnly | Everyone

  /** `handle` is the simulator's accessor; `operations` stands for the owner's callbacks and their reference. */
  datatype Proxy = Proxy(
    state: State, handle: Option<nat>, types: set<nat>, permission: Permission,
    owner: Option<nat>, operations: Option<nat>)

  /** The simulator's side: live accessors with the proxy each refers to, and uses of accessors that were not live. */
  datatype Simulator = Simulator(accessors: map<nat, string>, faults: nat)

  /** All proxies by the name of their dataref, and the simulator. */
  datatype World = World(proxies: map<string, Proxy>, simulator: Simulator)

  function Cleared(state: State): Proxy {
    Proxy(state, None, {}, SessionOnly, None, None)
  }

  function AddAccessor(s: Simulator, handle: nat, name: string): Simulator {
    s.(accessors := s.accessors[handle := name])
  }

  function RemoveAccessor(s: Simulator, handle: Option<nat>): Simulator {
    if handle.Some? && handle.value in s.accessors then s.(accessors := s.accessors - {handle.value})
    else s.(faults := s.faults + 1)
  }

  /** What an owner asks for when it reserves a proxy; `valid` tells whether types, permission and callbacks are. */
  datatype Definition = Definition(valid: bool, types: set<nat>, permission: Permission, owner: nat, operations: nat)

  /** `stores` tells whether a proxy can be allocated and stored. */
  function Reserve(w: World, name: string, d: Definition, locks: bool, stores: bool): (r: (World, bool)) {
    if !d.valid || !locks then (w, false)
    else if name !in w.proxies && !stores then (w, false)
    else
      var found := if name in w.proxies then w else w.(proxies := w.proxies[name := Cleared(Inactive)]);
      var ready := if found.proxies[name].state == Dropped then Unregister(found, name, true).0 else found;
      if ready.proxies[name].state != Inactive then (ready, false)
      else
        (ready.(proxies := ready.proxies[name :=
           Proxy(Reserved, ready.proxies[name].handle, d.types, d.permission, Some(d.owner), Some(d.operations))]),
         true)
  }

  function Release(w: World, name: string, locks: bool): (World, bool)
    requires name in w.proxies
  {
    if !locks || w.proxies[name].state != Reserved then (w, false)
    else (w.(proxies := w.proxies[name := Cleared(Inactive)]), true)
  }

  /** `handle` is what the simulator gives: a new accessor, or None on failure. */
  function Register(w: World, name: string, handle: Option<nat>, locks: bool): (World, bool)
    requires name in w.proxies
  {
    var p := w.proxies[name];
    if !locks || p.state != Reserved then (w, false)
    else if handle.None? then (w.(proxies := w.proxies[name := p.(handle := None)]), false)
    else
      (World(w.proxies[name := p.(handle := handle, state := Registered)],
             AddAccessor(w.simulator, handle.value, name)),
       true)
  }

  function Unregister(w: World, name: string, locks: bool): (r: (World, bool))
    requires name in w.proxies
    ensures name in r.0.proxies
  {
    var p := w.proxies[name];
    if !locks then (w, false)
    else if p.state == Registered then
      (World(w.proxies[name := p.(state := Reserved, handle := None)], RemoveAccessor(w.simulator, p.handle)), true)
    else if p.state == Dropped then
      (World(w.proxies[name := Cleared(Inactive)], RemoveAccessor(w.simulator, p.handle)), true)
    else (w, false)
  }

  function Drop(w: World, name: string, locks: bool): (World, bool)
    requires name in w.proxies
  {
    var p := w.proxies[name];
    if !locks || p.state != Registered then (w, false)
    else (w.(proxies := w.proxies[name := p.(state := Dropped, owner := None, operations := None)]), true)
  }

  /** Unregisters the dropped ones of the named proxies, in order. */
  function Sweep(w: World, names: seq<string>): (after: World)
    requires forall i :: 0 <= i < |names| ==> names[i] in w.proxies
    ensures after.proxies.Keys == w.proxies.Keys
  {
    if names == [] then w
    else
      var before := Sweep(w, names[..|names| - 1]);
      var name := names[|names| - 1];
      if before.proxies[name].state == Dropped then Unregister(before, name, true).0 else before
  }

  /** What every operation keeps. */
  ghost predicate Sound(w: World) {
    && (forall name :: name in w.proxies ==> SoundProxy(w, name))
    && (forall h :: h in w.simulator.accessors ==> Refers(w, h))
    && w.simulator.faults == 0
  }

  ghost predicate SoundProxy(w: World, name: string)
    requires name in w.proxies
  {
    var p := w.proxies[name];
    && (p.state in {Registered, Dropped} <==> p.handle.Some?)
    && (p.state in {Reserved, Registered} <==> p.operations.Some?)
    && (p.state in {Reserved, Registered} <==> p.owner.Some?)
    && (p.handle.Some? ==> p.handle.value in w.simulator.accessors && w.simulator.accessors[p.handle.value] == name)
  }

  /** A live accessor belongs to the proxy it refers to. */
  ghost predicate Refers(w: World, h: nat)
    requires h in w.simulator.accessors
  {
    var name := w.simulator.accessors[h];
    name in w.proxies && w.proxies[name].handle == Some(h)
  }

  lemma {:induction false} UnregisterKeepsSound(w: World, name: string, locks: bool)
    requires Sound(w) && name in w.proxies
    ensures Sound(Unregister(w, name, locks).0)
    ensures forall other :: other in w.proxies && other != name ==>
      other in Unregister(w, name, locks).0.proxies && Unregister(w, name, locks).0.proxies[other] == w.proxies[other]
  {
    var after := Unregister(w, name, locks).0;
    assert SoundProxy(w, name);
    forall other | other in after.proxies
      ensures SoundProxy(after, other)
    {
      assert SoundProxy(w, other);
    }
    forall h | h in after.simulator.accessors
      ensures Refers(after, h)
    {
      assert Refers(w, h);
    }
  }

  lemma {:induction false} ReserveKeepsSound(w: World, name: string, d: Definition, locks: bool, stores: bool)
    requires Sound(w)
    ensures Sound(Reserve(w, name, d, locks, stores).0)
  {
    if d.valid && locks && (name in w.proxies || stores) {
      var found := if name in w.proxies then w else w.(proxies := w.proxies[name := Cleared(Inactive)]);
      ChangeOne(w, found, name);
      var ready := if found.proxies[name].state == Dropped then Unregister(found, name, true).0 else found;
      if found.proxies[name].state == Dropped {
        UnregisterKeepsSound(found, name, true);
      }
      ChangeOne(ready, Reserve(w, name, d, locks, stores).0, name);
    }
  }

  /** Changing one proxy without touching its accessor. */
  lemma {:induction false} ChangeOne(w: World, after: World, name: string)
    requires Sound(w) && after.simulator == w.simulator && name in after.proxies
    requires after.proxies == w.proxies[name := after.proxies[name]]
    requires after.proxies[name].handle == if name in w.proxies then w.proxies[name].handle else None
    requires SoundProxy(after, name)
    ensures Sound(after)
  {
    forall other | other in after.proxies
      ensures SoundProxy(after, other)
    {
      if other != name {
        assert SoundProxy(w, other);
      }
    }
    forall h | h in after.simulator.accessors
      ensures Refers(after, h)
    {
      assert Refers(w, h);
    }
  }

  lemma {:induction false} RegisterKeepsSound(w: World, name: string, handle: Option<nat>, locks: bool)
    requires Sound(w) && name in w.proxies && (handle.Some? ==> handle.value !in w.simulator.accessors)
    ensures Sound(Register(w, name, handle, locks).0)
  {
    var after := Register(w, name, handle, locks).0;
    assert SoundProxy(w, name);
    forall other | other in after.proxies
      ensures SoundProxy(after, other)
    {
      assert SoundProxy(w, other);
    }
    forall h | h in after.simulator.accessors
      ensures Refers(after, h)
    {
      assert h in w.simulator.accessors ==> Refers(w, h);
    }
  }

  datatype Input =
    | ReserveInput(name: string, definition: Definition, locks: bool, stores: bool)
    | ReleaseInput(name: string, locks: bool)
    | RegisterInput(name: string, handle: Option<nat>, locks: bool)
    | UnregisterInput(name: string, locks: bool)
    | DropInput(name: string, locks: bool)
    | SweepInput(names: seq<string>)

  /** A proxy that is used has been reserved before, and the simulator does not give out an accessor that is live. */
  ghost predicate Fits(w: World, input: Input) {
    match input
    case ReserveInput(_, _, _, _) => true
    case RegisterInput(name, handle, _) =>
      name in w.proxies && (handle.Some? ==> handle.value !in w.simulator.accessors)
    case SweepInput(names) => forall i :: 0 <= i < |names| ==> names[i] in w.proxies
    case _ => input.name in w.proxies
  }

  ghost function Step(w: World, input: Input): World
    requires Fits(w, input)
  {
    match input
    case ReserveInput(name, d, locks, stores) => Reserve(w, name, d, locks, stores).0
    case ReleaseInput(name, locks) => Release(w, name, locks).0
    case RegisterInput(name, handle, locks) => Register(w, name, handle, locks).0
    case UnregisterInput(name, locks) => Unregister(w, name, locks).0
    case DropInput(name, locks) => Drop(w, name, locks).0
    case SweepInput(names) => Sweep(w, names)
  }

  ghost predicate IsRun(worlds: seq<World>, inputs: seq<Input>) {
    && |worlds| == |inputs| + 1
    && worlds[0] == World(map[], Simulator(map[], 0))
    && forall i :: 0 <= i < |inputs| ==> Fits(worlds[i], inputs[i]) && worlds[i + 1] == Step(worlds[i], inputs[i])
  }

  lemma {:induction false} SweepKeepsSound(w: World, names: seq<string>)
    requires Sound(w) && forall i :: 0 <= i < |names| ==> names[i] in w.proxies
    ensures Sound(Sweep(w, names))
  {
    if names != [] {
      SweepKeepsSound(w, names[..|names| - 1]);
      var before := Sweep(w, names[..|names| - 1]);
      if before.proxies[names[|names| - 1]].state == Dropped {
        UnregisterKeepsSound(before, names[|names| - 1], true);
      }
    }
  }

  lemma {:induction false} StepKeepsSound(w: World, input: Input)
    requires Sound(w) && Fits(w, input)
    ensures Sound(Step(w, input))
  {
    match input
    case ReserveInput(name, d, locks, stores) => ReserveKeepsSound(w, name, d, locks, stores);
    case ReleaseInput(name, locks) =>
      assert SoundProxy(w, name);
      ChangeOne(w, Release(w, name, locks).0, name);
    case RegisterInput(name, handle, locks) => RegisterKeepsSound(w, name, handle, locks);
    case UnregisterInput(name, locks) => UnregisterKeepsSound(w, name, locks);
    case DropInput(name, locks) =>
      assert SoundProxy(w, name);
      ChangeOne(w, Drop(w, name, locks).0, name);
    case SweepInput(names) => SweepKeepsSound(w, names);
  }

  /** Over every run: accessors and proxies fit together and no accessor is ever given back twice. */
  lemma {:induction false} RunKeepsSound(worlds: seq<World>, inputs: seq<Input>, i: nat)
    requires IsRun(worlds, inputs) && i < |worlds|
    ensures Sound(worlds[i])
  {
    if i > 0 {
      RunKeepsSound(worlds, inputs, i - 1);
      StepKeepsSound(worlds[i - 1], inputs[i - 1]);
      assert worlds[i - 1 + 1] == Step(worlds[i - 1], inputs[i - 1]);
    }
  }

  /** The live accessors are exactly those of the registered and the dropped proxies. */
  lemma {:induction false} AccessorsMatch(w: World, h: nat)
    requires Sound(w)
    ensures h in w.simulator.accessors <==>
      exists name :: name in w.proxies && w.proxies[name].state in {Registered, Dropped} &&
                     w.proxies[name].handle == Some(h)
  {
    if h in w.simulator.accessors {
      assert Refers(w, h) && SoundProxy(w, w.simulator.accessors[h]);
    } else if name :| name in w.proxies && w.proxies[name].handle == Some(h) {
      assert SoundProxy(w, name);
    }
  }

  /**
   A reservation succeeds exactly for a valid definition of a proxy that is new, inactive or dropped; it is then the
   one defined, and no other proxy changes.
   */
  lemma {:induction false} ReserveGives(w: World, name: string, d: Definition, locks: bool, stores: bool)
    requires Sound(w)
    ensures var (after, ok) := Reserve(w, name, d, locks, stores);
            && (ok <==> d.valid && locks &&
                        if name in w.proxies then w.proxies[name].state in {Inactive, Dropped} else stores)
            && (ok ==> name in after.proxies &&
                       after.proxies[name] ==
                       Proxy(Reserved, None, d.types, d.permission, Some(d.owner), Some(d.operations)))
            && forall other :: other in w.proxies && (other != name || !ok) ==>
                 other in after.proxies && after.proxies[other] == w.proxies[other]
  {
    if name in w.proxies {
      assert SoundProxy(w, name);
    }
  }

  /** Unregistering undoes registering, and releasing undoes the reservation of an inactive proxy. */
  lemma {:induction false} Undone(w: World, name: string, handle: nat, d: Definition)
    requires Sound(w) && name in w.proxies && handle !in w.simulator.accessors && d.valid
    ensures w.proxies[name].state == Reserved ==>
      Unregister(Register(w, name, Some(handle), true).0, name, true) == (w, true)
    ensures w.proxies[name] == Cleared(Inactive) ==>
      Release(Reserve(w, name, d, true, true).0, name, true) == (w, true)
  {
    assert SoundProxy(w, name);
    var registered := Register(w, name, Some(handle), true).0;
    if w.proxies[name].state == Reserved {
      assert registered.simulator.accessors - {handle} == w.simulator.accessors;
      assert Unregister(registered, name, true).0.proxies == w.proxies;
    } else if w.proxies[name] == Cleared(Inactive) {
      assert Release(Reserve(w, name, d, true, true).0, name, true).0.proxies == w.proxies;
    }
  }

  /** After a sweep over all dropped proxies none is left, and every other proxy is as before. */
  lemma {:induction false} SweepCleans(w: World, names: seq<string>, name: string)
    requires forall i :: 0 <= i < |names| ==> names[i] in w.proxies
    requires name in w.proxies && (w.proxies[name].state == Dropped ==> name in names)
    ensures Sweep(w, names).proxies[name] ==
            if w.proxies[name].state == Dropped then Cleared(Inactive) else w.proxies[name]
  {
    SweptTo(w, names, |names|, name);
    assert names[..|names|] == names;
  }

  lemma {:induction false} SweptTo(w: World, names: seq<string>, k: nat, name: string)
    requires k <= |names| && name in w.proxies
    requires forall i :: 0 <= i < |names| ==> names[i] in w.proxies
    ensures Sweep(w, names[..k]).proxies[name] ==
            if w.proxies[name].state == Dropped && name in names[..k] then Cleared(Inactive) else w.proxies[name]
  {
    if k > 0 {
      SweptTo(w, names, k - 1, name);
      assert names[..k][..k - 1] == names[..k - 1] && names[..k] == names[..k - 1] + [names[k - 1]];
    }
  }

  /**
   Dropping works on a registered proxy only, although the interface promises it for a reserved one, too: that stays
   reserved and blocks its name until it is released.
   */
  lemma {:induction false} DropsOnlyRegistered(w: World, name: string, d: Definition, stores: bool)
    requires name in w.proxies
    ensures Drop(w, name, true).1 <==> w.proxies[name].state == Registered
    ensures w.proxies[name].state == Reserved ==>
      Drop(w, name, true).0 == w && !Reserve(Drop(w, name, true).0, name, d, true, stores).1
  {
  }

  class DataproxyRegistry {
    var proxies: map<string, Proxy>
    var simulator: Simulator

    function State(): World
      reads this
    {
      World(proxies, simulator)
    }

    constructor ()
      ensures State() == World(map[], Simulator(map[], 0)) && Sound(State())
    {
      proxies, simulator := map[], Simulator(map[], 0);
    }

    method ReserveDataproxy(name: string, d: Definition, locks: bool, stores: bool) returns (ok: bool)
      modifies this
      ensures (State(), ok) == old(Reserve(State(), name, d, locks, stores))
    {
      if !d.valid || !locks {
        return false;
      }
      if name !in proxies {
        if !stores {
          return false;
        }
        proxies := proxies[name := Cleared(Inactive)];
      }
      if proxies[name].state == Dropped {
        var unregistered := UnregisterDataproxy(name, true);
        if !unregistered {
          return false;
        }
      }
      if proxies[name].state != Inactive {
        return false;
      }
      proxies := proxies[name := proxies[name].(
        state := Reserved, types := d.types, permission := d.permission,
        operations := Some(d.operations), owner := Some(d.owner))];
      ok := true;
    }

    method ReleaseDataproxy(name: string, locks: bool) returns (ok: bool)
      requires name in proxies
      modifies this
      ensures (State(), ok) == old(Release(State(), name, locks))
    {
      if !locks || proxies[name].state != Reserved {
        return false;
      }
      proxies := proxies[name := Cleared(Inactive)];
      ok := true;
    }

    method RegisterDataproxy(name: string, handle: Option<nat>, locks: bool) returns (ok: bool)
      requires name in proxies
      modifies this
      ensures (State(), ok) == old(Register(State(), name, handle, locks))
    {
      if !locks || proxies[name].state != Reserved {
        return false;
      }
      if handle.Some? {
        simulator := AddAccessor(simulator, handle.value, name);
      }
      proxies := proxies[name := proxies[name].(handle := handle)];
      if handle.None? {
        return false;
      }
      proxies := proxies[name := proxies[name].(state := Registered)];
      assert proxies == old(proxies)[name := proxies[name]];
      ok := true;
    }

    method UnregisterDataproxy(name: string, locks: bool) returns (ok: bool)
      requires name in proxies
      modifies this
      ensures (State(), ok) == old(Unregister(State(), name, locks))
    {
      if !locks {
        return false;
      }
      if proxies[name].state == Registered {
        simulator := RemoveAccessor(simulator, proxies[name].handle);
        proxies := proxies[name := proxies[name].(state := Reserved, handle := None)];
        ok := true;
      } else if proxies[name].state == Dropped {
        simulator := RemoveAccessor(simulator, proxies[name].handle);
        proxies := proxies[name := Cleared(Inactive)];
        ok := true;
      } else {
        ok := false;
      }
    }

    method DropDataproxy(name: string, locks: bool) returns (ok: bool)
      requires name in proxies
      modifies this
      ensures (State(), ok) == old(Drop(State(), name, locks))
    {
      if !locks || proxies[name].state != Registered {
        return false;
      }
      proxies := proxies[name := proxies[name].(state := Dropped, owner := None, operations := None)];
      ok := true;
    }

    /** The names of all proxies in a state, in the order in which the hash map happens to hold them. */
    method ListDataproxiesWithState(wanted: State) returns (names: seq<string>)
      ensures forall name :: name in names <==> name in proxies && proxies[name].state == wanted
    {
      names := [];
      var rest := proxies.Keys;
      while rest != {}
        invariant rest <= proxies.Keys
        invariant forall name :: name in names <==> name in proxies.Keys - rest && proxies[name].state == wanted
        decreases |rest|
      {
        var name :| name in rest;
        rest := rest - {name};
        if proxies[name].state == wanted {
          names := names + [name];
        }
      }
    }

    /** Maintenance; fails if the list of dropped proxies cannot be allocated or the registry cannot be locked. */
    method UnregisterDroppedDataproxies(locks: bool, allocates: bool) returns (ok: bool)
      requires Sound(State())
      modifies this
      ensures Sound(State()) && ok == (locks && allocates)
      ensures !ok ==> State() == old(State())
      ensures ok ==> proxies.Keys == old(proxies.Keys) && forall name :: name in old(proxies) ==>
        proxies[name] == if old(proxies[name].state) == Dropped then Cleared(Inactive) else old(proxies[name])
    {
      if !locks || !allocates {
        return false;
      }
      var names := ListDataproxiesWithState(Dropped);
      ghost var before := State();
      for i := 0 to |names|
        invariant State() == Sweep(before, names[..i])
      {
        assert names[..i + 1][..i] == names[..i];
        if proxies[names[i]].state == Dropped {
          var unregistered := UnregisterDataproxy(names[i], true);
        }
      }
      assert names[..|names|] == names;
      SweepKeepsSound(before, names);
      forall name | name in before.proxies
        ensures proxies[name] ==
                if before.proxies[name].state == Dropped then Cleared(Inactive) else before.proxies[name]
      {
        SweepCleans(before, names, name);
      }
      ok := true;
    }
  }
}
