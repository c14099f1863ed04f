/** The two-level channel table of a session, and the maintenance sweep over it. */
module ChannelTable {
  import opened ChannelIds
  import opened Wrappers

  const SEGMENT: nat := 62
  const NUM_SUBTABLES: nat := 238328   // 62 to the power of 3

  /**
   A registered channel. `hasDestroy` tells whether its command has a destructor, `destroyFails` whether
   calling it would report an error.
   */
  datatype Channel = Channel(id: nat, destructionRequested: bool, hasDestroy: bool, destroyFails: bool)

  type Subtable = seq<Option<Channel>>

  const EMPTY_SUBTABLE: Subtable := seq(SEGMENT, _ => None)

  /** IDs the table can address without leaving its arrays. */
  predicate InTable(id: nat) {
    id / 64 < NUM_SUBTABLES && id % 64 < SEGMENT
  }

  ghost function Slot(subtables: map<nat, Subtable>, id: nat): Option<Channel> {
    if id / 64 in subtables && id % 64 < |subtables[id / 64]| then subtables[id / 64][id % 64] else None
  }

  predicate IsEmpty(subtable: Subtable) {
    forall j :: 0 <= j < |subtable| ==> subtable[j] == None
  }

  /** The subtables present hold a channel each, and all slots together show exactly `channels`. */
  ghost predicate Shows(subtables: map<nat, Subtable>, channels: map<nat, Channel>) {
    && (forall a :: a in subtables ==> a < NUM_SUBTABLES && |subtables[a]| == SEGMENT && !IsEmpty(subtables[a]))
    && (forall id :: id in channels ==> InTable(id) && channels[id].id == id)
    && (forall id: nat :: Slot(subtables, id) == if id in channels then Some(channels[id]) else None)
  }

  /**
   Not every channel ID fits: the 6-bit packing reaches past the outer array, which has 62 to the power of 3
   entries. An ID fits just when it is below 64 times the number of subtables; "9999" does not.
   */
  lemma {:induction false} IdsInTable(id: nat)
    requires IsId(id)
    ensures InTable(id) <==> id < 64 * NUM_SUBTABLES
    ensures IsName("9999") && IsId(IdOf("9999")) && !InTable(IdOf("9999")) && IdOf("9999") / 64 == 253821
  {
    assert CharToSegment('9') == 61;
    NameOfIdOf("9999");
  }

  lemma {:induction false} SubtableHoldsChannel(subtables: map<nat, Subtable>, channels: map<nat, Channel>, a: nat)
    requires Shows(subtables, channels)
    ensures a in subtables <==> exists id :: id in channels && id / 64 == a
  {
    if a in subtables {
      var j :| 0 <= j < |subtables[a]| && subtables[a][j] != None;
      assert Slot(subtables, 64 * a + j) != None;
      assert (64 * a + j) / 64 == a;
    }
    if id: nat :| id in channels && id / 64 == a {
      assert Slot(subtables, id) != None;
    }
  }

  lemma {:induction false} SlotAfterPut(
    subtables: map<nat, Subtable>, subtable: Subtable, channel: Channel, id: nat)
    requires subtable == if channel.id / 64 in subtables then subtables[channel.id / 64] else EMPTY_SUBTABLE
    requires |subtable| == SEGMENT && channel.id % 64 < SEGMENT
    ensures Slot(subtables[channel.id / 64 := subtable[channel.id % 64 := Some(channel)]], id) ==
            if id == channel.id then Some(channel) else Slot(subtables, id)
  {
  }

  lemma {:induction false} PutShows(
    subtables: map<nat, Subtable>, channels: map<nat, Channel>, subtable: Subtable, channel: Channel)
    requires Shows(subtables, channels) && InTable(channel.id)
    requires subtable == if channel.id / 64 in subtables then subtables[channel.id / 64] else EMPTY_SUBTABLE
    ensures Shows(subtables[channel.id / 64 := subtable[channel.id % 64 := Some(channel)]],
                  channels[channel.id := channel])
  {
    var after := subtables[channel.id / 64 := subtable[channel.id % 64 := Some(channel)]];
    var shown := channels[channel.id := channel];
    forall id: nat
      ensures Slot(after, id) == if id in shown then Some(shown[id]) else None
    {
      SlotAfterPut(subtables, subtable, channel, id);
    }
    assert after[channel.id / 64][channel.id % 64] != None;
  }

  lemma {:induction false} PopShows(subtables: map<nat, Subtable>, channels: map<nat, Channel>, id: nat)
    requires Shows(subtables, channels) && InTable(id) && id / 64 in subtables
    ensures var subtable := subtables[id / 64][id % 64 := None];
            Shows(if IsEmpty(subtable) then subtables - {id / 64} else subtables[id / 64 := subtable], channels - {id})
  {
    var subtable := subtables[id / 64][id % 64 := None];
    var after := if IsEmpty(subtable) then subtables - {id / 64} else subtables[id / 64 := subtable];
    forall i: nat
      ensures Slot(after, i) == if i in channels - {id} then Some((channels - {id})[i]) else None
    {
      assert Slot(subtables, i) == if i in channels then Some(channels[i]) else None;
      if i / 64 == id / 64 && i % 64 < SEGMENT {
        assert subtable[i % 64] == if i == id then None else Slot(subtables, i);
      }
    }
  }

  /** What a sweep leaves behind that has removed every channel marked for destruction below `bound`. */
  ghost function Swept(channels: map<nat, Channel>, bound: nat): map<nat, Channel> {
    map id | id in channels && !(channels[id].destructionRequested && id < bound) :: channels[id]
  }

  /** Channels marked for destruction whose command has a destructor. */
  ghost predicate Destroys(channels: map<nat, Channel>, id: nat) {
    id in channels && channels[id].destructionRequested && channels[id].hasDestroy
  }

  /** A channel marked for destruction that cannot be destroyed. */
  ghost predicate Stuck(channels: map<nat, Channel>, id: nat) {
    Destroys(channels, id) && channels[id].destroyFails
  }

  /** `calls` are the destructor calls of a sweep up to `bound`: in order, each marked channel once. */
  ghost predicate CallsBelow(channels: map<nat, Channel>, calls: seq<nat>, bound: nat) {
    && (forall i, j :: 0 <= i < j < |calls| ==> calls[i] < calls[j])
    && (forall id: nat :: id in calls <==> Destroys(channels, id) && id < bound)
  }

  /** A sweep has dealt with all IDs below `stop`. */
  ghost predicate SweptTo(before: map<nat, Channel>, now: map<nat, Channel>, calls: seq<nat>, stop: nat) {
    && now == Swept(before, stop)
    && (forall id: nat :: Stuck(before, id) ==> stop <= id)
    && CallsBelow(before, calls, stop)
  }

  /** A sweep has stopped at the first channel that could not be destroyed. */
  ghost predicate StoppedAt(before: map<nat, Channel>, now: map<nat, Channel>, calls: seq<nat>, stop: nat) {
    && Stuck(before, stop)
    && now == Swept(before, stop)
    && (forall id: nat :: Stuck(before, id) ==> stop <= id)
    && CallsBelow(before, calls, stop + 1)
  }

  /** IDs from `stop` up to `next` that are not marked for destruction are passed over. */
  lemma {:induction false} PassOver(
    before: map<nat, Channel>, now: map<nat, Channel>, calls: seq<nat>, stop: nat, next: nat)
    requires SweptTo(before, now, calls, stop) && stop <= next
    requires forall id: nat :: stop <= id < next && id in now ==> !now[id].destructionRequested
    ensures SweptTo(before, now, calls, next)
  {
    forall id: nat | id in before && stop <= id < next
      ensures !before[id].destructionRequested
    {
      assert id in now;
    }
  }

  /** The channel at `stop` is marked for destruction, and destroying it works. */
  lemma {:induction false} RemoveNext(before: map<nat, Channel>, now: map<nat, Channel>, calls: seq<nat>, stop: nat)
    requires SweptTo(before, now, calls, stop)
    requires stop in now && now[stop].destructionRequested && !(now[stop].hasDestroy && now[stop].destroyFails)
    ensures SweptTo(before, now - {stop}, if now[stop].hasDestroy then calls + [stop] else calls, stop + 1)
  {
    assert now - {stop} == Swept(before, stop + 1);
    CallNext(before, calls, stop);
  }

  lemma {:induction false} CallNext(before: map<nat, Channel>, calls: seq<nat>, stop: nat)
    requires CallsBelow(before, calls, stop)
    ensures CallsBelow(before, if Destroys(before, stop) then calls + [stop] else calls, stop + 1)
  {
    var more := if Destroys(before, stop) then calls + [stop] else calls;
    forall i, j | 0 <= i < j < |more|
      ensures more[i] < more[j]
    {
      assert more[i] in calls;
    }
    forall id: nat
      ensures id in more <==> Destroys(before, id) && id < stop + 1
    {
    }
  }

  /** The channel at `stop` is marked for destruction, and destroying it fails. */
  lemma {:induction false} StopHere(before: map<nat, Channel>, now: map<nat, Channel>, calls: seq<nat>, stop: nat)
    requires SweptTo(before, now, calls, stop)
    requires stop in now && now[stop].destructionRequested && now[stop].hasDestroy && now[stop].destroyFails
    ensures StoppedAt(before, now, calls + [stop], stop)
  {
    CallNext(before, calls, stop);
  }

  lemma {:induction false} SlotShows(subtables: map<nat, Subtable>, channels: map<nat, Channel>, a: nat, j: nat)
    requires Shows(subtables, channels) && a in subtables && j < SEGMENT
    ensures |subtables[a]| == SEGMENT && InTable(64 * a + j)
    ensures subtables[a][j] == if 64 * a + j in channels then Some(channels[64 * a + j]) else None
    ensures subtables[a][j].Some? ==> subtables[a][j].value.id == 64 * a + j
  {
    assert Slot(subtables, 64 * a + j) == subtables[a][j];
  }

  /** No channel is left in a subtable that is gone, or behind its last slot. */
  lemma {:induction false} NothingLeft(subtables: map<nat, Subtable>, channels: map<nat, Channel>, a: nat, j: nat)
    requires Shows(subtables, channels) && (a !in subtables || j == SEGMENT)
    ensures forall id: nat :: 64 * a + j <= id < 64 * (a + 1) ==> id !in channels
  {
    forall id: nat | 64 * a + j <= id < 64 * (a + 1)
      ensures id !in channels
    {
      assert id / 64 == a;
      assert Slot(subtables, id).None?;
    }
  }

  class ChannelsTable {
    var subtables: map<nat, Subtable>
    var destructionPending: bool
    ghost var channels: map<nat, Channel>   // the table as a plain map
    ghost var destroyCalls: seq<nat>        // channels whose command destructor was called by sweeps

    ghost predicate Valid()
      reads this
    {
      Shows(subtables, channels)
    }

    constructor ()
      ensures Valid() && channels == map[] && !destructionPending && destroyCalls == []
    {
      subtables, destructionPending, channels, destroyCalls := map[], false, map[], [];
    }

    method GetChannel(id: nat) returns (channel: Option<Channel>)
      requires Valid() && InTable(id)
      ensures channel == if id in channels then Some(channels[id]) else None
    {
      assert Slot(subtables, id) == if id in channels then Some(channels[id]) else None;
      if id / 64 !in subtables {
        return None;
      }
      return subtables[id / 64][id % 64];
    }

    /** `subtableAvailable` tells whether a subtable could be allocated, should one be needed. */
    method PutChannel(channel: Channel, subtableAvailable: bool) returns (ok: bool)
      requires Valid() && InTable(channel.id)
      modifies `subtables, `channels
      ensures Valid()
      ensures ok <==> !destructionPending && channel.id !in old(channels) &&
                      (subtableAvailable || exists id :: id in old(channels) && id / 64 == channel.id / 64)
      ensures channels == if ok then old(channels)[channel.id := channel] else old(channels)
    {
      if destructionPending {
        return false;
      }
      var a, j := channel.id / 64, channel.id % 64;
      SubtableHoldsChannel(subtables, channels, a);
      var subtable := EMPTY_SUBTABLE;
      if a in subtables {
        subtable := subtables[a];
      } else if !subtableAvailable {
        return false;
      }
      assert Slot(subtables, channel.id) == if channel.id in channels then Some(channels[channel.id]) else None;
      if subtable[j] != None {
        return false;
      }
      PutShows(subtables, channels, subtable, channel);
      subtables := subtables[a := subtable[j := Some(channel)]];
      channels := channels[channel.id := channel];
      return true;
    }

    method PopChannel(id: nat) returns (channel: Option<Channel>)
      requires Valid() && InTable(id)
      modifies `subtables, `channels
      ensures Valid()
      ensures channel == if id in old(channels) then Some(old(channels)[id]) else None
      ensures channels == old(channels) - {id}
    {
      var a, j := id / 64, id % 64;
      assert Slot(subtables, id) == if id in channels then Some(channels[id]) else None;
      if a !in subtables {
        return None;
      }
      channel := subtables[a][j];
      var subtable := subtables[a][j := None];
      PopShows(subtables, channels, id);
      var empty := true;
      for i := 0 to SEGMENT
        invariant empty && forall k :: 0 <= k < i ==> subtable[k] == None
      {
        if subtable[i] != None {
          empty := false;
          break;
        }
      }
      if empty {
        subtables := subtables - {a};
      } else {
        subtables := subtables[a := subtable];
      }
      channels := channels - {id};
    }

    /** Marks a channel, if there is one, as to be destroyed by the next sweep. */
    method RequestDestruction(id: nat)
      requires Valid() && InTable(id)
      modifies `subtables, `channels
      ensures Valid()
      ensures channels == if id in old(channels)
                          then old(channels)[id := old(channels)[id].(destructionRequested := true)] else old(channels)
    {
      var channel := GetChannel(id);
      if channel.None? {
        return;
      }
      var a, j := id / 64, id % 64;
      assert Slot(subtables, id) != None;
      PutShows(subtables, channels, subtables[a], channel.value.(destructionRequested := true));
      subtables := subtables[a := subtables[a][j := Some(channel.value.(destructionRequested := true))]];
      channels := channels[id := channels[id].(destructionRequested := true)];
    }

    /**
     The maintenance sweep. It removes, in order of their IDs, the channels marked for destruction, until a
     command refuses to be destroyed. Removing the last channel of a subtable frees the subtable under the
     sweep's feet.
     */
    method DestroyPendingChannels() returns (ghost stop: nat)
      requires Valid()
      modifies this
      ensures Valid() && destructionPending == old(destructionPending)
      ensures old(destroyCalls) <= destroyCalls
      ensures var calls := destroyCalls[|old(destroyCalls)|..];
              if Stuck(old(channels), stop) then StoppedAt(old(channels), channels, calls, stop)
              else SweptTo(old(channels), channels, calls, stop) && forall id :: id in old(channels) ==> id < stop
    {
      stop := 0;
      ghost var before, ran := channels, [];
      for a := 0 to NUM_SUBTABLES
        invariant Valid() && destructionPending == old(destructionPending) && destroyCalls == old(destroyCalls)
        invariant stop == 64 * a && SweptTo(before, channels, ran, stop)
      {
        var failed;
        failed, stop, ran := SweepSubtable(a, before, ran);
        if failed {
          destroyCalls := destroyCalls + ran;
          return;
        }
      }
      destroyCalls := destroyCalls + ran;
      forall id | id in before
        ensures id < stop
      {
        assert id in channels || before[id].destructionRequested;
      }
    }

    /** The part of a sweep that deals with one subtable; `ran` are the destructor calls so far. */
    method SweepSubtable(a: nat, ghost before: map<nat, Channel>, ghost ran: seq<nat>)
      returns (failed: bool, ghost stop: nat, ghost ranNow: seq<nat>)
      requires Valid() && a < NUM_SUBTABLES && SweptTo(before, channels, ran, 64 * a)
      modifies `subtables, `channels
      ensures Valid()
      ensures !failed ==> stop == 64 * (a + 1) && SweptTo(before, channels, ranNow, stop)
      ensures failed ==> StoppedAt(before, channels, ranNow, stop)
    {
      stop, ranNow := 64 * a, ran;
      var j := 0;
      while j < SEGMENT && a in subtables
        invariant 0 <= j <= SEGMENT && stop == 64 * a + j
        invariant Valid() && SweptTo(before, channels, ranNow, stop)
      {
        failed, ranNow := SweepSlot(a, j, before, ranNow);
        if failed {
          return;
        }
        j := j + 1;
        stop := stop + 1;
      }
      NothingLeft(subtables, channels, a, j);
      PassOver(before, channels, ranNow, stop, 64 * (a + 1));
      return false, 64 * (a + 1), ranNow;
    }

    /** The part of a sweep that deals with one slot of a subtable. */
    method SweepSlot(a: nat, j: nat, ghost before: map<nat, Channel>, ghost ran: seq<nat>)
      returns (failed: bool, ghost ranNow: seq<nat>)
      requires Valid() && a in subtables && j < SEGMENT && SweptTo(before, channels, ran, 64 * a + j)
      modifies `subtables, `channels
      ensures Valid()
      ensures !failed ==> SweptTo(before, channels, ranNow, 64 * a + j + 1)
      ensures failed ==> StoppedAt(before, channels, ranNow, 64 * a + j)
    {
      ranNow := ran;
      SlotShows(subtables, channels, a, j);
      var channel := subtables[a][j];
      if channel.None? || !channel.value.destructionRequested {
        PassOver(before, channels, ran, 64 * a + j, 64 * a + j + 1);
        return false, ran;
      }
      if channel.value.hasDestroy {
        ranNow := ran + [channel.value.id];
        if channel.value.destroyFails {
          StopHere(before, channels, ran, 64 * a + j);
          return true, ranNow;
        }
      }
      RemoveNext(before, channels, ran, 64 * a + j);
      var popped := PopChannel(channel.value.id);
      return false, ranNow;
    }
  }
}
