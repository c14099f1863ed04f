/**
 The send buffer of a connection: producers copy into a ring under the lock; the sender picks a chunk
 under the lock, drops the lock while the socket takes some of it, and then moves its read position on.
 */
module SendRing {
  import opened Sequences

  const SIZE: nat := 2097152
  const CHUNK_SIZE: nat := 512
  const COMPLETE_STRING: int := -34768

  datatype Error = Ok | Unspecific | Shutdown | Capacity

  /** What a connection's send side amounts to; `inFlight` is the chunk with the socket while the lock is free. */
  datatype Fifo = Fifo(accepted: string, sent: string, pending: string, inFlight: string)

  datatype Event =
    | Produce(content: string)     // a producer call
    | Pick                         // the sender picks a chunk and drops the lock
    | Delivered(n: nat)            // the socket took `n` bytes and the sender has the lock again
    | Stop                         // the sender gives up, for example because sending failed

  ghost predicate Fits(s: Fifo, content: string) {
    |content| <= SIZE - 1 - |s.pending|
  }

  /** One atomic step of a producer or of the sender. */
  ghost predicate Step(s: Fifo, e: Event, s': Fifo) {
    match e
    case Produce(content) =>
      s' == if Fits(s, content) then s.(accepted := s.accepted + content, pending := s.pending + content) else s
    case Pick =>
      && s.inFlight == "" && s'.inFlight != "" && |s'.inFlight| <= CHUNK_SIZE
      && s'.inFlight <= s.pending && s' == s.(inFlight := s'.inFlight)
    case Delivered(n) =>
      && 0 < n <= |s.inFlight|
      && s' == s.(sent := s.sent + s.inFlight[..n], pending := s.pending[Min(n, |s.pending|)..], inFlight := "")
    case Stop =>
      s' == s.(inFlight := "")
  }

  ghost predicate Run(states: seq<Fifo>, events: seq<Event>) {
    && |states| == |events| + 1
    && states[0] == Fifo("", "", "", "")
    && forall i :: 0 <= i < |events| ==> Step(states[i], events[i], states[i + 1])
  }

  /** The contents of the accepted producer calls of a run, one after the other. */
  ghost function AcceptedBytes(states: seq<Fifo>, events: seq<Event>): string
    requires |states| == |events| + 1
  {
    if events == [] then ""
    else
      var n := |events| - 1;
      AcceptedBytes(states[..n + 1], events[..n]) +
      if events[n].Produce? && Fits(states[n], events[n].content) then events[n].content else ""
  }

  lemma {:induction false} StepKeepsOrder(s: Fifo, e: Event, s': Fifo, accepted: string)
    requires Step(s, e, s') && s.accepted == accepted == s.sent + s.pending && |s.pending| < SIZE
    requires s.inFlight <= s.pending
    ensures s'.accepted == s'.sent + s'.pending
    ensures s'.accepted == accepted + if e.Produce? && Fits(s, e.content) then e.content else ""
    ensures |s'.pending| < SIZE && s'.inFlight <= s'.pending
  {
    if e.Delivered? {
      assert s.pending == s.pending[..e.n] + s.pending[e.n..];
    }
  }

  /**
   Whatever the interleaving: the socket has been given a prefix of all accepted contents, in order, and the rest is
   pending; the chunk it has is always the next part, whatever producers have added since it was picked.
   */
  lemma {:induction false} FirstInFirstOut(states: seq<Fifo>, events: seq<Event>)
    requires Run(states, events)
    ensures states[|events|].sent + states[|events|].pending == AcceptedBytes(states, events)
    ensures states[|events|].accepted == AcceptedBytes(states, events)
    ensures |states[|events|].pending| < SIZE && states[|events|].inFlight <= states[|events|].pending
  {
    if events != [] {
      var n := |events| - 1;
      assert Step(states[n], events[n], states[n + 1]);
      FirstInFirstOut(states[..n + 1], events[..n]);
      StepKeepsOrder(states[n], events[n], states[n + 1], AcceptedBytes(states[..n + 1], events[..n]));
    }
  }

  /** The bytes between read and write position, wrapped around the end of the ring. */
  ghost function Between(ring: string, read: nat, write: nat): (bytes: string)
    requires read <= |ring| && write <= |ring|
    ensures |bytes| == if read <= write then write - read else |ring| - read + write
  {
    if read <= write then ring[read..write] else ring[read..] + ring[..write]
  }

  function Min(a: int, b: int): int {
    if a < b then a else b
  }

  /** The index of the first NUL. */
  function StringLength(content: string): (n: nat)
    requires '\0' in content
    ensures n < |content| && content[n] == '\0' && '\0' !in content[..n]
  {
    if content[0] == '\0' then 0 else 1 + StringLength(content[1..])
  }

  /** A ring with some of its bytes replaced. */
  ghost function Splice(ring: string, at: nat, part: string): (spliced: string)
    requires at + |part| <= |ring|
    ensures |spliced| == |ring|
  {
    ring[..at] + part + ring[at + |part|..]
  }

  lemma {:induction false} Spliced(ring: string, at: nat, part: string)
    requires at + |part| <= |ring|
    ensures Splice(ring, at, part)[at..at + |part|] == part
  {
  }

  /** What is not replaced stays. */
  lemma {:induction false} Unspliced(ring: string, at: nat, part: string, i: nat, j: nat)
    requires at + |part| <= |ring| && i <= j <= |ring| && (j <= at || at + |part| <= i)
    ensures Splice(ring, at, part)[i..j] == ring[i..j]
  {
  }

  /** Where writing ends. */
  function EndOf(write: nat, length: nat): (end: nat)
    requires write < SIZE && length < SIZE
    ensures end < SIZE
  {
    if write + length >= SIZE then write + length - SIZE else write + length
  }

  lemma {:induction false} StraightAppends(ring: string, read: nat, write: nat, content: string)
    requires |ring| == SIZE && read < SIZE && write < SIZE && write + |content| < SIZE
    requires |content| <= SIZE - 1 - |Between(ring, read, write)|
    ensures Between(Splice(ring, write, content), read, write + |content|) == Between(ring, read, write) + content
  {
    AppendsAt(ring, read, write, content);
    if read > write {
      Regrouped(ring[read..], ring[..write], content);
    }
  }

  lemma {:induction false} AppendsAt(ring: string, read: nat, write: nat, content: string)
    requires read <= |ring| && write + |content| <= |ring|
    ensures read <= write ==> Splice(ring, write, content)[read..write + |content|] == ring[read..write] + content
    ensures write + |content| <= read ==> Splice(ring, write, content)[read..] == ring[read..]
    ensures Splice(ring, write, content)[..write + |content|] == ring[..write] + content
  {
    var after, end := Splice(ring, write, content), write + |content|;
    Spliced(ring, write, content);
    Unspliced(ring, write, content, 0, write);
    Joined(after, 0, write, end);
    if read <= write {
      Unspliced(ring, write, content, read, write);
      Joined(after, read, write, end);
    } else if end <= read {
      Unspliced(ring, write, content, read, |ring|);
    }
  }

  lemma {:induction false} FrontReachesEnd(ring: string, read: nat, write: nat, front: string)
    requires read <= write && write + |front| == |ring|
    ensures Splice(ring, write, front)[read..] == ring[read..write] + front
  {
    assert Splice(ring, write, front) == ring[..write] + front;
  }

  lemma {:induction false} BackAtStart(ring: string, back: string, read: nat)
    requires |back| < read <= |ring|
    ensures Splice(ring, 0, back)[read..] == ring[read..] && Splice(ring, 0, back)[..|back|] == back
  {
    assert Splice(ring, 0, back) == back + ring[|back|..];
  }

  /** Two copies that reach the end of the ring and wrap around. */
  lemma {:induction false} WrappedAppends(ring: string, read: nat, write: nat, front: string, back: string)
    requires |back| < read <= write && write + |front| == |ring|
    ensures Between(Splice(Splice(ring, write, front), 0, back), read, |back|) ==
            Between(ring, read, write) + (front + back)
  {
    FrontReachesEnd(ring, read, write, front);
    BackAtStart(Splice(ring, write, front), back, read);
    Regrouped(ring[read..write], front, back);
  }

  lemma {:induction false} NothingSpliced(ring: string)
    ensures Splice(ring, 0, "") == ring
  {
  }

  /** The ring after copying `content` in two parts, up to the end of the ring and from its start. */
  ghost function Copied(ring: string, write: nat, content: string): (after: string)
    requires |ring| == SIZE && write < SIZE && |content| < SIZE
    ensures |after| == SIZE
  {
    var split := Min(SIZE - write, |content|);
    Splice(Splice(ring, write, content[..split]), 0, content[split..])
  }

  lemma {:induction false} CopiedAtOnce(ring: string, write: nat, content: string)
    requires |ring| == SIZE && write < SIZE && write + |content| <= SIZE && |content| < SIZE
    ensures Copied(ring, write, content) == Splice(ring, write, content)
  {
    assert content[..|content|] == content && content[|content|..] == "";
    NothingSpliced(Splice(ring, write, content));
  }

  lemma {:induction false} CopyAppends(ring: string, read: nat, write: nat, content: string)
    requires |ring| == SIZE && read < SIZE && write < SIZE
    requires |content| <= SIZE - 1 - |Between(ring, read, write)|
    ensures Between(Copied(ring, write, content), read, EndOf(write, |content|)) == Between(ring, read, write) + content
  {
    if write + |content| < SIZE {
      CopiedAtOnce(ring, write, content);
      StraightAppends(ring, read, write, content);
    } else {
      var split := SIZE - write;
      WrappedAppends(ring, read, write, content[..split], content[split..]);
      Joined(content, 0, split, |content|);
    }
  }

  /** Copying leaves pending bytes alone. */
  lemma {:induction false} CopyKeeps(ring: string, read: nat, write: nat, content: string, n: nat)
    requires |ring| == SIZE && read < SIZE && write < SIZE
    requires |content| <= SIZE - 1 - |Between(ring, read, write)|
    requires n <= if read <= write then write - read else SIZE - read
    ensures Copied(ring, write, content)[read..read + n] == ring[read..read + n]
  {
    var split := Min(SIZE - write, |content|);
    var first := Splice(ring, write, content[..split]);
    Unspliced(ring, write, content[..split], read, read + n);
    if content[split..] == "" {
      NothingSpliced(first);
    } else {
      Unspliced(first, 0, content[split..], read, read + n);
    }
  }

  /** Moving the read position on drops the first pending bytes. */
  lemma {:induction false} ReadFurther(ring: string, read: nat, write: nat, inFlight: nat, n: nat)
    requires |ring| == SIZE && read < SIZE && write < SIZE && 0 < n <= inFlight
    requires inFlight <= if read <= write then write - read else SIZE - read
    ensures Between(ring, EndOf(read, n), write) == Between(ring, read, write)[n..]
  {
    if read <= write {
      DropSlice(ring, read, write, n);
    } else {
      DropSlice(ring, read, SIZE, n);
      DropFromFirst(ring[read..], ring[..write], n);
      NothingBefore(ring[..write]);
    }
  }

  lemma {:induction false} NothingInFlight(ring: string, read: nat)
    requires read <= |ring|
    ensures ring[read..read] == ""
  {
  }

  /** A buffer to which a producer has added `content`; the chunk stays as it is. */
  lemma {:induction false} ProducedStep(s: Fifo, ring: string, read: nat, write: nat, inFlight: nat, content: string)
    requires |ring| == SIZE && read < SIZE && write < SIZE
    requires inFlight <= if read <= write then write - read else SIZE - read
    requires s.pending == Between(ring, read, write) && s.inFlight == ring[read..read + inFlight] && Fits(s, content)
    ensures var (after, end) := (Copied(ring, write, content), EndOf(write, |content|));
            && after[read..read + inFlight] == s.inFlight
            && inFlight <= (if read <= end then end - read else SIZE - read)
            && Step(s, Produce(content), Fifo(s.accepted + content, s.sent, Between(after, read, end), s.inFlight))
  {
    CopyAppends(ring, read, write, content);
    CopyKeeps(ring, read, write, content, inFlight);
  }

  /** A buffer of which the socket has taken the first `n` bytes of the chunk. */
  lemma {:induction false} DeliveredStep(s: Fifo, ring: string, read: nat, write: nat, inFlight: nat, n: nat)
    requires |ring| == SIZE && read < SIZE && write < SIZE && 0 < n <= inFlight
    requires inFlight <= if read <= write then write - read else SIZE - read
    requires s.pending == Between(ring, read, write) && s.inFlight == ring[read..read + inFlight]
    ensures read + n <= SIZE && EndOf(read, n) == if read + n >= SIZE then 0 else read + n
    ensures var next := EndOf(read, n);
            var sent := s.sent + s.inFlight[..n];
            Step(s, Delivered(n), Fifo(s.accepted, sent, Between(ring, next, write), ring[next..next]))
  {
    ReadFurther(ring, read, write, inFlight, n);
    NothingInFlight(ring, EndOf(read, n));
  }

  lemma {:induction false} DropSlice(ring: string, i: nat, j: nat, n: nat)
    requires i + n <= j <= |ring|
    ensures ring[i..j][n..] == ring[i + n..j] && (j == |ring| ==> ring[i..j] == ring[i..])
  {
  }

  lemma {:induction false} DropFromFirst(a: string, b: string, n: nat)
    requires n <= |a|
    ensures (a + b)[n..] == a[n..] + b
  {
  }

  class Connection {
    const ring: array<char>
    var readPos: nat
    var writePos: nat
    var shutdown: bool
    var inFlight: nat            // bytes handed to the socket while the lock is free, 0 if the lock is held
    ghost var accepted: string   // everything accepted from producers
    ghost var sent: string       // everything taken by the socket

    ghost predicate Valid()
      reads this, ring
    {
      && ring.Length == SIZE
      && readPos < SIZE
      && writePos < SIZE
      && inFlight <= Contiguous()
    }

    /** How many pending bytes can be sent without wrapping around. */
    function Contiguous(): nat
      reads this
      requires readPos < SIZE && writePos < SIZE
    {
      if readPos <= writePos then writePos - readPos else SIZE - readPos
    }

    ghost function State(): Fifo
      reads this, ring
      requires Valid()
    {
      Fifo(accepted, sent, Between(ring[..], readPos, writePos), Chunk())
    }

    /** The bytes that are with the socket. */
    ghost function Chunk(): (chunk: string)
      reads this, ring
      requires Valid()
      ensures |chunk| == inFlight
    {
      ring[..][readPos..readPos + inFlight]
    }

    constructor ()
      ensures Valid() && fresh(ring) && !shutdown && State() == Fifo("", "", "", "")
    {
      ring := new char[SIZE](_ => '\0');
      readPos, writePos, shutdown, inFlight, accepted, sent := 0, 0, false, 0, "", "";
    }

    /** How many more bytes fit; one place always stays free. */
    method FreeCapacity() returns (capacity: nat)
      requires Valid()
      ensures capacity == SIZE - 1 - |State().pending|
    {
      if readPos > writePos {
        capacity := readPos - writePos - 1;
      } else if readPos == writePos {
        capacity := SIZE - 1;
      } else {
        capacity := SIZE - writePos + readPos - 1;
      }
    }

    /** A producer call. The bytes that are with the socket stay as they are. */
    method SendToNetwork(content: string, length: int) returns (err: Error)
      requires Valid()
      requires if length == COMPLETE_STRING then '\0' in content else length <= |content|
      modifies ring, `writePos, `accepted
      ensures Valid()
      ensures err == Shutdown <==> shutdown
      ensures err == Unspecific <==> !shutdown && length < 0 && length != COMPLETE_STRING
      ensures err == Ok || err == Capacity ==>
                var n := if length == COMPLETE_STRING then StringLength(content) else length;
                && Step(old(State()), Produce(content[..n]), State())
                && (err == Ok <==> Fits(old(State()), content[..n]))
      ensures err != Ok ==> State() == old(State())
      ensures Chunk() == old(Chunk())
    {
      if shutdown {
        return Shutdown;
      }
      var n := length;
      if n == COMPLETE_STRING {
        n := StringLength(content);
      }
      if n < 0 {
        return Unspecific;
      }

      var fits := Accept(content[..n]);
      err := if fits then Ok else Capacity;
    }

    /** Copies bytes if they fit. */
    method Accept(content: string) returns (fits: bool)
      requires Valid()
      modifies ring, `writePos, `accepted
      ensures Valid() && Step(old(State()), Produce(content), State())
      ensures fits == Fits(old(State()), content) && (!fits ==> State() == old(State()))
      ensures Chunk() == old(Chunk())
    {
      var capacity := FreeCapacity();
      fits := |content| <= capacity;
      if fits {
        Copy(content);
      }
    }

    /** Copies bytes into the ring. */
    method Store(at: nat, part: string)
      requires at + |part| <= ring.Length
      modifies ring
      ensures ring[..] == Splice(old(ring[..]), at, part)
    {
      forall k | 0 <= k < |part| {
        ring[at + k] := part[k];
      }
    }

    /** The copying part of a producer call. */
    method Copy(content: string)
      requires Valid() && Fits(State(), content)
      modifies ring, `writePos, `accepted
      ensures Valid() && Step(old(State()), Produce(content), State())
      ensures Chunk() == old(Chunk())
    {
      ProducedStep(State(), ring[..], readPos, writePos, inFlight, content);
      StoreBoth(content);
      accepted := accepted + content;
    }

    /** Copies up to the end of the ring and then from its start, and moves the write position on. */
    method StoreBoth(content: string)
      requires ring.Length == SIZE && writePos < SIZE && |content| < SIZE
      modifies ring, `writePos
      ensures ring[..] == old(Copied(ring[..], writePos, content)) && writePos == old(EndOf(writePos, |content|))
    {
      var toEnd := Min(SIZE - writePos, |content|);
      Store(writePos, content[..toEnd]);
      writePos := writePos + toEnd;
      if writePos >= SIZE {
        writePos := 0;
      }
      var atStart := |content| - toEnd;
      Store(0, content[toEnd..]);
      writePos := writePos + atStart;
    }

    /** The sender, holding the lock, picks a chunk; false if there is nothing to send. */
    method PickChunk() returns (picked: bool)
      requires Valid() && inFlight == 0
      modifies `inFlight
      ensures Valid()
      ensures picked <==> old(State()).pending != ""
      ensures picked ==> Step(old(State()), Pick, State()) && inFlight == Min(Contiguous(), CHUNK_SIZE)
      ensures !picked ==> State() == old(State())
    {
      if readPos == writePos {
        return false;
      }
      var pending := 0;
      if readPos < writePos {
        pending := writePos - readPos;
      } else {
        pending := SIZE - readPos;
      }
      inFlight := Min(pending, CHUNK_SIZE);
      return true;
    }

    /** The socket took the first `n` bytes of the chunk, and the sender has the lock again. */
    method ChunkSent(n: nat)
      requires Valid() && 0 < n <= inFlight
      modifies `readPos, `inFlight, `sent
      ensures Valid() && Step(old(State()), Delivered(n), State())
      ensures sent == old(sent) + old(Chunk())[..n]
    {
      DeliveredStep(State(), ring[..], readPos, writePos, inFlight, n);
      sent := sent + Chunk()[..n];
      inFlight := 0;
      readPos := readPos + n;
      if readPos >= SIZE {
        readPos := 0;
      }
    }

    /** Sending failed: the sender thread ends. */
    method SenderStops()
      requires Valid()
      modifies `inFlight
      ensures Valid() && Step(old(State()), Stop, State())
    {
      inFlight := 0;
    }
  }
}
