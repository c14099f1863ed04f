/**
 The block-preallocated list seen as a plain sequence of cells: one cell for every physical slot that
 has ever been handed out, in physical order. The class in PreallocList refines these functions.
 */
module PreallocCells {
  import opened Wrappers

  /** A value reference; the list never looks behind it. */
  datatype Pointer = Null | At(address: nat)

  datatype Status = Pristine | InUse | Deleted

  /** A value destructor (a function pointer), known by its identity only. */
  datatype Destructor = Destructor(id: nat)

  /** One destructor invocation; the value pointer handed over may be NULL. */
  datatype Call = Call(destructor: Destructor, value: Pointer)

  datatype Cell = Cell(status: Status, value: Pointer, destructor: Option<Destructor>)

  /** The positions of the cells in use, in order. */
  ghost function LiveAt(cells: seq<Cell>): (order: seq<nat>)
  {
    if cells == [] then []
    else
      var n := |cells| - 1;
      LiveAt(cells[..n]) + (if cells[n].status == InUse then [n] else [])
  }

  /** The logical list: the values of the cells in use, in order. */
  ghost function Live(cells: seq<Cell>): (values: seq<Pointer>)
  {
    if cells == [] then []
    else
      var n := |cells| - 1;
      Live(cells[..n]) + (if cells[n].status == InUse then [cells[n].value] else [])
  }

  /** What deletion leaves behind in a cell. */
  function Punched(c: Cell, destructor: Option<Destructor>, deferred: bool): Cell {
    if deferred then Cell(Deleted, c.value, destructor) else Cell(Deleted, Null, c.destructor)
  }

  /** The destructor selected for a cell during compaction, if any. */
  function Selected(c: Cell, destructor: Option<Destructor>, overrideDeferred: bool): Option<Destructor> {
    if c.status != Deleted || c.value == Null then None
    else if c.destructor.Some? && !overrideDeferred then c.destructor
    else destructor
  }

  /** All destructor calls of a compaction, in physical order. */
  ghost function CompactionCalls(cells: seq<Cell>, destructor: Option<Destructor>, overrideDeferred: bool)
    : (calls: seq<Call>)
  {
    if cells == [] then []
    else
      var n := |cells| - 1;
      var d := Selected(cells[n], destructor, overrideDeferred);
      CompactionCalls(cells[..n], destructor, overrideDeferred) +
      (if d.Some? then [Call(d.value, cells[n].value)] else [])
  }

  /** The cells after a compaction: the live values, packed. */
  ghost function Packed(cells: seq<Cell>): (packed: seq<Cell>)
    ensures |packed| == |Live(cells)|
  {
    seq(|Live(cells)|, i requires 0 <= i < |Live(cells)| => Cell(InUse, Live(cells)[i], None))
  }

  /** The live positions are those of cells in use, and carry the logical list. */
  lemma {:induction false} LiveAtMeaning(cells: seq<Cell>)
    ensures |Live(cells)| == |LiveAt(cells)|
    ensures forall k :: 0 <= k < |LiveAt(cells)| ==>
              LiveAt(cells)[k] < |cells| && cells[LiveAt(cells)[k]].status == InUse &&
              Live(cells)[k] == cells[LiveAt(cells)[k]].value
  {
    if cells != [] {
      LiveAtMeaning(cells[..|cells| - 1]);
    }
  }

  /** The live positions ascend, so none occurs twice. */
  lemma {:induction false} LiveAtAscends(cells: seq<Cell>, k: nat, l: nat)
    requires k < l < |LiveAt(cells)|
    ensures LiveAt(cells)[k] < LiveAt(cells)[l] < |cells|
  {
    var rest := cells[..|cells| - 1];
    if l < |LiveAt(rest)| {
      LiveAtAscends(rest, k, l);
    } else {
      LiveAtMeaning(rest);
    }
  }

  /** Every cell in use is among the live positions. */
  lemma {:induction false} LiveAtFinds(cells: seq<Cell>, p: nat) returns (k: nat)
    requires p < |cells| && cells[p].status == InUse
    ensures k < |LiveAt(cells)| && LiveAt(cells)[k] == p
  {
    if p == |cells| - 1 {
      k := |LiveAt(cells)| - 1;
    } else {
      k := LiveAtFinds(cells[..|cells| - 1], p);
    }
  }

  lemma {:induction false} NothingLive(cells: seq<Cell>)
    requires forall p :: 0 <= p < |cells| ==> cells[p].status != InUse
    ensures LiveAt(cells) == [] && Live(cells) == []
  {
    if cells != [] {
      NothingLive(cells[..|cells| - 1]);
    }
  }

  /** Cells that are not in use do not show in the logical list. */
  lemma {:induction false} LiveTrailing(cells: seq<Cell>, more: seq<Cell>)
    requires forall p :: 0 <= p < |more| ==> more[p].status != InUse
    ensures LiveAt(cells + more) == LiveAt(cells) && Live(cells + more) == Live(cells)
  {
    if more == [] {
      assert cells + more == cells;
    } else {
      LiveTrailing(cells, more[..|more| - 1]);
      assert (cells + more)[..|cells + more| - 1] == cells + more[..|more| - 1];
    }
  }

  /** Handing out cell `n`, after which nothing is in use, appends to the logical list. */
  lemma {:induction false} LiveAppend(cells: seq<Cell>, n: nat, value: Pointer)
    requires n < |cells| && forall p :: n <= p < |cells| ==> cells[p].status != InUse
    ensures LiveAt(cells[n := Cell(InUse, value, None)]) == LiveAt(cells) + [n]
    ensures Live(cells[n := Cell(InUse, value, None)]) == Live(cells) + [value]
  {
    var (front, c) := (cells[..n], Cell(InUse, value, None));
    Parted(cells, n, c);
    LiveTrailing(front, cells[n..]);
    LiveTrailing(front + [c], cells[n + 1..]);
    LiveOfOneMore(front, c);
  }

  lemma {:induction false} Parted(cells: seq<Cell>, n: nat, c: Cell)
    requires n < |cells|
    ensures cells == cells[..n] + cells[n..] && cells[n := c] == cells[..n] + [c] + cells[n + 1..]
  {
  }

  lemma {:induction false} LiveOfOneMore(cells: seq<Cell>, c: Cell)
    requires c.status == InUse
    ensures LiveAt(cells + [c]) == LiveAt(cells) + [|cells|] && Live(cells + [c]) == Live(cells) + [c.value]
  {
    assert (cells + [c])[..|cells|] == cells;
  }

  /** Taking the k-th live cell out of use removes exactly the k-th element of the logical list. */
  lemma {:induction false} LiveRemove(cells: seq<Cell>, k: nat, c: Cell)
    requires k < |LiveAt(cells)| && LiveAt(cells)[k] < |cells|
    requires c.status != InUse
    ensures |Live(cells)| == |LiveAt(cells)|
    ensures LiveAt(cells[LiveAt(cells)[k] := c]) == LiveAt(cells)[..k] + LiveAt(cells)[k + 1..]
    ensures Live(cells[LiveAt(cells)[k] := c]) == Live(cells)[..k] + Live(cells)[k + 1..]
  {
    LiveAtMeaning(cells);
    var n := |cells| - 1;
    var p := LiveAt(cells)[k];
    var rest := cells[..n];
    var after := cells[p := c];
    LiveAtMeaning(rest);
    if p == n {
      assert after[..n] == rest;
    } else {
      LiveRemove(rest, k, c);
      assert after[..n] == rest[p := c];
    }
  }

  /** Packing keeps the logical list and leaves nothing deleted. */
  lemma {:induction false} PackedKeepsLive(cells: seq<Cell>)
    ensures Live(Packed(cells)) == Live(cells)
    ensures forall c :: c in Packed(cells) ==> c.status == InUse
  {
    AllInUse(Packed(cells));
    assert forall i :: 0 <= i < |Live(cells)| ==> Packed(cells)[i].value == Live(cells)[i];
  }

  lemma {:induction false} AllInUse(cells: seq<Cell>)
    requires forall i :: 0 <= i < |cells| ==> cells[i].status == InUse
    ensures |LiveAt(cells)| == |Live(cells)| == |cells|
    ensures forall i :: 0 <= i < |cells| ==> LiveAt(cells)[i] == i && Live(cells)[i] == cells[i].value
  {
    if cells != [] {
      AllInUse(cells[..|cells| - 1]);
    }
  }

  lemma {:induction false} NoCompactionCalls(cells: seq<Cell>, destructor: Option<Destructor>, overrideDeferred: bool)
    requires forall p :: 0 <= p < |cells| ==> cells[p].status != Deleted
    ensures CompactionCalls(cells, destructor, overrideDeferred) == []
  {
    if cells != [] {
      NoCompactionCalls(cells[..|cells| - 1], destructor, overrideDeferred);
    }
  }

  /** How often `call` is due for one cell: at most once, and never for a cell that survives. */
  ghost function Due(c: Cell, destructor: Option<Destructor>, overrideDeferred: bool, call: Call): nat {
    if Selected(c, destructor, overrideDeferred) == Some(call.destructor) && c.value == call.value then 1 else 0
  }

  ghost function DueTotal(cells: seq<Cell>, destructor: Option<Destructor>, overrideDeferred: bool, call: Call): nat {
    if cells == [] then 0
    else
      DueTotal(cells[..|cells| - 1], destructor, overrideDeferred, call) +
      Due(cells[|cells| - 1], destructor, overrideDeferred, call)
  }

  /** Every selected destructor runs exactly once per deleted, non-null cell, and nothing else runs. */
  lemma {:induction false} CompactionCallsOnce(
    cells: seq<Cell>, destructor: Option<Destructor>, overrideDeferred: bool, call: Call)
    ensures multiset(CompactionCalls(cells, destructor, overrideDeferred))[call] ==
            DueTotal(cells, destructor, overrideDeferred, call)
  {
    if cells != [] {
      CompactionCallsOnce(cells[..|cells| - 1], destructor, overrideDeferred, call);
    }
  }
}
