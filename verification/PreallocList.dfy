/**
 The structurally pre-allocated list: fixed-size blocks of items, with a doubly linked chain threaded
 through the items in use. An item's address is its position in the list's storage.
 */
module PreallocList {
  import opened PreallocCells
  import opened Wrappers

  const BLOCK_SIZE: nat := 5

  /** A link to an item, or NULL. */
  datatype Link = NoItem | ItemAt(pos: nat)

  datatype Item = Item(status: Status, value: Pointer, destructor: Option<Destructor>, prev: Link, next: Link)

  const UNTOUCHED := Item(Pristine, Null, None, NoItem, NoItem)

  const EMPTY_BLOCK := [UNTOUCHED, UNTOUCHED, UNTOUCHED, UNTOUCHED, UNTOUCHED]

  /** The list root together with the memory of its blocks; block `b` owns the items from `BLOCK_SIZE * b` on. */
  datatype Root = Root(
    size: nat,
    dirty: bool,
    first: Link,
    last: Link,
    firstPristine: seq<nat>,   // one entry per block
    items: seq<Item>)
  {
    /** How many items of the blocks have been handed out; all blocks but the last are used up. */
    ghost function Used(): nat
      requires firstPristine != []
    {
      BLOCK_SIZE * (|firstPristine| - 1) + firstPristine[|firstPristine| - 1]
    }

    /** Exactly the items handed out are not pristine. */
    ghost predicate Storage() {
      && firstPristine != []
      && |items| == BLOCK_SIZE * |firstPristine|
      && (forall b :: 0 <= b < |firstPristine| ==> firstPristine[b] <= BLOCK_SIZE)
      && (forall b :: 0 <= b < |firstPristine| - 1 ==> firstPristine[b] == BLOCK_SIZE)
      && (forall p :: 0 <= p < |items| ==> Fits(items[p], p < Used()))
    }

    ghost function Cells(): (cells: seq<Cell>)
      ensures |cells| == |items|
    {
      seq(|items|, p requires 0 <= p < |items| => Cell(items[p].status, items[p].value, items[p].destructor))
    }

    /** The positions of the items in use, in list order. */
    ghost function Order(): seq<nat> {
      LiveAt(Cells())
    }

    /** The list of values. */
    ghost function Values(): seq<Pointer> {
      Live(Cells())
    }

    ghost predicate HasDeleted() {
      exists p :: 0 <= p < |items| && items[p].status == Deleted
    }

    ghost predicate Consistent() {
      && Storage()
      && Linked(items, Order())
      && size == |Order()|
      && first == LinkTo(Order(), 0)
      && last == LinkTo(Order(), size - 1)
      && (dirty <==> HasDeleted())
    }
  }

  ghost predicate Fits(item: Item, used: bool) {
    if used then item.status != Pristine && (item.status == InUse ==> item.destructor == None) else item == UNTOUCHED
  }

  /** The items at the positions in `order` are linked to each other, in that order, in both directions. */
  ghost predicate Linked(items: seq<Item>, order: seq<nat>) {
    && (forall k :: 0 <= k < |order| ==> order[k] < |items|)
    && (forall k {:trigger items[order[k]]} :: 0 <= k < |order| ==>
          items[order[k]].next == LinkTo(order, k + 1) && items[order[k]].prev == LinkTo(order, k - 1))
  }

  ghost function LinkTo(order: seq<nat>, k: int): Link {
    if 0 <= k < |order| then ItemAt(order[k]) else NoItem
  }

  lemma {:induction false} GrowStorage(root: Root, grown: Root)
    requires root.Storage() && root.firstPristine[|root.firstPristine| - 1] == BLOCK_SIZE
    requires grown.firstPristine == root.firstPristine + [0] && grown.items == root.items + EMPTY_BLOCK
    ensures grown.Storage() && grown.Used() == root.Used() == |root.items|
    ensures grown.Cells() == root.Cells() + seq(BLOCK_SIZE, _ => Cell(Pristine, Null, None))
    ensures grown.HasDeleted() <==> root.HasDeleted()
  {
    assert forall p :: 0 <= p < |root.items| ==> grown.items[p] == root.items[p];
  }

  /** A further block changes nothing that the list shows. */
  lemma {:induction false} GrowKeeps(root: Root, grown: Root)
    requires root.Consistent() && root.firstPristine[|root.firstPristine| - 1] == BLOCK_SIZE
    requires grown == root.(firstPristine := root.firstPristine + [0], items := root.items + EMPTY_BLOCK)
    ensures grown.Consistent() && grown.Used() == root.Used() == |root.items|
    ensures grown.Cells()[..|root.items|] == root.Cells()
    ensures grown.Order() == root.Order() && grown.Values() == root.Values()
  {
    GrowStorage(root, grown);
    LiveTrailing(root.Cells(), seq(BLOCK_SIZE, _ => Cell(Pristine, Null, None)));
  }

  /** The items once `item` has been filled and linked behind `last`. */
  ghost function Appended(items: seq<Item>, item: nat, value: Pointer, last: Link): (after: seq<Item>)
    requires item < |items| && (last.ItemAt? ==> last.pos < |items|)
    ensures |after| == |items|
  {
    var filled := items[item := Item(InUse, value, None, last, NoItem)];
    if last.ItemAt? then filled[last.pos := filled[last.pos].(next := ItemAt(item))] else filled
  }

  /** Filling a pristine item, linking it to its predecessor, and linking that to it. */
  lemma {:induction false} AppendedInSteps(items: seq<Item>, item: nat, value: Pointer, last: Link)
    requires item < |items| && items[item] == UNTOUCHED && (last.ItemAt? ==> last.pos < |items|)
    ensures var filled := items[item := items[item].(status := InUse, value := value)];
            var linked := filled[item := filled[item].(prev := last)];
            Appended(items, item, value, last) ==
            if last != NoItem then linked[last.pos := linked[last.pos].(next := ItemAt(item))] else linked
  {
    var filled := items[item := items[item].(status := InUse, value := value)];
    assert filled[item := filled[item].(prev := last)] == items[item := Item(InUse, value, None, last, NoItem)];
  }

  lemma {:induction false} AppendLinks(items: seq<Item>, order: seq<nat>, item: nat, value: Pointer)
    requires Linked(items, order)
    requires item < |items| && forall k :: 0 <= k < |order| ==> order[k] < item
    requires forall k :: 0 <= k < |order| - 1 ==> order[k] < order[|order| - 1]
    ensures Linked(Appended(items, item, value, LinkTo(order, |order| - 1)), order + [item])
  {
    var chain := order + [item];
    var after := Appended(items, item, value, LinkTo(order, |order| - 1));
    forall k | 0 <= k < |chain|
      ensures after[chain[k]].next == LinkTo(chain, k + 1)
      ensures after[chain[k]].prev == LinkTo(chain, k - 1)
    {
      if k < |order| {
        assert after[order[k]].prev == items[order[k]].prev;
      }
    }
  }

  /** Live positions come before the first pristine item, and the last of them is no other's. */
  lemma {:induction false} LiveIsUsed(root: Root)
    requires root.Storage()
    ensures forall k :: 0 <= k < |root.Order()| ==> root.Order()[k] < root.Used()
    ensures forall k :: 0 <= k < |root.Order()| - 1 ==> root.Order()[k] < root.Order()[|root.Order()| - 1]
    ensures forall p :: root.Used() <= p < |root.items| ==> root.Cells()[p].status == Pristine
  {
    LiveAtMeaning(root.Cells());
    forall k | 0 <= k < |root.Order()|
      ensures root.Order()[k] < root.Used()
    {
      assert root.Cells()[root.Order()[k]].status == InUse;
    }
    forall k | 0 <= k < |root.Order()| - 1
      ensures root.Order()[k] < root.Order()[|root.Order()| - 1]
    {
      LiveAtAscends(root.Cells(), k, |root.Order()| - 1);
    }
  }

  lemma {:induction false} LastIsUsed(root: Root)
    requires root.Consistent()
    ensures root.last.ItemAt? ==> root.last.pos < root.Used()
  {
    LiveIsUsed(root);
    assert root.size > 0 ==> root.Order()[root.size - 1] < root.Used();
  }

  /** `after` is what appending `value` makes of `root`. */
  ghost predicate IsAppended(root: Root, after: Root, value: Pointer)
    requires root.firstPristine != [] && root.Used() < |root.items|
    requires root.last.ItemAt? ==> root.last.pos < root.Used()
  {
    var n, item := |root.firstPristine| - 1, root.Used();
    && after.size == root.size + 1
    && after.dirty == root.dirty
    && after.first == (if root.first == NoItem then ItemAt(item) else root.first)
    && after.last == ItemAt(item)
    && after.firstPristine == root.firstPristine[n := root.firstPristine[n] + 1]
    && after.items == Appended(root.items, item, value, root.last)
  }

  lemma {:induction false} AppendStorage(root: Root, after: Root, value: Pointer)
    requires root.Storage() && root.Used() < |root.items|
    requires root.last.ItemAt? ==> root.last.pos < root.Used()
    requires IsAppended(root, after, value)
    ensures after.Storage() && after.Used() == root.Used() + 1
    ensures after.Cells() == root.Cells()[root.Used() := Cell(InUse, value, None)]
    ensures after.HasDeleted() <==> root.HasDeleted()
  {
    assert forall p :: 0 <= p < |root.items| ==>
             (after.items[p].status == Deleted <==> root.items[p].status == Deleted);
  }

  lemma {:induction false} AppendKeeps(root: Root, after: Root, value: Pointer)
    requires root.Consistent() && root.Used() < |root.items|
    requires root.last.ItemAt? ==> root.last.pos < root.Used()
    requires IsAppended(root, after, value)
    ensures after.Consistent() && after.Used() == root.Used() + 1
    ensures after.Order() == root.Order() + [root.Used()]
    ensures after.Values() == root.Values() + [value]
    ensures after.Cells()[..root.Used() + 1] == root.Cells()[..root.Used()] + [Cell(InUse, value, None)]
  {
    LiveIsUsed(root);
    AppendLinks(root.items, root.Order(), root.Used(), value);
    AppendStorage(root, after, value);
    AppendedLive(root, after, value);
  }

  lemma {:induction false} AppendedLive(root: Root, after: Root, value: Pointer)
    requires root.Storage() && root.Used() < |root.items|
    requires after.Cells() == root.Cells()[root.Used() := Cell(InUse, value, None)]
    ensures after.Order() == root.Order() + [root.Used()] && after.Values() == root.Values() + [value]
    ensures after.Cells()[..root.Used() + 1] == root.Cells()[..root.Used()] + [Cell(InUse, value, None)]
  {
    LiveIsUsed(root);
    LiveAppend(root.Cells(), root.Used(), value);
    CellsBefore(root.Cells(), root.Used(), Cell(InUse, value, None));
  }

  lemma {:induction false} CellsBefore(cells: seq<Cell>, n: nat, c: Cell)
    requires n < |cells|
    ensures cells[n := c][..n + 1] == cells[..n] + [c]
  {
  }

  /** The items once `item` has been punched and its neighbours linked to each other. */
  ghost function Unlinked(items: seq<Item>, item: nat, punched: Cell): (after: seq<Item>)
    requires item < |items|
    requires items[item].prev.ItemAt? ==> items[item].prev.pos < |items|
    requires items[item].next.ItemAt? ==> items[item].next.pos < |items|
    ensures |after| == |items|
  {
    var prev, next := items[item].prev, items[item].next;
    var marked := items[item := Item(punched.status, punched.value, punched.destructor, prev, next)];
    var left := if prev.ItemAt? then marked[prev.pos := marked[prev.pos].(next := next)] else marked;
    if next.ItemAt? then left[next.pos := left[next.pos].(prev := prev)] else left
  }

  /** `order` ascends around index `k`. */
  ghost predicate AscendsAt(order: seq<nat>, k: int) {
    forall j :: 0 <= j < |order| && 0 <= k < |order| ==>
      (j < k ==> order[j] < order[k]) && (k < j ==> order[k] < order[j])
  }

  lemma {:induction false} OrderAscendsAt(root: Root, k: int)
    ensures AscendsAt(root.Order(), k)
  {
    var order := root.Order();
    forall j | 0 <= j < |order| && 0 <= k < |order|
      ensures (j < k ==> order[j] < order[k]) && (k < j ==> order[k] < order[j])
    {
      if j < k {
        LiveAtAscends(root.Cells(), j, k);
      } else if k < j {
        LiveAtAscends(root.Cells(), k, j);
      }
    }
  }

  lemma {:induction false} DeleteLinks(items: seq<Item>, order: seq<nat>, k: nat, punched: Cell)
    requires Linked(items, order) && k < |order|
    requires AscendsAt(order, k - 1) && AscendsAt(order, k) && AscendsAt(order, k + 1)
    ensures items[order[k]].prev == LinkTo(order, k - 1) && items[order[k]].next == LinkTo(order, k + 1)
    ensures Linked(Unlinked(items, order[k], punched), order[..k] + order[k + 1..])
    ensures Unlinked(items, order[k], punched)[order[k]].next == items[order[k]].next
  {
    var chain := order[..k] + order[k + 1..];
    var after := Unlinked(items, order[k], punched);
    forall i | 0 <= i < |chain|
      ensures after[chain[i]].next == LinkTo(chain, i + 1)
      ensures after[chain[i]].prev == LinkTo(chain, i - 1)
    {
      var j := if i < k then i else i + 1;
      assert chain[i] == order[j];
      assert j != k - 1 ==> after[order[j]].next == items[order[j]].next;
      assert j != k + 1 ==> after[order[j]].prev == items[order[j]].prev;
    }
  }

  /** `after` is what deleting `item` makes of `root`. */
  ghost predicate IsDeleted(root: Root, after: Root, item: nat, punched: Cell)
    requires item < |root.items| && 0 < root.size
    requires root.items[item].prev.ItemAt? ==> root.items[item].prev.pos < |root.items|
    requires root.items[item].next.ItemAt? ==> root.items[item].next.pos < |root.items|
  {
    && after.size == root.size - 1
    && after.dirty
    && after.first == (if root.first == ItemAt(item) then root.items[item].next else root.first)
    && after.last == (if root.last == ItemAt(item) then root.items[item].prev else root.last)
    && after.firstPristine == root.firstPristine
    && after.items == Unlinked(root.items, item, punched)
  }

  lemma {:induction false} DeleteStorage(root: Root, after: Root, item: nat, punched: Cell)
    requires root.Storage() && item < |root.items| && 0 < root.size
    requires root.items[item].prev.ItemAt? ==> root.items[item].prev.pos < root.Used()
    requires root.items[item].next.ItemAt? ==> root.items[item].next.pos < root.Used()
    requires root.items[item].status == InUse && punched.status == Deleted
    requires IsDeleted(root, after, item, punched)
    ensures after.Storage() && after.HasDeleted()
    ensures after.Cells() == root.Cells()[item := punched]
  {
    if root.items[item].prev.ItemAt? || root.items[item].next.ItemAt? {
      assert after.items[item].status == Deleted;
    }
    assert after.items[item].status == Deleted;
  }

  lemma {:induction false} NeighboursAreUsed(root: Root, k: nat)
    requires root.Consistent() && k < |root.Order()|
    ensures root.Order()[k] < root.Used() <= |root.items|
    ensures LinkTo(root.Order(), k - 1).ItemAt? ==> LinkTo(root.Order(), k - 1).pos < root.Used()
    ensures LinkTo(root.Order(), k + 1).ItemAt? ==> LinkTo(root.Order(), k + 1).pos < root.Used()
    ensures root.items[root.Order()[k]].prev == LinkTo(root.Order(), k - 1)
    ensures root.items[root.Order()[k]].next == LinkTo(root.Order(), k + 1)
  {
    LiveIsUsed(root);
  }

  lemma {:induction false} DeleteKeeps(root: Root, after: Root, k: nat, punched: Cell)
    requires root.Consistent() && k < |root.Order()|
    requires var item := root.Order()[k];
             && item < |root.items|
             && (root.items[item].prev.ItemAt? ==> root.items[item].prev.pos < |root.items|)
             && (root.items[item].next.ItemAt? ==> root.items[item].next.pos < |root.items|)
             && IsDeleted(root, after, item, punched)
    requires punched.status == Deleted
    ensures |root.Values()| == |root.Order()|
    ensures after.Consistent() && after.Cells() == root.Cells()[root.Order()[k] := punched]
    ensures after.Order() == root.Order()[..k] + root.Order()[k + 1..]
    ensures after.Values() == root.Values()[..k] + root.Values()[k + 1..]
  {
    NeighboursAreUsed(root, k);
    OrderIsInUse(root, k);
    DeleteStorage(root, after, root.Order()[k], punched);
    UnlinkKeepsLinks(root, k, punched);
    RemovedFromCells(root, after, k, punched);
    OrderAscendsAt(root, k);
    DeleteEnds(root.Order(), k);
  }

  lemma {:induction false} RemovedFromCells(root: Root, after: Root, k: nat, punched: Cell)
    requires k < |root.Order()| && root.Order()[k] < |root.items| && |root.Values()| == |root.Order()|
    requires punched.status == Deleted && after.Cells() == root.Cells()[root.Order()[k] := punched]
    ensures after.Order() == root.Order()[..k] + root.Order()[k + 1..]
    ensures after.Values() == root.Values()[..k] + root.Values()[k + 1..]
  {
    LiveRemove(root.Cells(), k, punched);
  }

  lemma {:induction false} OrderIsInUse(root: Root, k: nat)
    requires root.Consistent() && k < |root.Order()|
    ensures |root.Values()| == |root.Order()| && root.Order()[k] < |root.items|
    ensures root.items[root.Order()[k]].status == InUse
  {
    LiveAtMeaning(root.Cells());
    assert root.Cells()[root.Order()[k]].status == InUse;
  }

  lemma {:induction false} UnlinkKeepsLinks(root: Root, k: nat, punched: Cell)
    requires root.Consistent() && k < |root.Order()|
    ensures var item := root.Order()[k];
            && item < |root.items|
            && (root.items[item].prev.ItemAt? ==> root.items[item].prev.pos < |root.items|)
            && (root.items[item].next.ItemAt? ==> root.items[item].next.pos < |root.items|)
            && root.items[item].prev == LinkTo(root.Order(), k - 1)
            && root.items[item].next == LinkTo(root.Order(), k + 1)
            && Linked(Unlinked(root.items, item, punched), root.Order()[..k] + root.Order()[k + 1..])
            && Unlinked(root.items, item, punched)[item].next == root.items[item].next
  {
    NeighboursAreUsed(root, k);
    OrderAscendsAt(root, k - 1);
    OrderAscendsAt(root, k);
    OrderAscendsAt(root, k + 1);
    DeleteLinks(root.items, root.Order(), k, punched);
  }

  lemma {:induction false} StaysInPlace(root: Root, k: nat, punched: Cell)
    requires root.Consistent() && k < |root.Order()|
    ensures var item := root.Order()[k];
            && item < |root.items|
            && (root.items[item].prev.ItemAt? ==> root.items[item].prev.pos < |root.items|)
            && (root.items[item].next.ItemAt? ==> root.items[item].next.pos < |root.items|)
            && Unlinked(root.items, item, punched)[item].next == root.items[item].next
  {
    UnlinkKeepsLinks(root, k, punched);
  }

  /** Items that have left the list before keep leading to where they did. */
  ghost predicate OthersLeadOn(before: Root, after: Root) {
    && |after.items| == |before.items|
    && forall p :: 0 <= p < |before.items| && p !in before.Order() ==> after.items[p].next == before.items[p].next
  }

  lemma {:induction false} OthersStayInPlace(root: Root, after: Root, k: nat, punched: Cell)
    requires root.Consistent() && k < |root.Order()|
    requires var item := root.Order()[k];
             && item < |root.items|
             && (root.items[item].prev.ItemAt? ==> root.items[item].prev.pos < |root.items|)
             && (root.items[item].next.ItemAt? ==> root.items[item].next.pos < |root.items|)
             && IsDeleted(root, after, item, punched)
    ensures OthersLeadOn(root, after)
  {
    NeighboursAreUsed(root, k);
    assert k > 0 ==> root.Order()[k - 1] in root.Order();
  }

  /** The chain's ends once its k-th element is gone. */
  lemma {:induction false} DeleteEnds(order: seq<nat>, k: nat)
    requires k < |order| && AscendsAt(order, k)
    ensures var rest := order[..k] + order[k + 1..];
            && LinkTo(rest, 0) ==
               (if LinkTo(order, 0) == ItemAt(order[k]) then LinkTo(order, k + 1) else LinkTo(order, 0))
            && LinkTo(rest, |rest| - 1) ==
               (if LinkTo(order, |order| - 1) == ItemAt(order[k]) then LinkTo(order, k - 1)
                else LinkTo(order, |order| - 1))
  {
    assert order[k] == order[0] <==> k == 0;
    assert order[k] == order[|order| - 1] <==> k == |order| - 1;
  }

  /** The n-th item of the chain: where it is, what it holds and where it leads. */
  lemma {:induction false} ChainItem(root: Root, n: nat)
    requires root.Consistent() && n < |root.Order()|
    ensures |root.Values()| == |root.Order()| && root.Order()[n] < |root.items|
    ensures root.items[root.Order()[n]].value == root.Values()[n]
    ensures root.items[root.Order()[n]].status == InUse
    ensures root.items[root.Order()[n]].next == LinkTo(root.Order(), n + 1)
  {
    LiveAtMeaning(root.Cells());
    assert root.Cells()[root.Order()[n]].value == root.Values()[n];
  }

  lemma {:induction false} SizeOfValues(root: Root)
    requires root.Consistent()
    ensures |root.Values()| == root.size
  {
    LiveAtMeaning(root.Cells());
  }

  lemma {:induction false} OneMoreCall(
    cells: seq<Cell>, p: nat, destructor: Option<Destructor>, overrideDeferred: bool, before: seq<Call>)
    requires p < |cells|
    ensures before + CompactionCalls(cells[..p + 1], destructor, overrideDeferred) ==
            before + CompactionCalls(cells[..p], destructor, overrideDeferred) +
            CompactionCalls([cells[p]], destructor, overrideDeferred)
  {
    assert cells[..p + 1][..p] == cells[..p];
  }

  /** The positions met when following `next` links, at most `n` of them. */
  ghost function Forward(items: seq<Item>, link: Link, n: nat): (walk: seq<nat>)
    decreases n
  {
    if n == 0 || link == NoItem || link.pos >= |items| then []
    else [link.pos] + Forward(items, items[link.pos].next, n - 1)
  }

  /** The positions met when following `prev` links, each put in front of those met before. */
  ghost function Backward(items: seq<Item>, link: Link, n: nat): (walk: seq<nat>)
    decreases n
  {
    if n == 0 || link == NoItem || link.pos >= |items| then []
    else Backward(items, items[link.pos].prev, n - 1) + [link.pos]
  }

  lemma {:induction false} OneFirst(order: seq<nat>, k: nat)
    requires k < |order|
    ensures order[k..] == [order[k]] + order[k + 1..]
  {
  }

  lemma {:induction false} OneLast(order: seq<nat>, k: nat)
    requires k < |order|
    ensures order[..k + 1] == order[..k] + [order[k]]
  {
  }

  lemma {:induction false} ForwardFrom(items: seq<Item>, order: seq<nat>, k: nat, n: nat)
    requires Linked(items, order) && k <= |order| <= k + n
    ensures Forward(items, LinkTo(order, k), n) == order[k..]
    decreases n
  {
    if k < |order| {
      assert items[order[k]].next == LinkTo(order, k + 1);
      ForwardFrom(items, order, k + 1, n - 1);
      OneFirst(order, k);
    }
  }

  lemma {:induction false} BackwardFrom(items: seq<Item>, order: seq<nat>, k: nat, n: nat)
    requires Linked(items, order) && k <= |order| && k <= n
    ensures Backward(items, LinkTo(order, k - 1), n) == order[..k]
    decreases n
  {
    if k > 0 {
      assert items[order[k - 1]].prev == LinkTo(order, k - 2);
      BackwardFrom(items, order, k - 1, n - 1);
      OneLast(order, k - 1);
    }
  }

  /**
   Both chains, `size` and the blocks describe the same list: walking either way meets the items in use and
   no others, in physical order, and ends.
   */
  lemma {:induction false} ChainsAgree(root: Root, bound: nat)
    requires root.Consistent() && root.size <= bound
    ensures Forward(root.items, root.first, bound) == root.Order() == Backward(root.items, root.last, bound)
    ensures root.size == |root.Order()| == |root.Values()|
    ensures forall p :: 0 <= p < |root.items| ==> (root.items[p].status == InUse <==> p in root.Order())
  {
    LiveAtMeaning(root.Cells());
    ForwardFrom(root.items, root.Order(), 0, bound);
    BackwardFrom(root.items, root.Order(), root.size, bound);
    forall p | 0 <= p < |root.items|
      ensures root.items[p].status == InUse <==> p in root.Order()
    {
      if root.items[p].status == InUse {
        var k := LiveAtFinds(root.Cells(), p);
      }
      if p in root.Order() {
        assert root.Cells()[p].status == InUse;
      }
    }
  }

  /** An item is pristine just when it lies at or beyond its block's first pristine index. */
  lemma {:induction false} PristineItems(root: Root, b: nat, j: nat)
    requires root.Consistent() && b < |root.firstPristine| && j < BLOCK_SIZE
    ensures root.items[BLOCK_SIZE * b + j].status == Pristine <==> root.firstPristine[b] <= j
  {
    assert Fits(root.items[BLOCK_SIZE * b + j], BLOCK_SIZE * b + j < root.Used());
  }

  /** How many blocks a compacted list of `n` items takes. */
  function BlocksFor(n: nat): (blocks: nat)
    ensures 0 < blocks && n <= BLOCK_SIZE * blocks && (0 < n ==> BLOCK_SIZE * (blocks - 1) < n)
  {
    if n == 0 then 1 else (n + BLOCK_SIZE - 1) / BLOCK_SIZE
  }

  /** New blocks holding the first `n` of `values`, linked and without gaps. */
  ghost predicate IsPacked(items: seq<Item>, firstPristine: seq<nat>, values: seq<Pointer>, n: nat) {
    && n <= |values|
    && |firstPristine| == BlocksFor(n)
    && |items| == BLOCK_SIZE * |firstPristine|
    && (forall b :: 0 <= b < |firstPristine| - 1 ==> firstPristine[b] == BLOCK_SIZE)
    && n == BLOCK_SIZE * (|firstPristine| - 1) + firstPristine[|firstPristine| - 1]
    && (forall p :: 0 <= p < |items| ==> items[p] == PackedItem(values, n, p))
  }

  ghost function PackedItem(values: seq<Pointer>, n: nat, p: nat): Item
    requires n <= |values|
  {
    if p < n then
      Item(InUse, values[p], None, if p > 0 then ItemAt(p - 1) else NoItem, if p + 1 < n then ItemAt(p + 1) else NoItem)
    else UNTOUCHED
  }

  /** Copying one more value, into a new block if need be, keeps the new blocks packed. */
  lemma {:induction false} PackOneMore(
    items: seq<Item>, firstPristine: seq<nat>, values: seq<Pointer>, n: nat,
    items': seq<Item>, firstPristine': seq<nat>)
    requires IsPacked(items, firstPristine, values, n) && n < |values|
    requires var full := firstPristine[|firstPristine| - 1] == BLOCK_SIZE;
             var room := if full then items + EMPTY_BLOCK else items;
             && firstPristine' == (if full then firstPristine + [1]
                                   else firstPristine[|firstPristine| - 1 := firstPristine[|firstPristine| - 1] + 1])
             && n < |room|
             && items' == Appended(room, n, values[n], if n > 0 then ItemAt(n - 1) else NoItem)
    ensures IsPacked(items', firstPristine', values, n + 1)
  {
    var full := firstPristine[|firstPristine| - 1] == BLOCK_SIZE;
    var room := if full then items + EMPTY_BLOCK else items;
    forall p | 0 <= p < |room|
      ensures items'[p] == PackedItem(values, n + 1, p)
    {
      assert room[p] == PackedItem(values, n, p);
    }
  }

  lemma {:induction false} PackedStorage(root: Root, values: seq<Pointer>)
    requires IsPacked(root.items, root.firstPristine, values, |values|)
    ensures root.Storage() && root.Used() == |values| && !root.HasDeleted()
    ensures root.Cells() == seq(|values|, i requires 0 <= i < |values| => Cell(InUse, values[i], None)) +
                            seq(|root.items| - |values|, _ => Cell(Pristine, Null, None))
  {
    forall p | 0 <= p < |root.items|
      ensures root.items[p].status != Deleted && Fits(root.items[p], p < |values|)
    {
      assert root.items[p] == PackedItem(values, |values|, p);
    }
  }

  lemma {:induction false} PackedOrder(root: Root, values: seq<Pointer>)
    requires IsPacked(root.items, root.firstPristine, values, |values|)
    ensures |root.Order()| == |values| && root.Values() == values
    ensures forall k :: 0 <= k < |values| ==> root.Order()[k] == k
  {
    PackedStorage(root, values);
    var live := seq(|values|, i requires 0 <= i < |values| => Cell(InUse, values[i], None));
    AllInUse(live);
    LiveTrailing(live, seq(|root.items| - |values|, _ => Cell(Pristine, Null, None)));
  }

  /** A packed list is consistent, shows exactly `values` and has nothing deleted. */
  lemma {:induction false} PackedIsConsistent(root: Root, values: seq<Pointer>)
    requires IsPacked(root.items, root.firstPristine, values, |values|)
    requires root.size == |values| && !root.dirty
    requires root.first == (if values == [] then NoItem else ItemAt(0))
    requires root.last == (if values == [] then NoItem else ItemAt(|values| - 1))
    ensures root.Consistent() && root.Used() == |values| && root.Values() == values && !root.HasDeleted()
    ensures root.Cells()[..|values|] == seq(|values|, i requires 0 <= i < |values| => Cell(InUse, values[i], None))
  {
    PackedStorage(root, values);
    PackedOrder(root, values);
    forall k | 0 <= k < |values|
      ensures root.items[root.Order()[k]].next == LinkTo(root.Order(), k + 1)
      ensures root.items[root.Order()[k]].prev == LinkTo(root.Order(), k - 1)
    {
      assert root.items[k] == PackedItem(values, |values|, k);
    }
  }

  class PreallocList {
    var root: Root
    ghost var calls: seq<Call>    // every destructor invocation made so far

    ghost predicate Valid()
      reads this
    {
      root.Consistent()
    }

    constructor ()
      ensures Valid() && fresh(this)
      ensures root.Used() == 0 && calls == []
    {
      root := Root(0, false, NoItem, NoItem, [0], EMPTY_BLOCK);
      calls := [];
      new;
      NothingLive(root.Cells());
    }

    /**
     Makes sure the last block has a pristine item left; `blockAvailable` tells whether a block could be
     allocated, should one be needed.
     */
    method EnsureRoom(blockAvailable: bool) returns (ok: bool)
      requires Valid()
      modifies `root
      ensures Valid()
      ensures ok <==> old(root.Used()) < |old(root.items)| || blockAvailable
      ensures !ok ==> root == old(root)
      ensures ok ==> root.Used() == old(root.Used()) < |root.items|
      ensures ok ==> root.Cells()[..root.Used()] == old(root.Cells()[..root.Used()])
      ensures ok ==> root.Order() == old(root.Order()) && root.Values() == old(root.Values())
    {
      if root.firstPristine[|root.firstPristine| - 1] >= BLOCK_SIZE {
        if !blockAvailable {
          return false;
        }
        GrowKeeps(root, root.(firstPristine := root.firstPristine + [0], items := root.items + EMPTY_BLOCK));
        root := root.(firstPristine := root.firstPristine + [0], items := root.items + EMPTY_BLOCK);
      }
      return true;
    }

    method Append(value: Pointer, blockAvailable: bool) returns (ok: bool)
      requires Valid()
      modifies `root
      ensures Valid()
      ensures ok <==> old(root.Used()) < |old(root.items)| || blockAvailable
      ensures !ok ==> root == old(root)
      ensures ok ==> root.Used() == old(root.Used()) + 1
      ensures ok ==> root.Cells()[..root.Used()] == old(root.Cells()[..root.Used()]) + [Cell(InUse, value, None)]
      ensures ok ==> root.Order() == old(root.Order()) + [old(root.Used())]
      ensures ok ==> root.Values() == old(root.Values()) + [value]
    {
      ok := EnsureRoom(blockAvailable);
      if !ok {
        return;
      }
      FillItem(value);
    }

    /** Takes the next pristine item into use and links it behind the last one. */
    method FillItem(value: Pointer)
      requires Valid() && root.Used() < |root.items|
      modifies `root
      ensures Valid() && root.Used() == old(root.Used()) + 1
      ensures root.Cells()[..root.Used()] == old(root.Cells()[..root.Used()]) + [Cell(InUse, value, None)]
      ensures root.Order() == old(root.Order()) + [old(root.Used())]
      ensures root.Values() == old(root.Values()) + [value]
    {
      LastIsUsed(root);
      assert Fits(root.items[root.Used()], false);

      var b := |root.firstPristine| - 1;
      var item := BLOCK_SIZE * b + root.firstPristine[b];
      var firstPristine := root.firstPristine[b := root.firstPristine[b] + 1];
      var items := root.items[item := root.items[item].(status := InUse, value := value)];

      items := items[item := items[item].(prev := root.last)];
      var first := if root.first == NoItem then ItemAt(item) else root.first;
      var prev := items[item].prev;
      if prev != NoItem {
        items := items[prev.pos := items[prev.pos].(next := ItemAt(item))];
      }
      var after := Root(root.size + 1, root.dirty, first, ItemAt(item), firstPristine, items);
      AppendedInSteps(root.items, item, value, root.last);
      AppendKeeps(root, after, value);
      root := after;
    }

    /** The item at `index` of the list, or NULL if there is none. */
    method GetItem(index: int) returns (item: Link)
      requires Valid()
      ensures item == LinkTo(root.Order(), index)
    {
      if index < 0 || index >= root.size {
        return NoItem;
      }
      item := root.first;
      var i := index;
      while i != 0 && item != NoItem
        invariant 0 <= i <= index
        invariant item == LinkTo(root.Order(), index - i)
      {
        item := root.items[item.pos].next;
        i := i - 1;
      }
    }

    /**
     Takes an item of this list out of use. Its own links stay as they are, so that whoever stands on it
     can still move on.
     */
    method DeleteItem(item: nat, destructor: Option<Destructor>, deferred: bool) returns (ok: bool, ghost k: nat)
      requires Valid() && item < |root.items|
      modifies this
      ensures Valid()
      ensures ok <==> old(root.items[item].status) == InUse
      ensures !ok ==> unchanged(this)
      ensures ok ==> k < |old(root.Order())| == |old(root.Values())| && old(root.Order())[k] == item
      ensures ok ==> root.Order() == old(root.Order())[..k] + old(root.Order())[k + 1..]
      ensures ok ==> root.Values() == old(root.Values())[..k] + old(root.Values())[k + 1..]
      ensures ok ==> root.Cells() == old(root.Cells())[item := Punched(old(root.Cells()[item]), destructor, deferred)]
      ensures ok ==>
                root.items[item].next == old(root.items[item].next) && root.firstPristine == old(root.firstPristine)
      ensures ok ==> OthersLeadOn(old(root), root)
      ensures calls == old(calls) +
                       if ok && !deferred && destructor.Some? then [Call(destructor.value, old(root.items[item].value))]
                       else []
    {
      k := 0;
      if root.items[item].status != InUse {
        return false, k;
      }

      var it := root.items[item].(status := Deleted);
      ghost var more := [];
      if deferred {
        it := it.(destructor := destructor);
      } else {
        if destructor.Some? {
          more := [Call(destructor.value, it.value)];
        }
        it := it.(value := Null);
      }
      calls := calls + more;
      k := Unlink(item, it);
      return true, k;
    }

    /** Puts `it`, an item taken out of use, in the place of `item` and links its neighbours to each other. */
    method Unlink(item: nat, it: Item) returns (ghost k: nat)
      requires Valid() && item < |root.items| && root.items[item].status == InUse && it.status == Deleted
      requires it.prev == root.items[item].prev && it.next == root.items[item].next
      modifies `root
      ensures Valid()
      ensures k < |old(root.Order())| == |old(root.Values())| && old(root.Order())[k] == item
      ensures root.Order() == old(root.Order())[..k] + old(root.Order())[k + 1..]
      ensures root.Values() == old(root.Values())[..k] + old(root.Values())[k + 1..]
      ensures root.Cells() == old(root.Cells())[item := Cell(it.status, it.value, it.destructor)]
      ensures root.items[item].next == old(root.items[item].next) && root.firstPristine == old(root.firstPristine)
      ensures OthersLeadOn(old(root), root)
    {
      k := LiveAtFinds(root.Cells(), item);
      NeighboursAreUsed(root, k);
      var first := if root.first == ItemAt(item) then it.next else root.first;
      var last := if root.last == ItemAt(item) then it.prev else root.last;
      var items := root.items[item := it];
      if it.prev != NoItem {
        items := items[it.prev.pos := items[it.prev.pos].(next := it.next)];
      }
      if it.next != NoItem {
        items := items[it.next.pos := items[it.next.pos].(prev := it.prev)];
      }
      var after := Root(root.size - 1, true, first, last, root.firstPristine, items);
      DeleteKeeps(root, after, k, Cell(it.status, it.value, it.destructor));
      StaysInPlace(root, k, Cell(it.status, it.value, it.destructor));
      OthersStayInPlace(root, after, k, Cell(it.status, it.value, it.destructor));
      root := after;
    }

    /**
     Copies the items in use to new blocks and runs the selected destructors on the values of the deleted
     ones. `allocations` is the number of block allocations that would succeed.
     */
    method Compact(destructor: Option<Destructor>, overrideDeferred: bool, allocations: nat) returns (ok: bool)
      requires Valid()
      modifies this
      ensures Valid()
      ensures ok <==> !old(root.dirty) || BlocksFor(old(root.size)) <= allocations
      ensures !ok || !old(root.dirty) ==> unchanged(this)
      ensures root.Values() == old(root.Values())
      ensures ok ==>
                && !root.HasDeleted()
                && calls == old(calls) + CompactionCalls(old(root.Cells()), destructor, overrideDeferred)
      ensures ok && old(root.dirty) ==>
        |root.firstPristine| == BlocksFor(root.size) && root.Cells()[..root.Used()] == Packed(old(root.Cells()))
    {
      if !root.dirty {
        NoCompactionCalls(root.Cells(), destructor, overrideDeferred);
        return true;
      }
      var oldItems := root.items;
      ghost var cells := root.Cells();
      ok := Repack(allocations);
      if !ok {
        return;
      }
      CallDestructors(oldItems, destructor, overrideDeferred, cells);
    }

    /** Runs the selected destructors on the values of deleted items. */
    method CallDestructors(
      oldItems: seq<Item>, destructor: Option<Destructor>, overrideDeferred: bool, ghost cells: seq<Cell>)
      requires |cells| == |oldItems|
      requires forall p :: 0 <= p < |cells| ==>
                 cells[p] == Cell(oldItems[p].status, oldItems[p].value, oldItems[p].destructor)
      modifies `calls
      ensures calls == old(calls) + CompactionCalls(cells, destructor, overrideDeferred)
    {
      for p := 0 to |oldItems|
        invariant calls == old(calls) + CompactionCalls(cells[..p], destructor, overrideDeferred)
      {
        var item := oldItems[p];
        OneMoreCall(cells, p, destructor, overrideDeferred, old(calls));
        if item.value != Null && item.status == Deleted {
          if item.destructor.Some? && !overrideDeferred {
            calls := calls + [Call(item.destructor.value, item.value)];
          } else if destructor.Some? {
            calls := calls + [Call(destructor.value, item.value)];
          }
        }
      }
      assert cells[..|oldItems|] == cells;
    }

    /** The part of a compaction that copies the items in use and makes the new blocks the list's own. */
    method Repack(allocations: nat) returns (ok: bool)
      requires Valid()
      modifies `root
      ensures Valid()
      ensures ok <==> BlocksFor(old(root.size)) <= allocations
      ensures !ok ==> root == old(root)
      ensures root.Values() == old(root.Values())
      ensures ok ==> !root.HasDeleted() && |root.firstPristine| == BlocksFor(root.size)
      ensures ok ==> root.Cells()[..root.Used()] == Packed(old(root.Cells()))
    {
      var items: seq<Item>, firstPristine: seq<nat>;
      ok, items, firstPristine := CopyValues(allocations);
      if !ok {
        return;
      }
      var first, last := root.first, root.last;
      if root.size > 0 {
        first := ItemAt(0);
        last := ItemAt(BLOCK_SIZE * (|firstPristine| - 1) + firstPristine[|firstPristine| - 1] - 1);
      }
      var after := Root(root.size, false, first, last, firstPristine, items);
      LiveAtMeaning(root.Cells());
      PackedIsConsistent(after, root.Values());
      root := after;
    }

    /** Copies the values of the items in use, in list order, to new blocks. */
    method CopyValues(allocations: nat) returns (ok: bool, items: seq<Item>, firstPristine: seq<nat>)
      requires Valid()
      ensures ok <==> BlocksFor(root.size) <= allocations
      ensures ok ==> |root.Values()| == root.size && IsPacked(items, firstPristine, root.Values(), root.size)
    {
      items, firstPristine := EMPTY_BLOCK, [0];
      if allocations == 0 {
        return false, items, firstPristine;
      }
      ghost var values, n := root.Values(), 0;
      SizeOfValues(root);
      var oldItem := root.first;
      while oldItem != NoItem
        invariant n <= root.size && |firstPristine| <= allocations
        invariant oldItem == LinkTo(root.Order(), n)
        invariant IsPacked(items, firstPristine, values, n)
        decreases root.size - n
      {
        ChainItem(root, n);
        var value := root.items[oldItem.pos].value;
        ok, items, firstPristine := CopyValue(items, firstPristine, |firstPristine| < allocations, value, values, n);
        if !ok {
          return;
        }
        oldItem := root.items[oldItem.pos].next;
        n := n + 1;
      }
      ok := true;
    }

    /** Puts one more value into the new blocks, behind the item filled last. */
    static method CopyValue(
      oldItems: seq<Item>, oldFirstPristine: seq<nat>, blockAvailable: bool,
      value: Pointer, ghost values: seq<Pointer>, ghost n: nat)
      returns (ok: bool, items: seq<Item>, firstPristine: seq<nat>)
      requires IsPacked(oldItems, oldFirstPristine, values, n) && n < |values| && values[n] == value
      ensures ok <==> n < |oldItems| || blockAvailable
      ensures ok ==> IsPacked(items, firstPristine, values, n + 1)
    {
      items, firstPristine := oldItems, oldFirstPristine;
      var b := |firstPristine| - 1;
      if firstPristine[b] >= BLOCK_SIZE {
        if !blockAvailable {
          return false, items, firstPristine;
        }
        items := items + EMPTY_BLOCK;
        firstPristine := firstPristine + [0];
        b := b + 1;
      }
      var newItem := BLOCK_SIZE * b + firstPristine[b];
      firstPristine := firstPristine[b := firstPristine[b] + 1];
      items := items[newItem := items[newItem].(status := InUse, value := value)];
      if newItem > 0 {
        items := items[newItem := items[newItem].(prev := ItemAt(newItem - 1))];
        items := items[newItem - 1 := items[newItem - 1].(next := ItemAt(newItem))];
      }
      PackOneMore(oldItems, oldFirstPristine, values, n, items, firstPristine);
      return true, items, firstPristine;
    }
  }
}
