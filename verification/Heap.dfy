/** The binary min-heap operations of Python's `heapq`, on a list of items ordered by priority only. */
module Heap {
  datatype WMItem = WMItem(kind: string, content: string, priority: real, createdAt: int)

  function Parent(j: nat): nat
    requires j > 0
  {
    (j - 1) / 2
  }

  /** No item from `lo` on has a child of lower priority. */
  ghost predicate OrderedFrom(h: seq<WMItem>, lo: nat) {
    forall j :: 0 < j < |h| && Parent(j) >= lo ==> h[Parent(j)].priority <= h[j].priority
  }

  ghost predicate IsHeap(h: seq<WMItem>) {
    OrderedFrom(h, 0)
  }

  /** `pos` lies in the subtree rooted at `root`. */
  ghost predicate Below(pos: nat, root: nat) {
    pos == root || (pos > root && Below(Parent(pos), root))
  }

  /** The root of a heap holds a lowest priority. */
  lemma {:induction false} RootIsLowest(h: seq<WMItem>, i: nat)
    requires IsHeap(h) && i < |h|
    ensures h[0].priority <= h[i].priority
  {
    if i > 0 {
      RootIsLowest(h, Parent(i));
    }
  }

  /** Ordered except on the edge into `pos`, with `pos`'s children no lower than its parent. */
  ghost predicate OrderedBut(h: seq<WMItem>, start: nat, pos: nat) {
    && (forall j :: 0 < j < |h| && Parent(j) >= start && j != pos ==> h[Parent(j)].priority <= h[j].priority)
    && (pos > start ==>
          forall j :: 0 < j < |h| && j > pos && Parent(j) == pos ==> h[Parent(pos)].priority <= h[j].priority)
  }

  lemma {:induction false} SwapContents(h: seq<WMItem>, i: nat, j: nat)
    requires i < |h| && j < |h|
    ensures multiset(Swap(h, i, j)) == multiset(h)
  {
  }

  function Swap(h: seq<WMItem>, i: nat, j: nat): seq<WMItem>
    requires i < |h| && j < |h|
  {
    h[i := h[j]][j := h[i]]
  }

  lemma {:induction false} SwapUp(h: seq<WMItem>, start: nat, pos: nat)
    requires start < pos < |h| && Below(pos, start) && OrderedBut(h, start, pos)
    requires h[pos].priority <= h[Parent(pos)].priority
    ensures OrderedBut(Swap(h, pos, Parent(pos)), start, Parent(pos))
  {
    var p, g := Parent(pos), Swap(h, pos, Parent(pos));
    forall j | 0 < j < |g| && Parent(j) >= start && j != p
      ensures g[Parent(j)].priority <= g[j].priority
    {
      assert j != pos && Parent(j) != pos && Parent(j) != p ==> g[j] == h[j] && g[Parent(j)] == h[Parent(j)];
    }
    if p > start {
      forall j | p < j < |g| && Parent(j) == p ensures g[Parent(p)].priority <= g[j].priority {
        assert Below(p, start) && Below(Parent(p), start);
        assert h[Parent(p)].priority <= h[p].priority;
      }
    }
  }

  /** `heapq._siftdown`: move the item at `leaf` towards `start` past larger parents. */
  method SiftDown(heap: seq<WMItem>, start: nat, leaf: nat) returns (h: seq<WMItem>)
    requires leaf < |heap| && Below(leaf, start) && OrderedBut(heap, start, leaf)
    ensures OrderedFrom(h, start) && multiset(h) == multiset(heap) && |h| == |heap|
  {
    h := heap;
    var pos := leaf;
    var newitem := h[pos];
    ghost var full := h;
    while pos > start
      invariant start <= pos < |h| == |heap| && Below(pos, start)
      invariant full == h[pos := newitem] && OrderedBut(full, start, pos)
      invariant multiset(full) == multiset(heap)
    {
      var parentpos := Parent(pos);
      var parent := h[parentpos];
      if !(newitem.priority < parent.priority) {
        break;
      }
      SwapUp(full, start, pos);
      full := Swap(full, pos, parentpos);
      h := h[pos := parent];
      pos := parentpos;
    }
    h := h[pos := newitem];
  }

  /** Ordered from `start` on except on the edges out of `pos`, which `pos`'s parent still respects. */
  ghost predicate OrderedAround(h: seq<WMItem>, start: nat, pos: nat) {
    && (forall j :: 0 < j < |h| && Parent(j) >= start && Parent(j) != pos && j != pos ==>
          h[Parent(j)].priority <= h[j].priority)
    && (pos > start ==>
          forall j :: pos < j < |h| && Parent(j) == pos ==> h[Parent(pos)].priority <= h[j].priority)
  }

  lemma {:induction false} SwapDown(h: seq<WMItem>, start: nat, pos: nat, child: nat)
    requires start <= pos < child < |h| && Parent(child) == pos && OrderedAround(h, start, pos)
    requires forall j :: 2 * pos + 1 <= j < |h| && j <= 2 * pos + 2 ==> h[child].priority <= h[j].priority
    ensures OrderedAround(Swap(h, pos, child), start, child)
  {
    var g := Swap(h, pos, child);
    forall j | 0 < j < |g| && Parent(j) >= start && Parent(j) != child && j != child
      ensures g[Parent(j)].priority <= g[j].priority
    {
      assert j != pos && Parent(j) != pos ==> g[j] == h[j] && g[Parent(j)] == h[Parent(j)];
    }
  }

  /** One step down: the smaller child moves into the gap at `pos`, and the gap moves to its place. */
  lemma {:induction false} SinkStep(h: seq<WMItem>, newitem: WMItem, start: nat, pos: nat, child: nat)
    requires start <= pos < child < |h| && Parent(child) == pos && Below(pos, start)
    requires OrderedAround(h[pos := newitem], start, pos)
    requires forall j :: 2 * pos + 1 <= j < |h| && j <= 2 * pos + 2 ==> h[child].priority <= h[j].priority
    ensures Below(child, start)
    ensures OrderedAround(h[pos := h[child]][child := newitem], start, child)
    ensures multiset(h[pos := h[child]][child := newitem]) == multiset(h[pos := newitem])
  {
    var full := h[pos := newitem];
    ShiftIsSwap(h, newitem, pos, child);
    SwapDown(full, start, pos, child);
    SwapContents(full, pos, child);
  }

  lemma {:induction false} ShiftIsSwap(h: seq<WMItem>, newitem: WMItem, pos: nat, child: nat)
    requires pos < child < |h|
    ensures h[pos := h[child]][child := newitem] == Swap(h[pos := newitem], pos, child)
  {
  }

  /** A gap at a leaf has nothing below it left to order. */
  lemma {:induction false} SunkToLeaf(h: seq<WMItem>, start: nat, pos: nat)
    requires pos < |h| <= 2 * pos + 1 && OrderedAround(h, start, pos)
    ensures OrderedBut(h, start, pos)
  {
  }

  /** `heapq._siftup`: sink the item at `start` to a leaf past its smaller children, then let it rise again. */
  method SiftUp(heap: seq<WMItem>, start: nat) returns (h: seq<WMItem>)
    requires start < |heap| && OrderedFrom(heap, start + 1)
    ensures OrderedFrom(h, start) && multiset(h) == multiset(heap) && |h| == |heap|
  {
    h := heap;
    var endpos := |h|;
    var pos := start;
    var newitem := h[pos];
    var childpos := 2 * pos + 1;
    while childpos < endpos
      invariant start <= pos < endpos == |h| == |heap| && childpos == 2 * pos + 1 && Below(pos, start)
      invariant OrderedAround(h[pos := newitem], start, pos)
      invariant multiset(h[pos := newitem]) == multiset(heap)
      decreases endpos - pos
    {
      var rightpos := childpos + 1;
      if rightpos < endpos && !(h[childpos].priority < h[rightpos].priority) {
        childpos := rightpos;
      }
      SinkStep(h, newitem, start, pos, childpos);
      h := h[pos := h[childpos]];
      pos := childpos;
      childpos := 2 * pos + 1;
    }
    h := h[pos := newitem];
    SunkToLeaf(h, start, pos);
    h := SiftDown(h, start, pos);
  }

  /** `heapq.heappush`. */
  method Push(heap: seq<WMItem>, item: WMItem) returns (h: seq<WMItem>)
    requires IsHeap(heap)
    ensures IsHeap(h) && multiset(h) == multiset(heap) + multiset{item} && |h| == |heap| + 1
  {
    h := heap + [item];
    BelowRoot(|h| - 1);
    h := SiftDown(h, 0, |h| - 1);
  }

  lemma {:induction false} BelowRoot(pos: nat)
    ensures Below(pos, 0)
  {
    if pos > 0 {
      BelowRoot(Parent(pos));
    }
  }

  /** `heapq.heappop`: what is removed has the lowest priority. */
  method Pop(heap: seq<WMItem>) returns (h: seq<WMItem>, item: WMItem)
    requires IsHeap(heap) && heap != []
    ensures IsHeap(h) && multiset(heap) == multiset(h) + multiset{item} && |h| == |heap| - 1
    ensures forall i :: 0 <= i < |heap| ==> item.priority <= heap[i].priority
  {
    forall i | 0 <= i < |heap| ensures heap[0].priority <= heap[i].priority {
      RootIsLowest(heap, i);
    }
    var lastelt := heap[|heap| - 1];
    h := heap[..|heap| - 1];
    assert heap == h + [lastelt];
    if h == [] {
      return h, lastelt;
    }
    item := h[0];
    assert multiset(h[0 := lastelt]) == multiset(h) - multiset{item} + multiset{lastelt};
    h := h[0 := lastelt];
    h := SiftUp(h, 0);
  }

  /** `heapq.heapify`. */
  method Heapify(items: seq<WMItem>) returns (h: seq<WMItem>)
    ensures IsHeap(h) && multiset(h) == multiset(items) && |h| == |items|
  {
    h := items;
    for i := |items| / 2 downto 0
      invariant |h| == |items| && OrderedFrom(h, i) && multiset(h) == multiset(items)
    {
      h := SiftUp(h, i);
    }
  }
}
