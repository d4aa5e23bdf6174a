/** `memory/working.py`: a bounded priority store with per-kind replacement, two eviction limits and a salience
    filter. */
module WorkingMemory {
  import opened Heap
  import opened Text
  import opened Wrappers

  // ---------- Token estimate ----------

  predicate IsCjk(c: char) {
    '\U{4e00}' <= c <= '\U{9fff}'
  }

  predicate IsAsciiWord(c: char) {
    c < '\U{80}' && !('\t' <= c <= '\r') && !('\U{1c}' <= c <= '\U{1f}') && c != ' '
  }

  function CountChars(text: string, p: char -> bool): nat {
    if text == "" then 0 else (if p(text[0]) then 1 else 0) + CountChars(text[1..], p)
  }

  function EstimateTokens(text: string): nat {
    if text == "" then 0
    else
      CountChars(text, IsCjk)
      + AtLeastOne(CountChars(text, IsAsciiWord) / 4)
      + AtLeastOne(CountChars(text, c => c >= '\U{80}' && !IsCjk(c)) / 2)
  }

  lemma {:induction false} CharsCounted(text: string, p: char -> bool)
    ensures CountChars(text, p) == Rows(text, p)
  {
    if text != "" {
      CharsCounted(text[1..], p);
      RowsFirst(text, p);
    }
  }

  /** One token for every CJK character, one for every four other printable ASCII characters and one for every two of
      the rest, and at least one for each of these two. */
  lemma {:induction false} TokensCounted(text: string)
    requires text != ""
    ensures EstimateTokens(text) ==
            Rows(text, IsCjk) + AtLeastOne(Rows(text, IsAsciiWord) / 4)
            + AtLeastOne(Rows(text, c => c >= '\U{80}' && !IsCjk(c)) / 2)
  {
    var other := c => c >= '\U{80}' && !IsCjk(c);
    CharsCounted(text, IsCjk);
    CharsCounted(text, IsAsciiWord);
    CharsCounted(text, other);
  }

  // ---------- Sums over the stored items ----------

  function Sum(weight: WMItem -> nat, items: seq<WMItem>): nat {
    if items == [] then 0 else weight(items[0]) + Sum(weight, items[1..])
  }

  lemma {:induction false} SumRemove(weight: WMItem -> nat, items: seq<WMItem>, k: nat)
    requires k < |items|
    ensures Sum(weight, items) == weight(items[k]) + Sum(weight, RemoveAt(items, k))
  {
    if k == 0 {
      assert RemoveAt(items, 0) == items[1..];
    } else {
      SumRemove(weight, items[1..], k - 1);
      assert RemoveAt(items, k)[1..] == RemoveAt(items[1..], k - 1);
    }
  }

  /** A smaller collection weighs no more, whatever the order it is kept in. */
  lemma {:induction false} SumMonotone(weight: WMItem -> nat, a: seq<WMItem>, b: seq<WMItem>)
    requires multiset(a) <= multiset(b)
    ensures Sum(weight, a) <= Sum(weight, b)
    decreases |a|
  {
    if a != [] {
      assert a[0] in multiset(b);
      var k :| 0 <= k < |b| && b[k] == a[0];
      RemoveAtMultiset(a, 0);
      RemoveAtMultiset(b, k);
      SubMultisetCancel(multiset(RemoveAt(a, 0)), multiset(RemoveAt(b, k)), a[0]);
      SumRemove(weight, a, 0);
      SumRemove(weight, b, k);
      SumMonotone(weight, RemoveAt(a, 0), RemoveAt(b, k));
    }
  }

  lemma {:induction false} SubMultisetCancel<T>(m: multiset<T>, n: multiset<T>, x: T)
    requires m + multiset{x} <= n + multiset{x}
    ensures m <= n
  {
    forall y ensures m[y] <= n[y] {
      assert (m + multiset{x})[y] <= (n + multiset{x})[y];
    }
  }

  function TokenWeight(item: WMItem): nat {
    EstimateTokens(item.content)
  }

  function TotalTokens(items: seq<WMItem>): nat {
    Sum(TokenWeight, items)
  }

  const MULTI_ITEM_KINDS := {"meta_reflection"}

  predicate IsSingleKind(kind: string) {
    kind != "" && kind !in MULTI_ITEM_KINDS
  }

  function KindWeight(kind: string): WMItem -> nat {
    (item: WMItem) => if item.kind == kind then 1 else 0
  }

  ghost predicate OneOfEachKind(items: seq<WMItem>) {
    forall kind :: IsSingleKind(kind) ==> Sum(KindWeight(kind), items) <= 1
  }

  // ---------- What an eviction may leave ----------

  /** Within the item limit, and within the token budget (if there is one) or down to one item. */
  ghost predicate Fits(items: seq<WMItem>, capacity: nat, tokenBudget: int) {
    && |items| <= capacity
    && (tokenBudget > 0 ==> |items| <= 1 || TotalTokens(items) <= tokenBudget)
  }

  /** Nothing left out outranks anything kept. */
  ghost predicate TopSelection(candidates: multiset<WMItem>, kept: multiset<WMItem>) {
    && kept <= candidates
    && forall e, k :: e in candidates - kept && k in kept ==> e.priority <= k.priority
  }

  /** `last` ranks highest among the evicted and could not have stayed. */
  ghost predicate LastEvicted(candidates: multiset<WMItem>, kept: seq<WMItem>, last: WMItem,
                              capacity: nat, tokenBudget: int) {
    && last in candidates - multiset(kept)
    && (forall e :: e in candidates - multiset(kept) ==> e.priority <= last.priority)
    && !Fits(kept + [last], capacity, tokenBudget)
  }

  /** The kept items fit, are a top selection of the candidates, and are no fewer than needed. */
  ghost predicate EvictionOf(candidates: seq<WMItem>, kept: seq<WMItem>, capacity: nat, tokenBudget: int) {
    && Fits(kept, capacity, tokenBudget)
    && TopSelection(multiset(candidates), multiset(kept))
    && (multiset(kept) == multiset(candidates)
        || exists last :: LastEvicted(multiset(candidates), kept, last, capacity, tokenBudget))
  }

  ghost predicate DistinctPriorities(items: seq<WMItem>) {
    forall i, j :: 0 <= i < j < |items| ==> items[i].priority != items[j].priority
  }

  lemma {:induction false} DistinctOnce(items: seq<WMItem>, x: WMItem, y: WMItem)
    requires DistinctPriorities(items) && x in items && y in items && x.priority == y.priority
    ensures x == y && multiset(items)[x] == 1
  {
    var i :| 0 <= i < |items| && items[i] == x;
    RemoveAtMultiset(items, i);
    var others := RemoveAt(items, i);
    forall k | 0 <= k < |others| ensures others[k].priority != x.priority {
      assert others[k] == items[if k < i then k else k + 1];
    }
    assert x !in others;
  }

  lemma {:induction false} FitsMonotone(a: seq<WMItem>, b: seq<WMItem>, capacity: nat, tokenBudget: int)
    requires multiset(a) <= multiset(b) && Fits(b, capacity, tokenBudget)
    ensures Fits(a, capacity, tokenBudget)
  {
    SumMonotone(TokenWeight, a, b);
    assert multiset(b) == multiset(a) + (multiset(b) - multiset(a));
    assert |multiset(a)| == |a| && |multiset(b)| == |b|;
  }

  /** With distinct priorities, one of two top selections contains the other. */
  lemma {:induction false} TopSelectionsNest(candidates: seq<WMItem>, a: multiset<WMItem>, b: multiset<WMItem>,
                                             x: WMItem)
    requires DistinctPriorities(candidates)
    requires TopSelection(multiset(candidates), a) && TopSelection(multiset(candidates), b)
    requires x in a && x !in b
    ensures b <= a
  {
    forall y ensures b[y] <= a[y] {
      if b[y] > a[y] {
        DistinctOnce(candidates, y, y);
        assert y in multiset(candidates) - a && x in multiset(candidates) - b;
        DistinctOnce(candidates, x, y);
        assert false;
      }
    }
  }

  lemma {:induction false} SmallerIsTooSmall(candidates: seq<WMItem>, a: seq<WMItem>, b: seq<WMItem>, capacity: nat,
                                             tokenBudget: int)
    requires DistinctPriorities(candidates)
    requires EvictionOf(candidates, a, capacity, tokenBudget) && EvictionOf(candidates, b, capacity, tokenBudget)
    requires multiset(a) <= multiset(b)
    ensures multiset(a) == multiset(b)
  {
    var all := multiset(candidates);
    if multiset(a) != multiset(b) {
      var last :| LastEvicted(all, a, last, capacity, tokenBudget);
      var y :| y in multiset(b) && multiset(a)[y] < multiset(b)[y];
      assert y in all - multiset(a);
      DistinctOnce(candidates, last, last);
      if last.priority <= y.priority {
        DistinctOnce(candidates, last, y);
      }
      assert last in multiset(b) || last in all - multiset(b);
      assert last in multiset(b);
      assert multiset(a + [last]) <= multiset(b);
      FitsMonotone(a + [last], b, capacity, tokenBudget);
    }
  }

  /** With distinct priorities the specification leaves no choice of survivors. */
  lemma {:induction false} EvictionUnique(candidates: seq<WMItem>, a: seq<WMItem>, b: seq<WMItem>, capacity: nat,
                                          tokenBudget: int)
    requires DistinctPriorities(candidates)
    requires EvictionOf(candidates, a, capacity, tokenBudget) && EvictionOf(candidates, b, capacity, tokenBudget)
    ensures multiset(a) == multiset(b)
  {
    var ma, mb := multiset(a), multiset(b);
    if x :| x in ma && x !in mb {
      TopSelectionsNest(candidates, ma, mb, x);
      SmallerIsTooSmall(candidates, b, a, capacity, tokenBudget);
    } else {
      forall x ensures ma[x] <= mb[x] {
        if x in ma {
          DistinctOnce(candidates, x, x);
        }
      }
      SmallerIsTooSmall(candidates, a, b, capacity, tokenBudget);
    }
  }

  // ---------- The salience filter, item by item ----------

  datatype Gated = Dropped | Kept(item: WMItem)

  function Gate(item: WMItem, preserveKinds: set<string>, floor: real, boost: real, relevant: string -> bool): Gated {
    if item.kind in preserveKinds || item.priority >= floor then Kept(item)
    else if relevant(item.content) then
      Kept(item.(priority := if item.priority + boost < 1.0 then item.priority + boost else 1.0))
    else Dropped
  }

  function GateAll(items: seq<WMItem>, preserveKinds: set<string>, floor: real, boost: real,
                   relevant: string -> bool): seq<WMItem>
  {
    if items == [] then []
    else
      var rest := GateAll(items[1..], preserveKinds, floor, boost, relevant);
      match Gate(items[0], preserveKinds, floor, boost, relevant)
      case Dropped => rest
      case Kept(item) => [item] + rest
  }

  /** The item is spared, and is `x`. */
  function SparedAs(x: WMItem, preserveKinds: set<string>, floor: real): WMItem -> bool {
    (was: WMItem) => was == x && (was.kind in preserveKinds || was.priority >= floor)
  }

  /** The item is not spared but relevant, and is `x` once its priority is raised, to 1 at most. */
  function BoostedTo(x: WMItem, preserveKinds: set<string>, floor: real, boost: real, relevant: string -> bool)
    : WMItem -> bool
  {
    (was: WMItem) =>
      && was.kind !in preserveKinds && was.priority < floor && relevant(was.content)
      && x.kind == was.kind && x.content == was.content && x.createdAt == was.createdAt
      && x.priority == if was.priority + boost < 1.0 then was.priority + boost else 1.0
  }

  /** The item is neither spared nor relevant. */
  function Unwanted(preserveKinds: set<string>, floor: real, relevant: string -> bool): WMItem -> bool {
    (was: WMItem) => was.kind !in preserveKinds && was.priority < floor && !relevant(was.content)
  }

  /** How often each item is there after the filter, by the items there were before. */
  lemma {:induction false} GateExactly(items: seq<WMItem>, preserveKinds: set<string>, floor: real, boost: real,
                                       relevant: string -> bool, x: WMItem)
    ensures var kept := GateAll(items, preserveKinds, floor, boost, relevant);
            multiset(kept)[x] == Rows(items, SparedAs(x, preserveKinds, floor))
                                 + Rows(items, BoostedTo(x, preserveKinds, floor, boost, relevant))
  {
    if items != [] {
      var front, last := items[..|items| - 1], items[|items| - 1];
      GateExactly(front, preserveKinds, floor, boost, relevant, x);
      assert items == front + [last];
      GateAllAppend(front, last, preserveKinds, floor, boost, relevant);
      GateLast(last, preserveKinds, floor, boost, relevant, x);
      hide GateAll, SparedAs, BoostedTo, Rows;
      RowsAppend(items, SparedAs(x, preserveKinds, floor));
      RowsAppend(items, BoostedTo(x, preserveKinds, floor, boost, relevant));
    }
  }

  lemma {:induction false} GateLast(item: WMItem, preserveKinds: set<string>, floor: real, boost: real,
                                    relevant: string -> bool, x: WMItem)
    ensures multiset(GateAll([item], preserveKinds, floor, boost, relevant))[x] ==
            (if SparedAs(x, preserveKinds, floor)(item) then 1 else 0)
            + (if BoostedTo(x, preserveKinds, floor, boost, relevant)(item) then 1 else 0)
  {
    assert [item][1..] == [];
    assert GateAll([], preserveKinds, floor, boost, relevant) == [];
  }

  lemma {:induction false} GateDropsExactly(items: seq<WMItem>, preserveKinds: set<string>, floor: real, boost: real,
                                            relevant: string -> bool)
    ensures |GateAll(items, preserveKinds, floor, boost, relevant)| ==
            |items| - Rows(items, Unwanted(preserveKinds, floor, relevant))
  {
    if items != [] {
      var front, last := items[..|items| - 1], items[|items| - 1];
      GateDropsExactly(front, preserveKinds, floor, boost, relevant);
      assert items == front + [last];
      GateAllAppend(front, last, preserveKinds, floor, boost, relevant);
      RowsAppend(items, Unwanted(preserveKinds, floor, relevant));
    }
  }

  lemma {:induction false} GateAllAppend(a: seq<WMItem>, x: WMItem, preserveKinds: set<string>, floor: real,
                                         boost: real, relevant: string -> bool)
    ensures GateAll(a + [x], preserveKinds, floor, boost, relevant) ==
            GateAll(a, preserveKinds, floor, boost, relevant) + GateAll([x], preserveKinds, floor, boost, relevant)
  {
    if a == [] {
      assert a + [x] == [x];
    } else {
      GateAllAppend(a[1..], x, preserveKinds, floor, boost, relevant);
      assert (a + [x])[1..] == a[1..] + [x];
    }
  }

  /** The filter changes no kind and no content, so what it keeps weighs no more than before. */
  lemma {:induction false} GateAllWeighs(weight: WMItem -> nat, items: seq<WMItem>, preserveKinds: set<string>,
                                         floor: real, boost: real, relevant: string -> bool)
    requires forall x: WMItem, p: real :: weight(x.(priority := p)) == weight(x)
    ensures Sum(weight, GateAll(items, preserveKinds, floor, boost, relevant)) <= Sum(weight, items)
    ensures |GateAll(items, preserveKinds, floor, boost, relevant)| <= |items|
  {
    if items != [] {
      GateAllWeighs(weight, items[1..], preserveKinds, floor, boost, relevant);
    }
  }

  /** A kept item never loses priority exactly when it was spared, or is at most 1 and the boost not negative. */
  lemma {:induction false} GateNeverLowers(item: WMItem, preserveKinds: set<string>, floor: real, boost: real,
                                           relevant: string -> bool)
    requires Gate(item, preserveKinds, floor, boost, relevant).Kept?
    ensures Gate(item, preserveKinds, floor, boost, relevant).item.priority >= item.priority <==>
            item.kind in preserveKinds || item.priority >= floor || (item.priority <= 1.0 && boost >= 0.0)
  {
  }

  /** `now` is `was`, with its priority possibly raised. */
  predicate RaisedFrom(now: WMItem, was: WMItem) {
    now == was.(priority := now.priority) && now.priority >= was.priority
  }

  lemma {:induction false} GateAllRaises(items: seq<WMItem>, preserveKinds: set<string>, floor: real, boost: real,
                                         relevant: string -> bool, k: nat)
    requires floor <= 1.0 && boost >= 0.0 && k < |GateAll(items, preserveKinds, floor, boost, relevant)|
    ensures exists was :: was in items && RaisedFrom(GateAll(items, preserveKinds, floor, boost, relevant)[k], was)
  {
    var kept := GateAll(items, preserveKinds, floor, boost, relevant);
    var g := Gate(items[0], preserveKinds, floor, boost, relevant);
    if g.Kept? && k == 0 {
      assert RaisedFrom(kept[0], items[0]);
    } else {
      GateAllRaises(items[1..], preserveKinds, floor, boost, relevant, if g.Kept? then k - 1 else k);
      var was :| was in items[1..] && RaisedFrom(kept[k], was);
      assert was in items;
    }
  }

  // ---------- Kinds ----------

  function WithoutKind(items: seq<WMItem>, kind: string): seq<WMItem> {
    Filter(items, (x: WMItem) => x.kind != kind)
  }

  function Filter(items: seq<WMItem>, keep: WMItem -> bool): seq<WMItem> {
    if items == [] then []
    else (if keep(items[0]) then [items[0]] else []) + Filter(items[1..], keep)
  }

  lemma {:induction false} FilterContents(items: seq<WMItem>, keep: WMItem -> bool)
    ensures multiset(Filter(items, keep)) <= multiset(items)
    ensures forall x :: x in Filter(items, keep) <==> x in items && keep(x)
  {
    if items != [] {
      FilterContents(items[1..], keep);
      assert items == [items[0]] + items[1..];
    }
  }

  lemma {:induction false} NoneOfKind(items: seq<WMItem>, kind: string)
    requires forall x :: x in items ==> x.kind != kind
    ensures Sum(KindWeight(kind), items) == 0
  {
    if items != [] {
      NoneOfKind(items[1..], kind);
    }
  }

  lemma {:induction false} KeepsOneOfEachKind(a: seq<WMItem>, b: seq<WMItem>)
    requires multiset(a) <= multiset(b) && OneOfEachKind(b)
    ensures OneOfEachKind(a)
  {
    forall kind | IsSingleKind(kind) ensures Sum(KindWeight(kind), a) <= 1 {
      SumMonotone(KindWeight(kind), a, b);
    }
  }

  /** The collection from which `add` evicts: the old items, those of a replaced kind left out, and the new one. */
  function Candidates(items: seq<WMItem>, item: WMItem): seq<WMItem> {
    (if IsSingleKind(item.kind) then WithoutKind(items, item.kind) else items) + [item]
  }

  lemma {:induction false} FilterCounts(items: seq<WMItem>, keep: WMItem -> bool, x: WMItem)
    ensures multiset(Filter(items, keep))[x] == if keep(x) then multiset(items)[x] else 0
  {
    if items != [] {
      FilterCounts(items[1..], keep, x);
      assert items == [items[0]] + items[1..];
    }
  }

  /** The new item is added, and nothing goes but the items of a single-item kind it shares. */
  lemma {:induction false} CandidatesExactly(items: seq<WMItem>, item: WMItem, x: WMItem)
    ensures multiset(Candidates(items, item))[x] ==
            (if item.kind != "" && item.kind != "meta_reflection" && x.kind == item.kind then 0 else multiset(items)[x])
            + (if x == item then 1 else 0)
  {
    FilterCounts(items, (y: WMItem) => y.kind != item.kind, x);
  }

  lemma {:induction false} CandidatesKeepKinds(items: seq<WMItem>, item: WMItem)
    requires OneOfEachKind(items)
    ensures OneOfEachKind(Candidates(items, item))
  {
    var base := if IsSingleKind(item.kind) then WithoutKind(items, item.kind) else items;
    FilterContents(items, (x: WMItem) => x.kind != item.kind);
    KeepsOneOfEachKind(base, items);
    forall kind | IsSingleKind(kind) ensures Sum(KindWeight(kind), Candidates(items, item)) <= 1 {
      SumRemove(KindWeight(kind), base + [item], |base|);
      assert RemoveAt(base + [item], |base|) == base;
      if kind == item.kind {
        NoneOfKind(base, kind);
      }
    }
  }

  // ---------- The store ----------

  /** Moving a lowest item from the kept to the evicted keeps the kept a top selection. */
  lemma {:induction false} EvictOne(candidates: multiset<WMItem>, before: seq<WMItem>, after: seq<WMItem>, out: WMItem,
                                    capacity: nat, tokenBudget: int)
    requires TopSelection(candidates, multiset(before)) && !Fits(before, capacity, tokenBudget)
    requires multiset(before) == multiset(after) + multiset{out}
    requires forall x :: x in before ==> out.priority <= x.priority
    ensures TopSelection(candidates, multiset(after))
    ensures LastEvicted(candidates, after, out, capacity, tokenBudget)
  {
    hide Fits;
    var left := candidates - multiset(after);
    assert left == (candidates - multiset(before)) + multiset{out};
    assert out in multiset(before);
    forall x | x in multiset(after) ensures out.priority <= x.priority {
      assert x in multiset(before);
    }
    if Fits(after + [out], capacity, tokenBudget) {
      assert multiset(before) == multiset(after + [out]);
      FitsMonotone(before, after + [out], capacity, tokenBudget);
    }
  }

  class WorkingMemory {
    const capacity: nat
    const tokenBudget: int
    var items: seq<WMItem>

    ghost predicate Valid()
      reads this
    {
      IsHeap(items) && Fits(items, capacity, tokenBudget) && OneOfEachKind(items)
    }

    constructor (capacity: nat, tokenBudget: int)
      ensures Valid() && items == []
      ensures this.capacity == capacity && this.tokenBudget == tokenBudget
    {
      this.capacity, this.tokenBudget := capacity, tokenBudget;
      items := [];
    }

    method ReplaceItems(newItems: seq<WMItem>)
      modifies this`items
      ensures IsHeap(items) && multiset(items) == multiset(newItems) && |items| == |newItems|
    {
      items := Heapify(newItems);
    }

    method Add(item: WMItem)
      requires Valid()
      modifies this`items
      ensures Valid()
      ensures EvictionOf(Candidates(old(items), item), items, capacity, tokenBudget)
    {
      ghost var candidates := Candidates(items, item);
      CandidatesKeepKinds(items, item);
      if IsSingleKind(item.kind) {
        ReplaceItems(WithoutKind(items, item.kind));
      }
      items := Push(items, item);
      assert multiset(items) == multiset(candidates);
      ghost var all := multiset(candidates);
      while |items| > capacity
        invariant IsHeap(items) && TopSelection(all, multiset(items))
        invariant multiset(items) == all || exists last :: LastEvicted(all, items, last, capacity, tokenBudget)
      {
        ghost var before := items;
        var out;
        items, out := Pop(items);
        EvictOne(all, before, items, out, capacity, tokenBudget);
      }
      if tokenBudget > 0 {
        while |items| > 1 && TotalTokens(items) > tokenBudget
          invariant IsHeap(items) && TopSelection(all, multiset(items)) && |items| <= capacity
          invariant multiset(items) == all || exists last :: LastEvicted(all, items, last, capacity, tokenBudget)
        {
          ghost var before := items;
          var out;
          items, out := Pop(items);
          EvictOne(all, before, items, out, capacity, tokenBudget);
        }
      }
      KeepsOneOfEachKind(items, candidates);
    }

    /** Keep only `preserveKinds` if any are named, else drop `kinds` if any are named, else drop everything. */
    method Clear(preserveKinds: set<string>, kinds: set<string>)
      requires Valid()
      modifies this`items
      ensures Valid()
      ensures preserveKinds != {} ==>
                forall x :: multiset(items)[x] == if x.kind in preserveKinds then multiset(old(items))[x] else 0
      ensures preserveKinds == {} && kinds != {} ==>
                forall x :: multiset(items)[x] == if x.kind in kinds then 0 else multiset(old(items))[x]
      ensures preserveKinds == {} && kinds == {} ==> items == []
    {
      ghost var before := items;
      if preserveKinds != {} {
        FilterContents(items, (x: WMItem) => x.kind in preserveKinds);
        forall x {
          FilterCounts(items, (y: WMItem) => y.kind in preserveKinds, x);
        }
        ReplaceItems(Filter(items, (x: WMItem) => x.kind in preserveKinds));
      } else if kinds != {} {
        FilterContents(items, (x: WMItem) => x.kind !in kinds);
        forall x {
          FilterCounts(items, (y: WMItem) => y.kind !in kinds, x);
        }
        ReplaceItems(Filter(items, (x: WMItem) => x.kind !in kinds));
      } else {
        items := [];
      }
      FitsMonotone(items, before, capacity, tokenBudget);
      KeepsOneOfEachKind(items, before);
    }

    method SalienceGate(preserveKinds: set<string>, floor: real, boost: real, relevant: string -> bool)
      returns (dropped: nat)
      requires Valid()
      modifies this`items
      ensures Valid()
      ensures forall x :: multiset(items)[x] ==
                          Rows(old(items), SparedAs(x, preserveKinds, floor))
                          + Rows(old(items), BoostedTo(x, preserveKinds, floor, boost, relevant))
      ensures dropped == Rows(old(items), Unwanted(preserveKinds, floor, relevant))
      ensures dropped + |items| == |old(items)|
    {
      var kept: seq<WMItem> := [];
      dropped := 0;
      var boostedAny := false;
      for i := 0 to |items|
        invariant items == old(items)
        invariant kept == GateAll(items[..i], preserveKinds, floor, boost, relevant)
        invariant dropped + |kept| == i
        invariant dropped == 0 && !boostedAny ==> kept == items[..i]
      {
        GateAllAppend(items[..i], items[i], preserveKinds, floor, boost, relevant);
        assert items[..i] + [items[i]] == items[..i + 1];
        var item := items[i];
        if item.kind in preserveKinds {
          kept := kept + [item];
        } else if item.priority >= floor {
          kept := kept + [item];
        } else if relevant(item.content) {
          var raised := if item.priority + boost < 1.0 then item.priority + boost else 1.0;
          kept := kept + [item.(priority := raised)];
          boostedAny := true;
        } else {
          dropped := dropped + 1;
        }
      }
      assert items[..|items|] == items;
      GateKeepsLimits(items, kept, preserveKinds, floor, boost, relevant, capacity, tokenBudget);
      GateDropsExactly(items, preserveKinds, floor, boost, relevant);
      forall x {
        GateExactly(items, preserveKinds, floor, boost, relevant, x);
      }
      if dropped > 0 || boostedAny {
        ReplaceItems(kept);
        FitsMonotone(items, kept, capacity, tokenBudget);
        KeepsOneOfEachKind(items, kept);
      }
    }
  }

  lemma {:induction false} GateKeepsLimits(items: seq<WMItem>, kept: seq<WMItem>, preserveKinds: set<string>,
                                           floor: real, boost: real, relevant: string -> bool, capacity: nat,
                                           tokenBudget: int)
    requires Fits(items, capacity, tokenBudget) && OneOfEachKind(items)
    requires kept == GateAll(items, preserveKinds, floor, boost, relevant)
    ensures Fits(kept, capacity, tokenBudget) && OneOfEachKind(kept)
  {
    GateAllWeighs(TokenWeight, items, preserveKinds, floor, boost, relevant);
    forall kind | IsSingleKind(kind) ensures Sum(KindWeight(kind), kept) <= 1 {
      GateAllWeighs(KindWeight(kind), items, preserveKinds, floor, boost, relevant);
    }
  }
}
