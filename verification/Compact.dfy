/** `store/compact.py`: bounding the size of a nested runtime value before it is stored. */
module Compact {
  const RUNTIME_TEXT_MAX_CHARS := 12_000
  const MAX_ITEMS := 80
  const MAX_DEPTH := 8
  const OMITTED_KEY := "_persistent_omitted_items"
  const MARKER_LABEL := "runtime store"

  /** A dict key: its `str()` form, and a tag that tells keys with the same form apart (0 for a string). */
  datatype Key = Key(text: string, tag: nat)

  datatype Entry = Entry(key: Key, value: Value)

  /** A runtime value. Lists, tuples and sets are `Items`; a dict is its entries in insertion order;
      numbers, booleans and null are `Scalar`. */
  datatype Value = Text(text: string) | Scalar(n: int) | Dict(entries: seq<Entry>) | Items(items: seq<Value>)

  /** The parts of the runtime the compaction calls: the SHA-256 hex digest and the JSON preview of a value. */
  datatype Runtime = Runtime(digest: string -> string, preview: Value -> string) {
    /** A digest has 64 characters, and a Python string is shorter than 2^63. */
    ghost predicate Valid() {
      (forall s :: |digest(s)| == 64) && (forall v :: |preview(v)| < MAX_TEXT)
    }
  }

  const MAX_TEXT := 0x8000_0000_0000_0000

  // ---------- Text ----------

  const DIGITS := "0123456789"

  function Decimal(n: nat): (s: string)
    ensures |s| >= 1
  {
    if n < 10 then [DIGITS[n]] else Decimal(n / 10) + [DIGITS[n % 10]]
  }

  function PowerOfTen(k: nat): (p: nat)
    ensures p >= 1
  {
    if k == 0 then 1 else 10 * PowerOfTen(k - 1)
  }

  lemma {:induction false} DecimalLength(n: nat, k: nat)
    requires k >= 1 && n < PowerOfTen(k)
    ensures |Decimal(n)| <= k
  {
    if n >= 10 {
      assert k > 1;
      DecimalLength(n / 10, k - 1);
    }
  }

  function Marker(text: string, rt: Runtime): string {
    "\n...[" + MARKER_LABEL + " truncated chars=" + Decimal(|text|) + " sha256=" + rt.digest(text) + "]...\n"
  }

  function CompactText(text: string, limit: nat, rt: Runtime): string {
    if |text| <= limit then text
    else
      var marker := Marker(text, rt);
      var remaining := if limit - |marker| > 0 then limit - |marker| else 0;
      if remaining <= 0 then marker[..limit]
      else
        var head := if remaining / 2 > 1 then remaining / 2 else 1;
        var tail := if remaining - head > 1 then remaining - head else 1;
        text[..head] + marker + text[|text| - tail..]
  }

  /** Cut text keeps the limit, except that one character of room is used twice. */
  lemma {:induction false} CutTextLength(text: string, limit: nat, rt: Runtime)
    requires |text| > limit
    ensures |CompactText(text, limit, rt)| == if limit - |Marker(text, rt)| == 1 then limit + 1 else limit
  {
  }

  /** `cut` is the first `head` characters of the text, the marker, and characters from the end of the text. */
  predicate IsCut(text: string, marker: string, cut: string, head: nat) {
    && 1 <= head && head + |marker| < |cut| && |cut| - |marker| <= |text|
    && cut[..head] == text[..head]
    && cut[head..head + |marker|] == marker
    && cut[head + |marker|..] == text[|text| - (|cut| - head - |marker|)..]
  }

  /** With at least two characters of room, cut text is a prefix, the marker and a suffix of the original. */
  lemma {:induction false} CutTextShape(text: string, limit: nat, rt: Runtime)
    requires |text| > limit && limit - |Marker(text, rt)| >= 2
    ensures exists head :: IsCut(text, Marker(text, rt), CompactText(text, limit, rt), head)
  {
    var marker, head := Marker(text, rt), (limit - |Marker(text, rt)|) / 2;
    CutTextParts(text, limit, rt);
    hide *;
    CutParts(text, text[..head], marker, text[|text| - (limit - |marker| - head)..]);
  }

  /** The branch that keeps both ends, with its maxima resolved. */
  lemma {:induction false} CutTextParts(text: string, limit: nat, rt: Runtime)
    requires |text| > limit && limit - |Marker(text, rt)| >= 2
    ensures var marker := Marker(text, rt);
            var head := (limit - |marker|) / 2;
            && 1 <= head && head < limit - |marker|
            && CompactText(text, limit, rt) == text[..head] + marker + text[|text| - (limit - |marker| - head)..]
  {
    hide Marker;
  }

  lemma {:induction false} CutParts(text: string, a: string, marker: string, b: string)
    requires 1 <= |a| && 1 <= |b| && |a| + |b| <= |text|
    requires a == text[..|a|] && b == text[|text| - |b|..]
    ensures IsCut(text, marker, a + marker + b, |a|)
  {
    var cut := a + marker + b;
    assert cut[..|a|] == a;
    assert cut[|a|..|a| + |marker|] == marker;
    assert cut[|a| + |marker|..] == b;
  }

  lemma {:induction false} MarkerFits(text: string, rt: Runtime)
    requires rt.Valid() && |text| < MAX_TEXT
    ensures |Marker(text, rt)| <= 200
  {
    assert PowerOfTen(9) == 1_000_000_000;
    assert PowerOfTen(19) == 10_000_000_000_000_000_000;
    DecimalLength(|text|, 19);
  }

  /** Stored text is within the limit, and compacting it again changes nothing. */
  lemma {:induction false} StoredTextBounded(text: string, rt: Runtime)
    requires rt.Valid() && |text| < MAX_TEXT
    ensures |CompactText(text, RUNTIME_TEXT_MAX_CHARS, rt)| <= RUNTIME_TEXT_MAX_CHARS
  {
    MarkerFits(text, rt);
    if |text| > RUNTIME_TEXT_MAX_CHARS {
      CutTextLength(text, RUNTIME_TEXT_MAX_CHARS, rt);
    }
  }

  // ---------- Values ----------

  /** Dict assignment: an existing key keeps its place. */
  function Put(entries: seq<Entry>, key: string, value: Value): seq<Entry> {
    if entries == [] then [Entry(Key(key, 0), value)]
    else if entries[0].key == Key(key, 0) then [Entry(Key(key, 0), value)] + entries[1..]
    else [entries[0]] + Put(entries[1..], key, value)
  }

  function Omitted(n: int): Value {
    Dict([Entry(Key(OMITTED_KEY, 0), Scalar(n))])
  }

  const HEAD_COUNT := 39
  const TAIL_COUNT := 40

  function Compact(v: Value, depth: nat, rt: Runtime): Value
    decreases v, 1
  {
    match v
    case Text(s) => Text(CompactText(s, RUNTIME_TEXT_MAX_CHARS, rt))
    case Scalar(_) => v
    case Dict(entries) =>
      if depth >= MAX_DEPTH then Text(CompactText(rt.preview(v), RUNTIME_TEXT_MAX_CHARS, rt))
      else
        var kept := CompactEntries(if |entries| <= MAX_ITEMS then entries else entries[..MAX_ITEMS], depth, rt);
        var omitted := |entries| - |kept|;
        Dict(if omitted > 0 then Put(kept, OMITTED_KEY, Scalar(omitted)) else kept)
    case Items(items) =>
      if depth >= MAX_DEPTH then Text(CompactText(rt.preview(v), RUNTIME_TEXT_MAX_CHARS, rt))
      else if |items| <= MAX_ITEMS then Items(CompactAll(items, depth, rt))
      else
        Items(CompactAll(items[..HEAD_COUNT], depth, rt)
              + [Omitted(|items| - HEAD_COUNT - TAIL_COUNT)]
              + CompactAll(items[|items| - TAIL_COUNT..], depth, rt))
  }

  function CompactAll(items: seq<Value>, depth: nat, rt: Runtime): (r: seq<Value>)
    ensures |r| == |items|
    decreases items, 0
  {
    if items == [] then [] else [Compact(items[0], depth + 1, rt)] + CompactAll(items[1..], depth, rt)
  }

  /** The entries in order, each put under the `str()` of its key. */
  function CompactEntries(entries: seq<Entry>, depth: nat, rt: Runtime): seq<Entry>
    decreases entries, 0
  {
    if entries == [] then []
    else
      var last := entries[|entries| - 1];
      Put(CompactEntries(entries[..|entries| - 1], depth, rt), last.key.text, CompactEntry(last, depth, rt))
  }

  function CompactEntry(e: Entry, depth: nat, rt: Runtime): Value
    decreases e, 0
  {
    Compact(e.value, depth + 1, rt)
  }

  method CompactRuntimeValue(v: Value, depth: nat, rt: Runtime) returns (r: Value)
    ensures r == Compact(v, depth, rt)
    ensures rt.Valid() && Storable(v) && PlainKeys(v) ==> (r == v <==> Small(v, depth))
    decreases v, 1
  {
    if rt.Valid() && Storable(v) && PlainKeys(v) {
      UnchangedExactly(v, depth, rt);
    }
    hide Small, PlainKeys, Storable;
    if v.Text? {
      r := Text(CompactText(v.text, RUNTIME_TEXT_MAX_CHARS, rt));
    } else if v.Dict? {
      if depth >= MAX_DEPTH {
        r := Text(CompactText(rt.preview(v), RUNTIME_TEXT_MAX_CHARS, rt));
      } else {
        r := CompactDict(v.entries, depth, rt);
      }
    } else if v.Items? {
      if depth >= MAX_DEPTH {
        r := Text(CompactText(rt.preview(v), RUNTIME_TEXT_MAX_CHARS, rt));
      } else {
        r := CompactList(v.items, depth, rt);
      }
    } else {
      r := v;
    }
  }

  /** The list branch: every item, or the head, the count of what is left out, and the tail. */
  method CompactList(items: seq<Value>, depth: nat, rt: Runtime) returns (r: Value)
    requires depth < MAX_DEPTH
    ensures r == Compact(Items(items), depth, rt)
    decreases items, 1
  {
    hide Compact, CompactAll, Omitted;
    if |items| <= MAX_ITEMS {
      ShortListShape(items, depth, rt);
      var all := CompactSlice(items, 0, |items|, depth, rt);
      assert items[0..|items|] == items;
      return Items(all);
    }
    var retained := if MAX_ITEMS - 1 > 2 then MAX_ITEMS - 1 else 2;
    var headCount := if retained / 2 > 1 then retained / 2 else 1;
    var tailCount := if retained - headCount > 1 then retained - headCount else 1;
    var omitted := |items| - headCount - tailCount;
    CutListShape(items, depth, rt);
    var head := CompactSlice(items, 0, headCount, depth, rt);
    var tail := CompactSlice(items, |items| - tailCount, |items|, depth, rt);
    assert headCount == HEAD_COUNT && tailCount == TAIL_COUNT;
    assert items[0..headCount] == items[..HEAD_COUNT];
    assert items[|items| - tailCount..|items|] == items[|items| - TAIL_COUNT..];
    r := Items(head + [Omitted(omitted)] + tail);
  }

  /** The comprehension over a slice of the list. */
  method CompactSlice(items: seq<Value>, from: nat, to: nat, depth: nat, rt: Runtime) returns (out: seq<Value>)
    requires from <= to <= |items|
    ensures out == CompactAll(items[from..to], depth, rt)
    decreases items, 0
  {
    out := [];
    hide Compact;
    for i := from to to
      invariant |out| == i - from
      invariant forall k :: 0 <= k < |out| ==> out[k] == Compact(items[from + k], depth + 1, rt)
    {
      var value := CompactRuntimeValue(items[i], depth + 1, rt);
      out := out + [value];
    }
    AllIs(items[from..to], out, depth, rt);
  }

  lemma {:induction false} AllIs(items: seq<Value>, out: seq<Value>, depth: nat, rt: Runtime)
    requires |out| == |items| && forall k :: 0 <= k < |items| ==> out[k] == Compact(items[k], depth + 1, rt)
    ensures out == CompactAll(items, depth, rt)
  {
    hide Compact, CompactAll;
    forall k | 0 <= k < |items| ensures out[k] == CompactAll(items, depth, rt)[k] {
      AllAt(items, depth, rt, k);
    }
  }

  /** The dict branch. */
  method CompactDict(entries: seq<Entry>, depth: nat, rt: Runtime) returns (r: Value)
    requires depth < MAX_DEPTH
    ensures r == Compact(Dict(entries), depth, rt)
    decreases entries, 1
  {
    var visited := if |entries| <= MAX_ITEMS then |entries| else MAX_ITEMS;
    var compacted := CompactFirst(entries, visited, depth, rt);
    assert |entries| <= MAX_ITEMS ==> entries[..visited] == entries;
    DictShape(entries, depth, rt);
    hide Compact, CompactEntries, Put;
    var omitted := |entries| - |compacted|;
    if omitted > 0 {
      compacted := Put(compacted, OMITTED_KEY, Scalar(omitted));
    }
    r := Dict(compacted);
  }

  /** The loop that fills `compacted` entry by entry. */
  method CompactFirst(entries: seq<Entry>, n: nat, depth: nat, rt: Runtime) returns (compacted: seq<Entry>)
    requires n <= |entries|
    ensures compacted == CompactEntries(entries[..n], depth, rt)
    decreases entries, 0
  {
    compacted := [];
    assert CompactEntries([], depth, rt) == [];
    hide CompactEntries, CompactEntry, Put;
    for i := 0 to n
      invariant compacted == CompactEntries(entries[..i], depth, rt)
    {
      CompactEntriesStep(entries, i, depth, rt);
      var value := CompactRuntimeEntry(entries[i], depth, rt);
      compacted := Put(compacted, entries[i].key.text, value);
    }
  }

  lemma {:induction false} DictShape(entries: seq<Entry>, depth: nat, rt: Runtime)
    requires depth < MAX_DEPTH
    ensures var kept := CompactEntries(if |entries| <= MAX_ITEMS then entries else entries[..MAX_ITEMS], depth, rt);
            Compact(Dict(entries), depth, rt) ==
            Dict(if |entries| > |kept| then Put(kept, OMITTED_KEY, Scalar(|entries| - |kept|)) else kept)
  {
    hide CompactEntries, Put;
  }

  lemma {:induction false} CompactEntriesStep(entries: seq<Entry>, i: nat, depth: nat, rt: Runtime)
    requires i < |entries|
    ensures CompactEntries(entries[..i + 1], depth, rt) ==
            Put(CompactEntries(entries[..i], depth, rt), entries[i].key.text, CompactEntry(entries[i], depth, rt))
  {
    assert entries[..i + 1][..i] == entries[..i];
  }

  method CompactRuntimeEntry(e: Entry, depth: nat, rt: Runtime) returns (r: Value)
    ensures r == CompactEntry(e, depth, rt)
    decreases e, 0
  {
    r := CompactRuntimeValue(e.value, depth + 1, rt);
  }

  // ---------- Bounds on every output ----------

  /** Every string of the value has a length a Python string can have. */
  predicate Storable(v: Value) {
    match v
    case Text(s) => |s| < MAX_TEXT
    case Scalar(_) => true
    case Dict(entries) => forall i :: 0 <= i < |entries| ==> Storable(entries[i].value)
    case Items(items) => forall i :: 0 <= i < |items| ==> Storable(items[i])
  }

  /** Strings within the limit, lists of at most 80, mappings of at most 81, containers nested at most `nesting`
      deep. */
  predicate Bounded(v: Value, nesting: nat) {
    match v
    case Text(s) => |s| <= RUNTIME_TEXT_MAX_CHARS
    case Scalar(_) => true
    case Dict(entries) =>
      && nesting > 0 && |entries| <= MAX_ITEMS + 1
      && forall i :: 0 <= i < |entries| ==> Bounded(entries[i].value, nesting - 1)
    case Items(items) =>
      nesting > 0 && |items| <= MAX_ITEMS && forall i :: 0 <= i < |items| ==> Bounded(items[i], nesting - 1)
  }

  lemma {:induction false} PutBounded(entries: seq<Entry>, key: string, value: Value, nesting: nat)
    requires forall i :: 0 <= i < |entries| ==> Bounded(entries[i].value, nesting)
    requires Bounded(value, nesting)
    ensures |entries| <= |Put(entries, key, value)| <= |entries| + 1
    ensures forall i :: 0 <= i < |Put(entries, key, value)| ==> Bounded(Put(entries, key, value)[i].value, nesting)
  {
    if entries != [] && entries[0].key != Key(key, 0) {
      PutBounded(entries[1..], key, value, nesting);
    }
  }

  lemma {:induction false} EntriesBounded(entries: seq<Entry>, depth: nat, rt: Runtime)
    requires rt.Valid() && depth < MAX_DEPTH
    requires forall i :: 0 <= i < |entries| ==> Storable(entries[i].value)
    ensures |CompactEntries(entries, depth, rt)| <= |entries|
    ensures forall i :: 0 <= i < |CompactEntries(entries, depth, rt)| ==>
              Bounded(CompactEntries(entries, depth, rt)[i].value, MAX_DEPTH - depth)
    decreases entries, 0
  {
    if entries != [] {
      var last := entries[|entries| - 1];
      EntriesBounded(entries[..|entries| - 1], depth, rt);
      EntryBounded(last, depth, rt);
      PutBounded(CompactEntries(entries[..|entries| - 1], depth, rt), last.key.text,
                 CompactEntry(last, depth, rt), MAX_DEPTH - depth);
    }
  }

  lemma {:induction false} EntryBounded(e: Entry, depth: nat, rt: Runtime)
    requires rt.Valid() && depth < MAX_DEPTH && Storable(e.value)
    ensures Bounded(CompactEntry(e, depth, rt), MAX_DEPTH - depth)
    decreases e, 0
  {
    CompactBounded(e.value, depth + 1, rt);
  }

  lemma {:induction false} AllBounded(items: seq<Value>, depth: nat, rt: Runtime)
    requires rt.Valid() && depth < MAX_DEPTH
    requires forall i :: 0 <= i < |items| ==> Storable(items[i])
    ensures forall i :: 0 <= i < |items| ==> Bounded(CompactAll(items, depth, rt)[i], MAX_DEPTH - depth)
    decreases items, 0
  {
    if items != [] {
      CompactBounded(items[0], depth + 1, rt);
      AllBounded(items[1..], depth, rt);
    }
  }

  predicate AllWithin(items: seq<Value>, nesting: nat) {
    forall i :: 0 <= i < |items| ==> Bounded(items[i], nesting)
  }

  lemma {:induction false} ConcatWithin(a: seq<Value>, b: seq<Value>, nesting: nat)
    requires AllWithin(a, nesting) && AllWithin(b, nesting)
    ensures AllWithin(a + b, nesting)
  {
  }

  lemma {:induction false} CutListBounded(items: seq<Value>, depth: nat, rt: Runtime)
    requires |items| > MAX_ITEMS && depth < MAX_DEPTH
    requires AllWithin(CompactAll(items[..HEAD_COUNT], depth, rt), MAX_DEPTH - depth)
    requires AllWithin(CompactAll(items[|items| - TAIL_COUNT..], depth, rt), MAX_DEPTH - depth)
    ensures Bounded(Compact(Items(items), depth, rt), MAX_DEPTH + 1 - depth)
  {
    var head, tail := CompactAll(items[..HEAD_COUNT], depth, rt), CompactAll(items[|items| - TAIL_COUNT..], depth, rt);
    var mark := [Omitted(|items| - HEAD_COUNT - TAIL_COUNT)];
    ConcatWithin(head, mark, MAX_DEPTH - depth);
    ConcatWithin(head + mark, tail, MAX_DEPTH - depth);
  }

  lemma {:induction false} DictBounded(entries: seq<Entry>, kept: seq<Entry>, depth: nat, rt: Runtime)
    requires depth < MAX_DEPTH && |kept| <= MAX_ITEMS
    requires kept == CompactEntries(if |entries| <= MAX_ITEMS then entries else entries[..MAX_ITEMS], depth, rt)
    requires forall i :: 0 <= i < |kept| ==> Bounded(kept[i].value, MAX_DEPTH - depth)
    ensures Bounded(Compact(Dict(entries), depth, rt), MAX_DEPTH + 1 - depth)
  {
    var omitted := Scalar(|entries| - |kept|);
    assert Bounded(omitted, MAX_DEPTH - depth);
    hide *;
    DictShape(entries, depth, rt);
    if |entries| > |kept| {
      PutBounded(kept, OMITTED_KEY, omitted, MAX_DEPTH - depth);
      EntriesWithin(Put(kept, OMITTED_KEY, omitted), MAX_DEPTH - depth);
    } else {
      EntriesWithin(kept, MAX_DEPTH - depth);
    }
  }

  lemma {:induction false} EntriesWithin(entries: seq<Entry>, nesting: nat)
    requires |entries| <= MAX_ITEMS + 1 && forall i :: 0 <= i < |entries| ==> Bounded(entries[i].value, nesting)
    ensures Bounded(Dict(entries), nesting + 1)
  {
  }

  /** Whatever goes in, what comes out is bounded in every direction. */
  lemma {:induction false} CompactBounded(v: Value, depth: nat, rt: Runtime)
    requires rt.Valid() && Storable(v) && depth <= MAX_DEPTH
    ensures Bounded(Compact(v, depth, rt), MAX_DEPTH + 1 - depth)
    decreases v, 1
  {
    if depth >= MAX_DEPTH && (v.Dict? || v.Items?) {
      StoredTextBounded(rt.preview(v), rt);
    } else {
      match v
      case Text(s) => StoredTextBounded(s, rt);
      case Scalar(_) =>
      case Dict(entries) =>
        var visited := if |entries| <= MAX_ITEMS then entries else entries[..MAX_ITEMS];
        EntriesBounded(visited, depth, rt);
        DictBounded(entries, CompactEntries(visited, depth, rt), depth, rt);
      case Items(items) =>
        if |items| <= MAX_ITEMS {
          AllBounded(items, depth, rt);
        } else {
          AllBounded(items[..HEAD_COUNT], depth, rt);
          AllBounded(items[|items| - TAIL_COUNT..], depth, rt);
          CutListBounded(items, depth, rt);
        }
    }
  }

  lemma {:induction false} ShortListShape(items: seq<Value>, depth: nat, rt: Runtime)
    requires |items| <= MAX_ITEMS && depth < MAX_DEPTH
    ensures Compact(Items(items), depth, rt) == Items(CompactAll(items, depth, rt))
  {
  }

  lemma {:induction false} CutListShape(items: seq<Value>, depth: nat, rt: Runtime)
    requires |items| > MAX_ITEMS && depth < MAX_DEPTH
    ensures Compact(Items(items), depth, rt) ==
            Items(CompactAll(items[..HEAD_COUNT], depth, rt)
                  + [Omitted(|items| - HEAD_COUNT - TAIL_COUNT)]
                  + CompactAll(items[|items| - TAIL_COUNT..], depth, rt))
  {
    hide CompactAll, Omitted;
  }

  /** A cut list accounts for every original item: 39 from the front, 40 from the back, the rest counted. */
  lemma {:induction false} CutListAccounts(items: seq<Value>, depth: nat, rt: Runtime)
    requires |items| > MAX_ITEMS && depth < MAX_DEPTH
    ensures var out := Compact(Items(items), depth, rt);
            && out.Items? && |out.items| == MAX_ITEMS
            && (exists omitted :: out.items[HEAD_COUNT] == Omitted(omitted)
                  && HEAD_COUNT + TAIL_COUNT + omitted == |items|)
            && (forall i :: 0 <= i < HEAD_COUNT ==> out.items[i] == Compact(items[i], depth + 1, rt))
            && (forall i :: HEAD_COUNT < i < MAX_ITEMS ==>
                  out.items[i] == Compact(items[|items| - MAX_ITEMS + i], depth + 1, rt))
  {
    var out := Compact(Items(items), depth, rt);
    var head, tail := CompactAll(items[..HEAD_COUNT], depth, rt), CompactAll(items[|items| - TAIL_COUNT..], depth, rt);
    CutListShape(items, depth, rt);
    hide Compact, CompactAll;
    forall i | 0 <= i < HEAD_COUNT ensures out.items[i] == Compact(items[i], depth + 1, rt) {
      AllAt(items[..HEAD_COUNT], depth, rt, i);
    }
    forall i | HEAD_COUNT < i < MAX_ITEMS
      ensures out.items[i] == Compact(items[|items| - MAX_ITEMS + i], depth + 1, rt)
    {
      AllAt(items[|items| - TAIL_COUNT..], depth, rt, i - HEAD_COUNT - 1);
    }
    assert out.items[HEAD_COUNT] == Omitted(|items| - HEAD_COUNT - TAIL_COUNT);
  }

  // ---------- Compacting twice ----------

  ghost predicate DistinctNames(entries: seq<Entry>) {
    forall i, j :: 0 <= i < j < |entries| ==> entries[i].key.text != entries[j].key.text
  }

  /** No mapping has two keys with the same `str()`: so it is for string keys. */
  ghost predicate StringKeyed(v: Value) {
    match v
    case Text(_) => true
    case Scalar(_) => true
    case Dict(entries) => DistinctNames(entries) && forall i :: 0 <= i < |entries| ==> StringKeyed(entries[i].value)
    case Items(items) => forall i :: 0 <= i < |items| ==> StringKeyed(items[i])
  }

  predicate HasName(entries: seq<Entry>, name: string) {
    exists i :: 0 <= i < |entries| && entries[i].key.text == name
  }

  /** The mapping's omission count, if any, survives a second compaction: there is none, or it is one,
      or it overwrites an entry that is kept. */
  predicate CountSettles(entries: seq<Entry>) {
    |entries| <= MAX_ITEMS + 1 || HasName(entries[..MAX_ITEMS], OMITTED_KEY)
  }

  /** Entry `i` is kept and not overwritten by the omission count. */
  predicate Survives(entries: seq<Entry>, i: nat)
    requires i < |entries|
  {
    i < MAX_ITEMS && !(|entries| > MAX_ITEMS && entries[i].key.text == OMITTED_KEY)
  }

  /** Where a second compaction changes nothing. */
  ghost predicate Stable(v: Value, depth: nat)
  {
    match v
    case Text(_) => true
    case Scalar(_) => true
    case Dict(entries) =>
      depth >= MAX_DEPTH
      || (CountSettles(entries)
          && forall i :: 0 <= i < |entries| && Survives(entries, i) ==> Stable(entries[i].value, depth + 1))
    case Items(items) =>
      depth >= MAX_DEPTH
      || if |items| <= MAX_ITEMS
         then forall i :: 0 <= i < |items| ==> Stable(items[i], depth + 1)
         else
           && depth + 1 < MAX_DEPTH
           && (forall i :: 0 <= i < HEAD_COUNT ==> Stable(items[i], depth + 1))
           && (forall i :: |items| - TAIL_COUNT <= i < |items| ==> Stable(items[i], depth + 1))
  }

  lemma {:induction false} PutAbsent(entries: seq<Entry>, key: string, value: Value)
    requires forall i :: 0 <= i < |entries| ==> entries[i].key != Key(key, 0)
    ensures Put(entries, key, value) == entries + [Entry(Key(key, 0), value)]
  {
    if entries != [] {
      PutAbsent(entries[1..], key, value);
    }
  }

  lemma {:induction false} PutPresent(entries: seq<Entry>, j: nat, key: string, value: Value)
    requires j < |entries| && entries[j].key == Key(key, 0)
    requires forall i :: 0 <= i < j ==> entries[i].key != Key(key, 0)
    ensures Put(entries, key, value) == entries[j := Entry(Key(key, 0), value)]
  {
    if j > 0 {
      PutPresent(entries[1..], j - 1, key, value);
    }
  }

  lemma {:induction false} AllAt(items: seq<Value>, depth: nat, rt: Runtime, i: nat)
    requires i < |items|
    ensures CompactAll(items, depth, rt)[i] == Compact(items[i], depth + 1, rt)
  {
    if i > 0 {
      AllAt(items[1..], depth, rt, i - 1);
    }
  }

  /** With distinct names the entries are compacted one for one. */
  lemma {:induction false} EntriesAt(entries: seq<Entry>, depth: nat, rt: Runtime)
    requires DistinctNames(entries)
    ensures |CompactEntries(entries, depth, rt)| == |entries|
    ensures forall i :: 0 <= i < |entries| ==>
              CompactEntries(entries, depth, rt)[i] ==
              Entry(Key(entries[i].key.text, 0), Compact(entries[i].value, depth + 1, rt))
  {
    if entries != [] {
      var front, last := entries[..|entries| - 1], entries[|entries| - 1];
      EntriesAt(front, depth, rt);
      PutAbsent(CompactEntries(front, depth, rt), last.key.text, CompactEntry(last, depth, rt));
    }
  }

  ghost predicate Fixed(v: Value, depth: nat, rt: Runtime) {
    Compact(v, depth, rt) == v
  }

  ghost predicate Idempotent(v: Value, depth: nat, rt: Runtime) {
    Fixed(Compact(v, depth, rt), depth, rt)
  }

  ghost predicate AllFixed(items: seq<Value>, depth: nat, rt: Runtime) {
    forall i :: 0 <= i < |items| ==> Fixed(items[i], depth, rt)
  }

  ghost predicate AllIdempotent(items: seq<Value>, depth: nat, rt: Runtime) {
    forall i :: 0 <= i < |items| ==> Idempotent(items[i], depth, rt)
  }

  lemma {:induction false} FixedParts(a: seq<Value>, b: seq<Value>, depth: nat, rt: Runtime)
    ensures AllFixed(a + b, depth, rt) <==> AllFixed(a, depth, rt) && AllFixed(b, depth, rt)
  {
    if AllFixed(a + b, depth, rt) {
      forall i | 0 <= i < |b| ensures Fixed(b[i], depth, rt) {
        assert (a + b)[|a| + i] == b[i];
      }
      forall i | 0 <= i < |a| ensures Fixed(a[i], depth, rt) {
        assert (a + b)[i] == a[i];
      }
    }
  }

  lemma {:induction false} SecondPass(items: seq<Value>, depth: nat, rt: Runtime)
    ensures CompactAll(items, depth, rt) == items <==> AllFixed(items, depth + 1, rt)
  {
    forall i | 0 <= i < |items| ensures CompactAll(items, depth, rt)[i] == Compact(items[i], depth + 1, rt) {
      AllAt(items, depth, rt, i);
    }
  }

  lemma {:induction false} CompactedFixed(items: seq<Value>, depth: nat, rt: Runtime)
    ensures AllFixed(CompactAll(items, depth, rt), depth + 1, rt) <==> AllIdempotent(items, depth + 1, rt)
  {
    var out := CompactAll(items, depth, rt);
    forall i | 0 <= i < |items| ensures Fixed(out[i], depth + 1, rt) <==> Idempotent(items[i], depth + 1, rt) {
      AllAt(items, depth, rt, i);
    }
  }

  /** Entries under string keys pass through unchanged exactly when their values do. */
  lemma {:induction false} EntriesSecondPass(entries: seq<Entry>, depth: nat, rt: Runtime)
    requires DistinctNames(entries) && forall i :: 0 <= i < |entries| ==> entries[i].key.tag == 0
    ensures CompactEntries(entries, depth, rt) == entries <==> EntriesFixed(entries, depth + 1, rt)
  {
    EntriesAt(entries, depth, rt);
    var out := CompactEntries(entries, depth, rt);
    forall i | 0 <= i < |entries|
      ensures out[i] == entries[i] <==> Fixed(entries[i].value, depth + 1, rt)
    {
      assert out[i].key == entries[i].key;
    }
  }

  lemma {:induction false} OmittedFixed(n: int, depth: nat, rt: Runtime)
    ensures Fixed(Omitted(n), depth, rt) <==> depth < MAX_DEPTH
  {
    var e := Entry(Key(OMITTED_KEY, 0), Scalar(n));
    if depth < MAX_DEPTH {
      EntriesAt([e], depth, rt);
      assert CompactEntries([e], depth, rt) == [e];
    }
  }

  lemma {:induction false} ShortListIdempotence(items: seq<Value>, depth: nat, rt: Runtime)
    requires depth < MAX_DEPTH && |items| <= MAX_ITEMS
    ensures Idempotent(Items(items), depth, rt) <==> AllIdempotent(items, depth + 1, rt)
  {
    SecondPass(CompactAll(items, depth, rt), depth, rt);
    CompactedFixed(items, depth, rt);
  }

  lemma {:induction false} ShortListFixed(items: seq<Value>, depth: nat, rt: Runtime)
    requires depth < MAX_DEPTH && |items| <= MAX_ITEMS
    ensures Fixed(Items(items), depth, rt) <==> AllFixed(items, depth + 1, rt)
  {
    SecondPass(items, depth, rt);
  }

  lemma {:induction false} CutListIdempotence(items: seq<Value>, depth: nat, rt: Runtime)
    requires depth < MAX_DEPTH && |items| > MAX_ITEMS
    ensures Idempotent(Items(items), depth, rt) <==>
            && depth + 1 < MAX_DEPTH
            && AllIdempotent(items[..HEAD_COUNT], depth + 1, rt)
            && AllIdempotent(items[|items| - TAIL_COUNT..], depth + 1, rt)
  {
    CutListShape(items, depth, rt);
    hide *;
    PartsIdempotence(Items(items), items[..HEAD_COUNT], |items| - HEAD_COUNT - TAIL_COUNT,
                     items[|items| - TAIL_COUNT..], depth, rt);
  }

  lemma {:induction false} PartsIdempotence(v: Value, first: seq<Value>, omitted: int, last: seq<Value>, depth: nat,
                                            rt: Runtime)
    requires depth < MAX_DEPTH && |first| + 1 + |last| <= MAX_ITEMS
    requires Compact(v, depth, rt) ==
             Items(CompactAll(first, depth, rt) + [Omitted(omitted)] + CompactAll(last, depth, rt))
    ensures Idempotent(v, depth, rt) <==>
            depth + 1 < MAX_DEPTH && AllIdempotent(first, depth + 1, rt) && AllIdempotent(last, depth + 1, rt)
  {
    hide *;
    var head, tail := CompactAll(first, depth, rt), CompactAll(last, depth, rt);
    IdempotentWhenFixed(v, Items(head + [Omitted(omitted)] + tail), depth, rt);
    CutListFixed(head, omitted, tail, depth, rt);
    CompactedFixed(first, depth, rt);
    CompactedFixed(last, depth, rt);
  }

  lemma {:induction false} CutListFixed(head: seq<Value>, omitted: int, tail: seq<Value>, depth: nat, rt: Runtime)
    requires depth < MAX_DEPTH && |head| + 1 + |tail| <= MAX_ITEMS
    ensures Fixed(Items(head + [Omitted(omitted)] + tail), depth, rt) <==>
            depth + 1 < MAX_DEPTH && AllFixed(head, depth + 1, rt) && AllFixed(tail, depth + 1, rt)
  {
    hide Compact, Fixed;
    var mark := Omitted(omitted);
    ShortListFixed(head + [mark] + tail, depth, rt);
    FixedParts(head, [mark], depth + 1, rt);
    FixedParts(head + [mark], tail, depth + 1, rt);
    OneFixed(mark, depth + 1, rt);
    OmittedFixed(omitted, depth + 1, rt);
  }

  lemma {:induction false} OneFixed(v: Value, depth: nat, rt: Runtime)
    ensures AllFixed([v], depth, rt) <==> Fixed(v, depth, rt)
  {
    assert [v][0] == v;
  }

  // ---------- Mappings ----------

  ghost predicate EntriesFixed(entries: seq<Entry>, depth: nat, rt: Runtime) {
    forall i :: 0 <= i < |entries| ==> Fixed(entries[i].value, depth, rt)
  }

  ghost predicate EntriesIdempotent(entries: seq<Entry>, depth: nat, rt: Runtime) {
    forall i :: 0 <= i < |entries| ==> Idempotent(entries[i].value, depth, rt)
  }

  ghost predicate StringEntries(entries: seq<Entry>) {
    DistinctNames(entries) && forall i :: 0 <= i < |entries| ==> entries[i].key.tag == 0
  }

  /** A mapping of at most 80 string keys is fixed exactly when its values are. */
  lemma {:induction false} SmallDictFixed(entries: seq<Entry>, depth: nat, rt: Runtime)
    requires StringEntries(entries) && |entries| <= MAX_ITEMS && depth < MAX_DEPTH
    ensures Fixed(Dict(entries), depth, rt) <==> EntriesFixed(entries, depth + 1, rt)
  {
    EntriesSecondPass(entries, depth, rt);
    EntriesAt(entries, depth, rt);
  }

  /** A mapping of 80 string keys and a count is fixed exactly when the count is one and the values are. */
  lemma {:induction false} CountedDictFixed(kept: seq<Entry>, n: int, depth: nat, rt: Runtime)
    requires StringEntries(kept) && |kept| == MAX_ITEMS && !HasName(kept, OMITTED_KEY) && depth < MAX_DEPTH
    ensures Fixed(Dict(kept + [Entry(Key(OMITTED_KEY, 0), Scalar(n))]), depth, rt) <==>
            n == 1 && EntriesFixed(kept, depth + 1, rt)
  {
    var entries := kept + [Entry(Key(OMITTED_KEY, 0), Scalar(n))];
    assert entries[..MAX_ITEMS] == kept;
    EntriesSecondPass(kept, depth, rt);
    EntriesAt(kept, depth, rt);
    var again := CompactEntries(kept, depth, rt);
    PutAbsent(again, OMITTED_KEY, Scalar(1));
    assert Compact(Dict(entries), depth, rt) == Dict(again + [Entry(Key(OMITTED_KEY, 0), Scalar(1))]);
    var out := again + [Entry(Key(OMITTED_KEY, 0), Scalar(1))];
    assert out == entries ==> again == kept && n == 1 by {
      if out == entries {
        assert out[..MAX_ITEMS] == again;
        assert out[MAX_ITEMS] == entries[MAX_ITEMS];
      }
    }
  }

  /** The first compaction keeps the names, and its values are fixed exactly when the originals are idempotent. */
  lemma {:induction false} CompactedEntries(entries: seq<Entry>, depth: nat, rt: Runtime)
    requires DistinctNames(entries)
    ensures StringEntries(CompactEntries(entries, depth, rt)) && |CompactEntries(entries, depth, rt)| == |entries|
    ensures HasName(CompactEntries(entries, depth, rt), OMITTED_KEY) <==> HasName(entries, OMITTED_KEY)
    ensures EntriesFixed(CompactEntries(entries, depth, rt), depth + 1, rt) <==>
            EntriesIdempotent(entries, depth + 1, rt)
  {
    EntriesAt(entries, depth, rt);
    var kept := CompactEntries(entries, depth, rt);
    forall i | 0 <= i < |entries|
      ensures kept[i].key.text == entries[i].key.text
      ensures Fixed(kept[i].value, depth + 1, rt) <==> Idempotent(entries[i].value, depth + 1, rt)
    {
    }
  }

  ghost predicate SurvivorsIdempotent(entries: seq<Entry>, depth: nat, rt: Runtime) {
    forall i :: 0 <= i < |entries| && Survives(entries, i) ==> Idempotent(entries[i].value, depth, rt)
  }

  lemma {:induction false} AllSurvive(entries: seq<Entry>, depth: nat, rt: Runtime)
    requires |entries| > MAX_ITEMS && !HasName(entries[..MAX_ITEMS], OMITTED_KEY)
    ensures SurvivorsIdempotent(entries, depth, rt) <==> EntriesIdempotent(entries[..MAX_ITEMS], depth, rt)
  {
    var visited := entries[..MAX_ITEMS];
    forall i | 0 <= i < MAX_ITEMS ensures Survives(entries, i) && visited[i] == entries[i] {
    }
    if SurvivorsIdempotent(entries, depth, rt) {
      forall i | 0 <= i < MAX_ITEMS ensures Idempotent(visited[i].value, depth, rt) {
        assert Survives(entries, i);
      }
    } else {
      var i :| 0 <= i < |entries| && Survives(entries, i) && !Idempotent(entries[i].value, depth, rt);
      assert visited[i] == entries[i];
    }
  }

  lemma {:induction false} IdempotentWhenFixed(v: Value, w: Value, depth: nat, rt: Runtime)
    requires Compact(v, depth, rt) == w
    ensures Idempotent(v, depth, rt) <==> Fixed(w, depth, rt)
  {
  }

  lemma {:induction false} CutDict(entries: seq<Entry>, kept: seq<Entry>, depth: nat, rt: Runtime)
    requires |entries| > MAX_ITEMS && depth < MAX_DEPTH
    requires kept == CompactEntries(entries[..MAX_ITEMS], depth, rt) && |kept| == MAX_ITEMS
    ensures Compact(Dict(entries), depth, rt) == Dict(Put(kept, OMITTED_KEY, Scalar(|entries| - MAX_ITEMS)))
  {
    hide CompactEntries, Put;
  }

  /** More than 80 keys, none of the first 80 being the count's own: the count is appended. */
  lemma {:induction false} CountAppended(entries: seq<Entry>, depth: nat, rt: Runtime)
    requires DistinctNames(entries) && |entries| > MAX_ITEMS && depth < MAX_DEPTH
    requires !HasName(entries[..MAX_ITEMS], OMITTED_KEY)
    ensures Idempotent(Dict(entries), depth, rt) <==>
            |entries| == MAX_ITEMS + 1 && SurvivorsIdempotent(entries, depth + 1, rt)
  {
    hide Compact, Idempotent, Fixed;
    var visited, n := entries[..MAX_ITEMS], |entries| - MAX_ITEMS;
    var kept := CompactEntries(visited, depth, rt);
    CompactedEntries(visited, depth, rt);
    CutDict(entries, kept, depth, rt);
    PutAbsent(kept, OMITTED_KEY, Scalar(n));
    IdempotentWhenFixed(Dict(entries), Dict(kept + [Entry(Key(OMITTED_KEY, 0), Scalar(n))]), depth, rt);
    CountedDictFixed(kept, n, depth, rt);
    AllSurvive(entries, depth + 1, rt);
  }

  lemma {:induction false} OthersSurvive(entries: seq<Entry>, j: nat, depth: nat, rt: Runtime)
    requires DistinctNames(entries) && |entries| > MAX_ITEMS
    requires j < MAX_ITEMS && entries[j].key.text == OMITTED_KEY
    ensures SurvivorsIdempotent(entries, depth, rt) <==>
            forall i :: 0 <= i < MAX_ITEMS && i != j ==> Idempotent(entries[i].value, depth, rt)
  {
    forall i | 0 <= i < MAX_ITEMS ensures Survives(entries, i) <==> i != j {
    }
  }

  /** More than 80 keys, the count's own among the first 80: the count takes that entry's place. */
  lemma {:induction false} CountOverwrites(entries: seq<Entry>, j: nat, depth: nat, rt: Runtime)
    requires DistinctNames(entries) && |entries| > MAX_ITEMS && depth < MAX_DEPTH
    requires j < MAX_ITEMS && entries[j].key.text == OMITTED_KEY
    ensures Idempotent(Dict(entries), depth, rt) <==> SurvivorsIdempotent(entries, depth + 1, rt)
  {
    hide Compact, CompactEntries, Idempotent, Fixed;
    var visited, n := entries[..MAX_ITEMS], |entries| - MAX_ITEMS;
    var kept := CompactEntries(visited, depth, rt);
    CompactedEntries(visited, depth, rt);
    CutDict(entries, kept, depth, rt);
    PutOverwrites(visited, j, n, depth, rt);
    var out := kept[j := Entry(Key(OMITTED_KEY, 0), Scalar(n))];
    IdempotentWhenFixed(Dict(entries), Dict(out), depth, rt);
    SmallDictFixed(out, depth, rt);
    OthersSurvive(entries, j, depth + 1, rt);
    ReplacedFixed(entries, kept, j, n, depth, rt);
  }

  lemma {:induction false} PutOverwrites(visited: seq<Entry>, j: nat, n: int, depth: nat, rt: Runtime)
    requires DistinctNames(visited) && j < |visited| && visited[j].key.text == OMITTED_KEY
    ensures |CompactEntries(visited, depth, rt)| == |visited|
    ensures var kept := CompactEntries(visited, depth, rt);
            && Put(kept, OMITTED_KEY, Scalar(n)) == kept[j := Entry(Key(OMITTED_KEY, 0), Scalar(n))]
            && StringEntries(kept[j := Entry(Key(OMITTED_KEY, 0), Scalar(n))])
  {
    EntriesAt(visited, depth, rt);
    hide CompactEntries, Compact, Put;
    var kept := CompactEntries(visited, depth, rt);
    PutPresent(kept, j, OMITTED_KEY, Scalar(n));
    hide DistinctNames;
    SameNames(visited, kept);
    ValueReplaced(kept, j, Scalar(n));
  }

  lemma {:induction false} SameNames(a: seq<Entry>, b: seq<Entry>)
    requires DistinctNames(a) && |a| == |b| && forall i :: 0 <= i < |a| ==> b[i].key == Key(a[i].key.text, 0)
    ensures StringEntries(b)
  {
  }

  lemma {:induction false} ValueReplaced(entries: seq<Entry>, j: nat, value: Value)
    requires StringEntries(entries) && j < |entries|
    ensures StringEntries(entries[j := Entry(entries[j].key, value)])
  {
  }

  lemma {:induction false} ReplacedFixed(entries: seq<Entry>, kept: seq<Entry>, j: nat, n: int, depth: nat, rt: Runtime)
    requires j < |kept| == MAX_ITEMS < |entries|
    requires DistinctNames(entries) && kept == CompactEntries(entries[..MAX_ITEMS], depth, rt)
    ensures EntriesFixed(kept[j := Entry(Key(OMITTED_KEY, 0), Scalar(n))], depth + 1, rt) <==>
            (forall i :: 0 <= i < MAX_ITEMS && i != j ==> Idempotent(entries[i].value, depth + 1, rt))
  {
    EntriesAt(entries[..MAX_ITEMS], depth, rt);
    var out := kept[j := Entry(Key(OMITTED_KEY, 0), Scalar(n))];
    forall i | 0 <= i < MAX_ITEMS
      ensures Fixed(out[i].value, depth + 1, rt) <==> i == j || Idempotent(entries[i].value, depth + 1, rt)
    {
      assert entries[..MAX_ITEMS][i] == entries[i];
    }
  }

  lemma {:induction false} DictIdempotence(entries: seq<Entry>, depth: nat, rt: Runtime)
    requires DistinctNames(entries) && depth < MAX_DEPTH
    ensures Idempotent(Dict(entries), depth, rt) <==>
            CountSettles(entries) && SurvivorsIdempotent(entries, depth + 1, rt)
  {
    if |entries| <= MAX_ITEMS {
      CompactedEntries(entries, depth, rt);
      SmallDictFixed(CompactEntries(entries, depth, rt), depth, rt);
    } else if HasName(entries[..MAX_ITEMS], OMITTED_KEY) {
      var j :| 0 <= j < MAX_ITEMS && entries[..MAX_ITEMS][j].key.text == OMITTED_KEY;
      CountOverwrites(entries, j, depth, rt);
    } else {
      CountAppended(entries, depth, rt);
    }
  }

  /** Text, numbers, and whatever sits at the depth limit settle at once. */
  lemma {:induction false} LeafIdempotent(v: Value, depth: nat, rt: Runtime)
    requires rt.Valid() && Storable(v)
    requires v.Text? || v.Scalar? || depth >= MAX_DEPTH
    ensures Idempotent(v, depth, rt)
  {
    match v
    case Text(s) => StoredTextBounded(s, rt);
    case Scalar(_) =>
    case _ => StoredTextBounded(rt.preview(v), rt);
  }

  /** Compacting twice equals compacting once exactly on the stable values. */
  lemma {:induction false} IdempotentExactly(v: Value, depth: nat, rt: Runtime)
    requires rt.Valid() && Storable(v) && StringKeyed(v)
    ensures Idempotent(v, depth, rt) <==> Stable(v, depth)
    decreases v
  {
    hide Compact, Idempotent;
    if v.Text? || v.Scalar? || depth >= MAX_DEPTH {
      LeafIdempotent(v, depth, rt);
    } else if v.Dict? {
      forall i | 0 <= i < |v.entries|
        ensures Idempotent(v.entries[i].value, depth + 1, rt) <==> Stable(v.entries[i].value, depth + 1)
      {
        IdempotentExactly(v.entries[i].value, depth + 1, rt);
      }
      DictIdempotence(v.entries, depth, rt);
    } else {
      forall i | 0 <= i < |v.items|
        ensures Idempotent(v.items[i], depth + 1, rt) <==> Stable(v.items[i], depth + 1)
      {
        IdempotentExactly(v.items[i], depth + 1, rt);
      }
      if |v.items| <= MAX_ITEMS {
        ShortListIdempotence(v.items, depth, rt);
      } else {
        CutListIdempotence(v.items, depth, rt);
        CutStable(v.items, depth, rt);
      }
    }
  }

  lemma {:induction false} CutStable(items: seq<Value>, depth: nat, rt: Runtime)
    requires |items| > MAX_ITEMS && depth < MAX_DEPTH
    requires forall i :: 0 <= i < |items| ==> (Idempotent(items[i], depth + 1, rt) <==> Stable(items[i], depth + 1))
    ensures Stable(Items(items), depth) <==>
            && depth + 1 < MAX_DEPTH
            && AllIdempotent(items[..HEAD_COUNT], depth + 1, rt)
            && AllIdempotent(items[|items| - TAIL_COUNT..], depth + 1, rt)
  {
    hide Compact, Idempotent;
    var head, tail := items[..HEAD_COUNT], items[|items| - TAIL_COUNT..];
    assert forall i :: 0 <= i < HEAD_COUNT ==> head[i] == items[i];
    assert forall i :: 0 <= i < TAIL_COUNT ==> tail[i] == items[|items| - TAIL_COUNT + i];
    if AllIdempotent(tail, depth + 1, rt) {
      forall i | |items| - TAIL_COUNT <= i < |items| ensures Idempotent(items[i], depth + 1, rt) {
        assert tail[i - (|items| - TAIL_COUNT)] == items[i];
      }
    }
  }

  // ---------- What is left alone ----------

  /** Every key of every mapping is a string. */
  ghost predicate PlainKeys(v: Value) {
    match v
    case Text(_) => true
    case Scalar(_) => true
    case Dict(entries) => StringEntries(entries) && forall i :: 0 <= i < |entries| ==> PlainKeys(entries[i].value)
    case Items(items) => forall i :: 0 <= i < |items| ==> PlainKeys(items[i])
  }

  /** Short strings, short lists and short mappings, above the depth limit; or a mapping that was cut by one key. */
  predicate Small(v: Value, depth: nat) {
    match v
    case Text(s) => |s| <= 12_000
    case Scalar(_) => true
    case Dict(entries) =>
      && depth < 8
      && (|entries| <= 80
          || (|entries| == 81 && entries[80] == Entry(Key("_persistent_omitted_items", 0), Scalar(1))))
      && forall i :: 0 <= i < |entries| ==> Small(entries[i].value, depth + 1)
    case Items(items) =>
      depth < 8 && |items| <= 80 && forall i :: 0 <= i < |items| ==> Small(items[i], depth + 1)
  }

  /** Text beyond the limit becomes text of just that length: its beginning, the marker and its end. */
  lemma {:induction false} LongTextCut(text: string, rt: Runtime)
    requires rt.Valid() && RUNTIME_TEXT_MAX_CHARS < |text| < MAX_TEXT
    ensures |CompactText(text, RUNTIME_TEXT_MAX_CHARS, rt)| == 12_000
    ensures exists head :: IsCut(text, Marker(text, rt), CompactText(text, RUNTIME_TEXT_MAX_CHARS, rt), head)
  {
    MarkerFits(text, rt);
    CutTextLength(text, RUNTIME_TEXT_MAX_CHARS, rt);
    CutTextShape(text, RUNTIME_TEXT_MAX_CHARS, rt);
  }

  /** At the depth limit a container is replaced by its preview, which is cut only if it is too long. */
  lemma {:induction false} PreviewAtLimit(v: Value, depth: nat, rt: Runtime)
    requires rt.Valid() && (v.Dict? || v.Items?) && depth >= 8
    ensures var out := Compact(v, depth, rt);
            && out.Text?
            && (|rt.preview(v)| <= 12_000 ==> out.text == rt.preview(v))
            && (|rt.preview(v)| > 12_000 ==>
                  && |out.text| == 12_000
                  && exists head :: IsCut(rt.preview(v), Marker(rt.preview(v), rt), out.text, head))
  {
    if |rt.preview(v)| > 12_000 {
      LongTextCut(rt.preview(v), rt);
    }
  }

  /** A list that is not cut keeps every item at its index, compacted. */
  lemma {:induction false} ShortListKept(items: seq<Value>, depth: nat, rt: Runtime)
    requires |items| <= 80 && depth < 8
    ensures var out := Compact(Items(items), depth, rt);
            && out.Items? && |out.items| == |items|
            && forall i :: 0 <= i < |items| ==> out.items[i] == Compact(items[i], depth + 1, rt)
  {
    forall i | 0 <= i < |items| ensures CompactAll(items, depth, rt)[i] == Compact(items[i], depth + 1, rt) {
      AllAt(items, depth, rt, i);
    }
  }

  /** The first 80 entries stand in their places under their own keys, compacted; where there are more, the number of
      the others follows, or takes the place of the entry with its key. */
  ghost predicate KeepsEntries(entries: seq<Entry>, out: seq<Entry>, depth: nat, rt: Runtime) {
    var n := if |entries| <= 80 then |entries| else 80;
    var count := Entry(Key(OMITTED_KEY, 0), Scalar(|entries| - 80));
    && |out| >= n
    && (forall i :: 0 <= i < n ==>
          out[i] == if Survives(entries, i)
                    then Entry(Key(entries[i].key.text, 0), Compact(entries[i].value, depth + 1, rt)) else count)
    && out[n..] == if |entries| > 80 && !HasName(entries[..80], OMITTED_KEY) then [count] else []
  }

  lemma {:induction false} DictKept(entries: seq<Entry>, depth: nat, rt: Runtime)
    requires DistinctNames(entries) && depth < 8
    ensures Compact(Dict(entries), depth, rt).Dict?
    ensures KeepsEntries(entries, Compact(Dict(entries), depth, rt).entries, depth, rt)
  {
    hide Compact, CompactEntries, Put, KeepsEntries, DistinctNames;
    DictShape(entries, depth, rt);
    if |entries| <= MAX_ITEMS {
      ShortDictKept(entries, depth, rt);
    } else {
      LongDictKept(entries, depth, rt);
    }
  }

  lemma {:induction false} ShortDictKept(entries: seq<Entry>, depth: nat, rt: Runtime)
    requires DistinctNames(entries) && |entries| <= MAX_ITEMS
    ensures |CompactEntries(entries, depth, rt)| == |entries|
    ensures KeepsEntries(entries, CompactEntries(entries, depth, rt), depth, rt)
  {
    EntriesAt(entries, depth, rt);
    hide Compact, CompactEntries, DistinctNames, HasName;
  }

  lemma {:induction false} LongDictKept(entries: seq<Entry>, depth: nat, rt: Runtime)
    requires DistinctNames(entries) && |entries| > MAX_ITEMS
    ensures |CompactEntries(entries[..MAX_ITEMS], depth, rt)| == MAX_ITEMS
    ensures KeepsEntries(entries, Put(CompactEntries(entries[..MAX_ITEMS], depth, rt), OMITTED_KEY,
                                      Scalar(|entries| - MAX_ITEMS)), depth, rt)
  {
    hide Compact, CompactEntries, Put;
    EntriesAt(entries[..MAX_ITEMS], depth, rt);
    var kept := CompactEntries(entries[..MAX_ITEMS], depth, rt);
    CountPlaced(entries[..MAX_ITEMS], kept, Scalar(|entries| - MAX_ITEMS));
    hide DistinctNames, HasName;
    var out := Put(kept, OMITTED_KEY, Scalar(|entries| - MAX_ITEMS));
    assert HasName(entries[..MAX_ITEMS], OMITTED_KEY) ==> out[MAX_ITEMS..] == [];
  }

  /** The count goes into the entry that has its key, or behind the others. */
  lemma {:induction false} CountPlaced(visited: seq<Entry>, kept: seq<Entry>, count: Value)
    requires DistinctNames(visited) && |kept| == |visited|
    requires forall i :: 0 <= i < |visited| ==> kept[i].key == Key(visited[i].key.text, 0)
    ensures var out := Put(kept, OMITTED_KEY, count);
            && |kept| <= |out|
            && (forall i :: 0 <= i < |kept| ==>
                  out[i] == if visited[i].key.text == OMITTED_KEY then Entry(Key(OMITTED_KEY, 0), count) else kept[i])
            && (HasName(visited, OMITTED_KEY) ==> |out| == |kept|)
            && (!HasName(visited, OMITTED_KEY) ==> out[|kept|..] == [Entry(Key(OMITTED_KEY, 0), count)])
  {
    hide Put;
    if HasName(visited, OMITTED_KEY) {
      var j :| 0 <= j < |visited| && visited[j].key.text == OMITTED_KEY;
      OnlyName(visited, j);
      PutPresent(kept, j, OMITTED_KEY, count);
    } else {
      PutAbsent(kept, OMITTED_KEY, count);
    }
  }

  lemma {:induction false} OnlyName(entries: seq<Entry>, j: nat)
    requires DistinctNames(entries) && j < |entries|
    ensures forall i :: 0 <= i < |entries| && i != j ==> entries[i].key.text != entries[j].key.text
  {
  }

  /** A mapping of more than 80 keys comes back as it was exactly when its last key is the count of one that the 80
      before it would get, and these come back as they were. */
  lemma {:induction false} LongDictFixed(entries: seq<Entry>, depth: nat, rt: Runtime)
    requires StringEntries(entries) && |entries| > MAX_ITEMS && depth < MAX_DEPTH
    ensures Fixed(Dict(entries), depth, rt) <==>
            && |entries| == MAX_ITEMS + 1 && entries[MAX_ITEMS] == Entry(Key(OMITTED_KEY, 0), Scalar(1))
            && EntriesFixed(entries[..MAX_ITEMS], depth + 1, rt)
  {
    var kept, last := entries[..MAX_ITEMS], entries[|entries| - 1];
    DictKept(entries, depth, rt);
    hide Compact;
    if |entries| == MAX_ITEMS + 1 && last.key.text == OMITTED_KEY && last.value.Scalar? {
      OnlyName(entries, MAX_ITEMS);
      assert entries == kept + [Entry(Key(OMITTED_KEY, 0), Scalar(last.value.n))];
      CountedDictFixed(kept, last.value.n, depth, rt);
    }
  }

  /** Compaction gives back a value just as it was if and only if the value is small. */
  lemma {:induction false} UnchangedExactly(v: Value, depth: nat, rt: Runtime)
    requires rt.Valid() && Storable(v) && PlainKeys(v)
    ensures Compact(v, depth, rt) == v <==> Small(v, depth)
    decreases v
  {
    match v
    case Scalar(_) =>
    case Text(s) =>
      if |s| > RUNTIME_TEXT_MAX_CHARS {
        LongTextCut(s, rt);
      }
    case Dict(entries) =>
      if depth < MAX_DEPTH {
        forall i | 0 <= i < |entries|
          ensures Fixed(entries[i].value, depth + 1, rt) <==> Small(entries[i].value, depth + 1)
        {
          UnchangedExactly(entries[i].value, depth + 1, rt);
        }
        DictUnchanged(entries, depth, rt);
      }
    case Items(items) =>
      if depth < MAX_DEPTH {
        forall i | 0 <= i < |items| ensures Fixed(items[i], depth + 1, rt) <==> Small(items[i], depth + 1) {
          UnchangedExactly(items[i], depth + 1, rt);
        }
        ListUnchanged(items, depth, rt);
      }
  }

  lemma {:induction false} DictUnchanged(entries: seq<Entry>, depth: nat, rt: Runtime)
    requires StringEntries(entries) && depth < MAX_DEPTH
    requires forall i :: 0 <= i < |entries| ==>
               (Fixed(entries[i].value, depth + 1, rt) <==> Small(entries[i].value, depth + 1))
    ensures Compact(Dict(entries), depth, rt) == Dict(entries) <==> Small(Dict(entries), depth)
  {
    hide Compact;
    if |entries| <= MAX_ITEMS {
      SmallDictFixed(entries, depth, rt);
    } else {
      LongDictFixed(entries, depth, rt);
    }
  }

  lemma {:induction false} ListUnchanged(items: seq<Value>, depth: nat, rt: Runtime)
    requires depth < MAX_DEPTH
    requires forall i :: 0 <= i < |items| ==> (Fixed(items[i], depth + 1, rt) <==> Small(items[i], depth + 1))
    ensures Compact(Items(items), depth, rt) == Items(items) <==> Small(Items(items), depth)
  {
    if |items| <= MAX_ITEMS {
      hide Compact;
      ShortListFixed(items, depth, rt);
    } else {
      CutListAccounts(items, depth, rt);
    }
  }
}
