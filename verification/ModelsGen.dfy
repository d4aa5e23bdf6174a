/** `provider/models_gen.py`: merging the user's providers into the built-in catalog, and a fingerprint cache in
    front of the generated file. Objects are modelled up to the order of their keys. */
module ModelsGen {
  import opened FuzzyFind
  import opened Wrappers

  datatype Json = Null | Bool(b: bool) | Num(n: int) | Str(s: string) | List(items: seq<Json>) | Obj(fields: Object)

  type Object = map<string, Json>

  // ---------- The recursive right-biased merge ----------

  /** Objects merge key by key; anything else in the patch replaces what was there. */
  function Merged(t: Json, p: Json): Json
    decreases p
  {
    if t.Obj? && p.Obj? then
      Obj(map k | k in t.fields.Keys + p.fields.Keys ::
            if k !in p.fields then t.fields[k]
            else if k !in t.fields then p.fields[k]
            else Merged(t.fields[k], p.fields[k]))
    else p
  }

  /** The loop over `patch.items()`, updating `target` key by key. */
  method DeepMergeDict(target: Object, patch: Object) returns (merged: Object)
    ensures Obj(merged) == Merged(Obj(target), Obj(patch))
    decreases Obj(patch)
  {
    merged := target;
    var todo := patch.Keys;
    while todo != {}
      invariant todo <= patch.Keys && merged.Keys == target.Keys + (patch.Keys - todo)
      invariant forall k :: k in target && (k !in patch || k in todo) ==> merged[k] == target[k]
      invariant forall k :: k in patch && k !in todo ==>
                  merged[k] == if k in target then Merged(target[k], patch[k]) else patch[k]
    {
      var key :| key in todo;
      var value := patch[key];
      if value.Obj? && key in merged && merged[key].Obj? {
        assert value < Obj(patch);
        var inner := DeepMergeDict(merged[key].fields, value.fields);
        merged := merged[key := Obj(inner)];
      } else {
        merged := merged[key := value];
      }
      todo := todo - {key};
    }
  }

  /** The value reached by following a path of keys. */
  function At(j: Json, path: seq<string>): Option<Json> {
    if path == [] then Some(j)
    else if j.Obj? && path[0] in j.fields then At(j.fields[path[0]], path[1..])
    else None
  }

  /** The path runs into a value of `p` that is not an object. */
  predicate Blocked(p: Json, path: seq<string>) {
    path != [] && (!p.Obj? || (path[0] in p.fields && Blocked(p.fields[path[0]], path[1..])))
  }

  /** What a lookup finds after a merge, for every path: the patch's value (merged into the target's, if both are
      objects) where the patch has one, nothing below a patched leaf, and the target's value everywhere else. */
  lemma {:induction false} LookupMerged(t: Json, p: Json, path: seq<string>)
    ensures At(Merged(t, p), path) ==
            match At(p, path)
            case Some(q) => (match At(t, path) case Some(u) => Some(Merged(u, q)) case None => Some(q))
            case None => if Blocked(p, path) then None else At(t, path)
  {
    if path != [] && t.Obj? && p.Obj? && path[0] in t.fields && path[0] in p.fields {
      LookupMerged(t.fields[path[0]], p.fields[path[0]], path[1..]);
    }
  }

  lemma {:induction false} MergedSelf(p: Json)
    ensures Merged(p, p) == p
  {
    if p.Obj? {
      forall k | k in p.fields ensures Merged(p.fields[k], p.fields[k]) == p.fields[k] {
        MergedSelf(p.fields[k]);
      }
    }
  }

  /** Applying a patch twice is applying it once. */
  lemma {:induction false} MergedIdempotent(t: Json, p: Json)
    ensures Merged(Merged(t, p), p) == Merged(t, p)
  {
    if t.Obj? && p.Obj? {
      var m := Merged(t, p);
      forall k | k in m.fields ensures Merged(m, p).fields[k] == m.fields[k] {
        if k in p.fields {
          if k in t.fields {
            MergedIdempotent(t.fields[k], p.fields[k]);
          } else {
            MergedSelf(p.fields[k]);
          }
        }
      }
      assert Merged(m, p).fields == m.fields;
    } else {
      MergedSelf(p);
    }
  }

  // ---------- Custom models ----------

  /** A model's `id`, or "" when it has none. */
  function IdOf(m: Json): string {
    if m.Obj? && "id" in m.fields && m.fields["id"].Str? then m.fields["id"].s else ""
  }

  /** The id a custom model is filed under, or "" when it is to be skipped. */
  function CustomId(c: Json): string {
    Strip(IdOf(c))
  }

  /** The custom models filed under `id`, in order. */
  function Filed(custom: seq<Json>, id: string): seq<Json> {
    if custom == [] then []
    else
      var last := custom[|custom| - 1];
      Filed(custom[..|custom| - 1], id) + if id != "" && CustomId(last) == id then [last] else []
  }

  function Patched(m: Json, patches: seq<Json>): Json {
    if patches == [] then m else Merged(Patched(m, patches[..|patches| - 1]), patches[|patches| - 1])
  }

  predicate HasId(models: seq<Json>, id: string) {
    exists i :: 0 <= i < |models| && IdOf(models[i]) == id
  }

  /** Ids the custom models bring in, in the order they are first listed. */
  function NewIds(models: seq<Json>, custom: seq<Json>): seq<string> {
    if custom == [] then []
    else
      var ids := NewIds(models, custom[..|custom| - 1]);
      var id := CustomId(custom[|custom| - 1]);
      if id != "" && !HasId(models, id) && id !in ids then ids + [id] else ids
  }

  lemma {:induction false} NewIdsProperties(models: seq<Json>, custom: seq<Json>)
    ensures forall i, j :: 0 <= i < j < |NewIds(models, custom)| ==>
              NewIds(models, custom)[i] != NewIds(models, custom)[j]
    ensures forall id :: id in NewIds(models, custom) <==> id != "" && !HasId(models, id) && Filed(custom, id) != []
  {
    if custom != [] {
      NewIdsProperties(models, custom[..|custom| - 1]);
    }
  }

  /** No later model has the id of model `i`. */
  predicate IsLast(models: seq<Json>, i: nat)
    requires i < |models|
  {
    forall k :: i < k < |models| ==> IdOf(models[k]) != IdOf(models[i])
  }

  /** The id under which model `i` is reached: its own, or "" when it has none or a later model has the same. */
  function ReachedBy(models: seq<Json>, i: nat): string
    requires i < |models|
  {
    if IsLast(models, i) then IdOf(models[i]) else ""
  }

  /** Reference: every model with the patches filed under its id, then every new id once, likewise patched. */
  function Reference(models: seq<Json>, custom: seq<Json>): seq<Json> {
    NewIdsProperties(models, custom);
    var ids := NewIds(models, custom);
    seq(|models|, i requires 0 <= i < |models| => Patched(models[i], Filed(custom, ReachedBy(models, i))))
    + seq(|ids|, j requires 0 <= j < |ids| => Patched(Filed(custom, ids[j])[0], Filed(custom, ids[j])[1..]))
  }

  /** Ids are trimmed, and no two models share one. */
  ghost predicate UniqueTrimmed(models: seq<Json>) {
    && (forall i :: 0 <= i < |models| ==> Strip(IdOf(models[i])) == IdOf(models[i]))
    && (forall i, j :: 0 <= i < j < |models| && IdOf(models[i]) != "" ==> IdOf(models[i]) != IdOf(models[j]))
  }

  /** No two models have the same id after trimming. */
  ghost predicate UniqueAfterTrim(models: seq<Json>) {
    forall i, j :: 0 <= i < j < |models| && CustomId(models[i]) != "" ==> CustomId(models[i]) != CustomId(models[j])
  }

  lemma {:induction false} FiledIds(custom: seq<Json>, id: string)
    ensures forall c :: c in Filed(custom, id) ==> c.Obj? && CustomId(c) == id && id != ""
  {
    if custom != [] {
      FiledIds(custom[..|custom| - 1], id);
    }
  }

  /** Patches filed under an id keep the trimmed id of the model they are merged into. */
  lemma {:induction false} PatchedId(m: Json, patches: seq<Json>, id: string)
    requires m.Obj? && CustomId(m) == id
    requires forall c :: c in patches ==> c.Obj? && CustomId(c) == id && id != ""
    ensures Patched(m, patches).Obj? && CustomId(Patched(m, patches)) == id
  {
    if patches != [] {
      var front, c := patches[..|patches| - 1], patches[|patches| - 1];
      forall d | d in front ensures d in patches {
        var k :| 0 <= k < |front| && front[k] == d;
        assert patches[k] == d;
      }
      PatchedId(m, front, id);
      assert c in patches;
      assert "id" in c.fields && c.fields["id"].Str?;
      assert Merged(Patched(m, front), c).fields["id"] == c.fields["id"];
    }
  }

  /** The id under which position `i` of the reference list is filed. */
  ghost function IdAt(models: seq<Json>, custom: seq<Json>, i: nat): string
    requires i < |models| + |NewIds(models, custom)|
  {
    if i < |models| then ReachedBy(models, i) else NewIds(models, custom)[i - |models|]
  }

  /** Merging never changes the id a model goes by once trimmed. */
  lemma {:induction false} ReferenceId(models: seq<Json>, custom: seq<Json>, i: nat)
    requires i < |models| + |NewIds(models, custom)|
    ensures i < |Reference(models, custom)|
    ensures CustomId(Reference(models, custom)[i]) ==
            if i < |models| then CustomId(models[i]) else NewIds(models, custom)[i - |models|]
  {
    var id := IdAt(models, custom, i);
    NewIdsProperties(models, custom);
    FiledIds(custom, id);
    if id == "" {
      FiledNone(custom);
    } else if i < |models| {
      FiledUnder(models[i], custom);
    } else {
      var filed := Filed(custom, id);
      assert filed[0] in filed;
      PatchedId(filed[0], filed[1..], id);
    }
  }

  /** The id as it stands, blanks included, is that of the last patch. */
  lemma {:induction false} RawIdKeptExactly(models: seq<Json>, custom: seq<Json>, i: nat)
    requires i < |models|
    ensures i < |Reference(models, custom)|
    ensures var filed := Filed(custom, ReachedBy(models, i));
            IdOf(Reference(models, custom)[i]) == IdOf(models[i]) <==>
              filed == [] || IdOf(filed[|filed| - 1]) == IdOf(models[i])
  {
    var filed := Filed(custom, ReachedBy(models, i));
    FiledIds(custom, ReachedBy(models, i));
    assert Reference(models, custom)[i] == Patched(models[i], filed);
    if filed != [] {
      var last := filed[|filed| - 1];
      assert last in filed && last.Obj? && "id" in last.fields && last.fields["id"].Str?;
      var front := Patched(models[i], filed[..|filed| - 1]);
      assert Patched(models[i], filed) == Merged(front, last);
      hide *;
      PatchId(front, last);
    }
  }

  lemma {:induction false} PatchId(m: Json, c: Json)
    requires c.Obj? && "id" in c.fields && c.fields["id"].Str?
    ensures IdOf(Merged(m, c)) == IdOf(c)
  {
    if m.Obj? && "id" in m.fields {
      assert Merged(m.fields["id"], c.fields["id"]) == c.fields["id"];
    }
  }

  lemma {:induction false} FiledUnder(m: Json, custom: seq<Json>)
    requires IdOf(m) != ""
    ensures CustomId(Patched(m, Filed(custom, IdOf(m)))) == CustomId(m)
  {
    var filed := Filed(custom, IdOf(m));
    FiledIds(custom, IdOf(m));
    if filed != [] {
      assert filed[0] in filed;
      StripTrims(IdOf(filed[0]));
      StripTrimmed(IdOf(m));
      PatchedId(m, filed, IdOf(m));
    }
  }

  lemma {:induction false} FiledNone(custom: seq<Json>)
    ensures Filed(custom, "") == []
  {
    if custom != [] {
      FiledNone(custom[..|custom| - 1]);
    }
  }

  /** Ids are unique after merging exactly when the built-in ones were, and none of them turns up trimmed among the new
      ones; so it is for built-in ids that are trimmed. A new id is added once however often it is listed. */
  lemma {:induction false} ReferenceUnique(models: seq<Json>, custom: seq<Json>)
    ensures UniqueAfterTrim(Reference(models, custom)) <==>
            UniqueAfterTrim(models) && forall i :: 0 <= i < |models| ==> CustomId(models[i]) !in NewIds(models, custom)
    ensures UniqueTrimmed(models) ==> UniqueAfterTrim(Reference(models, custom))
  {
    var r, n := Reference(models, custom), |models|;
    var ids := NewIds(models, custom);
    NewIdsProperties(models, custom);
    ReferenceLength(models, custom);
    hide *;
    forall i | 0 <= i < |r| ensures CustomId(r[i]) == if i < n then CustomId(models[i]) else ids[i - n] {
      ReferenceId(models, custom, i);
    }
    UniqueParts(models, ids, r);
    if UniqueTrimmed(models) {
      TrimmedKeptApart(models, custom);
    }
  }

  lemma {:induction false} UniqueParts(models: seq<Json>, ids: seq<string>, r: seq<Json>)
    requires |r| == |models| + |ids|
    requires forall i :: 0 <= i < |r| ==>
               CustomId(r[i]) == if i < |models| then CustomId(models[i]) else ids[i - |models|]
    requires (forall i, j :: 0 <= i < j < |ids| ==> ids[i] != ids[j]) && "" !in ids
    ensures UniqueAfterTrim(r) <==>
            UniqueAfterTrim(models) && forall i :: 0 <= i < |models| ==> CustomId(models[i]) !in ids
  {
    hide CustomId;
    var n := |models|;
    if UniqueAfterTrim(r) {
      forall i, j | 0 <= i < j < n && CustomId(models[i]) != "" ensures CustomId(models[i]) != CustomId(models[j]) {
        assert CustomId(r[i]) != CustomId(r[j]);
      }
      forall i | 0 <= i < n ensures CustomId(models[i]) !in ids {
        forall k | 0 <= k < |ids| ensures ids[k] != CustomId(models[i]) {
          assert ids[k] != "" && CustomId(r[n + k]) == ids[k] && CustomId(r[i]) == CustomId(models[i]);
        }
      }
    }
  }

  lemma {:induction false} TrimmedKeptApart(models: seq<Json>, custom: seq<Json>)
    requires UniqueTrimmed(models)
    ensures UniqueAfterTrim(models) && forall i :: 0 <= i < |models| ==> CustomId(models[i]) !in NewIds(models, custom)
  {
    NewIdsProperties(models, custom);
    forall i | 0 <= i < |models| ensures CustomId(models[i]) !in NewIds(models, custom) {
      assert HasId(models, IdOf(models[i]));
    }
  }

  lemma {:induction false} FiledStep(custom: seq<Json>, key: string, c: Json)
    ensures Filed(custom + [c], key) ==
            Filed(custom, key) + if CustomId(c) != "" && CustomId(c) == key then [c] else []
  {
    assert (custom + [c])[..|custom|] == custom;
  }

  lemma {:induction false} ConcatHead(filed: seq<Json>, c: Json)
    requires filed != []
    ensures (filed + [c])[0] == filed[0] && (filed + [c])[1..] == filed[1..] + [c]
  {
  }

  lemma {:induction false} PatchedAppend(m: Json, patches: seq<Json>, c: Json)
    ensures Patched(m, patches + [c]) == Merged(Patched(m, patches), c)
  {
    assert (patches + [c])[..|patches|] == patches;
  }

  lemma {:induction false} NewIdsStep(models: seq<Json>, custom: seq<Json>, c: Json)
    ensures var ids, id := NewIds(models, custom), CustomId(c);
            NewIds(models, custom + [c]) == if id != "" && !HasId(models, id) && id !in ids then ids + [id] else ids
  {
    assert (custom + [c])[..|custom|] == custom;
  }

  lemma {:induction false} ReferenceLength(models: seq<Json>, custom: seq<Json>)
    ensures |Reference(models, custom)| == |models| + |NewIds(models, custom)|
  {
  }

  /** What stands at position `i` of the reference list. */
  lemma {:induction false} ReferenceAt(models: seq<Json>, custom: seq<Json>, i: nat)
    requires i < |models| + |NewIds(models, custom)|
    ensures var filed := Filed(custom, IdAt(models, custom, i));
            && (i >= |models| ==> filed != [])
            && Reference(models, custom)[i] ==
               if i < |models| then Patched(models[i], filed) else Patched(filed[0], filed[1..])
  {
    NewIdsProperties(models, custom);
    hide Filed, NewIds, Patched, HasId;
    if i >= |models| {
      assert IdAt(models, custom, i) in NewIds(models, custom);
    }
  }

  /** Position `i` of the reference list after one more custom model. */
  lemma {:induction false} EntryStep(models: seq<Json>, custom: seq<Json>, c: Json, i: nat)
    requires i < |models| + |NewIds(models, custom)|
    ensures i < |Reference(models, custom + [c])|
    ensures var id, r := CustomId(c), Reference(models, custom);
            Reference(models, custom + [c])[i] ==
            if id != "" && IdAt(models, custom, i) == id then Merged(r[i], c) else r[i]
  {
    var key, longer := IdAt(models, custom, i), custom + [c];
    IdAtStays(models, custom, c, i);
    ReferenceLength(models, longer);
    ReferenceAt(models, custom, i);
    ReferenceAt(models, longer, i);
    FiledStep(custom, key, c);
    hide *;
    var filed := Filed(custom, key);
    if CustomId(c) != "" && CustomId(c) == key {
      if i < |models| {
        PatchedAppend(models[i], filed, c);
      } else {
        ConcatHead(filed, c);
        PatchedAppend(filed[0], filed[1..], c);
      }
    } else {
      assert filed + [] == filed;
    }
  }

  lemma {:induction false} IdAtStays(models: seq<Json>, custom: seq<Json>, c: Json, i: nat)
    requires i < |models| + |NewIds(models, custom)|
    ensures i < |models| + |NewIds(models, custom + [c])|
    ensures IdAt(models, custom + [c], i) == IdAt(models, custom, i)
  {
    NewIdsStep(models, custom, c);
    hide NewIds, CustomId, HasId;
  }

  /** A new id: its model is appended as it is. */
  lemma {:induction false} AppendStep(models: seq<Json>, custom: seq<Json>, c: Json)
    requires CustomId(c) != "" && !HasId(models, CustomId(c)) && CustomId(c) !in NewIds(models, custom)
    ensures Reference(models, custom + [c]) == Reference(models, custom) + [c]
  {
    var r, next := Reference(models, custom), Reference(models, custom + [c]);
    LastNew(models, custom, c);
    ReferenceLength(models, custom);
    hide *;
    assert |next| == |r| + 1 && next[|r|] == c;
    forall i | 0 <= i < |r| ensures next[i] == r[i] {
      EntryStep(models, custom, c, i);
      NotFiledUnder(models, custom, i, CustomId(c));
    }
  }

  lemma {:induction false} NotFiledUnder(models: seq<Json>, custom: seq<Json>, i: nat, id: string)
    requires i < |models| + |NewIds(models, custom)|
    requires id != "" && !HasId(models, id) && id !in NewIds(models, custom)
    ensures IdAt(models, custom, i) != id
  {
    hide NewIds, IsLast;
    assert i < |models| ==> HasId(models, IdOf(models[i]));
  }

  lemma {:induction false} LastNew(models: seq<Json>, custom: seq<Json>, c: Json)
    requires CustomId(c) != "" && !HasId(models, CustomId(c)) && CustomId(c) !in NewIds(models, custom)
    ensures |Reference(models, custom + [c])| == |models| + |NewIds(models, custom)| + 1
    ensures Reference(models, custom + [c])[|models| + |NewIds(models, custom)|] == c
  {
    NewIdsStep(models, custom, c);
    NewIdsProperties(models, custom);
    FiledStep(custom, CustomId(c), c);
    ReferenceAt(models, custom + [c], |models| + |NewIds(models, custom)|);
    ReferenceLength(models, custom + [c]);
    hide Filed, NewIds, Reference;
    assert Filed(custom + [c], CustomId(c)) == [c];
    assert [c][1..] == [] && Patched(c, []) == c;
  }

  predicate Known(models: seq<Json>, custom: seq<Json>, id: string) {
    id != "" && (HasId(models, id) || id in NewIds(models, custom))
  }

  /** `id` is indexed exactly when it is known, and then at a position filed under it. */
  ghost predicate Indexed(models: seq<Json>, custom: seq<Json>, byId: map<string, nat>, id: string) {
    && (id in byId <==> Known(models, custom, id))
    && (id in byId ==>
          byId[id] < |models| + |NewIds(models, custom)| && IdAt(models, custom, byId[id]) == id)
  }

  /** The index of the ids known so far: `existing_by_id`. */
  ghost predicate Indexes(models: seq<Json>, custom: seq<Json>, byId: map<string, nat>) {
    forall id :: Indexed(models, custom, byId, id)
  }

  /** No two positions are filed under one id. */
  lemma {:induction false} IdAtUnique(models: seq<Json>, custom: seq<Json>, i: nat, j: nat)
    requires i < j < |models| + |NewIds(models, custom)| && IdAt(models, custom, i) != ""
    ensures IdAt(models, custom, i) != IdAt(models, custom, j)
  {
    NewIdsProperties(models, custom);
    if i < |models| <= j {
      assert HasId(models, IdOf(models[i]));
      assert IdAt(models, custom, j) in NewIds(models, custom);
    }
  }

  lemma {:induction false} MergeStep(models: seq<Json>, custom: seq<Json>, c: Json, at: nat)
    requires CustomId(c) != ""
    requires at < |models| + |NewIds(models, custom)| && IdAt(models, custom, at) == CustomId(c)
    ensures Reference(models, custom + [c]) ==
            Reference(models, custom)[at := Merged(Reference(models, custom)[at], c)]
    ensures NewIds(models, custom + [c]) == NewIds(models, custom)
  {
    hide CustomId, Filed, Patched, Merged;
    var r, next := Reference(models, custom), Reference(models, custom + [c]);
    NewIdsStep(models, custom, c);
    assert HasId(models, CustomId(c)) || CustomId(c) in NewIds(models, custom);
    assert |next| == |r| == |models| + |NewIds(models, custom)|;
    hide Reference, IdAt, HasId, NewIds;
    forall i | 0 <= i < |r| ensures next[i] == if i == at then Merged(r[i], c) else r[i] {
      EntryStep(models, custom, c, i);
      if i != at && IdAt(models, custom, i) == CustomId(c) {
        if i < at {
          IdAtUnique(models, custom, i, at);
        } else {
          IdAtUnique(models, custom, at, i);
        }
      }
    }
  }

  /** Where `c` goes, given the index of the ids known so far, and the index afterwards. */
  lemma {:induction false} IndexStep(models: seq<Json>, custom: seq<Json>, c: Json, byId: map<string, nat>)
    requires Indexes(models, custom, byId)
    ensures var id, r := CustomId(c), Reference(models, custom);
            if id == "" then
              Reference(models, custom + [c]) == r && Indexes(models, custom + [c], byId)
            else if id in byId then
              && byId[id] < |r|
              && Reference(models, custom + [c]) == r[byId[id] := Merged(r[byId[id]], c)]
              && Indexes(models, custom + [c], byId)
            else
              Reference(models, custom + [c]) == r + [c] && Indexes(models, custom + [c], byId[id := |r|])
  {
    ReferenceLength(models, custom);
    hide Reference, NewIds, CustomId, HasId;
    if CustomId(c) == "" {
      SkipStep(models, custom, c);
      SameIndex(models, custom, custom + [c], byId);
    } else if CustomId(c) in byId {
      assert Indexed(models, custom, byId, CustomId(c));
      MergeStep(models, custom, c, byId[CustomId(c)]);
      SameIndex(models, custom, custom + [c], byId);
    } else {
      assert Indexed(models, custom, byId, CustomId(c));
      AppendStep(models, custom, c);
      NewIdsStep(models, custom, c);
      LongerIndex(models, custom, custom + [c], CustomId(c), byId);
    }
  }

  lemma {:induction false} SameIndex(models: seq<Json>, custom: seq<Json>, longer: seq<Json>, byId: map<string, nat>)
    requires Indexes(models, custom, byId) && NewIds(models, longer) == NewIds(models, custom)
    ensures Indexes(models, longer, byId)
  {
    forall id ensures Indexed(models, longer, byId, id) {
      assert Indexed(models, custom, byId, id);
    }
  }

  lemma {:induction false} LongerIndex(models: seq<Json>, custom: seq<Json>, longer: seq<Json>, id: string,
                                       byId: map<string, nat>)
    requires Indexes(models, custom, byId) && id != ""
    requires NewIds(models, longer) == NewIds(models, custom) + [id]
    ensures Indexes(models, longer, byId[id := |models| + |NewIds(models, custom)|])
  {
    hide Indexed, NewIds;
    var grown: map<string, nat> := byId[id := |models| + |NewIds(models, custom)|];
    forall k ensures Indexed(models, longer, grown, k) {
      assert Indexed(models, custom, byId, k);
      LongerIndexAt(models, custom, longer, id, byId, k);
    }
  }

  lemma {:induction false} LongerIndexAt(models: seq<Json>, custom: seq<Json>, longer: seq<Json>, id: string,
                                         byId: map<string, nat>, k: string)
    requires Indexed(models, custom, byId, k) && id != ""
    requires NewIds(models, longer) == NewIds(models, custom) + [id]
    ensures Indexed(models, longer, byId[id := |models| + |NewIds(models, custom)|], k)
  {
    hide NewIds, HasId;
    assert k in NewIds(models, longer) <==> k in NewIds(models, custom) || k == id;
  }

  /** The loop over the user's models, with an index from id to the entry it names. */
  method MergeCustomModels(models: seq<Json>, custom: seq<Json>) returns (out: seq<Json>)
    ensures out == Reference(models, custom)
  {
    out := models;
    var existingById: map<string, nat> := IndexModels(models);
    StartIndex(models, existingById);
    hide Reference, Indexes, Merged, CustomId;
    for n := 0 to |custom|
      invariant out == Reference(models, custom[..n]) && Indexes(models, custom[..n], existingById)
    {
      var c := custom[n];
      assert custom[..n + 1] == custom[..n] + [c];
      IndexStep(models, custom[..n], c, existingById);
      var id := CustomId(c);
      if id != "" {
        if id in existingById {
          var at := existingById[id];
          out := out[at := Merged(out[at], c)];
        } else {
          existingById := existingById[id := |out|];
          out := out + [c];
        }
      }
    }
    assert custom[..|custom|] == custom;
  }

  lemma {:induction false} StartIndex(models: seq<Json>, byId: map<string, nat>)
    requires forall id :: id in byId <==> id != "" && HasId(models, id)
    requires forall id :: id in byId ==> byId[id] < |models| && IdOf(models[byId[id]]) == id && IsLast(models, byId[id])
    ensures Reference(models, []) == models && Indexes(models, [], byId)
  {
  }

  lemma {:induction false} SkipStep(models: seq<Json>, custom: seq<Json>, c: Json)
    requires CustomId(c) == ""
    ensures Reference(models, custom + [c]) == Reference(models, custom)
    ensures NewIds(models, custom + [c]) == NewIds(models, custom)
  {
    NewIdsStep(models, custom, c);
    forall i | 0 <= i < |Reference(models, custom)|
      ensures Reference(models, custom + [c])[i] == Reference(models, custom)[i]
    {
      EntryStep(models, custom, c, i);
    }
  }

  /** Where each id stands; a repeated id names its last entry. */
  method IndexModels(models: seq<Json>) returns (byId: map<string, nat>)
    ensures forall id :: id in byId <==> id != "" && HasId(models, id)
    ensures forall id :: id in byId ==> byId[id] < |models| && IdOf(models[byId[id]]) == id && IsLast(models, byId[id])
  {
    byId := map[];
    for i := 0 to |models|
      invariant forall id :: StandsIn(models, i, byId, id)
    {
      ghost var before, seen := byId, i + 1;
      if IdOf(models[i]) != "" {
        byId := byId[IdOf(models[i]) := i];
      }
      hide IdOf, StandsIn;
      forall id ensures StandsIn(models, seen, byId, id) {
        assert StandsIn(models, i, before, id);
        StandsInStep(models, i, before, id);
        StandsInSame(models, seen, byId, if IdOf(models[i]) == id && id != "" then before[id := i] else before, id);
      }
    }
    IndexedByLast(models, byId);
  }

  lemma {:induction false} IndexedByLast(models: seq<Json>, byId: map<string, nat>)
    requires forall id :: StandsIn(models, |models|, byId, id)
    ensures forall id :: id in byId <==> id != "" && HasId(models, id)
    ensures forall id :: id in byId ==> byId[id] < |models| && IdOf(models[byId[id]]) == id && IsLast(models, byId[id])
  {
    hide IdOf, HasId;
    assert models[..|models|] == models;
    forall id ensures id in byId <==> id != "" && HasId(models, id) {
      assert StandsIn(models, |models|, byId, id);
    }
    forall id | id in byId
      ensures byId[id] < |models| && IdOf(models[byId[id]]) == id && IsLast(models, byId[id])
    {
      assert StandsIn(models, |models|, byId, id);
    }
  }

  /** The index as far as `id` is concerned, with the first `n` models seen. */
  ghost predicate StandsIn(models: seq<Json>, n: nat, byId: map<string, nat>, id: string)
    requires n <= |models|
  {
    && (id in byId <==> id != "" && HasId(models[..n], id))
    && (id in byId ==>
          byId[id] < n && IdOf(models[byId[id]]) == id && forall k :: byId[id] < k < n ==> IdOf(models[k]) != id)
  }

  lemma {:induction false} StandsInStep(models: seq<Json>, n: nat, byId: map<string, nat>, id: string)
    requires n < |models| && StandsIn(models, n, byId, id)
    ensures StandsIn(models, n + 1, if IdOf(models[n]) == id && id != "" then byId[id := n] else byId, id)
  {
    HasIdStep(models, n, id);
    hide HasId, IdOf;
  }

  lemma {:induction false} StandsInSame(models: seq<Json>, n: nat, a: map<string, nat>, b: map<string, nat>, id: string)
    requires n <= |models| && (id in a <==> id in b) && (id in a ==> a[id] == b[id]) && StandsIn(models, n, b, id)
    ensures StandsIn(models, n, a, id)
  {
    hide HasId, IdOf;
  }

  lemma {:induction false} HasIdStep(models: seq<Json>, i: nat, id: string)
    requires i < |models|
    ensures HasId(models[..i + 1], id) <==> HasId(models[..i], id) || IdOf(models[i]) == id
  {
    assert models[..i + 1][i] == models[i];
    assert forall k :: 0 <= k < i ==> models[..i + 1][k] == models[..i][k];
  }

  // ---------- The catalog ----------

  const CONNECTION_FIELDS := {"base_url", "mode", "type", "api_key_env"}

  function ModelsOf(entry: Object): seq<Json> {
    if "models" in entry && entry["models"].List? then entry["models"].items else []
  }

  /** A provider entry with the configured connection fields and models merged in. */
  function MergedEntry(entry: Object, config: Object): Object {
    var connected := entry + (map f | f in config.Keys * CONNECTION_FIELDS :: config[f]);
    var models := Reference(ModelsOf(connected), ModelsOf(config));
    if models == ModelsOf(connected) then connected else connected["models" := List(models)]
  }

  predicate IsPrivate(name: string) {
    name != "" && name[0] == '_'
  }

  function FieldsOf(j: Json): Object {
    if j.Obj? then j.fields else map[]
  }

  /** `_merge`: the public built-in providers, each merged with its configuration, and the configured new ones. */
  function MergedCatalog(providers: Object, builtin: Object): Object {
    map name | name in builtin.Keys + providers.Keys && (name in providers || !IsPrivate(name)) ::
      var entry := if name in builtin && !IsPrivate(name) then FieldsOf(builtin[name]) else map[];
      if name in providers then Obj(MergedEntry(entry, FieldsOf(providers[name]))) else Obj(entry)
  }

  lemma {:induction false} ConnectionsKeepModels(entry: Object, config: Object)
    ensures ModelsOf(entry + (map f | f in config.Keys * CONNECTION_FIELDS :: config[f])) == ModelsOf(entry)
  {
    assert "models" !in CONNECTION_FIELDS;
  }

  lemma {:induction false} MergedEntryModels(entry: Object, config: Object)
    ensures ModelsOf(MergedEntry(entry, config)) == Reference(ModelsOf(entry), ModelsOf(config))
  {
    hide Reference;
    ConnectionsKeepModels(entry, config);
  }

  /** Every public built-in provider survives with all its models, in place and under the same trimmed id; the id as it
      stands is kept exactly if no configured model is filed under it, or the last one that is spells it the same. */
  lemma {:induction false} CatalogKeepsBuiltin(providers: Object, builtin: Object, name: string, i: nat)
    requires name in builtin && !IsPrivate(name)
    requires i < |ModelsOf(FieldsOf(builtin[name]))|
    ensures name in MergedCatalog(providers, builtin)
    ensures var before := ModelsOf(FieldsOf(builtin[name]));
            var after := ModelsOf(FieldsOf(MergedCatalog(providers, builtin)[name]));
            var config := if name in providers then ModelsOf(FieldsOf(providers[name])) else [];
            var filed := Filed(config, ReachedBy(before, i));
            && i < |after| && CustomId(after[i]) == CustomId(before[i])
            && (IdOf(after[i]) == IdOf(before[i]) <==> filed == [] || IdOf(filed[|filed| - 1]) == IdOf(before[i]))
  {
    hide MergedEntry, ModelsOf;
    var models := ModelsOf(FieldsOf(builtin[name]));
    if name in providers {
      var config := FieldsOf(providers[name]);
      MergedEntryModels(FieldsOf(builtin[name]), config);
      ReferenceId(models, ModelsOf(config), i);
      RawIdKeptExactly(models, ModelsOf(config), i);
      assert i < |Reference(models, ModelsOf(config))|;
      hide Reference, Filed, IdOf, ReachedBy, CustomId;
    }
  }

  /** The catalog has the public built-in providers and every configured one. A connection field that is configured
      has the configured value; every other field is the built-in one, and models apart a new provider has no others. */
  lemma {:induction false} CatalogFields(providers: Object, builtin: Object, name: string, field: string)
    ensures name in MergedCatalog(providers, builtin) <==>
            name in providers || (name in builtin && (name == "" || name[0] != '_'))
    ensures name in MergedCatalog(providers, builtin) && field != "models" ==>
              var public := name in builtin && (name == "" || name[0] != '_');
              var before := if public then FieldsOf(builtin[name]) else map[];
              var config := if name in providers then FieldsOf(providers[name]) else map[];
              var after := FieldsOf(MergedCatalog(providers, builtin)[name]);
              if field in config && field in {"base_url", "mode", "type", "api_key_env"}
              then field in after && after[field] == config[field]
              else if field in before then field in after && after[field] == before[field]
              else field !in after
  {
    hide Reference, ModelsOf;
  }

  /** Model ids stay unique in every provider's merged list. */
  lemma {:induction false} CatalogIdsUnique(providers: Object, builtin: Object, name: string)
    requires name in MergedCatalog(providers, builtin)
    requires name in builtin && !IsPrivate(name) ==> UniqueTrimmed(ModelsOf(FieldsOf(builtin[name])))
    ensures UniqueAfterTrim(ModelsOf(FieldsOf(MergedCatalog(providers, builtin)[name])))
  {
    hide MergedEntry, Reference;
    var entry: Object := if name in builtin && !IsPrivate(name) then FieldsOf(builtin[name]) else map[];
    if name in providers {
      MergedEntryModels(entry, FieldsOf(providers[name]));
      ReferenceUnique(ModelsOf(entry), ModelsOf(FieldsOf(providers[name])));
    }
  }
}
