/** `provider/models_gen.py`, `ensure_models_json`: a bounded fingerprint cache in front of generated files. */
module ModelsCache {
  import opened ModelsGen
  import opened Wrappers

  const READY_CACHE_MAX := 32

  /** One call: the target file, the configured providers, and the text of the built-in catalog. */
  datatype Request = Request(target: string, providers: Object, builtinText: string)

  /** What the call relies on: the SHA-256 of providers and catalog text, the JSON parser, and the note it writes. */
  datatype Tools = Tools(fingerprint: (Object, string) -> string, parse: string -> Object, doc: string) {
    ghost predicate Injective() {
      forall p, b, q, c :: fingerprint(p, b) == fingerprint(q, c) ==> p == q && b == c
    }

    function Fingerprint(r: Request): string {
      fingerprint(r.providers, r.builtinText)
    }

    /** The file that regenerating would write. */
    function Generated(r: Request): Json {
      Obj(MergedCatalog(r.providers, parse(r.builtinText))
          ["_fingerprint" := Str(Fingerprint(r))]["_doc" := Str(doc)])
    }
  }

  type Cache = seq<(string, string)>

  /** The dict lookup: the fingerprint remembered for a target. */
  function Remembered(cache: Cache, target: string): Option<string> {
    if cache == [] then None
    else if cache[0].0 == target then Some(cache[0].1)
    else Remembered(cache[1..], target)
  }

  function Forget(cache: Cache, target: string): (r: Cache)
    ensures |r| <= |cache|
  {
    if cache == [] then []
    else if cache[0].0 == target then Forget(cache[1..], target)
    else [cache[0]] + Forget(cache[1..], target)
  }

  /** Re-inserting at the end, then dropping from the front down to the limit. */
  function Remember(cache: Cache, target: string, fp: string): (r: Cache) {
    var c := Forget(cache, target) + [(target, fp)];
    if |c| > READY_CACHE_MAX then c[|c| - READY_CACHE_MAX..] else c
  }

  type Disk = map<string, Json>

  datatype State = State(disk: Disk, cache: Cache)

  /** The uncached reference: write the generated file every time. */
  function Regenerate(disk: Disk, r: Request, tools: Tools): Disk {
    disk[r.target := tools.Generated(r)]
  }

  predicate Hit(cache: Cache, r: Request, tools: Tools) {
    Remembered(cache, r.target) == Some(tools.Fingerprint(r))
  }

  function Step(s: State, r: Request, tools: Tools): State {
    if Hit(s.cache, r, tools) then s
    else State(Regenerate(s.disk, r, tools), Remember(s.cache, r.target, tools.Fingerprint(r)))
  }

  /** A remembered fingerprint belongs to a request whose file is on disk. */
  ghost predicate Backed(disk: Disk, target: string, fp: string, tools: Tools) {
    exists r: Request :: r.target == target && tools.Fingerprint(r) == fp
                         && target in disk && disk[target] == tools.Generated(r)
  }

  ghost predicate OnePerTarget(cache: Cache) {
    forall i, j :: 0 <= i < j < |cache| ==> cache[i].0 != cache[j].0
  }

  ghost predicate Consistent(s: State, tools: Tools) {
    && |s.cache| <= READY_CACHE_MAX
    && OnePerTarget(s.cache)
    && forall e :: e in s.cache ==> Backed(s.disk, e.0, e.1, tools)
  }

  lemma {:induction false} RememberedAt(cache: Cache, target: string)
    requires Remembered(cache, target).Some?
    ensures (target, Remembered(cache, target).value) in cache
  {
    if cache[0].0 != target {
      RememberedAt(cache[1..], target);
    } else {
      assert cache[0] == (target, Remembered(cache, target).value);
    }
  }

  lemma {:induction false} ForgetKeeps(cache: Cache, target: string)
    requires OnePerTarget(cache)
    ensures OnePerTarget(Forget(cache, target))
    ensures forall e :: e in Forget(cache, target) <==> e in cache && e.0 != target
  {
    if cache != [] {
      ForgetKeeps(cache[1..], target);
      var rest := Forget(cache[1..], target);
      forall j | 0 <= j < |rest| ensures rest[j].0 != cache[0].0 {
        assert rest[j] in cache[1..];
      }
    }
  }

  /** Remembering keeps the limit and one entry per target, and adds nothing but the new entry. */
  lemma {:induction false} RememberKeeps(cache: Cache, target: string, fp: string)
    requires |cache| <= 32 && OnePerTarget(cache)
    ensures |Remember(cache, target, fp)| <= 32 && OnePerTarget(Remember(cache, target, fp))
    ensures forall e :: e in Remember(cache, target, fp) ==> e == (target, fp) || (e in cache && e.0 != target)
    ensures Remembered(Remember(cache, target, fp), target) == Some(fp)
  {
    ForgetKeeps(cache, target);
    var kept := Forget(cache, target);
    forall i | 0 <= i < |kept| ensures kept[i].0 != target {
      assert kept[i] in kept;
    }
    RememberedLast(Remember(cache, target, fp), target, fp);
  }

  lemma {:induction false} RememberedLast(cache: Cache, target: string, fp: string)
    requires cache != [] && cache[|cache| - 1] == (target, fp) && OnePerTarget(cache)
    ensures Remembered(cache, target) == Some(fp)
  {
    if |cache| > 1 {
      RememberedLast(cache[1..], target, fp);
    }
  }

  /** A skip happens only when the disk already holds what regenerating would write. */
  lemma {:induction false} HitMeansCurrent(s: State, r: Request, tools: Tools)
    requires tools.Injective() && Consistent(s, tools) && Hit(s.cache, r, tools)
    ensures r.target in s.disk && s.disk[r.target] == tools.Generated(r)
  {
    RememberedAt(s.cache, r.target);
    var e := (r.target, tools.Fingerprint(r));
    assert Backed(s.disk, e.0, e.1, tools);
    var other: Request :| other.target == r.target && tools.Fingerprint(other) == tools.Fingerprint(r)
                          && s.disk[r.target] == tools.Generated(other);
    assert other == r;
  }

  /** One cached call does to the disk what regenerating does, and keeps the cache truthful. */
  lemma {:induction false} StepRefines(s: State, r: Request, tools: Tools)
    requires tools.Injective() && Consistent(s, tools)
    ensures Step(s, r, tools).disk == Regenerate(s.disk, r, tools)
    ensures Consistent(Step(s, r, tools), tools)
  {
    if Hit(s.cache, r, tools) {
      HitMeansCurrent(s, r, tools);
      assert Regenerate(s.disk, r, tools) == s.disk;
    } else {
      var disk, fp := Regenerate(s.disk, r, tools), tools.Fingerprint(r);
      RememberKeeps(s.cache, r.target, fp);
      assert Backed(disk, r.target, fp, tools);
      forall e | e in s.cache && e.0 != r.target ensures Backed(disk, e.0, e.1, tools) {
        assert Backed(s.disk, e.0, e.1, tools);
      }
    }
  }

  ghost function RunCached(s: State, requests: seq<Request>, tools: Tools): State
    decreases |requests|
  {
    if requests == [] then s else RunCached(Step(s, requests[0], tools), requests[1..], tools)
  }

  ghost function RunAlways(disk: Disk, requests: seq<Request>, tools: Tools): Disk
    decreases |requests|
  {
    if requests == [] then disk else RunAlways(Regenerate(disk, requests[0], tools), requests[1..], tools)
  }

  /** Over every sequence of calls on any targets, the cached runs leave the disk that always regenerating leaves. */
  lemma {:induction false} CacheIsInvisible(s: State, requests: seq<Request>, tools: Tools)
    requires tools.Injective() && Consistent(s, tools)
    ensures RunCached(s, requests, tools).disk == RunAlways(s.disk, requests, tools)
    ensures Consistent(RunCached(s, requests, tools), tools)
    decreases |requests|
  {
    if requests != [] {
      StepRefines(s, requests[0], tools);
      CacheIsInvisible(Step(s, requests[0], tools), requests[1..], tools);
    }
  }

  /** If others may write the file, a call still brings it up to date exactly when it misses the cache
      or the file was current already. */
  lemma {:induction false} StepWithForeignWrites(s: State, r: Request, tools: Tools)
    ensures Step(s, r, tools).disk == Regenerate(s.disk, r, tools) <==>
            !Hit(s.cache, r, tools) || (r.target in s.disk && s.disk[r.target] == tools.Generated(r))
  {
    var d := Regenerate(s.disk, r, tools);
    assert d[r.target] == tools.Generated(r);
    if r.target in s.disk && s.disk[r.target] == tools.Generated(r) {
      assert d == s.disk;
    }
  }

  /** The module's cache and the files it writes. */
  class ModelsJson {
    const tools: Tools
    var disk: Disk
    var readyCache: Cache

    ghost predicate Valid()
      reads this
    {
      tools.Injective() && Consistent(State(disk, readyCache), tools)
    }

    constructor (tools: Tools, disk: Disk)
      requires tools.Injective()
      ensures Valid() && this.tools == tools && this.disk == disk
    {
      this.tools, this.disk := tools, disk;
      readyCache := [];
    }

    method RememberReadyFingerprint(target: string, fp: string)
      modifies this`readyCache
      ensures |old(readyCache)| <= READY_CACHE_MAX ==> readyCache == Remember(old(readyCache), target, fp)
    {
      readyCache := Forget(readyCache, target) + [(target, fp)];
      while |readyCache| > READY_CACHE_MAX
        invariant readyCache != []
        invariant |old(readyCache)| <= READY_CACHE_MAX ==>
          |readyCache| <= READY_CACHE_MAX + 1
          && Remember(old(readyCache), target, fp) ==
             if |readyCache| > READY_CACHE_MAX then readyCache[1..] else readyCache
      {
        readyCache := readyCache[1..];
      }
    }

    /** Skip on a fingerprint hit; otherwise generate, and write only if the file differs. */
    method EnsureModelsJson(r: Request) returns (wrote: bool)
      requires Valid()
      modifies this
      ensures Valid()
      ensures disk == Regenerate(old(disk), r, tools)
      ensures wrote <==> !(r.target in old(disk) && old(disk)[r.target] == tools.Generated(r))
      ensures Remembered(readyCache, r.target) == Some(tools.Fingerprint(r))
    {
      ghost var before := State(disk, readyCache);
      StepRefines(before, r, tools);
      var fp := tools.Fingerprint(r);
      if Remembered(readyCache, r.target) == Some(fp) {
        HitMeansCurrent(before, r, tools);
        return false;
      }
      RememberKeeps(readyCache, r.target, fp);
      var newContent := tools.Generated(r);
      if r.target in disk && disk[r.target] == newContent {
        RememberReadyFingerprint(r.target, fp);
        assert disk == Regenerate(disk, r, tools);
        return false;
      }
      disk := disk[r.target := newContent];
      RememberReadyFingerprint(r.target, fp);
      wrote := true;
    }
  }
}
