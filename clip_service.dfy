/**
  The resident-model cache: loader objects for the three model families and
  `MultiModelCLIPService`, which keeps at most `capacity` loaded models in
  least-recently-used order next to a "current model" selector.
*/
module ClipService {
  import opened Wrappers
  import ClipModels

  // ---------------------------------------------------------------------------
  // Recency order of the resident ids (the keys of the OrderedDict)
  // ---------------------------------------------------------------------------

  /** No id occurs twice (dictionary keys). */
  predicate NoDup(s: seq<string>)
  {
    forall i, j :: 0 <= i < j < |s| ==> s[i] != s[j]
  }

  /** `s` with every occurrence of `x` taken out, the rest in their order. */
  function RemoveKey(s: seq<string>, x: string): (r: seq<string>)
    ensures forall y :: y in r <==> y in s && y != x
    ensures |r| <= |s|
    ensures NoDup(s) ==> NoDup(r)
    ensures NoDup(s) && x in s ==> |r| == |s| - 1
    ensures x !in s ==> r == s
  {
    if s == [] then []
    else
      var rest := RemoveKey(s[1..], x);
      assert forall y :: y in s[1..] ==> y in s;
      assert NoDup(s) ==> s[0] !in s[1..];
      assert [s[0]] + s[1..] == s;
      if s[0] == x then rest else [s[0]] + rest
  }

  /** Removing a key that is absent changes nothing. */
  lemma {:induction false} RemoveAbsentKey(s: seq<string>, x: string)
    requires x !in s
    ensures RemoveKey(s, x) == s
  {
    if s != [] {
      RemoveAbsentKey(s[1..], x);
      assert [s[0]] + s[1..] == s;
    }
  }

  /** Removing a key from `s + [x]` is the same as removing it from `s`. */
  lemma {:induction false} RemoveKeyAppended(s: seq<string>, x: string)
    ensures RemoveKey(s + [x], x) == RemoveKey(s, x)
  {
    if s == [] {
      assert [] + [x] == [x];
      assert [x][1..] == [];
    } else {
      assert (s + [x])[1..] == s[1..] + [x];
      RemoveKeyAppended(s[1..], x);
    }
  }

  /** `OrderedDict.move_to_end(x)` on the key order. */
  function MoveToEnd(s: seq<string>, x: string): (r: seq<string>)
    requires x in s
  {
    RemoveKey(s, x) + [x]
  }

  /**
    Moving a resident key to the end keeps the same keys, makes it the most
    recent one, and leaves the relative order of all other keys unchanged.
  */
  lemma MoveToEndProperties(s: seq<string>, x: string)
    requires NoDup(s) && x in s
    ensures NoDup(MoveToEnd(s, x))
    ensures |MoveToEnd(s, x)| == |s|
    ensures forall y :: y in MoveToEnd(s, x) <==> y in s
    ensures MoveToEnd(s, x)[|s| - 1] == x
    ensures RemoveKey(MoveToEnd(s, x), x) == RemoveKey(s, x)
  {
    var rest := RemoveKey(s, x);
    RemoveKeyAppended(rest, x);
    RemoveAbsentKey(rest, x);
    assert forall i :: 0 <= i < |rest| ==> (rest + [x])[i] == rest[i] && rest[i] in rest;
  }

  /**
    `_evict_if_needed` on the key order: drop the least recent key while the
    number of keys is at least `capacity`.
  */
  function EvictLoop(s: seq<string>, capacity: int): (r: seq<string>)
    requires capacity >= 1
    ensures |r| < capacity
    ensures |r| <= |s| && r == s[|s| - |r|..]
    ensures |s| >= capacity ==> |r| == capacity - 1
    ensures |s| < capacity ==> r == s
    decreases |s|
  {
    if |s| >= capacity then EvictLoop(s[1..], capacity) else s
  }

  /** A suffix of a duplicate-free sequence is duplicate-free. */
  lemma SuffixNoDup(s: seq<string>, k: nat)
    requires NoDup(s) && k <= |s|
    ensures NoDup(s[k..])
  {
    forall i, j | 0 <= i < j < |s| - k
      ensures s[k..][i] != s[k..][j]
    {
      assert s[k..][i] == s[k + i] && s[k..][j] == s[k + j];
    }
  }

  /**
    The reference LRU step for a successful `load_model(x)`: a hit moves `x` to
    the most recent end; a miss evicts from the least recent end and appends `x`.
  */
  function Access(s: seq<string>, x: string, capacity: int): seq<string>
    requires capacity >= 1
  {
    if x in s then MoveToEnd(s, x) else EvictLoop(s, capacity) + [x]
  }

  /**
    A successful access keeps the cache's invariants (no duplicate keys, at most
    `capacity` of them), makes `x` the most recent key, and brings in no key
    other than `x`; on a miss, exactly the `|s| - capacity + 1` least recent
    keys (when there are that many) leave.
  */
  lemma AccessProperties(s: seq<string>, x: string, capacity: int)
    requires capacity >= 1 && NoDup(s) && |s| <= capacity
    ensures NoDup(Access(s, x, capacity))
    ensures |Access(s, x, capacity)| <= capacity
    ensures |Access(s, x, capacity)| > 0 && Access(s, x, capacity)[|Access(s, x, capacity)| - 1] == x
    ensures forall y :: y in Access(s, x, capacity) ==> y in s || y == x
    ensures x in s ==> forall y :: y in Access(s, x, capacity) <==> y in s
    ensures x !in s ==>
              var k := if |s| >= capacity then |s| - capacity + 1 else 0;
              Access(s, x, capacity) == s[k..] + [x]
  {
    if x in s {
      MoveToEndProperties(s, x);
    } else {
      AccessMiss(s, x, capacity);
    }
  }

  /** A miss drops the `|s| - capacity + 1` least recent keys (if that many) and appends `x`. */
  lemma AccessMiss(s: seq<string>, x: string, capacity: int)
    requires capacity >= 1 && NoDup(s) && |s| <= capacity && x !in s
    ensures var k := if |s| >= capacity then |s| - capacity + 1 else 0;
            && EvictLoop(s, capacity) + [x] == s[k..] + [x]
            && NoDup(s[k..] + [x])
            && forall y :: y in s[k..] + [x] ==> y in s || y == x
  {
    var e := EvictLoop(s, capacity);
    var k := if |s| >= capacity then |s| - capacity + 1 else 0;
    assert e == s[k..];
    SuffixNoDup(s, k);
    AppendFreshNoDup(e, x);
  }

  /** Appending an id the sequence lacks keeps it duplicate-free. */
  lemma AppendFreshNoDup(e: seq<string>, x: string)
    requires NoDup(e) && x !in e
    ensures NoDup(e + [x])
    ensures forall y :: y in e + [x] <==> y in e || y == x
  {
    assert forall i :: 0 <= i < |e| ==> (e + [x])[i] == e[i];
  }

  /** The key order after a sequence of successful loads, starting empty. */
  function Run(capacity: int, ids: seq<string>): seq<string>
    requires capacity >= 1
  {
    if ids == [] then [] else Access(Run(capacity, ids[..|ids| - 1]), ids[|ids| - 1], capacity)
  }

  /** With capacity 2, the four steps of loading A, B, A, C. */
  lemma CapacityTwoSteps(a: string, b: string, c: string)
    requires a != b && b != c && a != c
    ensures Access([], a, 2) == [a]
    ensures Access([a], b, 2) == [a, b]
    ensures Access([a, b], a, 2) == [b, a]
    ensures Access([b, a], c, 2) == [a, c]
  {
    assert EvictLoop([a], 2) == [a];
    assert [a, b][1..] == [b] && [b][1..] == [];
    assert RemoveKey([b], a) == [b];
    assert RemoveKey([a, b], a) == [b];
    assert [b, a][1..] == [a];
    assert EvictLoop([b, a], 2) == [a];
  }

  /** With capacity 2, loading A, B, A, C leaves A and C resident, C the most recent. */
  lemma CapacityTwoScenario(a: string, b: string, c: string)
    requires a != b && b != c && a != c
    ensures Run(2, [a, b, a, c]) == [a, c]
  {
    CapacityTwoSteps(a, b, c);
    assert [a, b, a, c][..3] == [a, b, a];
    assert [a, b, a][..2] == [a, b];
    assert [a, b][..1] == [a];
    assert [a][..0] == [];
    assert Run(2, [a]) == [a];
    assert Run(2, [a, b]) == [a, b];
    assert Run(2, [a, b, a]) == [b, a];
  }

  // ---------------------------------------------------------------------------
  // Loaders
  // ---------------------------------------------------------------------------

  /** The three `ModelLoader` subclasses. */
  datatype LoaderClass = OpenAICLIPLoader | OpenCLIPLoader | SigLIPLoader

  /** The model family each loader class is written for. */
  function ServedFamily(c: LoaderClass): ClipModels.ModelFamily
  {
    match c
    case OpenAICLIPLoader => ClipModels.OpenAIClip
    case OpenCLIPLoader => ClipModels.OpenClip
    case SigLIPLoader => ClipModels.SigLip
  }

  /** `_get_loader_class`: the loader class for a registry family. */
  function LoaderClassFor(family: ClipModels.ModelFamily): (c: LoaderClass)
    ensures ServedFamily(c) == family
    ensures forall d :: ServedFamily(d) == family ==> d == c
  {
    match family
    case OpenAIClip => OpenAICLIPLoader
    case OpenClip => OpenCLIPLoader
    case SigLip => SigLIPLoader
  }

  /** An opaque object a foreign library hands back (weights, transform, tokenizer, processor). */
  datatype Handle = Handle(modelName: string)

  /** What `load` does when it calls into the weight source. */
  datatype LoadOutcome = LoadSucceeds | LoadFails(message: string)

  /** A `ModelLoader` of one of the three classes, with its handle fields. */
  class ModelLoader {
    const kind: LoaderClass
    var device: Option<string>
    var model: Option<Handle>
    var preprocess: Option<Handle>
    var tokenizer: Option<Handle>
    var processor: Option<Handle>

    /** Fields a class does not declare stay `None`. */
    predicate Valid()
      reads this
    {
      && (kind != OpenCLIPLoader ==> tokenizer.None?)
      && (kind == SigLIPLoader ==> preprocess.None?)
      && (kind != SigLIPLoader ==> processor.None?)
    }

    /** Every handle the class needs for encoding is present. */
    predicate IsLoaded()
      reads this
    {
      && model.Some?
      && match kind
         case OpenAICLIPLoader => preprocess.Some?
         case OpenCLIPLoader => preprocess.Some? && tokenizer.Some?
         case SigLIPLoader => processor.Some?
    }

    /** Every handle is `None` (the state `unload` leaves). */
    predicate Released()
      reads this
    {
      model.None? && preprocess.None? && tokenizer.None? && processor.None?
    }

    /** `loader_class()`: every field starts as `None`. */
    constructor (kind: LoaderClass)
      ensures this.kind == kind && device.None? && Released() && Valid()
    {
      this.kind := kind;
      device, model, preprocess, tokenizer, processor := None, None, None, None, None;
    }

    /**
      `load(config, device)`: records the device, then obtains the handles from
      the weight source; if that fails, the error propagates and no handle is set.
    */
    method Load(config: ClipModels.ModelConfig, device: string, outcome: LoadOutcome)
      returns (r: Result<(), string>)
      requires Valid()
      modifies this
      ensures Valid()
      ensures this.device == Some(device)
      ensures r.Success? <==> outcome.LoadSucceeds?
      ensures r.Success? ==> IsLoaded() && model == Some(Handle(config.modelName))
      ensures r.Failure? ==>
                && r.error == outcome.message
                && model == old(model) && preprocess == old(preprocess)
                && tokenizer == old(tokenizer) && processor == old(processor)
    {
      this.device := Some(device);
      if outcome.LoadFails? {
        return Failure(outcome.message);
      }
      var h := Handle(config.modelName);
      match kind {
        case OpenAICLIPLoader =>
          model, preprocess := Some(h), Some(h);
        case OpenCLIPLoader =>
          model, preprocess := Some(h), Some(h);
          tokenizer := Some(h);
        case SigLIPLoader =>
          processor := Some(h);
          model := Some(h);
      }
      r := Success(());
    }

    /** `unload()`: drops every handle the class holds; the device stays. */
    method Unload()
      requires Valid()
      modifies this
      ensures Valid() && Released()
      ensures device == old(device)
    {
      match kind
      case OpenAICLIPLoader =>
        model, preprocess := None, None;
      case OpenCLIPLoader =>
        model, preprocess, tokenizer := None, None, None;
      case SigLIPLoader =>
        model, processor := None, None;
    }
  }

  // ---------------------------------------------------------------------------
  // The service
  // ---------------------------------------------------------------------------

  /**
    What `load_model` and `set_current_model` raise: the registry's
    unknown-model error for an id outside it, or the error of a failed load.
  */
  datatype ServiceError = RegistryFailure(cause: ClipModels.RegistryError) | LoadError(message: string)

  /** Everything a loader holds: its device and its four handle fields. */
  ghost function Snapshot(l: ModelLoader): (Option<string>, Option<Handle>, Option<Handle>, Option<Handle>, Option<Handle>)
    reads l
  {
    (l.device, l.model, l.preprocess, l.tokenizer, l.processor)
  }

  /** Distinct ids hold distinct loader objects. */
  predicate Injective(m: map<string, ModelLoader>)
  {
    forall a, b :: a in m && b in m && a != b ==> m[a] != m[b]
  }

  /** The entries of `m` whose key is in `keys`. */
  function Restrict(m: map<string, ModelLoader>, keys: seq<string>): (r: map<string, ModelLoader>)
    ensures forall id :: id in r <==> id in m && id in keys
    ensures forall id :: id in r ==> r[id] == m[id]
  {
    map id | id in m && id in keys :: m[id]
  }

  /** A resident entry holds a loader with every handle it needs. */
  predicate EntryOk(l: ModelLoader)
    reads l
  {
    l.Valid() && l.IsLoaded()
  }

  /** Every entry is an id of `registry` served by the loader class of its family. */
  ghost predicate Registered(registry: seq<(string, ClipModels.ModelConfig)>, m: map<string, ModelLoader>)
  {
    forall id :: id in m ==>
      && ClipModels.Find(registry, id).Some?
      && m[id].kind == LoaderClassFor(ClipModels.Find(registry, id).value.family)
  }

  /** The key order and the entry map describe the same duplicate-free set of ids, each with its own loader. */
  ghost predicate KeysMatch(order: seq<string>, m: map<string, ModelLoader>)
  {
    && NoDup(order)
    && (forall id :: id in order <==> id in m)
    && Injective(m)
  }

  /** Every entry of `m` is a resident entry. */
  ghost predicate EntriesOk(m: map<string, ModelLoader>)
    reads m.Values
  {
    forall id :: id in m ==> EntryOk(m[id])
  }

  /**
    Popping the least recent key keeps the keys and entries matched and
    registered, and the popped loader is held by no remaining entry.
  */
  lemma PopLeastRecent(registry: seq<(string, ClipModels.ModelConfig)>, order: seq<string>, m: map<string, ModelLoader>)
    requires KeysMatch(order, m) && Registered(registry, m) && |order| > 0
    ensures KeysMatch(order[1..], m - {order[0]})
    ensures Registered(registry, m - {order[0]})
    ensures m[order[0]] !in (m - {order[0]}).Values
  {
    SuffixNoDup(order, 1);
    assert forall id :: id in order[1..] <==> id in order && id != order[0];
  }

  /** Every entry of `m` is an entry of `m0`. */
  ghost predicate SubMap(m: map<string, ModelLoader>, m0: map<string, ModelLoader>)
  {
    forall id :: id in m ==> id in m0 && m[id] == m0[id]
  }

  /** Entries of `m0` whose ids are exactly the keys in `order` are `m0` restricted to `order`. */
  lemma SubMapIsRestrict(m0: map<string, ModelLoader>, order: seq<string>, m: map<string, ModelLoader>)
    requires SubMap(m, m0) && forall id :: id in order <==> id in m
    ensures m == Restrict(m0, order)
  {
  }

  /**
    Popping the entry `k` of `m`, a sub-map of `start`, keeps it a sub-map,
    and the popped loader joins the loaders popped earlier (`gone`): every
    entry of `start` that has left is then accounted for.
  */
  lemma PopBookkeeping(start: map<string, ModelLoader>, m: map<string, ModelLoader>, k: string, gone: set<ModelLoader>)
    requires SubMap(m, start) && k in m && Injective(m)
    requires gone !! m.Values
    requires forall id :: id in start && id !in m ==> start[id] in gone
    ensures SubMap(m - {k}, start)
    ensures m[k] !in gone
    ensures (gone + {m[k]}) !! (m - {k}).Values
    ensures forall id :: id in start && id !in m - {k} ==> start[id] in gone + {m[k]}
  {
    assert m[k] in m.Values;
    forall l | l in (m - {k}).Values
      ensures l in m.Values && l != m[k]
    {
      var id :| id in m - {k} && (m - {k})[id] == l;
    }
  }

  /** Unloaded loaders stay unloaded while none of them changes. */
  twostate lemma ReleasedFrame(gone: set<ModelLoader>)
    requires forall l :: l in gone ==> old(l.Released())
    requires forall l :: l in gone ==> unchanged(l)
    ensures forall l :: l in gone ==> l.Released()
  {
  }

  /** Dropping an entry keeps every remaining entry resident. */
  lemma EntriesOkRemove(m: map<string, ModelLoader>, x: string)
    requires EntriesOk(m)
    ensures EntriesOk(m - {x})
  {
  }

  /** Python's `model_id or current`: a missing or empty id means the current model. */
  function EffectiveModelId(requested: Option<string>, current: string): string
  {
    if requested.None? || requested.value == "" then current else requested.value
  }

  /** `MultiModelCLIPService`. */
  class MultiModelCLIPService {
    /** `MODEL_REGISTRY`, the table every id is looked up in. */
    const registry: seq<(string, ClipModels.ModelConfig)>
    /** `settings.max_loaded_models`. */
    const capacity: int
    /** `"cuda"` or `"cpu"`. */
    const device: string
    /** The keys of `_loaded_models`, least recently used first. */
    var order: seq<string>
    /** The entries of `_loaded_models`. */
    var loaders: map<string, ModelLoader>
    /** `_current_model_id`. */
    var currentModelId: string

    ghost predicate Valid()
      reads this, loaders.Values
    {
      && capacity >= 1
      && |order| <= capacity
      && KeysMatch(order, loaders)
      && Registered(registry, loaders)
      && EntriesOk(loaders)
    }

    /** `model_id in MODEL_REGISTRY`. */
    predicate Known(id: string)
    {
      ClipModels.Find(registry, id).Some?
    }

    /** `__init__`: no resident model; the selector starts at the configured default. */
    constructor (capacity: int, defaultModelId: string, cudaAvailable: bool)
      requires capacity >= 1
      ensures Valid()
      ensures registry == ClipModels.Registry
      ensures this.capacity == capacity && device == (if cudaAvailable then "cuda" else "cpu")
      ensures order == [] && loaders == map[] && currentModelId == defaultModelId
    {
      registry := ClipModels.Registry;
      this.capacity := capacity;
      device := if cudaAvailable then "cuda" else "cpu";
      order := [];
      loaders := map[];
      currentModelId := defaultModelId;
    }

    /**
      One round of `_evict_if_needed`: `popitem(last=False)` removes the least
      recently used entry, whose loader is then unloaded.
    */
    method EvictOne()
      requires Valid() && |order| > 0
      modifies this, loaders[order[0]]
      ensures Valid()
      ensures order == old(order)[1..]
      ensures loaders == old(loaders) - {old(order)[0]}
      ensures old(loaders)[old(order)[0]].Released()
      ensures old(loaders)[old(order)[0]].device == old(loaders[order[0]].device)
      ensures old(loaders)[old(order)[0]] !in loaders.Values
      ensures currentModelId == old(currentModelId)
    {
      var evictedId := order[0];
      var evicted := loaders[evictedId];
      PopLeastRecent(registry, order, loaders);
      EntriesOkRemove(loaders, evictedId);
      order := order[1..];
      loaders := loaders - {evictedId};
      evicted.Unload();
    }

    /**
      `_evict_if_needed`: while there are at least `capacity` resident models,
      pop the least recently used one and unload it.
    */
    method EvictIfNeeded()
      requires Valid()
      modifies this, loaders.Values
      ensures Valid()
      ensures order == EvictLoop(old(order), capacity)
      ensures loaders == Restrict(old(loaders), order)
      ensures forall id :: id in old(loaders) && id !in loaders ==> old(loaders)[id].Released()
      ensures forall id :: id in loaders ==> Snapshot(loaders[id]) == old(Snapshot(loaders[id]))
      ensures currentModelId == old(currentModelId)
    {
      ghost var gone: set<ModelLoader> := {};
      while |order| >= capacity
        invariant Valid()
        invariant currentModelId == old(currentModelId)
        invariant EvictLoop(order, capacity) == EvictLoop(old(order), capacity)
        invariant SubMap(loaders, old(loaders))
        invariant gone !! loaders.Values
        invariant forall l :: l in gone ==> l.Released()
        invariant forall id :: id in old(loaders) && id !in loaders ==> old(loaders)[id] in gone
        invariant forall id :: id in loaders ==> Snapshot(loaders[id]) == old(Snapshot(loaders[id]))
        decreases |order|
      {
        gone := EvictRound(old(loaders), gone);
      }
      SubMapIsRestrict(old(loaders), order, loaders);
    }

    /**
      One iteration of the loop of `_evict_if_needed`, with the ghost set of
      the loaders unloaded so far: the popped loader joins it, and every loader
      in it stays unloaded.
    */
    method EvictRound(ghost start: map<string, ModelLoader>, ghost gone: set<ModelLoader>)
      returns (ghost gone': set<ModelLoader>)
      requires Valid() && |order| >= capacity
      requires SubMap(loaders, start)
      requires gone !! loaders.Values
      requires forall l :: l in gone ==> l.Released()
      requires forall id :: id in start && id !in loaders ==> start[id] in gone
      modifies this, loaders[order[0]]
      ensures Valid()
      ensures currentModelId == old(currentModelId)
      ensures |order| < |old(order)|
      ensures EvictLoop(order, capacity) == EvictLoop(old(order), capacity)
      ensures SubMap(loaders, start)
      ensures gone' !! loaders.Values
      ensures forall l :: l in gone' ==> l.Released()
      ensures forall id :: id in start && id !in loaders ==> start[id] in gone'
      ensures SubMap(loaders, old(loaders))
      ensures forall id :: id in loaders ==> Snapshot(loaders[id]) == old(Snapshot(loaders[id]))
    {
      ghost var popped := loaders[order[0]];
      PopBookkeeping(start, loaders, order[0], gone);
      label beforeEvict:
      EvictOne();
      ReleasedFrame@beforeEvict(gone);
      gone' := gone + {popped};
    }

    /**
      `load_model(model_id)`. An unknown id is rejected with nothing changed.
      A resident id becomes the most recent and its loader is returned. Otherwise
      the cache evicts, builds the loader class the registry family selects and
      loads it; only a successful load is inserted, as the most recent entry.
      A failed load is not inserted, and what was evicted stays evicted.
      `progress` lists the values handed to the progress callback.
    */
    method LoadModel(modelId: string, outcome: LoadOutcome)
      returns (r: Result<ModelLoader, ServiceError>, progress: seq<int>)
      requires Valid()
      modifies this, loaders.Values
      ensures Valid()
      ensures currentModelId == old(currentModelId)
      ensures fresh(loaders.Values - old(loaders.Values))
      ensures forall id :: id in loaders && id in old(loaders) ==> loaders[id] == old(loaders)[id]
      ensures forall id :: id in old(loaders) && id !in loaders ==> old(loaders)[id].Released()
      ensures forall id :: id in old(loaders) && id in loaders ==> Snapshot(loaders[id]) == old(Snapshot(loaders[id]))
      ensures !Known(modelId) ==>
                && r == Failure(RegistryFailure(ClipModels.UnknownModel(modelId))) && progress == []
                && order == old(order) && loaders == old(loaders)
      ensures Known(modelId) && modelId in old(loaders) ==>
                r == Success(old(loaders)[modelId]) && progress == [] && loaders == old(loaders)
      ensures Known(modelId) && modelId !in old(loaders) ==>
                && (r.Success? <==> outcome.LoadSucceeds?)
                && (r.Success? ==> fresh(r.value) && r.value.device == Some(device) && progress == [10, 100])
                && (r.Failure? ==>
                      && r.error == LoadError(outcome.message) && progress == [10]
                      && order == EvictLoop(old(order), capacity)
                      && loaders == Restrict(old(loaders), order))
      ensures r.Success? ==>
                && order == Access(old(order), modelId, capacity)
                && modelId in loaders && loaders[modelId] == r.value
                && r.value.kind == LoaderClassFor(ClipModels.Find(registry, modelId).value.family)
                && r.value.IsLoaded()
    {
      progress := [];
      if !Known(modelId) {
        return Failure(RegistryFailure(ClipModels.UnknownModel(modelId))), progress;
      }
      if modelId in loaders {
        Touch(modelId);
        return Success(loaders[modelId]), progress;
      }
      r, progress := LoadMissing(modelId, outcome);
    }

    /**
      The miss path of `load_model`: evict, build a loader of the class the
      family selects, report 10, load, report 100, insert as the most recent.
      A failing load raises before the insertion.
    */
    method LoadMissing(modelId: string, outcome: LoadOutcome)
      returns (r: Result<ModelLoader, ServiceError>, progress: seq<int>)
      requires Valid() && Known(modelId) && modelId !in loaders
      modifies this, loaders.Values
      ensures Valid()
      ensures currentModelId == old(currentModelId)
      ensures forall id :: id in old(loaders) && id !in loaders ==> old(loaders)[id].Released()
      ensures forall id :: id in old(loaders) && id in loaders ==> Snapshot(loaders[id]) == old(Snapshot(loaders[id]))
      ensures r.Success? <==> outcome.LoadSucceeds?
      ensures r.Success? ==>
                && fresh(r.value) && r.value.device == Some(device) && progress == [10, 100]
                && order == EvictLoop(old(order), capacity) + [modelId]
                && loaders == Restrict(old(loaders), EvictLoop(old(order), capacity))[modelId := r.value]
                && r.value.kind == LoaderClassFor(ClipModels.Find(registry, modelId).value.family)
                && r.value.IsLoaded()
      ensures r.Failure? ==>
                && r.error == LoadError(outcome.message) && progress == [10]
                && order == EvictLoop(old(order), capacity)
                && loaders == Restrict(old(loaders), order)
    {
      EvictIfNeeded();
      r, progress := LoadInto(modelId, outcome, old(loaders));
    }

    /**
      The part of the miss path after eviction: build the loader the family
      selects, report 10, load it, report 100 and insert it. Only the new
      loader and the two fields of the cache change.
    */
    method LoadInto(modelId: string, outcome: LoadOutcome, ghost start: map<string, ModelLoader>)
      returns (r: Result<ModelLoader, ServiceError>, progress: seq<int>)
      requires Valid() && Known(modelId) && modelId !in loaders && |order| < capacity
      requires forall id :: id in start && id !in loaders ==> start[id].Released()
      modifies this`order, this`loaders
      ensures Valid()
      ensures forall id :: id in start && id !in loaders ==> start[id].Released()
      ensures forall id :: id in loaders && id != modelId ==>
                && id in old(loaders) && loaders[id] == old(loaders)[id]
                && Snapshot(loaders[id]) == old(Snapshot(loaders[id]))
      ensures currentModelId == old(currentModelId)
      ensures r.Success? <==> outcome.LoadSucceeds?
      ensures r.Success? ==>
                && fresh(r.value) && r.value.device == Some(device) && progress == [10, 100]
                && order == old(order) + [modelId]
                && loaders == old(loaders)[modelId := r.value]
                && r.value.kind == LoaderClassFor(ClipModels.Find(registry, modelId).value.family)
                && r.value.IsLoaded()
      ensures r.Failure? ==>
                && r.error == LoadError(outcome.message) && progress == [10]
                && order == old(order) && loaders == old(loaders)
    {
      progress := [10];
      var loader, loaded := BuildLoader(modelId, outcome);
      if loaded.Failure? {
        return Failure(LoadError(loaded.error)), progress;
      }
      progress := [10, 100];
      Insert(modelId, loader);
      r := Success(loader);
    }

    /**
      `get_model_config`, `_get_loader_class`, `loader_class()` and
      `loader.load(config, self._device)` for a registered id: a new loader of
      the class the family selects, loaded from the weight source. No object
      that existed before changes.
    */
    method BuildLoader(modelId: string, outcome: LoadOutcome) returns (loader: ModelLoader, loaded: Result<(), string>)
      requires Known(modelId)
      ensures fresh(loader) && loader.Valid()
      ensures loader.device == Some(device)
      ensures loader.kind == LoaderClassFor(ClipModels.Find(registry, modelId).value.family)
      ensures loaded.Success? <==> outcome.LoadSucceeds?
      ensures loaded.Success? ==> loader.IsLoaded()
      ensures loaded.Failure? ==> loaded.error == outcome.message
    {
      var config := ClipModels.Find(registry, modelId).value;
      loader := new ModelLoader(LoaderClassFor(config.family));
      loaded := loader.Load(config, device, outcome);
    }

    /** `move_to_end(model_id)` on a resident id. */
    method Touch(modelId: string)
      requires Valid() && modelId in loaders
      modifies this`order
      ensures Valid()
      ensures order == Access(old(order), modelId, capacity)
    {
      MoveToEndProperties(order, modelId);
      order := MoveToEnd(order, modelId);
    }

    /**
      `self._loaded_models[model_id] = loader` for an id that is not resident,
      once eviction has made room: the new entry becomes the most recent.
    */
    method Insert(modelId: string, loader: ModelLoader)
      requires Valid() && |order| < capacity && modelId !in loaders && Known(modelId)
      requires loader !in loaders.Values && EntryOk(loader)
      requires loader.kind == LoaderClassFor(ClipModels.Find(registry, modelId).value.family)
      modifies this`loaders, this`order
      ensures Valid()
      ensures order == old(order) + [modelId]
      ensures loaders == old(loaders)[modelId := loader]
    {
      AppendFreshNoDup(order, modelId);
      order := order + [modelId];
      loaders := loaders[modelId := loader];
    }

    /**
      The model-selection part shared by `get_image_embedding` and
      `get_text_embedding`: resolve a missing id to the current model and
      obtain its loader through `load_model`.
    */
    method AcquireEncoder(modelId: Option<string>, outcome: LoadOutcome)
      returns (r: Result<ModelLoader, ServiceError>)
      requires Valid()
      modifies this, loaders.Values
      ensures Valid()
      ensures currentModelId == old(currentModelId)
      ensures fresh(loaders.Values - old(loaders.Values))
      ensures forall id :: id in old(loaders) && id !in loaders ==> old(loaders)[id].Released()
      ensures forall id :: id in old(loaders) && id in loaders ==> Snapshot(loaders[id]) == old(Snapshot(loaders[id]))
      ensures var id := EffectiveModelId(modelId, old(currentModelId));
              && (r.Success? <==> Known(id) && (id in old(loaders) || outcome.LoadSucceeds?))
              && (r.Success? ==>
                    order == Access(old(order), id, capacity) && id in loaders && loaders[id] == r.value)
              && (!Known(id) ==> r == Failure(RegistryFailure(ClipModels.UnknownModel(id))) && order == old(order) && loaders == old(loaders))
              && (Known(id) && id in old(loaders) ==> r == Success(old(loaders)[id]) && loaders == old(loaders))
              && (Known(id) && id !in old(loaders) && outcome.LoadFails? ==>
                    && r == Failure(LoadError(outcome.message))
                    && order == EvictLoop(old(order), capacity)
                    && loaders == Restrict(old(loaders), order))
    {
      var id := EffectiveModelId(modelId, currentModelId);
      var progress;
      r, progress := LoadModel(id, outcome);
    }

    /** `set_current_model`: an unknown id is rejected and the selector kept; the resident set is never touched. */
    method SetCurrentModel(modelId: string) returns (r: Result<(), ServiceError>)
      requires Valid()
      modifies this`currentModelId
      ensures Valid()
      ensures order == old(order) && loaders == old(loaders)
      ensures Known(modelId) ==> r.Success? && currentModelId == modelId
      ensures !Known(modelId) ==>
                r == Failure(RegistryFailure(ClipModels.UnknownModel(modelId))) && currentModelId == old(currentModelId)
    {
      if !Known(modelId) {
        return Failure(RegistryFailure(ClipModels.UnknownModel(modelId)));
      }
      currentModelId := modelId;
      r := Success(());
    }

    /** `get_current_model_id`. */
    method GetCurrentModelId() returns (id: string)
      ensures id == currentModelId
    {
      id := currentModelId;
    }

    /** `is_model_loaded`: membership among the resident keys. */
    method IsModelLoaded(modelId: string) returns (b: bool)
      requires Valid()
      ensures b <==> modelId in order
    {
      b := modelId in loaders;
    }

    /** `get_loaded_models`: the resident ids, least recently used first. */
    method GetLoadedModels() returns (ids: seq<string>)
      requires Valid()
      ensures ids == order
      ensures NoDup(ids) && |ids| <= capacity
      ensures forall id :: id in ids ==> Known(id)
    {
      ids := order;
      forall id | id in ids
        ensures Known(id)
      {
        assert id in loaders;
      }
    }
  }

  /**
    The service's registry check is `model_id in MODEL_REGISTRY`: on the table
    the constructor installs, `Known` is the registry's own membership test.
  */
  lemma KnownIsInRegistry(svc: MultiModelCLIPService, id: string)
    requires svc.registry == ClipModels.Registry
    ensures svc.Known(id) <==> ClipModels.InRegistry(id)
  {
    var ks := ClipModels.Keys();
    if ClipModels.InRegistry(id) {
      var i :| 0 <= i < |ks| && ks[i] == id;
      assert ClipModels.Registry[i].0 == id;
    }
    if svc.Known(id) {
      var i :| 0 <= i < |ClipModels.Registry| && ClipModels.Registry[i].0 == id;
      assert ks[i] == id;
    }
  }

  /** The first half of the scenario: A then B into an empty cache of capacity 2. */
  method LoadTwo(svc: MultiModelCLIPService, a: string, b: string) returns (loaderB: ModelLoader)
    requires svc.Valid() && svc.capacity == 2 && svc.order == []
    requires svc.Known(a) && svc.Known(b) && a != b
    modifies svc, svc.loaders.Values
    ensures svc.Valid()
    ensures svc.order == [a, b] && b in svc.loaders && svc.loaders[b] == loaderB
    ensures fresh(svc.loaders.Values)
  {
    LoadFirst(svc, a);
    assert EvictLoop([a], 2) == [a];
    var r, progress := svc.LoadModel(b, LoadSucceeds);
    loaderB := r.value;
  }

  /** The very first load into an empty cache of capacity 2. */
  method LoadFirst(svc: MultiModelCLIPService, a: string)
    requires svc.Valid() && svc.capacity == 2 && svc.order == [] && svc.Known(a)
    modifies svc, svc.loaders.Values
    ensures svc.Valid()
    ensures svc.order == [a] && fresh(svc.loaders.Values)
  {
    assert Access([], a, 2) == [a];
    var r, progress := svc.LoadModel(a, LoadSucceeds);
  }

  /**
    A client of the service: with room for two models, loading A, B, A, C
    leaves A and C resident, C the most recent, and B's loader unloaded.
  */
  method CapacityTwoClient(svc: MultiModelCLIPService, a: string, b: string, c: string)
    returns (evicted: ModelLoader)
    requires svc.Valid() && svc.capacity == 2 && svc.order == []
    requires svc.Known(a) && svc.Known(b) && svc.Known(c)
    requires a != b && b != c && a != c
    modifies svc, svc.loaders.Values
    ensures svc.Valid()
    ensures svc.order == [a, c]
    ensures evicted.Released() && b !in svc.loaders
  {
    evicted := LoadTwo(svc, a, b);
    ReloadThenMiss(svc, a, b, c, evicted);
  }

  /** The second half of the scenario: A again (a hit), then C, which evicts B. */
  method ReloadThenMiss(svc: MultiModelCLIPService, a: string, b: string, c: string, loaderB: ModelLoader)
    requires svc.Valid() && svc.capacity == 2 && svc.order == [a, b]
    requires b in svc.loaders && svc.loaders[b] == loaderB
    requires svc.Known(a) && svc.Known(c)
    requires a != b && b != c && a != c
    modifies svc, svc.loaders.Values
    ensures svc.Valid()
    ensures svc.order == [a, c]
    ensures loaderB.Released() && b !in svc.loaders
  {
    CapacityTwoSteps(a, b, c);
    ReloadResident(svc, a, b);
    var r, progress := svc.LoadModel(c, LoadSucceeds);
    assert b !in svc.order;
  }

  /** A hit on A in the cache `[a, b]`: A becomes the most recent, and nothing else changes. */
  method ReloadResident(svc: MultiModelCLIPService, a: string, b: string)
    requires svc.Valid() && svc.capacity == 2 && svc.order == [a, b] && svc.Known(a) && a != b
    modifies svc, svc.loaders.Values
    ensures svc.Valid()
    ensures svc.order == [b, a] && svc.loaders == old(svc.loaders)
  {
    assert Access([a, b], a, 2) == [b, a] by {
      assert RemoveKey([a, b], a) == [b];
    }
    var r, progress := svc.LoadModel(a, LoadSucceeds);
  }
}
