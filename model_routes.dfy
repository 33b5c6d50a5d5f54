/**
  The model-management HTTP routes: the model list merged with the vector
  store's indexed collections, reading and setting the current model, and the
  two server-sent event streams (loading a model, and indexing every image
  file with a model). Each event stream is the finite, ordered list of status
  records the generator yields.
*/
module ModelRoutes {
  import opened Wrappers
  import ClipModels
  import ClipService

  /** `HTTPException(status_code, detail)`. */
  datatype HttpError = HttpError(status: int, detail: string)

  /** What every route that validates an id raises for an id outside the registry. */
  const UnknownModelError: HttpError := HttpError(400, "Unknown model")

  /** `str(e)` for the exceptions `load_model` raises. */
  function ErrorText(e: ClipService.ServiceError): string
  {
    match e
    case RegistryFailure(cause) => "Unknown model: " + cause.modelId
    case LoadError(message) => message
  }

  // ---------------------------------------------------------------------------
  // The model list
  // ---------------------------------------------------------------------------

  /** One item of `vector_store.list_indexed_models()`. */
  datatype IndexedInfo = IndexedInfo(modelId: string, pointsCount: nat)

  /**
    `{m["model_id"]: m for m in ...}`: the points count under each indexed id;
    when an id is listed twice, the later item wins.
  */
  function IndexedMap(items: seq<IndexedInfo>): (m: map<string, nat>)
    ensures forall k :: k in m <==> exists i :: 0 <= i < |items| && items[i].modelId == k
    decreases |items|
  {
    if items == [] then map[]
    else
      var init := items[..|items| - 1];
      var last := items[|items| - 1];
      var m := IndexedMap(init);
      assert forall i :: 0 <= i < |init| ==> init[i] == items[i];
      m[last.modelId := last.pointsCount]
  }

  /** The points count stored under an id is that of the last item listing the id. */
  lemma {:induction false} IndexedMapLastWins(items: seq<IndexedInfo>, i: nat)
    requires i < |items|
    requires forall j :: i < j < |items| ==> items[j].modelId != items[i].modelId
    ensures items[i].modelId in IndexedMap(items)
    ensures IndexedMap(items)[items[i].modelId] == items[i].pointsCount
    decreases |items|
  {
    var init := items[..|items| - 1];
    if i < |items| - 1 {
      assert init[i] == items[i];
      assert forall j :: i < j < |init| ==> init[j] == items[j];
      IndexedMapLastWins(init, i);
    }
  }

  /** `ModelInfo`. */
  datatype ModelInfo = ModelInfo(
    id: string,
    name: string,
    family: string,
    vectorDim: int,
    description: string,
    isLoaded: bool,
    isIndexed: bool,
    indexedCount: nat)

  /** The list item for one registry entry. */
  function InfoFor(entry: (string, ClipModels.ModelConfig), loaded: bool, indexed: map<string, nat>): (info: ModelInfo)
    ensures info.id == entry.0 && info.name == entry.1.name && info.vectorDim == entry.1.vectorDim
    ensures info.family == ClipModels.FamilyValue(entry.1.family) && info.description == entry.1.description
    ensures info.isLoaded == loaded
    ensures info.isIndexed <==> entry.0 in indexed
    ensures info.indexedCount == if entry.0 in indexed then indexed[entry.0] else 0
  {
    var id := entry.0;
    var config := entry.1;
    ModelInfo(
      id, config.name, ClipModels.FamilyValue(config.family), config.vectorDim, config.description,
      loaded, id in indexed, if id in indexed then indexed[id] else 0)
  }

  /**
    `list_models`: one item per registry model, in registry order, each saying
    whether the model is resident and how many points its collection holds.
  */
  method ListModels(svc: ClipService.MultiModelCLIPService, indexedModels: seq<IndexedInfo>)
    returns (models: seq<ModelInfo>)
    requires svc.Valid()
    ensures |models| == |svc.registry|
    ensures forall i :: 0 <= i < |models| ==>
              && models[i].id == svc.registry[i].0
              && models[i].name == svc.registry[i].1.name
              && models[i].family == ClipModels.FamilyValue(svc.registry[i].1.family)
              && models[i].vectorDim == svc.registry[i].1.vectorDim
              && models[i].description == svc.registry[i].1.description
              && (models[i].isLoaded <==> svc.registry[i].0 in svc.order)
              && (models[i].isIndexed <==> exists j :: 0 <= j < |indexedModels| && indexedModels[j].modelId == models[i].id)
              && (forall j ::
                    (&& 0 <= j < |indexedModels| && indexedModels[j].modelId == models[i].id
                     && forall k :: j < k < |indexedModels| ==> indexedModels[k].modelId != models[i].id) ==>
                    models[i].indexedCount == indexedModels[j].pointsCount)
              && (models[i].isIndexed || models[i].indexedCount == 0)
              && models[i] == InfoFor(svc.registry[i], svc.registry[i].0 in svc.order, IndexedMap(indexedModels))
  {
    var indexed := IndexedMap(indexedModels);
    models := [];
    for i := 0 to |svc.registry|
      invariant |models| == i
      invariant forall k :: 0 <= k < i ==>
                  models[k] == InfoFor(svc.registry[k], svc.registry[k].0 in svc.order, indexed)
    {
      var entry := svc.registry[i];
      var loaded := svc.IsModelLoaded(entry.0);
      models := models + [InfoFor(entry, loaded, indexed)];
    }
    forall i, j | 0 <= i < |models| && 0 <= j < |indexedModels| && indexedModels[j].modelId == models[i].id &&
                  (forall k :: j < k < |indexedModels| ==> indexedModels[k].modelId != models[i].id)
      ensures models[i].indexedCount == indexedModels[j].pointsCount
    {
      IndexedMapLastWins(indexedModels, j);
    }
  }

  // ---------------------------------------------------------------------------
  // The current model
  // ---------------------------------------------------------------------------

  /** The body of `GET /current`. */
  datatype CurrentModel = CurrentModel(
    modelId: string, name: string, isLoaded: bool, isIndexed: bool, indexedCount: nat)

  /** The body of `POST /current`. */
  datatype SetModelResponse = SetModelResponse(modelId: string, status: string)

  /** What `GET /current` can fail with: `MODEL_REGISTRY[model_id]` raising `KeyError`. */
  datatype CurrentModelError = KeyError(modelId: string)

  /**
    `get_current_model`: the current id, its registry name, whether it is
    resident, and the point count of its collection. `collections` stands for
    `vector_store.get_collection_info`: the point count of each existing collection.
    The current id is looked up without a membership test, so an id outside the
    registry (only possible for the configured default) raises.
  */
  method GetCurrentModel(svc: ClipService.MultiModelCLIPService, collections: map<string, nat>)
    returns (r: Result<CurrentModel, CurrentModelError>)
    requires svc.Valid()
    ensures r.Success? <==> svc.Known(svc.currentModelId)
    ensures r.Failure? ==> r.error == KeyError(svc.currentModelId)
    ensures r.Success? ==>
              && r.value.modelId == svc.currentModelId
              && r.value.name == ClipModels.Find(svc.registry, svc.currentModelId).value.name
              && (r.value.isLoaded <==> svc.currentModelId in svc.order)
              && (r.value.isIndexed <==> svc.currentModelId in collections)
              && r.value.indexedCount == (if svc.currentModelId in collections then collections[svc.currentModelId] else 0)
  {
    var id := svc.GetCurrentModelId();
    var config := ClipModels.Find(svc.registry, id);
    if config.None? {
      return Failure(KeyError(id));
    }
    var loaded := svc.IsModelLoaded(id);
    var count := if id in collections then collections[id] else 0;
    r := Success(CurrentModel(id, config.value.name, loaded, id in collections, count));
  }

  /**
    `set_current_model` (`POST /current`): an unknown id is answered with 400
    and nothing changes; otherwise the selector moves and the route confirms.
  */
  method SetCurrentModel(svc: ClipService.MultiModelCLIPService, modelId: string)
    returns (r: Result<SetModelResponse, HttpError>)
    requires svc.Valid()
    modifies svc`currentModelId
    ensures svc.Valid()
    ensures svc.order == old(svc.order) && svc.loaders == old(svc.loaders)
    ensures !svc.Known(modelId) ==> r == Failure(UnknownModelError) && svc.currentModelId == old(svc.currentModelId)
    ensures svc.Known(modelId) ==> r == Success(SetModelResponse(modelId, "set")) && svc.currentModelId == modelId
  {
    if !svc.Known(modelId) {
      return Failure(UnknownModelError);
    }
    var _ := svc.SetCurrentModel(modelId);
    r := Success(SetModelResponse(modelId, "set"));
  }

  // ---------------------------------------------------------------------------
  // The load stream
  // ---------------------------------------------------------------------------

  /** The records `load_model_stream` yields, by their `status` field. */
  datatype LoadEvent =
    | LoadStarting(progress: int)
    | LoadComplete(progress: int)
    | LoadFailed(error: string)

  /** The `status` field of a load record. */
  function LoadStatus(e: LoadEvent): string
  {
    match e
    case LoadStarting(_) => "starting"
    case LoadComplete(_) => "complete"
    case LoadFailed(_) => "error"
  }

  /** The stream for a validated id, given how `load_model` ended. */
  function LoadStream(loaded: Result<(), string>): (evs: seq<LoadEvent>)
    ensures |evs| == 2 && evs[0] == LoadStarting(0)
    ensures LoadStatus(evs[0]) == "starting"
    ensures evs[1] == LoadComplete(100) <==> loaded.Success?
    ensures loaded.Failure? ==> evs[1] == LoadFailed(loaded.error) && LoadStatus(evs[1]) == "error"
  {
    [LoadStarting(0)] + [if loaded.Success? then LoadComplete(100) else LoadFailed(loaded.error)]
  }

  /**
    `load_model_stream`: an unknown id is answered with 400 before any record
    or state change; otherwise `starting`, the load, then `complete` or `error`.
  */
  method LoadModelStream(svc: ClipService.MultiModelCLIPService, modelId: string, outcome: ClipService.LoadOutcome)
    returns (r: Result<seq<LoadEvent>, HttpError>)
    requires svc.Valid()
    modifies svc, svc.loaders.Values
    ensures svc.Valid()
    ensures svc.currentModelId == old(svc.currentModelId)
    ensures !svc.Known(modelId) ==>
              && r == Failure(UnknownModelError)
              && svc.order == old(svc.order) && svc.loaders == old(svc.loaders)
    ensures svc.Known(modelId) ==>
              && r.Success?
              && (modelId in old(svc.loaders) || outcome.LoadSucceeds? ==> r.value == LoadStream(Success(())))
              && (modelId !in old(svc.loaders) && outcome.LoadFails? ==>
                    r.value == LoadStream(Failure(outcome.message)))
    ensures forall id :: id in old(svc.loaders) && id !in svc.loaders ==> old(svc.loaders)[id].Released()
    ensures forall id :: id in old(svc.loaders) && id in svc.loaders ==>
              ClipService.Snapshot(svc.loaders[id]) == old(ClipService.Snapshot(svc.loaders[id]))
    ensures svc.Known(modelId) && (modelId in old(svc.loaders) || outcome.LoadSucceeds?) ==>
              svc.order == ClipService.Access(old(svc.order), modelId, svc.capacity)
    ensures svc.Known(modelId) && modelId !in old(svc.loaders) && outcome.LoadFails? ==>
              && svc.order == ClipService.EvictLoop(old(svc.order), svc.capacity)
              && svc.loaders == ClipService.Restrict(old(svc.loaders), svc.order)
  {
    if !svc.Known(modelId) {
      return Failure(UnknownModelError);
    }
    var loaded, _ := svc.LoadModel(modelId, outcome);
    var result: Result<(), string> := if loaded.Success? then Success(()) else Failure(ErrorText(loaded.error));
    r := Success(LoadStream(result));
  }

  // ---------------------------------------------------------------------------
  // The index stream
  // ---------------------------------------------------------------------------

  /** The records `index_with_model_stream` yields, by their `status` field. */
  datatype IndexEvent =
    | LoadingModel(total: nat, current: nat)
    | IndexStarting(total: nat, current: nat)
    | Indexing(current: nat, total: nat, file: string)
    | FileError(file: string, error: string, current: nat, total: nat)
    | IndexComplete(total: nat)
    | IndexFailed(error: string)

  /** The `status` field of an index record. */
  function IndexStatus(e: IndexEvent): string
  {
    match e
    case LoadingModel(_, _) => "loading_model"
    case IndexStarting(_, _) => "starting"
    case Indexing(_, _, _) => "indexing"
    case FileError(_, _, _, _) => "file_error"
    case IndexComplete(_) => "complete"
    case IndexFailed(_) => "error"
  }

  /**
    The record for the `current`-th file (counting from 1): embedding and
    upserting it either worked (`None`) or raised the given error text.
  */
  function FileEvent(current: nat, total: nat, file: string, failure: Option<string>): IndexEvent
  {
    match failure
    case None => Indexing(current, total, file)
    case Some(err) => FileError(file, err, current, total)
  }

  /**
    The per-file records, one per file in order. `process` says how indexing a
    file ends; a failing file yields `file_error` and the loop continues.
  */
  function FileEvents(files: seq<string>, total: nat, process: string -> Option<string>): (evs: seq<IndexEvent>)
    ensures |evs| == |files|
    ensures forall i :: 0 <= i < |files| ==> evs[i] == FileEvent(i + 1, total, files[i], process(files[i]))
  {
    seq(|files|, i requires 0 <= i < |files| => FileEvent(i + 1, total, files[i], process(files[i])))
  }

  /** Each per-file record says which file it is, where it stands, and whether the file failed. */
  lemma FileEventsShape(files: seq<string>, total: nat, process: string -> Option<string>)
    ensures forall i :: 0 <= i < |files| ==>
              var e := FileEvents(files, total, process)[i];
              && (e.Indexing? <==> process(files[i]).None?)
              && (e.FileError? <==> process(files[i]).Some?)
              && e.current == i + 1 && e.total == total && e.file == files[i]
  {
  }

  /** The text of the record that ends the stream when the model cannot be loaded. */
  function LoadFailureText(err: string): string
  {
    "Failed to load model: " + err
  }

  /** The records of `body` keep their positions, shifted by `|head|`, inside `head + body + tail`. */
  lemma EnclosedAt(head: seq<IndexEvent>, body: seq<IndexEvent>, tail: seq<IndexEvent>)
    ensures forall i :: 0 <= i < |body| ==> (head + body + tail)[|head| + i] == body[i]
  {
    forall i | 0 <= i < |body|
      ensures (head + body + tail)[|head| + i] == body[i]
    {
      assert (head + body + tail)[|head| + i] == (head + body)[|head| + i];
    }
  }

  /**
    The whole stream for a validated id: `loading_model`, then either the
    load error, or `starting`, one record per file and `complete`.
  */
  function IndexStream(files: seq<string>, loaded: Result<(), string>, process: string -> Option<string>)
    : (evs: seq<IndexEvent>)
    ensures |evs| >= 2 && evs[0] == LoadingModel(|files|, 0)
    ensures loaded.Failure? ==> evs == [LoadingModel(|files|, 0), IndexFailed(LoadFailureText(loaded.error))]
    ensures loaded.Success? ==>
              && |evs| == |files| + 3
              && evs[1] == IndexStarting(|files|, 0)
              && evs[|files| + 2] == IndexComplete(|files|)
              && forall i :: 0 <= i < |files| ==>
                   && (evs[i + 2].Indexing? <==> process(files[i]).None?)
                   && (evs[i + 2].FileError? <==> process(files[i]).Some?)
                   && evs[i + 2].current == i + 1
                   && evs[i + 2].total == |files|
                   && evs[i + 2].file == files[i]
  {
    var n := |files|;
    if loaded.Failure? then
      [LoadingModel(n, 0), IndexFailed(LoadFailureText(loaded.error))]
    else
      var body := FileEvents(files, n, process);
      var evs := [LoadingModel(n, 0), IndexStarting(n, 0)] + body + [IndexComplete(n)];
      assert forall i :: 0 <= i < n ==> evs[i + 2] == body[i] by {
        EnclosedAt([LoadingModel(n, 0), IndexStarting(n, 0)], body, [IndexComplete(n)]);
      }
      FileEventsShape(files, n, process);
      evs
  }

  /**
    The loop of the generator: for each file in order, index it and yield its
    record; an error on one file does not stop the following ones.
  */
  method IndexFiles(files: seq<string>, total: nat, process: string -> Option<string>)
    returns (evs: seq<IndexEvent>)
    ensures evs == FileEvents(files, total, process)
    ensures forall i :: 0 <= i < |files| ==> evs[i].current == i + 1 && evs[i].file == files[i]
  {
    evs := [];
    for i := 0 to |files|
      invariant |evs| == i
      invariant forall k :: 0 <= k < i ==> evs[k] == FileEvent(k + 1, total, files[k], process(files[k]))
    {
      var failure := process(files[i]);
      evs := evs + [FileEvent(i + 1, total, files[i], failure)];
    }
  }

  /**
    `index_with_model_stream`: an unknown id is answered with 400; otherwise
    the `.jpg` files then the `.png` files are indexed after loading the model.
    `process` stands for embedding one file and upserting the vector; since the
    model was just loaded, its `load_model` call is a hit.
  */
  method IndexWithModelStream(
    svc: ClipService.MultiModelCLIPService, modelId: string,
    jpgs: seq<string>, pngs: seq<string>,
    outcome: ClipService.LoadOutcome, process: string -> Option<string>)
    returns (r: Result<seq<IndexEvent>, HttpError>)
    requires svc.Valid()
    modifies svc, svc.loaders.Values
    ensures svc.Valid()
    ensures svc.currentModelId == old(svc.currentModelId)
    ensures !svc.Known(modelId) ==>
              && r == Failure(UnknownModelError)
              && svc.order == old(svc.order) && svc.loaders == old(svc.loaders)
    ensures svc.Known(modelId) ==>
              && r.Success?
              && (modelId in old(svc.loaders) || outcome.LoadSucceeds? ==>
                    r.value == IndexStream(jpgs + pngs, Success(()), process))
              && (modelId !in old(svc.loaders) && outcome.LoadFails? ==>
                    r.value == IndexStream(jpgs + pngs, Failure(outcome.message), process))
    ensures forall id :: id in old(svc.loaders) && id !in svc.loaders ==> old(svc.loaders)[id].Released()
    ensures forall id :: id in old(svc.loaders) && id in svc.loaders ==>
              ClipService.Snapshot(svc.loaders[id]) == old(ClipService.Snapshot(svc.loaders[id]))
    ensures svc.Known(modelId) && (modelId in old(svc.loaders) || outcome.LoadSucceeds?) ==>
              svc.order == ClipService.Access(old(svc.order), modelId, svc.capacity)
    ensures svc.Known(modelId) && modelId !in old(svc.loaders) && outcome.LoadFails? ==>
              && svc.order == ClipService.EvictLoop(old(svc.order), svc.capacity)
              && svc.loaders == ClipService.Restrict(old(svc.loaders), svc.order)
  {
    if !svc.Known(modelId) {
      return Failure(UnknownModelError);
    }
    var files := jpgs + pngs;
    var total := |files|;
    var loaded, _ := svc.LoadModel(modelId, outcome);
    if loaded.Failure? {
      return Success([LoadingModel(total, 0), IndexFailed(LoadFailureText(ErrorText(loaded.error)))]);
    }
    var body := IndexFiles(files, total, process);
    r := Success([LoadingModel(total, 0), IndexStarting(total, 0)] + body + [IndexComplete(total)]);
  }

  /** On a failed load the stream never reaches a per-file record, so nothing is upserted. */
  lemma NoFileWorkAfterLoadFailure(files: seq<string>, err: string, process: string -> Option<string>)
    ensures forall e :: e in IndexStream(files, Failure(err), process) ==> !e.Indexing? && !e.FileError?
    ensures IndexStatus(IndexStream(files, Failure(err), process)[1]) == "error"
  {
  }

  /** Two outcome functions that agree on a file give it the same record. */
  lemma FileEventsLocal(files: seq<string>, k: nat, p: string -> Option<string>, q: string -> Option<string>)
    requires k < |files|
    requires forall f :: f != files[k] ==> p(f) == q(f)
    ensures forall j :: 0 <= j < |files| && files[j] != files[k] ==>
              FileEvents(files, |files|, p)[j] == FileEvents(files, |files|, q)[j]
  {
  }

  /** A successful stream is the two opening records, the per-file records and `complete`. */
  lemma IndexStreamSplit(files: seq<string>, process: string -> Option<string>)
    ensures IndexStream(files, Success(()), process) ==
              [LoadingModel(|files|, 0), IndexStarting(|files|, 0)] + FileEvents(files, |files|, process)
              + [IndexComplete(|files|)]
  {
  }

  /**
    A failing file affects only its own record: two outcome functions that
    agree everywhere except on `files[k]` give streams that differ at most in
    that file's record, and both streams have all `|files| + 3` records.
  */
  lemma FailureIsLocal(files: seq<string>, k: nat, p: string -> Option<string>, q: string -> Option<string>)
    requires k < |files|
    requires forall f :: f != files[k] ==> p(f) == q(f)
    ensures |IndexStream(files, Success(()), p)| == |IndexStream(files, Success(()), q)| == |files| + 3
    ensures forall i :: 0 <= i < |files| + 3 && (i < 2 || i - 2 >= |files| || files[i - 2] != files[k]) ==>
              IndexStream(files, Success(()), p)[i] == IndexStream(files, Success(()), q)[i]
  {
    var n := |files|;
    var head, tail := [LoadingModel(n, 0), IndexStarting(n, 0)], [IndexComplete(n)];
    var fa, fb := FileEvents(files, n, p), FileEvents(files, n, q);
    IndexStreamSplit(files, p);
    IndexStreamSplit(files, q);
    EnclosedAt(head, fa, tail);
    EnclosedAt(head, fb, tail);
    FileEventsLocal(files, k, p, q);
  }
}
