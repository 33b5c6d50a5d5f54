# Multi-model CLIP cache, model registry, progress streams and Pinterest helpers

A Dafny model of the sequential core of an image-search backend that embeds
images with one of several CLIP-family models. It covers four parts of that
backend:

- **Model registry** (`clip_models.dfy`, module `ClipModels`). This is the
  constant table of seven model descriptors, the lookup that fails on an
  unknown id, and the derivation of a vector-store collection name from a
  model id. The collection-name transform turns `/` and `-` into `_` and
  lowercases ASCII letters. It is proved to be a character-by-character map,
  idempotent, **not injective** in general (`a/b` and `a-b` collide), and
  injective on the seven registry ids.
- **Resident-model cache** (`clip_service.dfy`, module `ClipService`).
  `MultiModelCLIPService` is a class:
  - `order` holds the keys of the `OrderedDict`, least recently used first.
  - `loaders` maps each id to its loader object.
  - `currentModelId` is the current-model selector.
  - Loaders are objects whose handle fields `Unload` sets to `None`.

  Two pure functions serve as reference definitions of the key order:
  - `EvictLoop` is the eviction loop. `EvictIfNeeded` is proved to leave the
    order it computes.
  - `Access` is one successful `load_model`. `LoadModel`, `Touch` and
    `AcquireEncoder` are proved to leave the order it computes.

  `AccessProperties`, `AccessMiss` and `CapacityTwoScenario` are proved about
  `Access`. They state hit, miss, eviction from the least recent end and the
  size bound. The rest of each promise is in the methods' own contracts:
  - `EvictOne` and `EvictIfNeeded` unload every evicted loader and leave
    every other loader as it was.
  - `LoadModel` and `BuildLoader` pick the loader class by the model family
    (`LoaderClassFor`).
  - `LoadModel` and `LoadMissing` state the cache after a failed load.
- **Model routes** (`model_routes.dfy`, module `ModelRoutes`):
  - the model list merged with the indexed-collection info;
  - reading and setting the current model;
  - the two server-sent event streams.

  Each stream is the finite `seq` of status records the generator yields.
  The load outcome and the per-file outcomes are inputs.
- **Pinterest scraper helpers** (`pinterest.dfy`, module `Pinterest`):
  - the thumbnail-to-original URL rewrite;
  - the 403 fallback URL and its termination argument;
  - the content-type extension map;
  - the search URL;
  - the download decision;
  - the dedup-and-cap selection loop of `scrape_board`.

  The browser becomes a sequence of image batches, one per scroll round. The
  HTTP client becomes a function from URL to response.

`text.dfy` (module `Text`) models the parts of Python's `str` that this code
uses:
- `pat in s`;
- `s.replace(pat, rep)`, which replaces non-overlapping occurrences left to right;
- `s.lower()` on ASCII.

`Text.Count` counts the occurrences that `replace` replaces. The code never
calls `str.count`; the count only serves the length lemma.

`wrappers.dfy` holds `Option` and `Result`. Raised exceptions become
`Failure` values.

The model follows the code in three places:
- A failed `load_model` does **not** restore the cache. Entries evicted before
  the load stay evicted and their loaders stay unloaded, and the new id is not
  inserted (`LoadModel`, `LoadMissing`).
- The configured default model id is not validated. `GET /current` then
  raises on the registry lookup (`GetCurrentModel` returns `KeyError`).
- The cache's capacity and default model id are settings that the settings
  class does not define. They are constructor parameters here, with
  `capacity >= 1` required. With a capacity of 0, `popitem` would run on an
  empty dictionary.

## Model

| member | source | states |
|---|---|---|
| `ClipModels.GetModelConfig` | backend/app/models/clip_models.py:95-98 | Succeeds exactly for ids in the registry, returning the descriptor stored under the id, whose `id` equals the key; any other id gives `UnknownModel(id)` |
| `ClipModels.RegistryWellFormed` | backend/app/models/clip_models.py:23-87 | Every registry entry is stored under its own `id`, has `vector_dim` in {512, 768, 1024}, and names pretrained weights exactly when its family is OpenCLIP |
| `ClipModels.RegistryKeysDistinct` | backend/app/models/clip_models.py:23-87 | The seven keys of the registry literal are pairwise distinct |
| `ClipModels.RegistryLookup` | backend/app/models/clip_models.py:23-98 | Looking up any registry key returns the descriptor stored with it |
| `ClipModels.FindStored` | backend/app/models/clip_models.py:95-98 | In items with distinct keys, the lookup of a stored key finds the value stored with that key |
| `ClipModels.CollectionName` | backend/app/models/clip_models.py:90-92 | The name is `base_name + "_"` followed by one character per character of the id, namely `SafeChar` of it (`/` and `-` as `_`, ASCII capitals lowered), so that part holds no `/`, no `-` and no upper-case ASCII letter |
| `ClipModels.SafeId` | backend/app/models/clip_models.py:91 | The chain of `replace` and `lower` calls acts one character at a time: `/` and `-` become `_`, ASCII capitals become lower case, the length is kept, and the result is safe |
| `ClipModels.SafeIdFixesSafe` | backend/app/models/clip_models.py:91 | An id that is already safe is returned unchanged |
| `ClipModels.SafeIdIdempotent` | backend/app/models/clip_models.py:91 | Applying the safe transform twice gives the same result as applying it once |
| `ClipModels.CollectionNamesCollideIff` | backend/app/models/clip_models.py:90-92 | Two ids get the same collection name if and only if they have equal length and agree at every position after the character map |
| `ClipModels.SlashDashCollide` | backend/app/models/clip_models.py:91 | Not injective: changing any `/` of an id into `-` gives a different id with the same collection name |
| `ClipModels.CollisionExample` | backend/app/models/clip_models.py:90-92 | `"a/b"` and `"a-b"` are different ids with the same collection name under the default base `joyuri_images` |
| `ClipModels.RegistryCollectionNamesDistinct` | backend/app/models/clip_models.py:23-92 | For any base name, the seven registry ids get pairwise distinct collection names |
| `Text.LowerAscii` | backend/app/models/clip_models.py:91 | `lower()` on ASCII keeps the length, lowercases each character in place, and leaves no upper-case ASCII letter |
| `Text.ReplaceCharPointwise` | backend/app/models/clip_models.py:91 | Replacing one character by one character keeps the length and changes exactly the positions that held it |
| `Text.ReplaceAllLength` | backend/scripts/scraper/pinterest.py:104-113 | `s.replace(pat, rep)` changes the length by `len(rep) - len(pat)` for each occurrence it replaces |
| `Text.ContainsIffCount` | backend/scripts/scraper/pinterest.py:105 | `pat in s` holds exactly when `replace` has at least one occurrence to replace |
| `Text.EscapeRoundTrip` | backend/scripts/scraper/pinterest.py:98 | Escaping a character and then un-escaping it returns the input, provided the escape's first character does not occur in the input |
| `ClipService.RemoveKey` | backend/app/services/clip_service.py:184 | Removing a key keeps exactly the other keys, no more of them than before and without duplicates (one fewer when the key was resident), and is the identity when the key is absent |
| `ClipService.MoveToEndProperties` | backend/app/services/clip_service.py:183-185 | `move_to_end` keeps the same set of keys and the same length, makes the key the last (most recent) one, and leaves the relative order of all other keys unchanged |
| `ClipService.EvictLoop` | backend/app/services/clip_service.py:169-171 | The eviction loop removes keys only from the least recent end, and only while there are at least `capacity` of them: the result is a suffix with fewer than `capacity` keys, exactly `capacity - 1` when any were removed, and the input itself when none were |
| `ClipService.AccessProperties` | backend/app/services/clip_service.py:169-201 | A successful `load_model` keeps keys unique and at most `capacity`, makes the id the most recent, and brings in no other id. A hit keeps the key set. A miss drops exactly the `size - capacity + 1` least recent keys (when there are that many) and appends the id |
| `ClipService.AccessMiss` | backend/app/services/clip_service.py:169-201 | On a miss the new key order is the old order without its first `size - capacity + 1` keys (none when below capacity), followed by the id, with no duplicates |
| `ClipService.CapacityTwoSteps` | backend/app/services/clip_service.py:169-201 | With capacity 2, the four steps A, B, A, C give `[A]`, `[A, B]`, `[B, A]`, `[A, C]` |
| `ClipService.CapacityTwoScenario` | backend/app/services/clip_service.py:176-202 | With capacity 2, loading A, B, A, C from empty leaves `[A, C]` resident, C the most recent |
| `ClipService.LoaderClassFor` | backend/app/services/clip_service.py:161-167 | The loader class chosen for a family is the one written for it (OPENAI_CLIP to OpenAICLIPLoader, OPENCLIP to OpenCLIPLoader, SIGLIP to SigLIPLoader), and no other class serves that family |
| `ClipService.ModelLoader.constructor` | backend/app/services/clip_service.py:36-39 | A new loader of any of the three classes has every field `None` (likewise lines 74-78 and 114-117) |
| `ClipService.ModelLoader.Load` | backend/app/services/clip_service.py:41-50 | `load` records the device. When the weight source succeeds, every handle the class needs is set (lines 80-91 and 119-131 for the other classes); otherwise the error propagates |
| `ClipService.ModelLoader.Unload` | backend/app/services/clip_service.py:68-70 | `unload` leaves `model`, `preprocess`, `tokenizer` and `processor` all `None` and keeps the device (likewise lines 107-110 and 149-151) |
| `ClipService.MultiModelCLIPService.constructor` | backend/app/services/clip_service.py:155-159 | The cache starts empty, the device is `cuda` exactly when CUDA is available, and the selector holds the configured default |
| `ClipService.MultiModelCLIPService.EvictOne` | backend/app/services/clip_service.py:171-172 | `popitem(last=False)` removes the least recent key and its entry, and the popped loader is unloaded, keeps its device and is held by no remaining entry |
| `ClipService.MultiModelCLIPService.EvictIfNeeded` | backend/app/services/clip_service.py:169-174 | After `_evict_if_needed` the key order is `EvictLoop` of the old order, and the entries are the old entries of the remaining keys. Every evicted loader is unloaded, every remaining loader holds the same device and handles as before, and the selector is unchanged |
| `ClipService.MultiModelCLIPService.EvictRound` | backend/app/services/clip_service.py:170-172 | One iteration of the eviction loop shortens the key order without changing where the loop ends, keeps the entries a sub-map of those before the loop, and keeps every loader popped so far unloaded |
| `ClipService.MultiModelCLIPService.LoadModel` | backend/app/services/clip_service.py:176-202 | An unknown id raises with nothing changed. A hit returns the same loader, keeps the entries and moves the id to the end. A miss succeeds exactly when the load does: the order becomes `Access` of the old one, the new loader is fresh, loaded, of the family's class and records the service's device, and the callback got 10 then 100. A failed miss inserts nothing and reports only 10, but what was evicted stays evicted. In every case evicted loaders are unloaded, every loader still resident holds what it held before, and the selector never changes |
| `ClipService.MultiModelCLIPService.LoadMissing` | backend/app/services/clip_service.py:187-202 | The miss path: evict, then load, then insert the new loader as the most recent entry. On failure the cache keeps the evicted state. Evicted loaders are unloaded and the loaders that stay resident are untouched |
| `ClipService.MultiModelCLIPService.LoadInto` | backend/app/services/clip_service.py:193-202 | After eviction, a successful load appends the id with its new loader. A failed load leaves order and entries as they were, after reporting 10 to the callback. The resident loaders are untouched either way |
| `ClipService.MultiModelCLIPService.BuildLoader` | backend/app/services/clip_service.py:189-196 | The loader is a new object of the class `_get_loader_class` picks for the registry family, and records the service's device. It is loaded exactly when the weight source succeeds, and otherwise carries the source's error. No object that existed before changes |
| `ClipService.MultiModelCLIPService.Touch` | backend/app/services/clip_service.py:183-184 | `move_to_end` on a resident id gives the `Access` order and keeps the cache valid |
| `ClipService.MultiModelCLIPService.Insert` | backend/app/services/clip_service.py:201 | Inserting a new key appends it last with its loader and keeps the cache valid |
| `ClipService.MultiModelCLIPService.AcquireEncoder` | backend/app/services/clip_service.py:212-225 | Embedding calls without an id (or with `""`) use the current model. They succeed exactly when that id is registered and either resident or loads, and then they make it resident and the most recent. An unknown id changes nothing. A hit keeps the entries. A failed load leaves the evicted order `EvictLoop` and its entries. Evicted loaders are unloaded and the others are untouched |
| `ClipService.MultiModelCLIPService.SetCurrentModel` | backend/app/services/clip_service.py:204-207 | An unknown id is rejected and the selector kept. A known id becomes current. The resident set is never touched |
| `ClipService.MultiModelCLIPService.GetCurrentModelId` | backend/app/services/clip_service.py:209-210 | Returns the last accepted current model id |
| `ClipService.MultiModelCLIPService.IsModelLoaded` | backend/app/services/clip_service.py:227-228 | True exactly when the id is a resident key |
| `ClipService.MultiModelCLIPService.GetLoadedModels` | backend/app/services/clip_service.py:230-231 | Lists the resident keys least recent first, without duplicates, at most `capacity` of them, all registered |
| `ClipService.KnownIsInRegistry` | backend/app/services/clip_service.py:179-180 | The service's check `model_id in MODEL_REGISTRY`, on the table its constructor installs, accepts exactly the ids the registry's own membership test accepts |
| `ClipService.CapacityTwoClient` | backend/app/services/clip_service.py:176-202 | On the class itself, with capacity 2, loading A, B, A, C leaves `[A, C]` resident, with B evicted and its loader unloaded |
| `ModelRoutes.IndexedMap` | backend/app/api/routes/models.py:33 | The dictionary built from the indexed-model list has exactly the listed ids as keys |
| `ModelRoutes.IndexedMapLastWins` | backend/app/api/routes/models.py:33 | The points count under an id is that of the last list item for the id |
| `ModelRoutes.ListModels` | backend/app/api/routes/models.py:31-50 | One item per registry model, in registry order, copying its id, name, family value, vector size and description. `is_loaded` is residency. `is_indexed` holds exactly when the id appears in the indexed list. `indexed_count` is the points count of the last list item for the id, or 0 when it is not indexed |
| `ModelRoutes.GetCurrentModel` | backend/app/api/routes/models.py:53-65 | Reports the current id, its registry name, its residency, whether its collection exists, and the point count or 0. An unregistered current id raises `KeyError` |
| `ModelRoutes.SetCurrentModel` | backend/app/api/routes/models.py:68-74 | An unknown id gets HTTP 400 with no change. Otherwise the selector moves and the response is `{model_id, "set"}`. The resident set is untouched |
| `ModelRoutes.LoadStream` | backend/app/api/routes/models.py:82-90 | Exactly two records: `starting` with progress 0, then `complete` with progress 100 exactly when the load succeeded, otherwise `error` with the message |
| `ModelRoutes.LoadModelStream` | backend/app/api/routes/models.py:77-90 | An unknown id gets HTTP 400 before any record or state change. Otherwise the stream is `LoadStream` of the load's outcome. After `complete` the cache order is `Access` of the old one. After `error` the cache is left evicted (`EvictLoop` order and its entries). Evicted loaders are unloaded and the others are untouched |
| `ModelRoutes.IndexStream` | backend/app/api/routes/models.py:104-139 | The first record is `loading_model` with `total` = number of files and `current` = 0. A failed load gives exactly `[loading_model, error]`. Otherwise `starting`, one `indexing`/`file_error` record per file (`current = i + 1`), then `complete`: `n + 3` records |
| `ModelRoutes.IndexFiles` | backend/app/api/routes/models.py:120-137 | The loop over files yields `FileEvents`: a failing file never stops the later ones |
| `ModelRoutes.IndexWithModelStream` | backend/app/api/routes/models.py:99-139 | An unknown id gets HTTP 400 with no change. Otherwise the `.jpg` then `.png` files are streamed as `IndexStream` of the load's outcome. After a successful load the cache order is `Access` of the old one. After a failed one the cache is left evicted. Evicted loaders are unloaded and the others are untouched |
| `ModelRoutes.NoFileWorkAfterLoadFailure` | backend/app/api/routes/models.py:111-116 | After a failed load no record is `indexing` or `file_error`, so no file is processed, and the second record is `error` |
| `ModelRoutes.FailureIsLocal` | backend/app/api/routes/models.py:120-137 | Changing how one file ends changes only that file's records. Every other record, and the `n + 3` length, stay the same |
| `Pinterest.FirstPresent` | backend/scripts/scraper/pinterest.py:104-105 | Finds the first token, in list order, that occurs in the URL, or reports that none occurs |
| `Pinterest.HighResUrl` | backend/scripts/scraper/pinterest.py:101-107 | `_get_high_res_url` returns the URL unchanged exactly when it contains none of `/236x/`, `/474x/`, `/736x/`. Otherwise every occurrence of the first present segment is replaced by `/originals/`: the URL grows by 5 characters per occurrence of that segment and contains `/originals/` |
| `Pinterest.OnlyFirstSegmentReplaced` | backend/scripts/scraper/pinterest.py:104-106 | Only the first present segment (in the order 236x, 474x, 736x) is replaced: in `/236x//474x/` the `/474x/` survives |
| `Pinterest.OtherSegmentsSurvive` | backend/scripts/scraper/pinterest.py:104-107 | Because of the `break`, only the first present segment is replaced: every other thumbnail segment the URL contains is still in the result |
| `Text.SegmentSurvivesReplace` | backend/scripts/scraper/pinterest.py:106 | `replace` of one path segment `/name/` by a slash-delimited string keeps every occurrence of a different segment |
| `Pinterest.FallbackUrl` | backend/scripts/scraper/pinterest.py:109-113 | Without `/originals/` the URL is returned unchanged. With it, the result contains `/736x/` and is shorter by 5 characters per occurrence, hence strictly shorter, which is what makes the 403 retry end |
| `Pinterest.Extension` | backend/scripts/scraper/pinterest.py:151-159 | Total; always one of `.jpg`, `.png`, `.gif`, `.webp`; `.jpg` for every type other than png, gif and webp |
| `Pinterest.ExtensionOfImageTypes` | backend/scripts/scraper/pinterest.py:153-158 | The four image MIME types map to their own extensions |
| `Pinterest.SearchUrl` | backend/scripts/scraper/pinterest.py:98 | The search URL is the fixed prefix followed by the query with every space replaced by `%20`: no space is left in the query part, that part is 2 characters longer per space of the query, and for a query without `%` turning `%20` back into spaces recovers the query |
| `Pinterest.DownloadImage` | backend/scripts/scraper/pinterest.py:115-149 | A 2xx body of at least `min_size` bytes is saved under its own URL with the content type's extension. A shorter 2xx body, an unreachable host, or any other failing status yields no file. A file fetched from another URL comes from the 403 fallback, which needed a `/originals/` URL, and was kept at the default size |
| `Pinterest.ForbiddenOriginalRetries` | backend/scripts/scraper/pinterest.py:140-144 | A 403 on a URL containing `/originals/` gives exactly the download of the fallback URL, which holds `/736x/` and is shorter, with the default minimum size instead of the caller's |
| `Pinterest.ScrapeBoard` | backend/scripts/scraper/pinterest.py:48-77 | The selection loop of `scrape_board` computes `ScrapeResult` of the page's batches |
| `Pinterest.VisitImages` | backend/scripts/scraper/pinterest.py:52-67 | One round of the `for img in images` loop, including the `break` at `max_images`, gives `VisitBatch` |
| `Pinterest.CappedBatch` | backend/scripts/scraper/pinterest.py:52-54 | Once `max_images` files are downloaded, the rest of a batch changes nothing |
| `Pinterest.ScrapeBounds` | backend/scripts/scraper/pinterest.py:20-81 | The result never has more than `max_images` files (none when it is not positive), nor more files than distinct non-empty sources shown. Every file was fetched with a 2xx status and at least 10 000 bytes |
| `Pinterest.VisitImageSeen` | backend/scripts/scraper/pinterest.py:53-67 | A missing, empty or already seen source, or any source once the cap is reached, changes nothing. Any other source is added to `seen_urls` even when its download fails |
| `Pinterest.ThumbnailSizesShareOriginal` | backend/scripts/scraper/pinterest.py:57-62 | Sources are deduplicated by their own URL, not by their full-size URL: `/236x/p` and `/474x/p` both pass the check and are fetched from the same `/originals/p` |

## Left out

- Tensor code (`encode_image`, `encode_text`, normalisation, `.to(device)`, `torch.cuda.empty_cache`) is floating-point numerics in foreign libraries. A loader is an object with handle fields, and the weights are opaque `Handle` values.
- ClipService.ModelLoader.Load: does not model a load that fails part-way. OpenCLIP can fail in `get_tokenizer` after the model was created, and SigLIP can fail in `from_pretrained` after the processor was set. The model takes one outcome per load, and on failure it sets only the device.
- The `threading.Lock` and concurrent callers are out. The cache is modelled sequentially. The lock is held for the whole of `load_model`, so a second call for the same id is simply a hit.
- `get_image_embedding` and `get_text_embedding` are modelled only up to the loader they obtain (`AcquireEncoder`). Image decoding and encoding are foreign code.
- The cache capacity and default model id come from settings the settings class does not define. They are constructor parameters, and `capacity >= 1` is required.
- `asyncio`, `run_in_executor`, `StreamingResponse`, the `json.dumps` SSE framing and `uuid4` are out. Records are datatype values.
- ModelRoutes.IndexWithModelStream: embedding and upserting one file is an input function from file name to an optional error. It does not repeat the `load_model` hit made inside `get_image_embedding`, which leaves the key order as it is because the model was just made the most recent.
- The vector store is out. Its older single-collection version does not have the functions the routes call. The routes take the indexed-model list and the collection point counts as parameters.
- `face_service.py`, the other route modules, schemas, configuration, the indexing script and all frontend code are out. They are I/O glue or floating-point code.
- Playwright browser control, scroll delays, `httpx` transport details, MD5 file naming, file writes, `print` and the command-line `main` of the scraper are out. The page is a finite sequence of `src` batches, one per round, and every round after the last is empty.
- Pinterest.ScrapeBoard: does not model a page that keeps showing only already-seen sources. Such a page makes the source's `while` loop run forever. In the model the page is finite, so the loop stops once the rounds run out.
- The progress callback is optional, and the routes call `load_model` without one. `LoadModel` returns the values a callback would have received (10, then 100 after a successful load). With no callback nothing is reported.
- Python's `str.lower()` is Unicode-aware. The model lowercases ASCII letters only.
