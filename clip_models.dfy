/**
  The model descriptor registry: the closed set of embedding-model families,
  the constant table of the seven known models, lookup by id, and the
  derivation of a per-model vector-store collection name from a model id.
*/
module ClipModels {
  import opened Wrappers
  import Text

  /** `ModelFamily`: which loader implementation a model needs. */
  datatype ModelFamily = OpenAIClip | OpenClip | SigLip

  /** The enum member's string value, as reported by the model list. */
  function FamilyValue(f: ModelFamily): string
  {
    match f
    case OpenAIClip => "openai_clip"
    case OpenClip => "openclip"
    case SigLip => "siglip"
  }

  /** `CLIPModelConfig`: an immutable model descriptor. */
  datatype ModelConfig = ModelConfig(
    id: string,
    name: string,
    family: ModelFamily,
    vectorDim: int,
    modelName: string,
    pretrained: Option<string>,
    description: string)

  /** The error `get_model_config` raises (`ValueError("Unknown model: ...")`). */
  datatype RegistryError = UnknownModel(modelId: string)

  /** `MODEL_REGISTRY`, as the dictionary's (key, value) items in insertion order. */
  const Registry: seq<(string, ModelConfig)> := [
    ("openai/ViT-B-32", ModelConfig(
      "openai/ViT-B-32", "CLIP ViT-B/32", OpenAIClip, 512, "ViT-B/32", None,
      "Fast, good balance of speed and quality")),
    ("openai/ViT-B-16", ModelConfig(
      "openai/ViT-B-16", "CLIP ViT-B/16", OpenAIClip, 512, "ViT-B/16", None,
      "Higher quality, slower than B/32")),
    ("openai/ViT-L-14", ModelConfig(
      "openai/ViT-L-14", "CLIP ViT-L/14", OpenAIClip, 768, "ViT-L/14", None,
      "Highest quality OpenAI model")),
    ("openclip/ViT-B-32-laion2b", ModelConfig(
      "openclip/ViT-B-32-laion2b", "OpenCLIP ViT-B/32", OpenClip, 512, "ViT-B-32",
      Some("laion2b_s34b_b79k"), "Trained on LAION-2B dataset")),
    ("openclip/ViT-L-14-laion2b", ModelConfig(
      "openclip/ViT-L-14-laion2b", "OpenCLIP ViT-L/14", OpenClip, 768, "ViT-L-14",
      Some("laion2b_s32b_b82k"), "Large model trained on LAION-2B")),
    ("siglip/base-patch16-224", ModelConfig(
      "siglip/base-patch16-224", "SigLIP Base", SigLip, 768,
      "google/siglip-base-patch16-224", None, "Google SigLIP with sigmoid loss")),
    ("siglip/large-patch16-384", ModelConfig(
      "siglip/large-patch16-384", "SigLIP Large", SigLip, 1024,
      "google/siglip-large-patch16-384", None, "High-res SigLIP model"))
  ]

  /** The registry's keys in order (`MODEL_REGISTRY.keys()`). */
  function Keys(): (ks: seq<string>)
    ensures |ks| == |Registry|
    ensures forall i :: 0 <= i < |Registry| ==> ks[i] == Registry[i].0
  {
    seq(|Registry|, i requires 0 <= i < |Registry| => Registry[i].0)
  }

  /** `model_id in MODEL_REGISTRY`. */
  predicate InRegistry(id: string)
  {
    id in Keys()
  }

  /** Dictionary lookup over the items: the value stored under `id`, if any. */
  function Find(items: seq<(string, ModelConfig)>, id: string): (r: Option<ModelConfig>)
    ensures r.Some? <==> exists i :: 0 <= i < |items| && items[i].0 == id
    ensures r.Some? ==> exists i :: 0 <= i < |items| && items[i] == (id, r.value)
  {
    if items == [] then None
    else if items[0].0 == id then Some(items[0].1)
    else
      var r := Find(items[1..], id);
      assert forall i :: 1 <= i < |items| ==> items[i] == items[1..][i - 1];
      r
  }

  /** What every registry item satisfies. */
  predicate WellFormedEntry(e: (string, ModelConfig))
  {
    && e.0 == e.1.id
    && e.1.vectorDim in {512, 768, 1024}
    && (e.1.pretrained.Some? <==> e.1.family == OpenClip)
  }

  /**
    Every entry is stored under its own id, has one of the three supported
    vector sizes, and names pretrained weights exactly when it is an OpenCLIP model.
  */
  lemma RegistryWellFormed()
    ensures forall i :: 0 <= i < |Registry| ==> WellFormedEntry(Registry[i])
  {
    forall i | 0 <= i < |Registry|
      ensures WellFormedEntry(Registry[i])
    {
      if i == 0 {} else if i == 1 {} else if i == 2 {} else if i == 3 {}
      else if i == 4 {} else if i == 5 {} else {}
    }
  }

  /** The dictionary literal has no repeated key. */
  lemma RegistryKeysDistinct()
    ensures forall i, j :: 0 <= i < j < |Registry| ==> Registry[i].0 != Registry[j].0
  {
    forall i, j | 0 <= i < j < |Registry|
      ensures Registry[i].0 != Registry[j].0
    {
      var a, b := Registry[i].0, Registry[j].0;
      if |a| == |b| {
        var k := if |a| == 15 && j == 1 then 13 else if |a| == 15 then 11 else 13;
        assert a[k] != b[k];
      }
    }
  }

  /** In items with distinct keys, looking up a stored key finds the value stored with it. */
  lemma {:induction false} FindStored(items: seq<(string, ModelConfig)>, i: nat)
    requires i < |items|
    requires forall j, k :: 0 <= j < k < |items| ==> items[j].0 != items[k].0
    ensures Find(items, items[i].0) == Some(items[i].1)
  {
    if i > 0 {
      assert items[0].0 != items[i].0;
      var rest := items[1..];
      assert rest[i - 1] == items[i];
      FindStored(rest, i - 1);
    }
  }

  /** Every registry entry is what a lookup of its key returns. */
  lemma RegistryLookup(i: nat)
    requires i < |Registry|
    ensures Find(Registry, Registry[i].0) == Some(Registry[i].1)
    ensures GetModelConfig(Registry[i].0) == Success(Registry[i].1)
  {
    RegistryKeysDistinct();
    FindStored(Registry, i);
  }

  /**
    `get_model_config`: the descriptor stored under `id`, or the
    unknown-model error.
  */
  function GetModelConfig(id: string): (r: Result<ModelConfig, RegistryError>)
    ensures r.Success? <==> InRegistry(id)
    ensures r.Failure? ==> r.error == UnknownModel(id)
    ensures r.Success? ==>
              && r.value.id == id
              && exists i :: 0 <= i < |Registry| && Registry[i] == (id, r.value)
  {
    RegistryWellFormed();
    match Find(Registry, id)
    case None => Failure(UnknownModel(id))
    case Some(c) => Success(c)
  }

  /** The default `base_name` of `get_collection_name`. */
  const DefaultBaseName: string := "joyuri_images"

  /**
    `model_id.replace("/", "_").replace("-", "_").lower()`: the two one-character
    replaces and the lowering act one character at a time, so the result has
    the id's length, holds `SafeChar` of each character and is safe.
  */
  function SafeId(id: string): (r: string)
    ensures |r| == |id|
    ensures forall i :: 0 <= i < |id| ==> r[i] == SafeChar(id[i])
    ensures IsSafe(r)
  {
    Text.ReplaceCharPointwise(id, '/', '_');
    Text.ReplaceCharPointwise(Text.ReplaceAll(id, "/", "_"), '-', '_');
    Text.LowerAscii(Text.ReplaceAll(Text.ReplaceAll(id, "/", "_"), "-", "_"))
  }

  /** `get_collection_name(model_id, base_name)`. */
  function CollectionName(id: string, baseName: string): (r: string)
    ensures Text.IsPrefix(baseName + "_", r)
    ensures |r| == |baseName| + 1 + |id|
    ensures IsSafe(r[|baseName| + 1..])
    ensures forall i :: 0 <= i < |id| ==> r[|baseName| + 1 + i] == SafeChar(id[i])
  {
    var r := baseName + "_" + SafeId(id);
    assert r[|baseName| + 1..] == SafeId(id);
    r
  }

  /** What one character of the id becomes in the collection name. */
  function SafeChar(c: char): char
  {
    if c == '/' || c == '-' then '_' else Text.LowerChar(c)
  }

  /** No `/`, no `-` and no upper-case ASCII letter. */
  predicate IsSafe(s: string)
  {
    forall i :: 0 <= i < |s| ==> s[i] != '/' && s[i] != '-' && !Text.IsUpperAscii(s[i])
  }

  /** An id that is already safe is its own safe form. */
  lemma SafeIdFixesSafe(id: string)
    requires IsSafe(id)
    ensures SafeId(id) == id
  {
  }

  /** Transforming twice is transforming once. */
  lemma SafeIdIdempotent(id: string)
    ensures SafeId(SafeId(id)) == SafeId(id)
  {
    SafeIdFixesSafe(SafeId(id));
  }

  /**
    Two ids share a collection name exactly when they have the same length and
    agree position by position up to `/`, `-`, `_` and ASCII case.
  */
  lemma CollectionNamesCollideIff(a: string, b: string, baseName: string)
    ensures CollectionName(a, baseName) == CollectionName(b, baseName) <==>
              |a| == |b| && forall i :: 0 <= i < |a| ==> SafeChar(a[i]) == SafeChar(b[i])
  {
    var p := baseName + "_";
    assert CollectionName(a, baseName) == p + SafeId(a);
    assert CollectionName(b, baseName) == p + SafeId(b);
    if CollectionName(a, baseName) == CollectionName(b, baseName) {
      assert SafeId(a) == (p + SafeId(a))[|p|..];
      assert SafeId(b) == (p + SafeId(b))[|p|..];
      forall i | 0 <= i < |a|
        ensures SafeChar(a[i]) == SafeChar(b[i])
      {
        assert SafeId(a)[i] == SafeId(b)[i];
      }
    }
  }

  /**
    The transform is not injective: turning any `/` of an id into `-` gives a
    different id with the same collection name.
  */
  lemma SlashDashCollide(id: string, k: nat, baseName: string)
    requires k < |id| && id[k] == '/'
    ensures id[k := '-'] != id
    ensures CollectionName(id[k := '-'], baseName) == CollectionName(id, baseName)
  {
    CollectionNamesCollideIff(id[k := '-'], id, baseName);
  }

  /** A concrete collision between two different ids. */
  lemma CollisionExample()
    ensures "a/b" != "a-b"
    ensures CollectionName("a/b", DefaultBaseName) == CollectionName("a-b", DefaultBaseName)
  {
    SlashDashCollide("a/b", 1, DefaultBaseName);
    assert "a/b"[1 := '-'] == "a-b";
  }

  /** Restricted to the seven registry ids the transform is injective. */
  lemma RegistryCollectionNamesDistinct(baseName: string)
    ensures forall i, j :: 0 <= i < j < |Registry| ==>
              CollectionName(Keys()[i], baseName) != CollectionName(Keys()[j], baseName)
  {
    forall i, j | 0 <= i < j < |Registry|
      ensures CollectionName(Keys()[i], baseName) != CollectionName(Keys()[j], baseName)
    {
      var a, b := Keys()[i], Keys()[j];
      if |a| == |b| {
        var k := if |a| == 15 && j == 1 then 13 else if |a| == 15 then 11 else 13;
        NamesDifferAt(a, b, baseName, k);
      }
    }
  }

  /** Ids of equal length that differ after the character map at one position get different names. */
  lemma NamesDifferAt(a: string, b: string, baseName: string, k: nat)
    requires |a| == |b| && k < |a|
    requires SafeChar(a[k]) != SafeChar(b[k])
    ensures CollectionName(a, baseName) != CollectionName(b, baseName)
  {
    CollectionNamesCollideIff(a, b, baseName);
  }
}
