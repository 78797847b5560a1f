/** `ProductPromptManager`: per-item prompt texts kept in a cache, in files
    of the prompts directory, and in the shared default prompt files. The
    file system is modelled by maps from file names to contents; the
    template texts are a generator passed in by the caller. */
module Prompts {
  import opened Common

  /** `custom_settings` values. */
  datatype Setting = Num(x: real) | Text(s: string) | Items(xs: seq<string>)

  type Settings = map<string, Setting>

  /** The settings every product starts from. */
  const DefaultSettings: Settings :=
    map["max_discount" := Num(0.5), "selling_points" := Items([]), "target_customers" := Text(""),
        "price_strategy" := Text("flexible"), "urgency_level" := Text("medium"), "service_extras" := Items([])]

  /** `settings.update(custom_settings)` on a copy of the defaults. */
  function MergeSettings(custom: Settings): (s: Settings)
    ensures s.Keys == DefaultSettings.Keys + custom.Keys
    ensures forall k :: k in custom ==> s[k] == custom[k]
    ensures forall k :: k in DefaultSettings && k !in custom ==> s[k] == DefaultSettings[k]
  {
    DefaultSettings + custom
  }

  /** The three prompt types an item gets; `classify` is only a default. */
  const ItemTypes: set<string> := {"price", "tech", "default"}

  /** The default prompt file for each type. */
  const DefaultPaths: map<string, string> :=
    map["price" := "prompts/price_prompt_sales_optimized.txt",
        "tech" := "prompts/tech_prompt_sales_optimized.txt",
        "default" := "prompts/default_prompt_sales_optimized.txt",
        "classify" := "prompts/classify_prompt_sales_optimized.txt"]

  /** `{item_id}_{prompt_type}.txt` in the prompts directory. */
  function ItemFile(itemId: string, promptType: string): (f: string)
    ensures |f| == |itemId| + |promptType| + 5
    ensures f[..|itemId|] == itemId && f[|itemId|] == '_'
    ensures f[|itemId| + 1..|f| - 4] == promptType && f[|f| - 4..] == ".txt"
  {
    itemId + "_" + promptType + ".txt"
  }

  /** `我是{prompt_type}专家，很高兴为您服务！` */
  function Fallback(promptType: string): string {
    "我是" + promptType + "专家，很高兴为您服务！"
  }

  /** `_get_default_prompt`: the stripped default file of the type when the
      type has one and it exists, else the fallback sentence. */
  function DefaultPrompt(defaults: map<string, string>, promptType: string): (r: string)
    ensures promptType !in DefaultPaths ==> r == Fallback(promptType)
    ensures promptType in DefaultPaths && DefaultPaths[promptType] in defaults ==>
              r == Strip(defaults[DefaultPaths[promptType]])
    ensures promptType in DefaultPaths && DefaultPaths[promptType] !in defaults ==> r == Fallback(promptType)
  {
    if promptType in DefaultPaths && DefaultPaths[promptType] in defaults
    then Strip(defaults[DefaultPaths[promptType]])
    else Fallback(promptType)
  }

  type Cache = map<string, map<string, string>>

  /** The text `get_product_prompt` returns. */
  function PromptFor(cache: Cache, files: map<string, string>, defaults: map<string, string>,
                     itemId: string, promptType: string): string
  {
    if itemId in cache then
      (if promptType in cache[itemId] then cache[itemId][promptType] else "")
    else if ItemFile(itemId, promptType) in files then Strip(files[ItemFile(itemId, promptType)])
    else DefaultPrompt(defaults, promptType)
  }

  /** The cache after `get_product_prompt`: an uncached item whose file
      exists is cached with that one type. */
  function CacheAfterGet(cache: Cache, files: map<string, string>, itemId: string, promptType: string): Cache {
    if itemId !in cache && ItemFile(itemId, promptType) in files
    then cache[itemId := map[promptType := Strip(files[ItemFile(itemId, promptType)])]]
    else cache
  }

  /** The product fields the templates use, with their defaults. */
  datatype ProductInfo = ProductInfo(title: Option<string>, desc: Option<string>, soldPrice: Option<Scalar>)

  datatype TemplateInput = TemplateInput(title: string, desc: string, price: Scalar, settings: Settings)

  function InputOf(info: ProductInfo, custom: Settings): (t: TemplateInput)
    ensures info.title.None? ==> t.title == "商品"
    ensures info.desc.None? ==> t.desc == ""
    ensures info.soldPrice.None? ==> t.price == SInt(0)
    ensures info.title.Some? ==> t.title == info.title.value
    ensures info.desc.Some? ==> t.desc == info.desc.value
    ensures info.soldPrice.Some? ==> t.price == info.soldPrice.value
    ensures t.settings == MergeSettings(custom)
  {
    TemplateInput(if info.title.Some? then info.title.value else "商品",
                  if info.desc.Some? then info.desc.value else "",
                  if info.soldPrice.Some? then info.soldPrice.value else SInt(0),
                  MergeSettings(custom))
  }

  /** The prompts built for an item: exactly the three item types, or
      None when a template generator raises (`generate` answers None for
      it; the `try` of the creation then catches the error). */
  function Generated(t: TemplateInput, generate: (string, TemplateInput) -> Option<string>)
    : (g: Option<map<string, string>>)
    ensures g.Some? <==> forall k :: k in ItemTypes ==> generate(k, t).Some?
    ensures g.Some? ==> g.value.Keys == ItemTypes && forall k :: k in g.value ==> generate(k, t) == Some(g.value[k])
  {
    if generate("price", t).Some? && generate("tech", t).Some? && generate("default", t).Some?
    then Some(map["price" := generate("price", t).value, "tech" := generate("tech", t).value,
                  "default" := generate("default", t).value])
    else None
  }

  /** What `_save_product_prompts` writes for an item. */
  datatype Config = Config(itemId: string, info: ProductInfo, settings: Settings)

  /** The lookup of `get_product_prompt` on the manager's state: the cached
      entry of the item, else its stripped file (which is then cached), else
      the default prompt of the type. */
  method Lookup(cache: Cache, files: map<string, string>, defaults: map<string, string>,
                itemId: string, promptType: string) returns (r: string, loaded: Cache)
    ensures r == PromptFor(cache, files, defaults, itemId, promptType)
    ensures loaded == CacheAfterGet(cache, files, itemId, promptType)
  {
    loaded := cache;
    if itemId in cache {
      var prompts := cache[itemId];
      r := if promptType in prompts then prompts[promptType] else "";
      return;
    }
    var name := ItemFile(itemId, promptType);
    if name in files {
      var content := Strip(files[name]);
      loaded := cache[itemId := map[promptType := content]];
      r := content;
      return;
    }
    r := DefaultPrompt(defaults, promptType);
  }

  class PromptManager {
    /** `product_prompts` */
    var cache: Cache
    /** The files of the prompts directory with an item's prompt texts. */
    var files: map<string, string>
    /** The `{item_id}_config.json` files, by item id. */
    var configs: map<string, Config>
    /** The default prompt files present, by path. */
    const defaults: map<string, string>

    constructor(files0: map<string, string>, configs0: map<string, Config>, defaults0: map<string, string>)
      ensures cache == map[] && files == files0 && configs == configs0 && defaults == defaults0
    {
      cache := map[];
      files := files0;
      configs := configs0;
      defaults := defaults0;
    }

    /** `get_product_prompt` */
    method GetProductPrompt(itemId: string, promptType: string) returns (r: string)
      modifies this
      ensures r == PromptFor(old(cache), files, defaults, itemId, promptType)
      ensures cache == CacheAfterGet(old(cache), files, itemId, promptType)
      ensures files == old(files) && configs == old(configs)
    {
      var loaded;
      r, loaded := Lookup(cache, files, defaults, itemId, promptType);
      cache := loaded;
    }

    /** `create_product_prompt`: generate the three prompts, then write
        their files and the config and cache them; when a generator
        raises, report false and leave everything as it was. */
    method CreateProductPrompt(itemId: string, info: ProductInfo, custom: Settings,
                               generate: (string, TemplateInput) -> Option<string>)
      returns (ok: bool)
      modifies this
      ensures ok <==> Generated(InputOf(info, custom), generate).Some?
      ensures !ok ==> cache == old(cache) && files == old(files) && configs == old(configs)
      ensures ok ==>
              var prompts := Generated(InputOf(info, custom), generate).value;
              cache == old(cache)[itemId := prompts] &&
              files == old(files)[ItemFile(itemId, "price") := prompts["price"]]
                                 [ItemFile(itemId, "tech") := prompts["tech"]]
                                 [ItemFile(itemId, "default") := prompts["default"]] &&
              configs == old(configs)[itemId := Config(itemId, info, MergeSettings(custom))]
    {
      var settings := DefaultSettings;
      if custom != map[] {
        settings := settings + custom;
      }
      assert settings == MergeSettings(custom);
      var t := InputOf(info, custom);
      var price := generate("price", t);
      if price.None? {
        return false;
      }
      var tech := generate("tech", t);
      if tech.None? {
        return false;
      }
      var default := generate("default", t);
      if default.None? {
        return false;
      }
      var prompts := map["price" := price.value, "tech" := tech.value, "default" := default.value];
      files := files[ItemFile(itemId, "price") := prompts["price"]];
      files := files[ItemFile(itemId, "tech") := prompts["tech"]];
      files := files[ItemFile(itemId, "default") := prompts["default"]];
      configs := configs[itemId := Config(itemId, info, settings)];
      cache := cache[itemId := prompts];
      return true;
    }

    /** `delete_product_prompt`: remove the three prompt files, the config
        and the cache entry. */
    method DeleteProductPrompt(itemId: string)
      modifies this
      ensures cache == old(cache) - {itemId}
      ensures files == old(files) - ItemFiles(itemId)
      ensures configs == old(configs) - {itemId}
    {
      var types := ["price", "tech", "default"];
      var i := 0;
      while i < |types|
        invariant 0 <= i <= |types|
        invariant files == old(files) - (set j | 0 <= j < i :: ItemFile(itemId, types[j]))
        invariant cache == old(cache) && configs == old(configs)
      {
        var name := ItemFile(itemId, types[i]);
        if name in files {
          files := files - {name};
        }
        i := i + 1;
      }
      assert (set j | 0 <= j < 3 :: ItemFile(itemId, types[j])) == ItemFiles(itemId) by {
        assert ItemFile(itemId, types[0]) == ItemFile(itemId, "price");
        assert ItemFile(itemId, types[1]) == ItemFile(itemId, "tech");
        assert ItemFile(itemId, types[2]) == ItemFile(itemId, "default");
      }
      // Removing an absent key changes nothing, as the existence checks do.
      configs := configs - {itemId};
      cache := cache - {itemId};
    }
  }

  /** The prompt files `delete_product_prompt` removes. */
  function ItemFiles(itemId: string): (s: set<string>)
    ensures ItemFile(itemId, "classify") !in s
  {
    {ItemFile(itemId, "price"), ItemFile(itemId, "tech"), ItemFile(itemId, "default")}
  }

  /** A cached item is answered from the cache alone: a missing type gives
      the empty text, whatever the files hold, and the cache stays as it is. */
  lemma CachedIgnoresFiles(cache: Cache, files: map<string, string>, defaults: map<string, string>,
                           files2: map<string, string>, defaults2: map<string, string>,
                           itemId: string, promptType: string)
    requires itemId in cache
    ensures PromptFor(cache, files, defaults, itemId, promptType) ==
            PromptFor(cache, files2, defaults2, itemId, promptType)
    ensures promptType !in cache[itemId] ==> PromptFor(cache, files, defaults, itemId, promptType) == ""
    ensures CacheAfterGet(cache, files, itemId, promptType) == cache
  {
  }

  /** An uncached item's own file wins over the defaults, and its stripped
      text becomes the item's only cached prompt. */
  lemma UncachedFile(cache: Cache, files: map<string, string>, defaults: map<string, string>,
                     itemId: string, promptType: string)
    requires itemId !in cache && ItemFile(itemId, promptType) in files
    ensures PromptFor(cache, files, defaults, itemId, promptType) == Strip(files[ItemFile(itemId, promptType)])
    ensures CacheAfterGet(cache, files, itemId, promptType) ==
              cache[itemId := map[promptType := PromptFor(cache, files, defaults, itemId, promptType)]]
  {
    var text := Strip(files[ItemFile(itemId, promptType)]);
    assert PromptFor(cache, files, defaults, itemId, promptType) == text;
    assert CacheAfterGet(cache, files, itemId, promptType) == cache[itemId := map[promptType := text]];
  }

  /** Without the item's file, the default file of the type, and without
      that the fallback sentence, is returned; nothing is cached. */
  lemma UncachedDefault(cache: Cache, files: map<string, string>, defaults: map<string, string>,
                        itemId: string, promptType: string)
    requires itemId !in cache && ItemFile(itemId, promptType) !in files
    ensures PromptFor(cache, files, defaults, itemId, promptType) ==
              (if promptType in DefaultPaths && DefaultPaths[promptType] in defaults
               then Strip(defaults[DefaultPaths[promptType]]) else Fallback(promptType))
    ensures CacheAfterGet(cache, files, itemId, promptType) == cache
  {
  }

  /** Asking twice gives the same answer: what the first call caches is
      what it returned. */
  lemma GetStable(cache: Cache, files: map<string, string>, defaults: map<string, string>,
                  itemId: string, promptType: string)
    ensures PromptFor(CacheAfterGet(cache, files, itemId, promptType), files, defaults, itemId, promptType) ==
            PromptFor(cache, files, defaults, itemId, promptType)
  {
  }

  /** Once one prompt type of an item has been loaded from its file, the
      item counts as cached, so every other type of it answers with the
      empty text even when its own file exists. */
  lemma PartialCacheHidesFiles(cache: Cache, files: map<string, string>, defaults: map<string, string>,
                               itemId: string, loaded: string, other: string)
    requires itemId !in cache && ItemFile(itemId, loaded) in files && other != loaded
    ensures PromptFor(CacheAfterGet(cache, files, itemId, loaded), files, defaults, itemId, other) == ""
  {
    var entry := map[loaded := Strip(files[ItemFile(itemId, loaded)])];
    var c := cache[itemId := entry];
    assert CacheAfterGet(cache, files, itemId, loaded) == c;
    assert itemId in c && c[itemId] == entry && other !in entry;
    assert PromptFor(c, files, defaults, itemId, other) == "";
  }

  /** After a create, the three item types answer with the generated texts
      and `classify` with the empty text. */
  lemma AfterCreate(cache: Cache, files: map<string, string>, defaults: map<string, string>,
                    itemId: string, t: TemplateInput, generate: (string, TemplateInput) -> Option<string>,
                    promptType: string)
    requires Generated(t, generate).Some?
    ensures var c := cache[itemId := Generated(t, generate).value];
            PromptFor(c, files, defaults, itemId, promptType) ==
              (if promptType in ItemTypes then generate(promptType, t).value else "")
    ensures PromptFor(cache[itemId := Generated(t, generate).value], files, defaults, itemId, "classify") == ""
  {
  }

  /** After a delete, the item types fall back to the defaults, while a
      `classify` file of the item is still read. */
  lemma AfterDelete(cache: Cache, files: map<string, string>, defaults: map<string, string>,
                    itemId: string, promptType: string)
    ensures promptType in ItemTypes ==>
              PromptFor(cache - {itemId}, files - ItemFiles(itemId), defaults, itemId, promptType) ==
              DefaultPrompt(defaults, promptType)
    ensures ItemFile(itemId, "classify") in files ==>
              PromptFor(cache - {itemId}, files - ItemFiles(itemId), defaults, itemId, "classify") ==
              Strip(files[ItemFile(itemId, "classify")])
  {
  }
}
