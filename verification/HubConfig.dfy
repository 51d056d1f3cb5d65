// internal/config/config.go: the configuration, saved as three files, and the single file of earlier versions.

module HubConfig {
  import opened Common

  /** What is saved of a hub besides its token. Time zero is 0. */
  datatype Details = Details(id: string, name: string, host: string, port: int, discoveredAt: int)

  const BLANK := Details("", "", "", 0, 0)

  datatype Hub = Hub(details: Details, token: string)

  datatype Cache = Cache(updatedAt: int, items: string)

  const NO_CACHE := Cache(0, "")

  /** The sections of the configuration that are copied as they are. */
  datatype Settings = Settings(llm: string, apple: string, dukaone: string, location: string, access: string)

  /** A whole configuration. The config.json of earlier versions held all of it, today's has no tokens and no cache. */
  datatype Contents = Contents(defaultHub: string, hubs: map<string, Hub>, settings: Settings, cache: Cache)

  const EMPTY := Contents("", map[], Settings("", "", "", "", ""), NO_CACHE)

  /** config.json, tokens.json and cache.json. */
  datatype Files = Files(config: File<Contents>, tokens: File<map<string, string>>, cache: File<Cache>)

  datatype Part = ConfigPart | TokensPart | CachePart

  datatype LoadError = ReadFails(part: Part) | ParseFails(part: Part)

  // ---------- Specification ----------

  function Open<T>(file: File<T>, part: Part): Result<Option<T>, LoadError> {
    match file {
      case Missing => Ok(None)
      case Unreadable => Err(ReadFails(part))
      case Empty => Err(ParseFails(part))
      case Malformed => Err(ParseFails(part))
      case Holds(value) => Ok(Some(value))
    }
  }

  function Bare(hubs: map<string, Hub>): map<string, Hub> {
    map id | id in hubs :: Hub(hubs[id].details, "")
  }

  function TokensOf(hubs: map<string, Hub>): map<string, string> {
    map id | id in hubs && hubs[id].token != "" :: hubs[id].token
  }

  /** A token replaces that of the hub it names; one of no known hub makes a hub of its own. */
  function Tokened(hubs: map<string, Hub>, tokens: map<string, string>, id: string): Hub
    requires id in hubs || id in tokens
  {
    Hub(if id in hubs then hubs[id].details else BLANK, if id in tokens then tokens[id] else hubs[id].token)
  }

  function WithTokens(hubs: map<string, Hub>, tokens: map<string, string>): map<string, Hub> {
    map id | id in hubs.Keys + tokens.Keys :: Tokened(hubs, tokens, id)
  }

  /** An embedded token fills in one that is missing. */
  function FilledIn(hubs: map<string, Hub>, legacy: map<string, Hub>, id: string): Hub
    requires id in hubs || id in legacy
  {
    if id !in hubs then legacy[id]
    else if id in legacy && hubs[id].token == "" then Hub(hubs[id].details, legacy[id].token)
    else hubs[id]
  }

  function WithEmbedded(hubs: map<string, Hub>, legacy: map<string, Hub>): map<string, Hub> {
    map id | id in hubs.Keys + legacy.Keys :: FilledIn(hubs, legacy, id)
  }

  /** `stale`: the program is newer than cache.json. */
  function CacheLeft(cache: File<Cache>, stale: bool): File<Cache> {
    if stale then Missing else cache
  }

  function LoadOf(files: Files, stale: bool): Result<Contents, LoadError> {
    match Open(files.config, ConfigPart) {
      case Err(error) => Err(error)
      case Ok(None) => Ok(EMPTY)
      case Ok(Some(saved)) =>
        match Open(files.tokens, TokensPart) {
          case Err(error) => Err(error)
          case Ok(tokens) =>
            match Open(CacheLeft(files.cache, stale), CachePart) {
              case Err(error) => Err(error)
              case Ok(cache) =>
                Ok(saved.(hubs := if tokens.Some? then WithTokens(saved.hubs, tokens.value) else saved.hubs,
                          cache := if cache.Some? then cache.value else saved.cache))
            }
        }
    }
  }

  /** Loading removes a stale cache, once the other two files are read. */
  function AfterLoad(files: Files, stale: bool): Files {
    if files.config.Holds? && Open(files.tokens, TokensPart).Ok? then
      files.(cache := CacheLeft(files.cache, stale))
    else files
  }

  /** The three files are written one after the other, up to the first write that fails. */
  function AfterSave(files: Files, c: Contents, config: Write, tokens: Write, cache: Write): Files {
    Files(
      Written(files.config, Contents(c.defaultHub, Bare(c.hubs), c.settings, NO_CACHE), config),
      if config == Done then Written(files.tokens, TokensOf(c.hubs), tokens) else files.tokens,
      if config == Done && tokens == Done then Written(files.cache, c.cache, cache) else files.cache)
  }

  /** A hub under its id; it becomes the default when asked for or when there is none. */
  function WithHub(c: Contents, h: Hub, asDefault: bool): Contents {
    c.(hubs := c.hubs[h.details.id := h],
       defaultHub := if asDefault || c.defaultHub == "" then h.details.id else c.defaultHub)
  }

  /** The default hub, unless none is named or the named one is not there. */
  function DefaultHub(c: Contents): Option<Hub> {
    if c.defaultHub != "" && c.defaultHub in c.hubs then Some(c.hubs[c.defaultHub]) else None
  }

  // ---------- The program ----------

  class Config {
    var defaultHub: string
    var hubs: map<string, Hub>
    var settings: Settings
    var cache: Cache

    ghost function Value(): Contents
      reads this
    {
      Contents(defaultHub, hubs, settings, cache)
    }

    /** The configuration that config.json spells out: tokens and cache are not among its fields. */
    constructor Parse(saved: Contents)
      ensures Value() == Contents(saved.defaultHub, Bare(saved.hubs), saved.settings, NO_CACHE)
    {
      defaultHub, hubs, settings, cache := saved.defaultHub, Bare(saved.hubs), saved.settings, NO_CACHE;
    }

    method LoadLegacyEmbeddedData(legacy: Contents)
      modifies this
      ensures Value() == old(Value()).(
                hubs := WithEmbedded(old(hubs), legacy.hubs),
                cache := if old(cache).updatedAt == 0 then legacy.cache else old(cache))
    {
      var all := hubs;
      var left := legacy.hubs.Keys;
      while left != {}
        invariant forall id <- left :: id in legacy.hubs
        invariant forall id :: id in all <==> id in hubs || (id in legacy.hubs && id !in left)
        invariant forall id <- all :: all[id] == if id in left then hubs[id] else FilledIn(hubs, legacy.hubs, id)
        decreases |left|
      {
        var id :| id in left;
        left := left - {id};
        var hub := legacy.hubs[id];
        var current := if id in all then all[id] else Hub(hub.details, "");
        if current.token == "" {
          current := current.(token := hub.token);
        }
        all := all[id := current];
      }
      assert all == WithEmbedded(hubs, legacy.hubs);
      hubs := all;
      if cache.updatedAt == 0 {
        cache := legacy.cache;
      }
    }

    method LoadTokens(tokens: map<string, string>)
      modifies this
      ensures Value() == old(Value()).(hubs := WithTokens(old(hubs), tokens))
    {
      var all := hubs;
      var left := tokens.Keys;
      while left != {}
        invariant forall id <- left :: id in tokens
        invariant forall id :: id in all <==> id in hubs || (id in tokens && id !in left)
        invariant forall id <- all :: all[id] == if id in left then hubs[id] else Tokened(hubs, tokens, id)
        decreases |left|
      {
        var id :| id in left;
        left := left - {id};
        var hub := if id in all then all[id] else Hub(BLANK, "");
        hub := hub.(token := tokens[id]);
        all := all[id := hub];
      }
      assert all == WithTokens(hubs, tokens);
      hubs := all;
    }

    method DefaultHubConfig() returns (hub: Option<Hub>)
      ensures hub == DefaultHub(Value())
    {
      if defaultHub == "" {
        return None;
      }
      if defaultHub !in hubs {
        return None;
      }
      return Some(hubs[defaultHub]);
    }

    method SetHub(h: Hub, asDefault: bool)
      modifies this
      ensures Value() == WithHub(old(Value()), h, asDefault)
    {
      hubs := hubs[h.details.id := h];
      if asDefault || defaultHub == "" {
        defaultHub := h.details.id;
      }
    }
  }

  class Disk {
    var config: File<Contents>
    var tokens: File<map<string, string>>
    var cache: File<Cache>

    ghost function Value(): Files
      reads this
    {
      Files(config, tokens, cache)
    }

    method Load(stale: bool) returns (r: Result<Config, LoadError>)
      modifies this
      ensures Value() == AfterLoad(old(Value()), stale)
      ensures r.Ok? <==> LoadOf(old(Value()), stale).Ok?
      ensures r.Ok? ==> fresh(r.value) && LoadOf(old(Value()), stale) == Ok(r.value.Value())
      ensures r.Err? ==> LoadOf(old(Value()), stale) == Err(r.error)
    {
      var document := Open(config, ConfigPart);
      if document.Err? {
        return Err(document.error);
      }
      if document.value.None? {
        var empty := new Config.Parse(EMPTY);
        assert empty.hubs == map[];
        return Ok(empty);
      }
      var cfg := new Config.Parse(document.value.value);
      cfg.LoadLegacyEmbeddedData(document.value.value);
      assert cfg.hubs == document.value.value.hubs;
      var texts := Open(tokens, TokensPart);
      if texts.Err? {
        return Err(texts.error);
      }
      if texts.value.Some? {
        cfg.LoadTokens(texts.value.value);
      }
      if stale {
        cache := Missing;
      }
      var cached := Open(cache, CachePart);
      if cached.Err? {
        return Err(cached.error);
      }
      if cached.value.Some? {
        cfg.cache := cached.value.value;
      }
      return Ok(cfg);
    }

    method Save(cfg: Config, configWrite: Write, tokensWrite: Write, cacheWrite: Write) returns (saved: bool)
      modifies this
      ensures Value() == AfterSave(old(Value()), cfg.Value(), configWrite, tokensWrite, cacheWrite)
      ensures saved <==> configWrite == Done && tokensWrite == Done && cacheWrite == Done
    {
      var bare := map[];
      var left := cfg.hubs.Keys;
      while left != {}
        invariant left <= cfg.hubs.Keys
        invariant bare == map id | id in cfg.hubs.Keys - left :: Bare(cfg.hubs)[id]
        decreases |left|
      {
        var id :| id in left;
        left := left - {id};
        bare := bare[id := cfg.hubs[id].(token := "")];
      }
      assert bare == Bare(cfg.hubs);
      config := Written(config, Contents(cfg.defaultHub, bare, cfg.settings, NO_CACHE), configWrite);
      if configWrite != Done {
        return false;
      }
      var ok := SaveTokens(cfg, tokensWrite);
      if !ok {
        return false;
      }
      cache := Written(cache, cfg.cache, cacheWrite);
      return cacheWrite == Done;
    }

    method SaveTokens(cfg: Config, write: Write) returns (saved: bool)
      modifies this`tokens
      ensures tokens == Written(old(tokens), TokensOf(cfg.hubs), write)
      ensures saved <==> write == Done
    {
      var texts := map[];
      var left := cfg.hubs.Keys;
      while left != {}
        invariant left <= cfg.hubs.Keys
        invariant texts == map id | id in TokensOf(cfg.hubs).Keys - left :: TokensOf(cfg.hubs)[id]
        decreases |left|
      {
        var id :| id in left;
        left := left - {id};
        var hub := cfg.hubs[id];
        if hub.token != "" {
          texts := texts[id := hub.token];
        }
      }
      assert texts == TokensOf(cfg.hubs);
      tokens := Written(tokens, texts, write);
      return write == Done;
    }
  }
}
