// What saving keeps, what an interrupted save loses: theorems about HubConfig.

module HubConfigRoundTrip {
  import opened Common
  import opened HubConfig

  lemma SplitHubsJoin(hubs: map<string, Hub>)
    ensures WithTokens(Bare(hubs), TokensOf(hubs)) == hubs
  {
  }

  /** What a full save leaves behind is loaded as it was, over whatever files there were before. */
  lemma SavedIsLoaded(files: Files, c: Contents, stale: bool)
    ensures LoadOf(AfterSave(files, c, Done, Done, Done), stale)
            == Ok(c.(cache := if stale then NO_CACHE else c.cache))
  {
    SplitHubsJoin(c.hubs);
  }

  /** Migration: the first load, tokens and cache of the old single file included, survives the split in three. */
  lemma MigrationLosesNothing(files: Files, stale: bool, staleLater: bool)
    requires LoadOf(files, stale).Ok?
    ensures var c := LoadOf(files, stale).value;
            var split := AfterSave(AfterLoad(files, stale), c, Done, Done, Done);
            && split.config.Holds? && Bare(split.config.value.hubs) == split.config.value.hubs
            && split.config.value.cache == NO_CACHE
            && LoadOf(split, staleLater) == Ok(c.(cache := if staleLater then NO_CACHE else c.cache))
  {
    var c := LoadOf(files, stale).value;
    SavedIsLoaded(AfterLoad(files, stale), c, staleLater);
    assert Bare(Bare(c.hubs)) == Bare(c.hubs);
  }

  /** Every hub and every token of the first load comes from a file, and the token file is preferred. */
  lemma LoadedHubs(files: Files, stale: bool, id: string)
    requires LoadOf(files, stale).Ok? && files.config.Holds?
    ensures var hubs := LoadOf(files, stale).value.hubs;
            var embedded := files.config.value.hubs;
            var tokens := if files.tokens.Holds? then files.tokens.value else map[];
            && (id in hubs <==> id in embedded || id in tokens)
            && (id in tokens ==> hubs[id].token == tokens[id])
            && (id in embedded ==> hubs[id].details == embedded[id].details)
            && (id in embedded && id !in tokens ==> hubs[id].token == embedded[id].token)
  {
  }

  /** A file that is there and cannot be used. */
  predicate Broken<T>(file: File<T>) {
    !file.Missing? && !file.Holds?
  }

  /**
   * When a load fails, for which file and how. Without config.json nothing else is looked at; a stale cache is
   * removed once tokens.json is read, and then cannot fail.
   */
  lemma LoadFailsIff(files: Files, stale: bool)
    ensures var tokens := files.config.Holds? && Broken(files.tokens);
            var cache := files.config.Holds? && !Broken(files.tokens) && !stale && Broken(files.cache);
            var r := LoadOf(files, stale);
            && (r == Err(ReadFails(ConfigPart)) <==> files.config.Unreadable?)
            && (r == Err(ParseFails(ConfigPart)) <==> files.config.Empty? || files.config.Malformed?)
            && (r == Err(ReadFails(TokensPart)) <==> tokens && files.tokens.Unreadable?)
            && (r == Err(ParseFails(TokensPart)) <==> tokens && !files.tokens.Unreadable?)
            && (r == Err(ReadFails(CachePart)) <==> cache && files.cache.Unreadable?)
            && (r == Err(ParseFails(CachePart)) <==> cache && !files.cache.Unreadable?)
            && (r.Err? <==> Broken(files.config) || tokens || cache)
            && (files.config.Missing? ==>
                  r == Ok(Contents("", map[], Settings("", "", "", "", ""), Cache(0, ""))))
  {
  }

  /** What a load leaves of the files: all of them, but for a stale cache. */
  lemma LoadRemovesOnlyAStaleCache(files: Files, stale: bool)
    ensures var after := AfterLoad(files, stale);
            && after.config == files.config && after.tokens == files.tokens
            && after.cache == if stale && files.config.Holds? && !Broken(files.tokens) then Missing else files.cache
  {
  }

  /** The save that migrates an old file, cut off before tokens.json is written. */
  function CutOff(files: Files, stale: bool): Files
    requires LoadOf(files, stale).Ok?
  {
    AfterSave(AfterLoad(files, stale), LoadOf(files, stale).value, Done, Refused, Done)
  }

  /**
   * Saving is not atomic: when only config.json gets written, the hubs survive exactly when no token
   * was held by the old config.json alone, and the cache exactly when there was none to move.
   */
  lemma CutOffMigrationKeepsTokensIff(files: Files, stale: bool, staleLater: bool)
    requires LoadOf(files, stale).Ok? && files.config.Holds?
    ensures var tokens := if files.tokens.Holds? then files.tokens.value else map[];
            var c := LoadOf(files, stale).value;
            var later := LoadOf(CutOff(files, stale), staleLater);
            && later.Ok?
            && (later.value.hubs == c.hubs <==>
                forall id <- files.config.value.hubs :: files.config.value.hubs[id].token == "" || id in tokens)
            && (later.value.cache == c.cache <==>
                if (stale || staleLater) || files.cache.Missing? then c.cache == NO_CACHE else true)
  {
    var tokens := if files.tokens.Holds? then files.tokens.value else map[];
    var embedded := files.config.value.hubs;
    var hubs := LoadOf(files, stale).value.hubs;
    var later := LoadOf(CutOff(files, stale), staleLater).value.hubs;
    LaterHubs(files, stale, staleLater);
    if forall id <- embedded :: embedded[id].token == "" || id in tokens {
      forall id | id in hubs || id in later
        ensures id in hubs && id in later && hubs[id] == later[id]
      {
        LoadedHubs(files, stale, id);
      }
    } else {
      var id :| id in embedded && embedded[id].token != "" && id !in tokens;
      LoadedHubs(files, stale, id);
      assert hubs[id].token != later[id].token;
    }
  }

  lemma LaterHubs(files: Files, stale: bool, staleLater: bool)
    requires LoadOf(files, stale).Ok? && files.config.Holds?
    ensures var tokens := if files.tokens.Holds? then files.tokens.value else map[];
            var hubs := LoadOf(files, stale).value.hubs;
            var later := LoadOf(CutOff(files, stale), staleLater);
            && later.Ok? && later.value.hubs.Keys == hubs.Keys
            && forall id <- hubs :: later.value.hubs[id] ==
                 Hub(hubs[id].details, if id in tokens then tokens[id] else "")
  {
    forall id
      ensures id in LoadOf(files, stale).value.hubs <==>
              id in files.config.value.hubs || (files.tokens.Holds? && id in files.tokens.value)
    {
      LoadedHubs(files, stale, id);
    }
  }

  predicate Damages(write: Write) {
    write == Emptied || write == Torn
  }

  /**
   * What a save that failed part way is loaded as. A damaged file is named by the next load, except a damaged
   * cache that the load removes as stale; a refused write of the cache loses nothing but the new cache.
   */
  lemma CutOffSaveIsLoaded(files: Files, c: Contents, config: Write, tokens: Write, cache: Write, stale: bool)
    ensures var later := LoadOf(AfterSave(files, c, config, tokens, cache), stale);
            && (Damages(config) ==> later == Err(ParseFails(ConfigPart)))
            && (config == Done && Damages(tokens) ==> later == Err(ParseFails(TokensPart)))
            && (config == Done && tokens == Done && Damages(cache) ==>
                  later == if stale then Ok(c.(cache := NO_CACHE)) else Err(ParseFails(CachePart)))
            && (config == Done && tokens == Done && cache == Refused ==>
                  later == match Open(CacheLeft(files.cache, stale), CachePart)
                           case Err(error) => Err(error)
                           case Ok(None) => Ok(c.(cache := NO_CACHE))
                           case Ok(Some(kept)) => Ok(c.(cache := kept)))
            && (config == Refused ==> later == LoadOf(files, stale))
  {
    SplitHubsJoin(c.hubs);
    var after := AfterSave(files, c, config, tokens, cache);
    assert Damages(config) ==> Open(after.config, ConfigPart) == Err(ParseFails(ConfigPart));
    assert config == Done && Damages(tokens) ==> Open(after.tokens, TokensPart) == Err(ParseFails(TokensPart));
  }

  /** Damage goes unreported exactly when it is to the cache and the next load removes the cache as stale. */
  lemma DamageIsReportedIff(files: Files, c: Contents, config: Write, tokens: Write, cache: Write, stale: bool)
    requires Damages(config) || (config == Done && (Damages(tokens) || (tokens == Done && Damages(cache))))
    ensures LoadOf(AfterSave(files, c, config, tokens, cache), stale).Err?
            <==> !(config == Done && tokens == Done && stale)
  {
    CutOffSaveIsLoaded(files, c, config, tokens, cache, stale);
  }

  /**
   * A load that succeeds and the save after it keep the tokens of tokens.json exactly when config.json was
   * there or no token was: without config.json the load ignores the tokens, and the save empties their file.
   */
  lemma LoadThenSaveKeepsTokensIff(files: Files, stale: bool)
    requires files.tokens.Holds? && LoadOf(files, stale).Ok?
    ensures var c := LoadOf(files, stale).value;
            var after := AfterSave(AfterLoad(files, stale), c, Done, Done, Done);
            && after.tokens.Holds?
            && ((forall id <- files.tokens.value :: files.tokens.value[id] != "" ==>
                   id in after.tokens.value && after.tokens.value[id] == files.tokens.value[id])
                <==> files.config.Holds? || forall id <- files.tokens.value :: files.tokens.value[id] == "")
  {
    if files.config.Holds? {
      forall id | id in files.tokens.value
        ensures LoadOf(files, stale).value.hubs[id].token == files.tokens.value[id]
      {
        LoadedHubs(files, stale, id);
      }
    } else {
      assert TokensOf(EMPTY.hubs) == map[];
    }
  }

  // ---------- The default hub ----------

  /** No hub is the default, or a known one is. */
  predicate DefaultIsKnown(c: Contents) {
    c.defaultHub != "" ==> c.defaultHub in c.hubs
  }

  datatype Choice = Choice(hub: Hub, asDefault: bool)

  function WithHubs(c: Contents, choices: seq<Choice>): Contents {
    if choices == [] then c
    else
      var last := choices[|choices| - 1];
      WithHub(WithHubs(c, choices[..|choices| - 1]), last.hub, last.asDefault)
  }

  /** The id that ends up as the default: the last one asked for, else the one there was, else the first one set. */
  function Chosen(before: string, choices: seq<Choice>): string {
    if choices == [] then before
    else
      var last := choices[|choices| - 1];
      var earlier := Chosen(before, choices[..|choices| - 1]);
      if last.asDefault || earlier == "" then last.hub.details.id else earlier
  }

  /** The last hub that was set under an id, if any was. */
  function LastSet(choices: seq<Choice>, id: string): Option<Hub> {
    if choices == [] then None
    else
      var last := choices[|choices| - 1];
      if last.hub.details.id == id then Some(last.hub) else LastSet(choices[..|choices| - 1], id)
  }

  lemma {:induction false} HubsAsSet(c: Contents, choices: seq<Choice>)
    requires DefaultIsKnown(c)
    ensures var after := WithHubs(c, choices);
            && DefaultIsKnown(after) && after.defaultHub == Chosen(c.defaultHub, choices)
            && forall id :: (id in after.hubs <==> id in c.hubs || LastSet(choices, id).Some?)
                            && (LastSet(choices, id).Some? ==> after.hubs[id] == LastSet(choices, id).value)
                            && (LastSet(choices, id).None? && id in c.hubs ==> after.hubs[id] == c.hubs[id])
  {
    if choices != [] {
      HubsAsSet(c, choices[..|choices| - 1]);
    }
  }

  /**
   * After any number of hubs set, a save and a load, the default hub is found: it is the hub last set under the
   * chosen id, or the one that was there; it is missing exactly when no hub with an id was ever chosen.
   */
  lemma DefaultHubIsFound(files: Files, c: Contents, choices: seq<Choice>, stale: bool)
    requires DefaultIsKnown(c)
    ensures var chosen := Chosen(c.defaultHub, choices);
            var later := LoadOf(AfterSave(files, WithHubs(c, choices), Done, Done, Done), stale);
            && later.Ok?
            && (chosen == "" <==> DefaultHub(later.value).None?)
            && (chosen != "" ==>
                  match LastSet(choices, chosen)
                  case Some(hub) => DefaultHub(later.value) == Some(hub)
                  case None => DefaultHub(later.value) == DefaultHub(c))
  {
    SavedIsLoaded(files, WithHubs(c, choices), stale);
    HubsAsSet(c, choices);
    if Chosen(c.defaultHub, choices) != "" && LastSet(choices, Chosen(c.defaultHub, choices)).None? {
      UnsetDefaultIsTheOldOne(c.defaultHub, choices);
    }
  }

  lemma {:induction false} UnsetDefaultIsTheOldOne(before: string, choices: seq<Choice>)
    ensures Chosen(before, choices) == before || LastSet(choices, Chosen(before, choices)).Some?
  {
    if choices != [] {
      UnsetDefaultIsTheOldOne(before, choices[..|choices| - 1]);
    }
  }
}
