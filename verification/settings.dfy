/** The configuration document and its loading defaults. Each field is
    optional because a stored document may lack any key; `load_config`
    performs no migration, so what is stored is what handlers see. */
module Settings {
  import opened Optional

  /** One search engine entry: `{name, url, logo}`. */
  datatype Engine = Engine(name: string, url: string, logo: string)

  /** The `search` section. `url` is the legacy single-engine URL. */
  datatype Search = Search(engine: Option<string>, url: Option<string>, engines: Option<seq<Engine>>)

  /** The top-level document; only the `search` section is modelled. */
  datatype Config = Config(search: Option<Search>)

  const DefaultEngine := "google"
  const DefaultSearchUrl := "https://www.google.com/search?q="

  /** The document used while no config file exists. */
  const DefaultConfig := Config(Some(Search(Some(DefaultEngine), Some(DefaultSearchUrl), None)))

  /** `load_config`: the stored document, or the default one. */
  function LoadConfig(store: Option<Config>): (cfg: Config)
    ensures store.Some? ==> cfg == store.value
    ensures store.None? ==> cfg.search.Some? && cfg.search.value.engine == Some(DefaultEngine)
    ensures store.None? ==> cfg.search.value.url == Some(DefaultSearchUrl) && cfg.search.value.engines.None?
  {
    store.GetOr(DefaultConfig)
  }

  /** `cfg.get("search", {}).get("engines", [])`. */
  function GetEngines(cfg: Config): (engines: seq<Engine>)
    ensures cfg.search.Some? && cfg.search.value.engines.Some? ==> engines == cfg.search.value.engines.value
    ensures cfg.search.None? || cfg.search.value.engines.None? ==> engines == []
  {
    match cfg.search
    case None => []
    case Some(search) => search.engines.GetOr([])
  }

  /** The active engine name, `search.engine`, if set. */
  function Active(cfg: Config): Option<string> {
    match cfg.search
    case None => None
    case Some(search) => search.engine
  }

  /** The legacy `search.url` field, if set. */
  function LegacyUrl(cfg: Config): Option<string> {
    match cfg.search
    case None => None
    case Some(search) => search.url
  }

  /** With no stored document, the engine list is empty and the legacy URL is kept. */
  lemma DefaultHasNoEngines()
    ensures GetEngines(LoadConfig(None)) == []
    ensures Active(LoadConfig(None)) == Some("google")
    ensures LegacyUrl(LoadConfig(None)) == Some("https://www.google.com/search?q=")
  {
  }

  /** Saving what was loaded and loading again gives the same document and
      the same engine list, whether or not a file existed before. */
  lemma SaveLoadRoundTrip(store: Option<Config>)
    ensures LoadConfig(Some(LoadConfig(store))) == LoadConfig(store)
    ensures GetEngines(LoadConfig(Some(LoadConfig(store)))) == GetEngines(LoadConfig(store))
  {
  }
}
