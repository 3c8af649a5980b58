/** The search-engine registry kept in the `search.engines` list of the
    configuration document, and the HTTP handlers over it. Names are
    compared case-insensitively everywhere except when choosing the active
    engine, which needs an exact match. */
module Registry {
  import opened Optional
  import opened Text
  import opened Settings

  /** Result of the helpers that either save a new document or raise. */
  datatype Outcome = Saved(config: Config) | Raised(message: string)

  /** The JSON body of a reply. */
  datatype Body = Status(status: string) | Error(error: string)

  /** An HTTP status code, the reply body, and the stored document after the request. */
  datatype Reply = Reply(code: int, body: Body, store: Option<Config>)

  /** Some engine's name equals `name` up to case. */
  predicate HasName(engines: seq<Engine>, name: string) {
    exists i | 0 <= i < |engines| :: FoldEq(engines[i].name, name)
  }

  /** Some engine's name equals `name` exactly. */
  predicate HasExactName(engines: seq<Engine>, name: string) {
    exists i | 0 <= i < |engines| :: engines[i].name == name
  }

  /** No two engines share a name up to case. */
  predicate UniqueNames(engines: seq<Engine>) {
    forall i, j | 0 <= i < j < |engines| :: !FoldEq(engines[i].name, engines[j].name)
  }

  /** `b` can be turned into `a` by deleting elements. */
  ghost predicate IsSubsequence<T>(a: seq<T>, b: seq<T>)
    decreases |b|
  {
    if |b| == 0 then |a| == 0
    else (|a| > 0 && a[0] == b[0] && IsSubsequence(a[1..], b[1..])) || IsSubsequence(a, b[1..])
  }

  /** Position of the first engine whose name equals `name` up to case. */
  function FindName(engines: seq<Engine>, name: string): (r: Option<nat>)
    ensures r.Some? ==> r.value < |engines| && FoldEq(engines[r.value].name, name)
    ensures r.Some? ==> forall j | 0 <= j < r.value :: !FoldEq(engines[j].name, name)
    ensures r.None? <==> !HasName(engines, name)
    decreases |engines|
  {
    if |engines| == 0 then None
    else if FoldEq(engines[0].name, name) then Some(0)
    else
      match FindName(engines[1..], name)
      case None =>
        assert forall j | 1 <= j < |engines| :: engines[j] == engines[1..][j - 1];
        None
      case Some(k) => Some(k + 1)
  }

  /** The number of engines whose name equals `name` up to case. */
  function CountMatches(engines: seq<Engine>, name: string): (n: nat)
    ensures n <= |engines|
    ensures n == 0 <==> !HasName(engines, name)
    decreases |engines|
  {
    if |engines| == 0 then 0
    else
      var rest := CountMatches(engines[1..], name);
      assert forall j | 1 <= j < |engines| :: engines[j] == engines[1..][j - 1];
      (if FoldEq(engines[0].name, name) then 1 else 0) + rest
  }

  /** The engines whose name differs from `name` up to case, in their original order. */
  function Unmatched(engines: seq<Engine>, name: string): (r: seq<Engine>)
    ensures |r| + CountMatches(engines, name) == |engines|
    ensures forall k | 0 <= k < |r| :: !FoldEq(r[k].name, name)
    ensures !HasName(engines, name) ==> r == engines
    decreases |engines|
  {
    if |engines| == 0 then []
    else
      var rest := Unmatched(engines[1..], name);
      assert forall j | 1 <= j < |engines| :: engines[j] == engines[1..][j - 1];
      assert engines == [engines[0]] + engines[1..];
      if FoldEq(engines[0].name, name) then rest else [engines[0]] + rest
  }

  /** Every engine the filter keeps comes from the input. */
  lemma {:induction false} FilterKeepsOnlyInputs(engines: seq<Engine>, name: string)
    ensures forall k | 0 <= k < |Unmatched(engines, name)| :: Unmatched(engines, name)[k] in engines
    decreases |engines|
  {
    if |engines| > 0 {
      FilterKeepsOnlyInputs(engines[1..], name);
      var rest := Unmatched(engines[1..], name);
      assert forall k | 0 <= k < |rest| :: rest[k] in engines[1..];
      assert forall e | e in engines[1..] :: e in engines;
    }
  }

  /** Every engine whose name differs up to case survives the filter. */
  lemma {:induction false} FilterKeepsOthers(engines: seq<Engine>, name: string)
    ensures forall i | 0 <= i < |engines| && !FoldEq(engines[i].name, name) :: engines[i] in Unmatched(engines, name)
    decreases |engines|
  {
    if |engines| > 0 {
      FilterKeepsOthers(engines[1..], name);
      assert forall i | 1 <= i < |engines| :: engines[i] == engines[1..][i - 1];
    }
  }

  /** The filter keeps the original relative order. */
  lemma {:induction false} FilterKeepsOrder(engines: seq<Engine>, name: string)
    ensures IsSubsequence(Unmatched(engines, name), engines)
    decreases |engines|
  {
    if |engines| > 0 {
      FilterKeepsOrder(engines[1..], name);
      var rest := Unmatched(engines[1..], name);
      if !FoldEq(engines[0].name, name) {
        assert ([engines[0]] + rest)[1..] == rest;
      }
    }
  }

  /** Dropping the first engine keeps names unique. */
  lemma UniqueTail(engines: seq<Engine>)
    requires |engines| > 0 && UniqueNames(engines)
    ensures UniqueNames(engines[1..])
  {
    var tail := engines[1..];
    forall i, j | 0 <= i < j < |tail|
      ensures !FoldEq(tail[i].name, tail[j].name)
    {
      assert tail[i] == engines[i + 1] && tail[j] == engines[j + 1];
    }
  }

  /** An engine whose name clashes with none of a unique list can be put in front of it. */
  lemma UniqueCons(e: Engine, rest: seq<Engine>)
    requires UniqueNames(rest)
    requires forall k | 0 <= k < |rest| :: !FoldEq(e.name, rest[k].name)
    ensures UniqueNames([e] + rest)
  {
    var r := [e] + rest;
    forall i, j | 0 <= i < j < |r|
      ensures !FoldEq(r[i].name, r[j].name)
    {
      assert r[j] == rest[j - 1];
      if i > 0 {
        assert r[i] == rest[i - 1];
      }
    }
  }

  /** In a unique list, the first name clashes with no later element. */
  lemma HeadDistinct(engines: seq<Engine>, e: Engine)
    requires |engines| > 0 && UniqueNames(engines)
    requires e in engines[1..]
    ensures !FoldEq(engines[0].name, e.name)
  {
    var k :| 0 <= k < |engines| - 1 && engines[1..][k] == e;
    assert engines[k + 1] == e;
  }

  /** Filtering out a name never creates a case-insensitive clash. */
  lemma {:induction false} FilterKeepsUnique(engines: seq<Engine>, name: string)
    requires UniqueNames(engines)
    ensures UniqueNames(Unmatched(engines, name))
    decreases |engines|
  {
    if |engines| > 0 {
      var tail := engines[1..];
      UniqueTail(engines);
      FilterKeepsUnique(tail, name);
      var rest := Unmatched(tail, name);
      FilterKeepsOnlyInputs(tail, name);
      if !FoldEq(engines[0].name, name) {
        forall k | 0 <= k < |rest|
          ensures !FoldEq(engines[0].name, rest[k].name)
        {
          HeadDistinct(engines, rest[k]);
        }
        UniqueCons(engines[0], rest);
      }
    }
  }

  /** `add_engine`: refuse a name already present up to case, otherwise
      append the new entry, creating `search` and `search.engines` when
      they are missing. */
  function AddEngine(store: Option<Config>, name: string, url: string, logo: string): (r: Outcome)
    ensures r.Raised? <==> HasName(GetEngines(LoadConfig(store)), name)
    ensures r.Raised? ==> r.message == "Engine already exists"
    ensures r.Saved? ==>
      var before := GetEngines(LoadConfig(store));
      var after := GetEngines(r.config);
      && |after| == |before| + 1
      && after[..|before|] == before
      && after[|before|] == Engine(name, url, logo)
    ensures r.Saved? ==> Active(r.config) == Active(LoadConfig(store))
    ensures r.Saved? ==> LegacyUrl(r.config) == LegacyUrl(LoadConfig(store))
    ensures r.Saved? && UniqueNames(GetEngines(LoadConfig(store))) ==> UniqueNames(GetEngines(r.config))
  {
    var cfg := LoadConfig(store);
    var search := cfg.search.GetOr(Search(None, None, None));
    var engines := search.engines.GetOr([]);
    if HasName(engines, name) then Raised("Engine already exists")
    else
      var after := engines + [Engine(name, url, logo)];
      assert forall i | 0 <= i < |engines| :: after[i] == engines[i];
      Saved(Config(Some(search.(engines := Some(after)))))
  }

  /** `update_engine`: patch the first engine matching `name` up to case,
      setting url and logo only from truthy arguments. */
  function UpdateEngine(store: Option<Config>, name: string, url: Option<string>, logo: Option<string>): (r: Outcome)
    ensures r.Raised? <==> !HasName(GetEngines(LoadConfig(store)), name)
    ensures r.Raised? ==> r.message == "Engine not found"
    ensures r.Saved? ==>
      var before := GetEngines(LoadConfig(store));
      var after := GetEngines(r.config);
      var i := FindName(before, name).value;
      && |after| == |before|
      && FoldEq(before[i].name, name)
      && (forall j | 0 <= j < i :: !FoldEq(before[j].name, name))
      && after[i].name == before[i].name
      && after[i].url == (if Truthy(url) then url.value else before[i].url)
      && after[i].logo == (if Truthy(logo) then logo.value else before[i].logo)
      && (forall j | 0 <= j < |before| && j != i :: after[j] == before[j])
    ensures r.Saved? ==> Active(r.config) == Active(LoadConfig(store))
    ensures r.Saved? ==> LegacyUrl(r.config) == LegacyUrl(LoadConfig(store))
    ensures r.Saved? && UniqueNames(GetEngines(LoadConfig(store))) ==> UniqueNames(GetEngines(r.config))
  {
    var cfg := LoadConfig(store);
    var engines := GetEngines(cfg);
    match FindName(engines, name)
    case None => Raised("Engine not found")
    case Some(i) =>
      var e := engines[i];
      var patched := e.(url := if Truthy(url) then url.value else e.url,
                        logo := if Truthy(logo) then logo.value else e.logo);
      Saved(cfg.(search := Some(cfg.search.value.(engines := Some(engines[i := patched])))))
  }

  /** `remove_engine`: drop every engine matching `name` up to case. It
      raises KeyError('search') when the document has no `search` section,
      and it leaves `search.engine` as it was. */
  function RemoveEngine(store: Option<Config>, name: string): (r: Outcome)
    ensures r.Raised? <==> LoadConfig(store).search.None?
    ensures r.Raised? ==> r.message == "'search'"
    ensures r.Saved? ==> r.config.search.Some? && r.config.search.value.engines.Some?
    ensures r.Saved? ==>
      var before := GetEngines(LoadConfig(store));
      var after := GetEngines(r.config);
      && (forall k | 0 <= k < |after| :: !FoldEq(after[k].name, name))
      && (forall i | 0 <= i < |before| && !FoldEq(before[i].name, name) :: before[i] in after)
      && |after| == |before| - CountMatches(before, name)
      && IsSubsequence(after, before)
    ensures r.Saved? ==> Active(r.config) == Active(LoadConfig(store))
    ensures r.Saved? ==> LegacyUrl(r.config) == LegacyUrl(LoadConfig(store))
  {
    var cfg := LoadConfig(store);
    var engines := GetEngines(cfg);
    FilterKeepsOrder(engines, name);
    FilterKeepsOthers(engines, name);
    match cfg.search
    case None => Raised("'search'")
    case Some(search) => Saved(cfg.(search := Some(search.(engines := Some(Unmatched(engines, name))))))
  }

  /** Removing twice is the same as removing once. */
  lemma RemoveEngineIdempotent(store: Option<Config>, name: string)
    requires RemoveEngine(store, name).Saved?
    ensures RemoveEngine(Some(RemoveEngine(store, name).config), name) == RemoveEngine(store, name)
  {
  }

  /** Removing a name that is absent keeps the engine list; when the
      document already holds a list it is stored back unchanged. */
  lemma RemoveAbsentKeepsEngines(store: Option<Config>, name: string)
    requires LoadConfig(store).search.Some?
    requires !HasName(GetEngines(LoadConfig(store)), name)
    ensures GetEngines(RemoveEngine(store, name).config) == GetEngines(LoadConfig(store))
    ensures store.Some? && store.value.search.value.engines.Some? ==> RemoveEngine(store, name).config == store.value
  {
  }

  /** Removal keeps names unique up to case. */
  lemma RemoveEngineKeepsUnique(store: Option<Config>, name: string)
    requires UniqueNames(GetEngines(LoadConfig(store)))
    requires RemoveEngine(store, name).Saved?
    ensures UniqueNames(GetEngines(RemoveEngine(store, name).config))
  {
    FilterKeepsUnique(GetEngines(LoadConfig(store)), name);
  }

  /** The active engine survives its own removal: the list no longer holds
      it but `search.engine` still names it. */
  lemma RemoveActiveLeavesDanglingName()
    ensures var store := Some(Config(Some(Search(Some("Bing"), None, Some([Engine("Bing", "https://b.com/?q=", "b.png")])))));
      var r := RemoveEngine(store, "bing");
      r.Saved? && Active(r.config) == Some("Bing") && GetEngines(r.config) == []
  {
  }

  /** DELETE /config/engines/<name>. */
  function DeleteEngine(store: Option<Config>, name: string): (r: Reply)
    ensures r.code == 200 <==> LoadConfig(store).search.Some?
    ensures r.code != 200 ==> r.code == 400 && r.body == Error("'search'") && r.store == store
    ensures r.code == 200 ==> r.body == Status("ok") && r.store == Some(RemoveEngine(store, name).config)
    ensures r.code == 200 ==> !HasName(GetEngines(LoadConfig(r.store)), name)
    ensures r.code == 200 ==> Active(LoadConfig(r.store)) == Active(LoadConfig(store))
    ensures UniqueNames(GetEngines(LoadConfig(store))) ==> UniqueNames(GetEngines(LoadConfig(r.store)))
  {
    match RemoveEngine(store, name)
    case Saved(cfg) =>
      assert UniqueNames(GetEngines(LoadConfig(store))) ==> UniqueNames(GetEngines(cfg)) by {
        if UniqueNames(GetEngines(LoadConfig(store))) {
          RemoveEngineKeepsUnique(store, name);
        }
      }
      Reply(200, Status("ok"), Some(cfg))
    case Raised(message) => Reply(400, Error(message), store)
  }

  /** A second DELETE of the same name also succeeds and stores the same document. */
  lemma DeleteEngineTwice(store: Option<Config>, name: string)
    requires DeleteEngine(store, name).code == 200
    ensures var once := DeleteEngine(store, name);
      var twice := DeleteEngine(once.store, name);
      twice.code == 200 && twice.store == once.store
  {
    RemoveEngineIdempotent(store, name);
  }

  /** All three request fields are present and non-empty. */
  function AllFields(name: Option<string>, url: Option<string>, logo: Option<string>): (r: bool)
    ensures r <==> forall k | 0 <= k < 3 :: Truthy([name, url, logo][k])
    ensures !r <==> name == None || name == Some("") || url == None || url == Some("") || logo == None || logo == Some("")
  {
    assert [name, url, logo][0] == name && [name, url, logo][1] == url && [name, url, logo][2] == logo;
    Truthy(name) && Truthy(url) && Truthy(logo)
  }

  /** POST /config/engines, as written: the branch for an existing name
      edits a list that is then discarded and saves a fresh reload, so the
      stored document stays as it was; a new name is appended. */
  function AddUpdateEngine(store: Option<Config>, name: Option<string>, url: Option<string>, logo: Option<string>): (r: Reply)
    ensures r.code == 400 <==> !AllFields(name, url, logo)
    ensures r.code == 400 ==> r.body == Error("Missing fields") && r.store == store
    ensures r.code != 400 ==> r.code == 200 && r.body == Status("ok")
    ensures AllFields(name, url, logo) && HasName(GetEngines(LoadConfig(store)), name.value) ==> r.store == store
    ensures AllFields(name, url, logo) && !HasName(GetEngines(LoadConfig(store)), name.value) ==>
      var before := GetEngines(LoadConfig(store));
      var after := GetEngines(LoadConfig(r.store));
      && |after| == |before| + 1
      && after[..|before|] == before
      && after[|before|] == Engine(name.value, url.value, logo.value)
    ensures Active(LoadConfig(r.store)) == Active(LoadConfig(store))
    ensures LegacyUrl(LoadConfig(r.store)) == LegacyUrl(LoadConfig(store))
    ensures UniqueNames(GetEngines(LoadConfig(store))) ==> UniqueNames(GetEngines(LoadConfig(r.store)))
  {
    if !AllFields(name, url, logo) then Reply(400, Error("Missing fields"), store)
    else if HasName(GetEngines(LoadConfig(store)), name.value) then
      Reply(200, Status("ok"), Some(LoadConfig(store)))
    else
      match AddEngine(store, name.value, url.value, logo.value)
      case Saved(cfg) => Reply(200, Status("ok"), Some(cfg))
      case Raised(message) => Reply(400, Error(message), store)
  }

  /** The existing-name branch loses the new url and logo. */
  lemma AddUpdateEngineLosesUpdate()
    ensures var store := Some(Config(Some(Search(Some("google"), None, Some([Engine("Google", "https://g.com/?q=", "g.png")])))));
      var r := AddUpdateEngine(store, Some("google"), Some("https://g2.com/?q="), Some("g2.png"));
      r.code == 200 && GetEngines(LoadConfig(r.store)) == [Engine("Google", "https://g.com/?q=", "g.png")]
  {
    var engines := [Engine("Google", "https://g.com/?q=", "g.png")];
    assert FoldEq(engines[0].name, "google") by {
      assert Lower("Google") == "google";
      assert Lower("google") == "google";
    }
  }

  /** POST /config/engines, corrected: an existing name (up to case) has
      its url and logo replaced in place, keeping its position and stored
      name; a new name is appended. */
  function UpsertEngine(store: Option<Config>, name: Option<string>, url: Option<string>, logo: Option<string>): (r: Reply)
    ensures r.code == 400 <==> !AllFields(name, url, logo)
    ensures r.code == 400 ==> r.body == Error("Missing fields") && r.store == store
    ensures r.code != 400 ==> r.code == 200 && r.body == Status("ok")
    ensures AllFields(name, url, logo) && HasName(GetEngines(LoadConfig(store)), name.value) ==>
      var before := GetEngines(LoadConfig(store));
      var after := GetEngines(LoadConfig(r.store));
      var i := FindName(before, name.value).value;
      && |after| == |before|
      && after[i] == Engine(before[i].name, url.value, logo.value)
      && (forall j | 0 <= j < |before| && j != i :: after[j] == before[j])
    ensures AllFields(name, url, logo) && !HasName(GetEngines(LoadConfig(store)), name.value) ==>
      var before := GetEngines(LoadConfig(store));
      var after := GetEngines(LoadConfig(r.store));
      && |after| == |before| + 1
      && after[..|before|] == before
      && after[|before|] == Engine(name.value, url.value, logo.value)
    ensures Active(LoadConfig(r.store)) == Active(LoadConfig(store))
    ensures LegacyUrl(LoadConfig(r.store)) == LegacyUrl(LoadConfig(store))
    ensures UniqueNames(GetEngines(LoadConfig(store))) ==> UniqueNames(GetEngines(LoadConfig(r.store)))
  {
    if !AllFields(name, url, logo) then Reply(400, Error("Missing fields"), store)
    else if HasName(GetEngines(LoadConfig(store)), name.value) then
      match UpdateEngine(store, name.value, url, logo)
      case Saved(cfg) => Reply(200, Status("ok"), Some(cfg))
      case Raised(message) => Reply(400, Error(message), store)
    else
      match AddEngine(store, name.value, url.value, logo.value)
      case Saved(cfg) => Reply(200, Status("ok"), Some(cfg))
      case Raised(message) => Reply(400, Error(message), store)
  }

  /** An upsert after an upsert of the same name up to case keeps one engine with the new url. */
  lemma UpsertEngineUpdatesInPlace()
    ensures var first := UpsertEngine(None, Some("Google"), Some("https://g.com/?q="), Some("g.png"));
      var second := UpsertEngine(first.store, Some("google"), Some("https://g2.com/?q="), Some("g2.png"));
      && GetEngines(LoadConfig(first.store)) == [Engine("Google", "https://g.com/?q=", "g.png")]
      && GetEngines(LoadConfig(second.store)) == [Engine("Google", "https://g2.com/?q=", "g2.png")]
  {
  }

  /** POST /config/active: the requested name must equal an engine's name
      exactly, with no case folding; only `search.engine` changes. */
  function SetActiveEngine(store: Option<Config>, engine: Option<string>): (r: Reply)
    ensures r.code == 200 <==> engine.Some? && HasExactName(GetEngines(LoadConfig(store)), engine.value)
    ensures r.code != 200 ==> r.code == 400 && r.body == Error("Engine not found") && r.store == store
    ensures r.code == 200 ==>
      && r.body == Status("ok")
      && r.store.Some?
      && Active(r.store.value) == engine
      && GetEngines(r.store.value) == GetEngines(LoadConfig(store))
      && LegacyUrl(r.store.value) == LegacyUrl(LoadConfig(store))
  {
    var cfg := LoadConfig(store);
    var engines := GetEngines(cfg);
    if engine.Some? && HasExactName(engines, engine.value) then
      Reply(200, Status("ok"), Some(cfg.(search := Some(cfg.search.value.(engine := engine)))))
    else
      Reply(400, Error("Engine not found"), store)
  }

  /** Activation does not fold case, unlike add and remove. */
  lemma SetActiveEngineIsCaseSensitive()
    ensures var store := Some(Config(Some(Search(None, None, Some([Engine("Google", "https://g.com/?q=", "g.png")])))));
      && SetActiveEngine(store, Some("google")).code == 400
      && SetActiveEngine(store, Some("Google")).code == 200
  {
    assert [Engine("Google", "https://g.com/?q=", "g.png")][0].name == "Google";
  }

  /** A request to the registry routes. */
  datatype Request =
    | PostEngine(name: Option<string>, url: Option<string>, logo: Option<string>)
    | DeleteByName(engineName: string)
    | PostActive(engine: Option<string>)

  function Handle(store: Option<Config>, request: Request): (r: Reply)
    ensures UniqueNames(GetEngines(LoadConfig(store))) ==> UniqueNames(GetEngines(LoadConfig(r.store)))
  {
    match request
    case PostEngine(name, url, logo) => AddUpdateEngine(store, name, url, logo)
    case DeleteByName(name) => DeleteEngine(store, name)
    case PostActive(engine) => SetActiveEngine(store, engine)
  }

  /** The stored document after a sequence of requests. */
  function Run(store: Option<Config>, requests: seq<Request>): Option<Config>
    decreases |requests|
  {
    if |requests| == 0 then store else Run(Handle(store, requests[0]).store, requests[1..])
  }

  /** No sequence of registry requests makes two engine names clash up to case. */
  lemma {:induction false} RunKeepsUniqueNames(store: Option<Config>, requests: seq<Request>)
    requires UniqueNames(GetEngines(LoadConfig(store)))
    ensures UniqueNames(GetEngines(LoadConfig(Run(store, requests))))
    decreases |requests|
  {
    if |requests| > 0 {
      RunKeepsUniqueNames(Handle(store, requests[0]).store, requests[1..]);
    }
  }
}
