/**
 * `KnnController`: the gRPC service that routes each nearest-neighbour
 * search to the shard of the requested country. The shard registry
 * (`KnnByCountry`) is a map from country code to shard; loading a country and
 * searching a shard are oracles of the engine, passed in as function values.
 */
module Controller {
  import opened Wrappers
  import opened KnnTypes
  import opened Conversions
  import opened Latency

  /** The engine's `KnnByCountry::load` for one country, with the index paths fixed. */
  type Loader = string -> Result<Shard, EngineError>

  /** A call the controller made to `get_closest_items`. */
  datatype SearchCall = SearchCall(shard: string, events: seq<UserEvent>, indexId: IndexId, resultCount: nat)

  /** `xs` lists each element of `s` exactly once (an iteration order of a `HashSet`). */
  predicate Enumerates(xs: seq<string>, s: set<string>) {
    && (forall i, j :: 0 <= i < j < |xs| ==> xs[i] != xs[j])
    && (forall x :: x in xs ==> x in s)
    && (forall x :: x in s ==> x in xs)
  }

  // ---------------------------------------------------------------------
  // Bulk load, as a function of the registry and the iteration order
  // ---------------------------------------------------------------------

  /** What a bulk load returns, the registry it leaves and the countries it tried, in order. */
  datatype LoadRun = LoadRun(result: Result<(), EngineError>, registry: map<string, Shard>, attempted: seq<string>)

  /**
   * `load`: try each country in turn; collecting the lazily mapped
   * `Result<(), Error>`s stops at the first error, so no later country is tried.
   */
  function LoadAll(reg: map<string, Shard>, order: seq<string>, loader: Loader): (run: LoadRun)
    ensures |run.attempted| <= |order|
    ensures run.result.Success? ==> |run.attempted| == |order|
    decreases |order|
  {
    if order == [] then LoadRun(Success(()), reg, [])
    else
      match loader(order[0])
      case Failure(e) => LoadRun(Failure(e), reg, [order[0]])
      case Success(shard) =>
        var rest := LoadAll(reg[order[0] := shard], order[1..], loader);
        LoadRun(rest.result, rest.registry, [order[0]] + rest.attempted)
  }

  /**
   * Whatever the outcome, the load tries a prefix of the order, all of it on
   * success; a failure is the error of the last country tried; and only
   * countries of the order gain a shard.
   */
  lemma {:induction false} LoadAllShape(reg: map<string, Shard>, order: seq<string>, loader: Loader)
    ensures var run := LoadAll(reg, order, loader);
      && run.attempted <= order
      && (run.result.Success? ==> run.attempted == order)
      && (run.result.Failure? ==>
            run.attempted != [] && loader(run.attempted[|run.attempted| - 1]) == Failure(run.result.error))
      && run.registry.Keys <= reg.Keys + set c | c in order
    decreases |order|
  {
    if order != [] {
      match loader(order[0])
      case Failure(_) =>
      case Success(shard) =>
        var rest := LoadAll(reg[order[0] := shard], order[1..], loader);
        LoadAllShape(reg[order[0] := shard], order[1..], loader);
        assert [order[0]] + order[1..] == order;
        if rest.result.Failure? {
          assert ([order[0]] + rest.attempted)[|rest.attempted|] == rest.attempted[|rest.attempted| - 1];
        }
    }
  }

  /** A run preceded by the countries that were loaded before it. */
  function After(done: seq<string>, run: LoadRun): LoadRun {
    LoadRun(run.result, run.registry, done + run.attempted)
  }

  /** Prefixing twice is prefixing once with both. */
  lemma AfterAfter(done: seq<string>, c: string, run: LoadRun)
    ensures After(done, After([c], run)) == After(done + [c], run)
  {
  }

  /** One step of the load: the next country either stops it or installs its shard and goes on. */
  lemma LoadAllStep(reg: map<string, Shard>, order: seq<string>, i: nat, loader: Loader)
    requires i < |order|
    ensures loader(order[i]).Failure? ==>
      LoadAll(reg, order[i..], loader) == LoadRun(Failure(loader(order[i]).error), reg, [order[i]])
    ensures loader(order[i]).Success? ==>
      LoadAll(reg, order[i..], loader) == After([order[i]], LoadAll(reg[order[i] := loader(order[i]).value], order[i + 1..], loader))
  {
  }

  /** The registry after installing every country of `order` that loads; failures are skipped. */
  function Installed(reg: map<string, Shard>, order: seq<string>, loader: Loader): map<string, Shard>
    decreases |order|
  {
    if order == [] then reg
    else
      match loader(order[0])
      case Failure(_) => Installed(reg, order[1..], loader)
      case Success(shard) => Installed(reg[order[0] := shard], order[1..], loader)
  }

  /** When every country loads, the load succeeds, tries them all and installs them all. */
  lemma {:induction false} LoadAllSucceeds(reg: map<string, Shard>, order: seq<string>, loader: Loader)
    requires forall i :: 0 <= i < |order| ==> loader(order[i]).Success?
    ensures LoadAll(reg, order, loader) == LoadRun(Success(()), Installed(reg, order, loader), order)
    decreases |order|
  {
    if order != [] {
      LoadAllSucceeds(reg[order[0] := loader(order[0]).value], order[1..], loader);
    }
  }

  /**
   * Fail-fast: the first failing country's error is returned, the countries
   * before it are installed, and nothing after it is tried.
   */
  lemma {:induction false} LoadAllStopsAtFirstFailure(reg: map<string, Shard>, order: seq<string>, loader: Loader, k: nat)
    requires k < |order| && loader(order[k]).Failure?
    requires forall i :: 0 <= i < k ==> loader(order[i]).Success?
    ensures LoadAll(reg, order, loader) == LoadRun(Failure(loader(order[k]).error), Installed(reg, order[..k], loader), order[..k + 1])
    decreases k
  {
    if k > 0 {
      assert order[1..][k - 1] == order[k];
      assert order[1..][..k - 1] == order[..k][1..];
      assert order[1..][..k] == order[..k + 1][1..];
      LoadAllStopsAtFirstFailure(reg[order[0] := loader(order[0]).value], order[1..], loader, k - 1);
    }
  }

  /** The load reports success exactly when every configured country loads. */
  lemma {:induction false} LoadAllOkIff(reg: map<string, Shard>, order: seq<string>, loader: Loader)
    ensures LoadAll(reg, order, loader).result.Success? <==> forall i :: 0 <= i < |order| ==> loader(order[i]).Success?
    decreases |order|
  {
    if order != [] {
      match loader(order[0])
      case Failure(_) =>
      case Success(shard) =>
        LoadAllOkIff(reg[order[0] := shard], order[1..], loader);
        assert forall i :: 1 <= i < |order| ==> order[i] == order[1..][i - 1];
    }
  }

  /** The countries `Installed` adds are exactly those of `order` that load. */
  lemma {:induction false} InstalledKeys(reg: map<string, Shard>, order: seq<string>, loader: Loader)
    ensures Installed(reg, order, loader).Keys == reg.Keys + set c | c in order && loader(c).Success?
    decreases |order|
  {
    if order != [] {
      match loader(order[0])
      case Failure(_) =>
        InstalledKeys(reg, order[1..], loader);
      case Success(shard) =>
        InstalledKeys(reg[order[0] := shard], order[1..], loader);
    }
  }

  /**
   * Which shard each key holds after `Installed`: the shard its own load
   * returned for a country of `order` that loads, the old shard otherwise.
   */
  lemma {:induction false} InstalledContents(reg: map<string, Shard>, order: seq<string>, loader: Loader, c: string)
    requires forall i, j :: 0 <= i < j < |order| ==> order[i] != order[j]
    requires c in Installed(reg, order, loader)
    ensures c in order && loader(c).Success? ==> Installed(reg, order, loader)[c] == loader(c).value
    ensures !(c in order && loader(c).Success?) ==> c in reg && Installed(reg, order, loader)[c] == reg[c]
    decreases |order|
  {
    InstalledKeys(reg, order, loader);
    if order != [] {
      var tail := order[1..];
      assert forall i, j :: 0 <= i < j < |tail| ==> tail[i] != tail[j] by {
        forall i, j | 0 <= i < j < |tail| ensures tail[i] != tail[j] {
          assert tail[i] == order[i + 1] && tail[j] == order[j + 1];
        }
      }
      assert order[0] !in tail by {
        forall i | 0 <= i < |tail| ensures tail[i] != order[0] {
          assert tail[i] == order[i + 1];
        }
      }
      assert forall x :: x in order <==> x == order[0] || x in tail by {
        assert order == [order[0]] + tail;
      }
      match loader(order[0])
      case Failure(_) =>
        InstalledContents(reg, tail, loader, c);
      case Success(shard) =>
        var reg' := reg[order[0] := shard];
        InstalledKeys(reg', tail, loader);
        InstalledContents(reg', tail, loader, c);
    }
  }

  /**
   * Fail-fast loading: a country after the first failure is left unloaded
   * even when its own load would succeed.
   */
  lemma FailFastSkipsLaterCountries(reg: map<string, Shard>, order: seq<string>, loader: Loader, k: nat, m: nat)
    requires k < m < |order| && order[m] !in reg
    requires forall i, j :: 0 <= i < j < |order| ==> order[i] != order[j]
    requires loader(order[k]).Failure? && forall i :: 0 <= i < k ==> loader(order[i]).Success?
    requires loader(order[m]).Success?
    ensures order[m] !in LoadAll(reg, order, loader).registry
    ensures order[m] in Installed(reg, order, loader)
  {
    LoadAllStopsAtFirstFailure(reg, order, loader, k);
    InstalledKeys(reg, order[..k], loader);
    InstalledKeys(reg, order, loader);
  }

  // ---------------------------------------------------------------------
  // Search, as a function of the registry and the request
  // ---------------------------------------------------------------------

  /** The answer the shard's `get_closest_items` gives for a request. */
  function AskShard(shard: Shard, model: Model, request: KnnRequest): Result<ClosestItems, EngineError> {
    shard.closestItems(TranslateEvents(request.userEvents), request.indexId, request.resultCount, model)
  }

  /**
   * The outcome of `search`: NotFound for a country without a shard,
   * Internal for an engine failure, otherwise the response built from the
   * engine's results.
   */
  function SearchOutcome(registry: map<string, Shard>, model: Model, request: KnnRequest): (r: Result<KnnResponse, Status>)
    ensures r == Failure(NotFound) <==> request.country !in registry
    ensures r.Failure? && r.error.Internal? <==>
      request.country in registry && AskShard(registry[request.country], model, request).Failure?
    ensures r.Failure? && r.error.Internal? ==> r.error.cause == AskShard(registry[request.country], model, request).error
    ensures r.Success? ==>
      request.country in registry && AskShard(registry[request.country], model, request).Success? &&
      r.value == BuildResponse(AskShard(registry[request.country], model, request).value)
    ensures r != Failure(Unimplemented)
  {
    if request.country in registry then
      match AskShard(registry[request.country], model, request)
      case Success(items) => Success(BuildResponse(items))
      case Failure(e) => Failure(Internal(e))
    else
      Failure(NotFound)
  }

  /** A successful search answers with the engine's results, in its order, reserved fields zero. */
  lemma SearchResponseIsEngineResult(registry: map<string, Shard>, model: Model, request: KnnRequest)
    requires SearchOutcome(registry, model, request).Success?
    ensures var items := AskShard(registry[request.country], model, request).value;
      ScoredPairs(SearchOutcome(registry, model, request).value.products) == items &&
      ReservedFieldsZero(SearchOutcome(registry, model, request).value)
  {
    BuildResponseRoundTrip(AskShard(registry[request.country], model, request).value);
  }

  // ---------------------------------------------------------------------
  // The endpoints without state
  // ---------------------------------------------------------------------

  /** `multi_search` is not implemented: never a success. */
  function MultiSearch(request: KnnRequest): (r: Result<KnnResponse, Status>)
    ensures r.Failure? && r.error.Unimplemented?
  {
    Failure(Unimplemented)
  }

  /** The request and response of `get_indices_for_country`; their fields are not used. */
  type IndicesRequest
  type IndicesResponse

  /** `get_indices_for_country` is not implemented: never a success. */
  function GetIndicesForCountry(request: IndicesRequest): (r: Result<IndicesResponse, Status>)
    ensures r.Failure? && r.error.Unimplemented?
  {
    Failure(Unimplemented)
  }

  /** The request and response of `get_indexed_products`; their fields are not used. */
  type IndexedProductsRequest
  type IndexedProductsResponse

  /** `get_indexed_products` is not implemented: never a success. */
  function GetIndexedProducts(request: IndexedProductsRequest): (r: Result<IndexedProductsResponse, Status>)
    ensures r.Failure? && r.error.Unimplemented?
  {
    Failure(Unimplemented)
  }

  /**
   * `get_available_countries`, given the engine's `get_countries()` list:
   * one record per listed country, named after it, in the same order.
   */
  function GetAvailableCountries(listed: seq<string>): (r: Result<AvailableCountriesResponse, Status>)
    ensures r.Success?
    ensures |r.value.countries| == |listed|
    ensures forall k :: 0 <= k < |listed| ==> r.value.countries[k].name == listed[k]
  {
    Success(AvailableCountriesResponse(CountryInfos(listed)))
  }

  // ---------------------------------------------------------------------
  // The controller object
  // ---------------------------------------------------------------------

  class KnnController {
    /** The configured country codes, upper-cased. */
    var countries: set<string>
    /** `knn_country`: the shard loaded for each country. */
    var registry: map<string, Shard>
    /** The `request.count` marker. */
    var requestCount: int
    /** The `request.latency` timer. */
    const latency: LatencyHistogram
    /** The scoring model handed to every search. */
    const model: Model
    /** The countries handed to the engine's `load`, in call order. */
    ghost var loadLog: seq<string>
    /** The calls made to a shard's `get_closest_items`, in call order. */
    ghost var searchLog: seq<SearchCall>

    /**
     * Configured codes are upper-case, only configured countries ever have a
     * shard, and every latency sample is well formed.
     */
    ghost predicate Valid()
      reads this, latency
    {
      && latency.Valid()
      && (forall c :: c in countries ==> IsUpperCase(c))
      && registry.Keys <= countries
    }

    /** `KnnController::new`: upper-case the configured codes; no shard is loaded yet. */
    constructor (countryList: seq<string>, model: Model, now: int)
      ensures Valid()
      ensures countries == NormalizeCountries(countryList)
      ensures registry == map[] && requestCount == 0
      ensures fresh(latency) && latency.clock == now && latency.samples == []
      ensures this.model == model && loadLog == [] && searchLog == []
    {
      var normalized := NormalizeCountries(countryList);
      forall c | c in normalized ensures IsUpperCase(c) {
        NormalizedCodesAreUpper(countryList, c);
      }
      countries := normalized;
      registry := map[];
      requestCount := 0;
      latency := new LatencyHistogram(now);
      this.model := model;
      loadLog := [];
      searchLog := [];
    }

    /**
     * `load`: walk the configured countries in `order` (the set's iteration
     * order), install each shard that loads, and stop at the first failure.
     */
    method Load(order: seq<string>, loader: Loader) returns (r: Result<(), EngineError>)
      requires Valid() && Enumerates(order, countries)
      modifies this
      ensures Valid()
      ensures var run := LoadAll(old(registry), order, loader);
        r == run.result && registry == run.registry && loadLog == old(loadLog) + run.attempted
      ensures countries == old(countries) && requestCount == old(requestCount) && searchLog == old(searchLog)
    {
      ghost var reg0, log0 := registry, loadLog;
      var i := 0;
      while i < |order|
        invariant 0 <= i <= |order|
        invariant Valid()
        invariant loadLog == log0 + order[..i]
        invariant LoadAll(reg0, order, loader) == After(order[..i], LoadAll(registry, order[i..], loader))
        invariant countries == old(countries) && requestCount == old(requestCount) && searchLog == old(searchLog)
      {
        var c := order[i];
        LoadAllStep(registry, order, i, loader);
        loadLog := loadLog + [c];
        assert order[..i + 1] == order[..i] + [c];
        match loader(c)
        case Failure(e) =>
          return Failure(e);
        case Success(shard) =>
          AfterAfter(order[..i], c, LoadAll(registry[c := shard], order[i + 1..], loader));
          registry := registry[c := shard];
          i := i + 1;
      }
      assert order[i..] == [];
      r := Success(());
    }

    /**
     * `search`: count the request, start the timer, route to the country's
     * shard and stop the timer on each of the three exits. `elapsed` is how
     * far the sink's clock advances while the request is served.
     */
    method Search(request: KnnRequest, elapsed: nat) returns (r: Result<KnnResponse, Status>)
      requires Valid()
      modifies this, latency
      ensures Valid()
      ensures r == SearchOutcome(registry, model, request)
      ensures requestCount == old(requestCount) + 1
      ensures latency.clock == old(latency.clock) + elapsed
      ensures latency.samples == old(latency.samples) + [(old(latency.clock), old(latency.clock) + elapsed)]
      ensures searchLog == old(searchLog) +
        if request.country in registry
        then [SearchCall(request.country, TranslateEvents(request.userEvents), request.indexId, request.resultCount)]
        else []
      ensures registry == old(registry) && countries == old(countries) && loadLog == old(loadLog)
    {
      requestCount := requestCount + 1;
      var handle := latency.Record();
      latency.Tick(elapsed);
      if request.country in registry {
        var shard := registry[request.country];
        var events := TranslateEvents(request.userEvents);
        searchLog := searchLog + [SearchCall(request.country, events, request.indexId, request.resultCount)];
        var result := shard.closestItems(events, request.indexId, request.resultCount, model);
        match result
        case Success(items) =>
          var response := BuildResponse(items);
          Stop(handle);
          r := Success(response);
        case Failure(e) =>
          Stop(handle);
          r := Failure(Internal(e));
      } else {
        Stop(handle);
        r := Failure(NotFound);
      }
    }

    /** `get_available_countries` over the registry: one record per loaded country, in `listed` order. */
    function AvailableCountries(listed: seq<string>): (r: Result<AvailableCountriesResponse, Status>)
      reads this
      requires Enumerates(listed, registry.Keys)
      ensures r.Success?
      ensures forall name :: name in registry <==> exists k :: 0 <= k < |r.value.countries| && r.value.countries[k].name == name
    {
      GetAvailableCountries(listed)
    }
  }
}
