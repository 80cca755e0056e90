# KNN controller model

A Dafny model of `KnnController`, the gRPC service of onlineknnrs that sends
each nearest-neighbour search to the shard of the requested country. The
model covers what the controller itself does:

- the constructor upper-cases the configured country codes into a set;
- `load` walks the configured countries, loading each one's shard into the
  registry (`KnnByCountry`), and stops at the first failure;
- `search` counts the request, starts the latency timer, looks up the shard
  of the request's country, translates the wire events for the engine, calls
  the shard and builds the response, stopping the timer on each of its three
  exits (success, engine error, unknown country);
- the event translator (`timestamp as u64`) and the response builder (two
  reserved score fields always zero) are order-preserving element-wise maps,
  each proved invertible;
- `get_available_countries` lists one record per registry country; the other
  three endpoints always answer Unimplemented;
- `TimeHandle` / `LatencyHistogram`: a timer that reads the sink's clock when
  started and records one `(start, end)` sample when stopped.

The engine is abstract. A shard (`Shard`) carries its `get_closest_items`
capability as a function value; the engine's per-country `load` is a
function parameter (`Loader`). Engine calls are observed through two ghost
logs of `KnnController` (`loadLog`, `searchLog`), so that "no country after
the first failure is tried" and "an unknown country never reaches the
engine" are stated as postconditions.

Files: `wrappers.dfy` (Result type), `knn_types.dfy` (wire and engine
types, `i64`/`u64`, `f32` as a bit pattern), `conversions.dfy` (the pure
maps and their lemmas), `latency.dfy` (the timer), `controller.dfy` (the
load and search specifications, the endpoints and the `KnnController`
class).

### Behaviour of the code worth noting

- Loading is fail-fast: collecting the lazily mapped `Result<(), Error>`
  values stops at the first error, and the countries after it are never
  tried. `Controller.FailFastSkipsLaterCountries` shows that such a country
  stays unloaded even when its own load would succeed.
- The controller does not upper-case the request's country before the
  lookup. It passes the string unchanged to `get_service`, and this model
  looks it up by exact key.
- A negative wire timestamp is not rejected or clamped. `as u64` wraps it to
  `t + 2^64`.

## Model

| member | source | states |
|---|---|---|
| Conversions.Upper | service/src/knn_controller.rs:68 | upper-casing keeps the length and maps each character, lower-case ASCII letters to their capitals, every other character to itself |
| Conversions.UpperNormalises | service/src/knn_controller.rs:68 | an upper-cased code has no lower-case letter; upper-casing is idempotent and leaves exactly the upper-case codes unchanged |
| Conversions.NormalizeCountries | service/src/knn_controller.rs:68 | the stored set contains the upper-cased form of every configured code and nothing else |
| Conversions.NormalizedCodesAreUpper | service/src/knn_controller.rs:68 | every stored code is upper-case and a fixed point of upper-casing |
| Conversions.NormalizeCountriesBound | service/src/knn_controller.rs:68 | the set never holds more codes than were configured |
| Conversions.CaseVariantsCollapse | service/src/knn_controller.rs:68 | two configured codes that differ only in case become one entry, so the set is strictly smaller than the list |
| Conversions.AsU64 | service/src/knn_controller.rs:121 | `as u64` keeps the value modulo 2^64 and puts exactly the negative timestamps at or above 2^63 |
| Conversions.AsI64 | service/src/knn_controller.rs:121 | the reverse reinterpretation `as i64`, congruent modulo 2^64, non-negative exactly below 2^63 |
| Conversions.CastsAreInverse | service/src/knn_controller.rs:121 | the two casts undo each other, so no timestamp is lost by the translation |
| Conversions.AsU64Order | service/src/knn_controller.rs:121 | non-negative timestamps keep their value and order; a negative one wraps above every non-negative one |
| Conversions.TranslateEvent | service/src/knn_controller.rs:121 | partner id, product id and event type are copied; the timestamp is its `as u64` cast |
| Conversions.WireEventOf | service/src/knn_controller.rs:121 | every engine event is the translation of some wire event |
| Conversions.TranslateEvents | service/src/knn_controller.rs:120-122 | one engine event per wire event, same length and order, each the translation of its wire event |
| Conversions.TranslateEventsRoundTrip | service/src/knn_controller.rs:120-122 | the translation of a request's events can be undone exactly |
| Conversions.TranslateEventsOnto | service/src/knn_controller.rs:120-122 | every engine event sequence is the translation of a wire sequence |
| Conversions.ProductOf | service/src/knn_controller.rs:97-104 | the closure turns one result pair into a product with the same id and score and both reserved fields zero |
| Conversions.Products | service/src/knn_controller.rs:97-104 | one product per result pair, in order, id and score copied, dotproduct and squared L2 norm zero |
| Conversions.BuildResponse | service/src/knn_controller.rs:95-106 | the response has one product per engine result, in the engine's order, with the reserved fields zero |
| Conversions.BuildResponseRoundTrip | service/src/knn_controller.rs:95-106 | the (id, score) pairs of a built response are exactly the engine's results: nothing dropped, added or reordered |
| Conversions.BuildResponseOnto | service/src/knn_controller.rs:95-106 | every response whose reserved fields are zero is the one built from its own pairs |
| Conversions.CountryInfos | service/src/knn_controller.rs:155-159 | one CountryInfo per listed country, named after it, in the same order |
| Latency.Start | service/src/knn_controller.rs:25-32 | a started handle holds the clock reading at its start and the histogram it reports to |
| Latency.Stop | service/src/knn_controller.rs:34-37 | stopping appends exactly one `(start, now)` sample, keeps every sample well formed and leaves the clock alone |
| Latency.LatencyHistogram.constructor | service/src/knn_controller.rs:41-45 | a new histogram has no sample and reads its sink's clock |
| Latency.LatencyHistogram.Record | service/src/knn_controller.rs:47-49 | `record` starts a handle on this histogram at the current clock reading |
| Controller.LoadAll | service/src/knn_controller.rs:81-92 | the fail-fast load over an iteration order: it tries no more countries than the order holds, and all of them when it returns Ok; LoadAllShape, LoadAllSucceeds, LoadAllStopsAtFirstFailure and LoadAllOkIff characterise it |
| Controller.LoadAllShape | service/src/knn_controller.rs:81-92 | the load tries a prefix of the iteration order, all of it on success; a failure is the error of the last country tried; only countries of the order gain a shard |
| Controller.LoadAllSucceeds | service/src/knn_controller.rs:81-92 | when every country loads, the load returns Ok, tries every country and installs every shard |
| Controller.LoadAllStopsAtFirstFailure | service/src/knn_controller.rs:81-92 | the first failing country's error is returned, the countries before it are installed, and no country after it is tried |
| Controller.LoadAllOkIff | service/src/knn_controller.rs:81-92 | the load returns Ok exactly when every configured country loads |
| Controller.InstalledKeys | service/src/knn_controller.rs:83-88 | after installing the countries of an order, the registry's keys are the old keys plus exactly the countries whose load succeeds |
| Controller.InstalledContents | service/src/knn_controller.rs:83-88 | each key then holds the shard its own load returned when it is a country of the order that loads, and its old shard otherwise |
| Controller.FailFastSkipsLaterCountries | service/src/knn_controller.rs:81-92 | a country after the first failure stays unloaded even when its own load would succeed, whereas installing every country that loads would include it |
| Controller.AskShard | service/src/knn_controller.rs:120-127 | the shard's `get_closest_items` is asked with the translated events, the request's index id and result count, and the controller's model |
| Controller.SearchOutcome | service/src/knn_controller.rs:118-143 | NotFound exactly when the country has no shard; Internal with the engine's error exactly when the shard fails; otherwise the response built from the shard's results; never Unimplemented |
| Controller.SearchResponseIsEngineResult | service/src/knn_controller.rs:129-134 | a successful search answers with the shard's results in the shard's order, reserved fields zero |
| Controller.MultiSearch | service/src/knn_controller.rs:145-150 | always Unimplemented, never a success |
| Controller.GetIndicesForCountry | service/src/knn_controller.rs:165-170 | always Unimplemented, never a success |
| Controller.GetIndexedProducts | service/src/knn_controller.rs:171-176 | always Unimplemented, never a success |
| Controller.GetAvailableCountries | service/src/knn_controller.rs:151-164 | always a success with one record per listed country, named after it, in the listed order |
| Controller.KnnController.AvailableCountries | service/src/knn_controller.rs:155-163 | over the registry's listing, a name is in the answer exactly when that country has a shard |
| Controller.KnnController.constructor | service/src/knn_controller.rs:61-72 | the configured codes are stored upper-cased, no shard is loaded, the counter is zero and the histogram is empty |
| Controller.KnnController.Load | service/src/knn_controller.rs:74-93 | the returned result, the new registry and the countries handed to the engine are those of the fail-fast load over the iteration order; only configured countries gain a shard; nothing else changes |
| Controller.KnnController.Search | service/src/knn_controller.rs:110-144 | the answer is the search outcome; the counter grows by one and exactly one `(start, end)` sample with `start <= end` is recorded on every path; the engine is called once with the translated events when the country has a shard and never otherwise; the registry is unchanged |

## Left out

- The engine (`hnsw_rs`): `KnnByCountry::load`, `get_service`, `get_closest_items`, `get_countries` and `Model` are not part of this model. Loading is a function parameter. A successful load is assumed to install the shard under the country code it was given, and a failed one to leave the registry as it was. A shard's search is a function value stored in the shard.
- `get_service` is modelled as an exact-key lookup. Whether the engine normalises the case of its argument is not visible.
- `get_countries` is a parameter. `KnnController.AvailableCountries` requires it to list each country of the registry once.
- `to_uppercase` is modelled for ASCII letters only. Unicode case mappings such as `ß` to `SS` are not modelled.
- Transport: tonic's `Request`/`Response` wrappers, `async` and the text of each `Status` message. Only the error kind is kept, and Internal carries the engine's error value rather than its string.
- The request and response messages of `get_indices_for_country` and `get_indexed_products` are abstract types, because their fields are never read.
- `result_count as usize`: the wire width of `result_count` is not shown, so it is a `nat` passed through unchanged. The index identifier is an abstract type.
- Scores (`f32`) are IEEE-754 bit patterns that are only copied. `0f32` is the all-zero pattern. No floating-point arithmetic is modelled.
- Metrics libraries: the `request.count` marker is an integer counter starting at zero. The sink's clock is an integer advanced by the environment (`LatencyHistogram.Tick`). `Search` takes the time that passes while a request is served as a parameter.
- Latency.Stop: `stop(self)` consumes its handle, so Rust rules out a second stop. Dafny has no move semantics, so this is not modelled; `Search`'s postcondition states that exactly one sample is recorded per call.
- The index, extra-item and model paths of `load` (`AsRef<Path>`) are folded into the loader function. `Model::clone` is passing the same model value.
- Logging (`info!`, `error!`, `debug!`).
- Concurrent request handling and reload synchronisation. Requests are modelled one call at a time.
