/**
 * The data crossing the controller's two boundaries: the gRPC messages of the
 * `knn` service (wire side) and the types of the nearest-neighbour engine it
 * calls (engine side). The engine itself is not modelled; its error, its
 * scoring model and the identifier of an index stay abstract.
 */
module KnnTypes {
  import opened Wrappers

  const TWO_63: int := 0x8000_0000_0000_0000
  const TWO_64: int := 0x1_0000_0000_0000_0000

  /** Rust's `i64`. */
  newtype I64 = x: int | -TWO_63 <= x < TWO_63

  /** Rust's `u64`. */
  newtype U64 = x: int | 0 <= x < TWO_64

  /**
   * Rust's `f32`, carried as its IEEE-754 bit pattern. The controller never
   * computes with scores; it only copies them or writes `0f32`.
   */
  type F32 = bv32

  /** The bit pattern of `0f32`. */
  const ZERO_F32: F32 := 0

  /** The engine's error (`failure::Error`); its text is not modelled. */
  type EngineError

  /** The engine's scoring configuration (`hnsw_rs::knnservice::Model`). */
  type Model

  /** The identifier of an index inside a country's shard. */
  type IndexId

  /** A user interaction event as it arrives on the wire (`knn::UserEvent`). */
  datatype WireEvent = WireEvent(partnerId: int, productId: I64, timestamp: I64, eventType: int)

  /** A search request (`knn::KnnRequest`). */
  datatype KnnRequest = KnnRequest(country: string, userEvents: seq<WireEvent>, indexId: IndexId, resultCount: nat)

  /** One scored product of a response (`knn::Product`). */
  datatype Product = Product(productId: I64, score: F32, dotproduct: F32, squaredL2Norm: F32)

  /** A search response (`knn::KnnResponse`). */
  datatype KnnResponse = KnnResponse(products: seq<Product>)

  /** One entry of the available-countries listing (`knn::CountryInfo`). */
  datatype CountryInfo = CountryInfo(name: string)

  datatype AvailableCountriesResponse = AvailableCountriesResponse(countries: seq<CountryInfo>)

  /** The engine's view of an event (`hnsw_rs::embedding_computer::UserEvent`). */
  datatype UserEvent = UserEvent(index: int, itemLabel: I64, timestamp: U64, eventType: int)

  /** The ranked `(label, score)` pairs a shard returns. */
  type ClosestItems = seq<(I64, F32)>

  /**
   * A loaded country shard (`knn_service` returned by `get_service`). Its
   * search capability `get_closest_items` is an oracle of the engine.
   */
  datatype Shard = Shard(closestItems: (seq<UserEvent>, IndexId, nat, Model) -> Result<ClosestItems, EngineError>)

  /** The kind of a gRPC `Status` the controller returns; message texts are not modelled. */
  datatype Status = NotFound | Internal(cause: EngineError) | Unimplemented
}
