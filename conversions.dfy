/**
 * The pure parts of the controller: country-code normalisation done by the
 * constructor, the wire-to-engine event translation done by `search`, the
 * response builder and the available-countries listing. Each is an
 * order-preserving, element-wise map; each is paired here with its inverse.
 */
module Conversions {
  import opened KnnTypes

  // ---------------------------------------------------------------------
  // Country codes (`String::to_uppercase`, ASCII letters only)
  // ---------------------------------------------------------------------

  predicate IsLowerAscii(c: char) { 'a' <= c <= 'z' }

  function UpperChar(c: char): (u: char)
    ensures !IsLowerAscii(u)
    ensures IsLowerAscii(c) ==> u as int == c as int - 32
    ensures !IsLowerAscii(c) ==> u == c
  {
    if IsLowerAscii(c) then (c as int - 32) as char else c
  }

  /** The upper-cased copy of a string. */
  function Upper(s: string): (r: string)
    ensures |r| == |s|
    ensures forall k :: 0 <= k < |s| ==> r[k] == UpperChar(s[k])
  {
    if s == [] then [] else [UpperChar(s[0])] + Upper(s[1..])
  }

  /** A country code as stored: no lower-case ASCII letter in it. */
  predicate IsUpperCase(s: string) {
    forall k :: 0 <= k < |s| ==> !IsLowerAscii(s[k])
  }

  /** Upper-casing gives an upper-case code and leaves upper-case codes alone. */
  lemma UpperNormalises(s: string)
    ensures IsUpperCase(Upper(s))
    ensures IsUpperCase(s) <==> Upper(s) == s
    ensures Upper(Upper(s)) == Upper(s)
  {
  }

  /**
   * `countries.into_iter().map(|c| c.to_uppercase()).collect()` into a
   * `HashSet<String>`: the set of upper-cased configured codes. So any
   * casing `x` of a code is stored as `Upper(x)` exactly when some
   * configured code has that upper-case form.
   */
  function NormalizeCountries(cs: seq<string>): (r: set<string>)
    ensures forall i :: 0 <= i < |cs| ==> Upper(cs[i]) in r
    ensures forall c :: c in r ==> exists i :: 0 <= i < |cs| && Upper(cs[i]) == c
  {
    if cs == [] then {} else {Upper(cs[0])} + NormalizeCountries(cs[1..])
  }

  /** Every stored code is upper-case, whatever the case of the input. */
  lemma NormalizedCodesAreUpper(cs: seq<string>, c: string)
    requires c in NormalizeCountries(cs)
    ensures IsUpperCase(c) && Upper(c) == c
  {
    var i :| 0 <= i < |cs| && Upper(cs[i]) == c;
    UpperNormalises(cs[i]);
  }

  /** The set never holds more codes than were configured. */
  lemma {:induction false} NormalizeCountriesBound(cs: seq<string>)
    ensures |NormalizeCountries(cs)| <= |cs|
  {
    if cs != [] {
      NormalizeCountriesBound(cs[1..]);
    }
  }

  /** Two configured codes that differ only in case collapse to one entry. */
  lemma {:induction false} CaseVariantsCollapse(cs: seq<string>, i: nat, j: nat)
    requires i < j < |cs|
    requires Upper(cs[i]) == Upper(cs[j])
    ensures |NormalizeCountries(cs)| < |cs|
  {
    var tail := NormalizeCountries(cs[1..]);
    assert NormalizeCountries(cs) == {Upper(cs[0])} + tail;
    if i == 0 {
      assert cs[1..][j - 1] == cs[j];
      assert Upper(cs[0]) in tail;
      assert NormalizeCountries(cs) == tail;
      NormalizeCountriesBound(cs[1..]);
    } else {
      assert cs[1..][i - 1] == cs[i] && cs[1..][j - 1] == cs[j];
      CaseVariantsCollapse(cs[1..], i - 1, j - 1);
      assert |NormalizeCountries(cs)| <= |tail| + 1;
    }
  }

  // ---------------------------------------------------------------------
  // Timestamps (`event.timestamp as u64` and its inverse `as i64`)
  // ---------------------------------------------------------------------

  /** Rust's `i64 as u64`: the same 64 bits read as unsigned. */
  function AsU64(t: I64): (u: U64)
    ensures (u as int - t as int) % TWO_64 == 0
    ensures t >= 0 <==> u as int < TWO_63
  {
    if t >= 0 then t as int as U64 else (t as int + TWO_64) as U64
  }

  /** Rust's `u64 as i64`: the same 64 bits read as signed. */
  function AsI64(u: U64): (t: I64)
    ensures (u as int - t as int) % TWO_64 == 0
    ensures t >= 0 <==> u as int < TWO_63
  {
    if u as int < TWO_63 then u as int as I64 else (u as int - TWO_64) as I64
  }

  /** The cast loses nothing: it is a bijection between `i64` and `u64`. */
  lemma CastsAreInverse(t: I64, u: U64)
    ensures AsI64(AsU64(t)) == t
    ensures AsU64(AsI64(u)) == u
  {
  }

  /** Non-negative timestamps keep their value and order; negative ones land above all of them. */
  lemma AsU64Order(s: I64, t: I64)
    ensures s >= 0 ==> AsU64(s) as int == s as int
    ensures 0 <= s <= t ==> AsU64(s) <= AsU64(t)
    ensures s < 0 <= t ==> AsU64(t) < AsU64(s)
  {
  }

  // ---------------------------------------------------------------------
  // Event translation (the `request.user_events.iter().map(..)` in `search`)
  // ---------------------------------------------------------------------

  function TranslateEvent(e: WireEvent): (u: UserEvent)
    ensures u.index == e.partnerId && u.itemLabel == e.productId && u.eventType == e.eventType
    ensures u.timestamp == AsU64(e.timestamp)
  {
    UserEvent(e.partnerId, e.productId, AsU64(e.timestamp), e.eventType)
  }

  /** The wire event an engine event came from. */
  function WireEventOf(u: UserEvent): (e: WireEvent)
    ensures TranslateEvent(e) == u
  {
    CastsAreInverse(0, u.timestamp);
    WireEvent(u.index, u.itemLabel, AsI64(u.timestamp), u.eventType)
  }

  function TranslateEvents(es: seq<WireEvent>): (us: seq<UserEvent>)
    ensures |us| == |es|
    ensures forall k :: 0 <= k < |es| ==> us[k] == TranslateEvent(es[k])
  {
    if es == [] then [] else [TranslateEvent(es[0])] + TranslateEvents(es[1..])
  }

  function WireEventsOf(us: seq<UserEvent>): (es: seq<WireEvent>)
  {
    if us == [] then [] else [WireEventOf(us[0])] + WireEventsOf(us[1..])
  }

  /** Translation keeps every event, in order: it can be undone. */
  lemma {:induction false} TranslateEventsRoundTrip(es: seq<WireEvent>)
    ensures WireEventsOf(TranslateEvents(es)) == es
  {
    if es != [] {
      TranslateEventsRoundTrip(es[1..]);
      CastsAreInverse(es[0].timestamp, 0);
    }
  }

  /** Every sequence of engine events is the translation of some wire events. */
  lemma {:induction false} TranslateEventsOnto(us: seq<UserEvent>)
    ensures TranslateEvents(WireEventsOf(us)) == us
  {
    if us != [] {
      TranslateEventsOnto(us[1..]);
    }
  }

  // ---------------------------------------------------------------------
  // Response builder (`KnnController::build_response`)
  // ---------------------------------------------------------------------

  /** One result pair as a product: id and score copied, reserved fields zero. */
  function ProductOf(item: (I64, F32)): (p: Product)
    ensures p.productId == item.0 && p.score == item.1
    ensures p.dotproduct == ZERO_F32 && p.squaredL2Norm == ZERO_F32
  {
    Product(item.0, item.1, ZERO_F32, ZERO_F32)
  }

  function Products(items: ClosestItems): (ps: seq<Product>)
    ensures |ps| == |items|
    ensures forall k :: 0 <= k < |items| ==> ps[k].productId == items[k].0 && ps[k].score == items[k].1
    ensures forall k :: 0 <= k < |items| ==> ps[k].dotproduct == ZERO_F32 && ps[k].squaredL2Norm == ZERO_F32
  {
    if items == [] then [] else [ProductOf(items[0])] + Products(items[1..])
  }

  /**
   * One product per engine result, in the engine's order, with the two
   * reserved score components always zero.
   */
  function BuildResponse(items: ClosestItems): (r: KnnResponse)
    ensures |r.products| == |items|
    ensures forall k :: 0 <= k < |items| ==> r.products[k].productId == items[k].0 && r.products[k].score == items[k].1
    ensures ReservedFieldsZero(r)
  {
    KnnResponse(Products(items))
  }

  predicate ReservedFieldsZero(r: KnnResponse) {
    forall k :: 0 <= k < |r.products| ==> r.products[k].dotproduct == ZERO_F32 && r.products[k].squaredL2Norm == ZERO_F32
  }

  /** The `(product_id, score)` pairs a response carries. */
  function ScoredPairs(ps: seq<Product>): (items: ClosestItems)
  {
    if ps == [] then [] else [(ps[0].productId, ps[0].score)] + ScoredPairs(ps[1..])
  }

  /** The builder neither drops, adds nor reorders results. */
  lemma {:induction false} BuildResponseRoundTrip(items: ClosestItems)
    ensures ScoredPairs(BuildResponse(items).products) == items
  {
    if items != [] {
      BuildResponseRoundTrip(items[1..]);
    }
  }

  /** Every response whose reserved fields are zero is the one built from its pairs. */
  lemma {:induction false} BuildResponseOnto(r: KnnResponse)
    requires ReservedFieldsZero(r)
    ensures BuildResponse(ScoredPairs(r.products)) == r
    decreases |r.products|
  {
    if r.products != [] {
      var rest := KnnResponse(r.products[1..]);
      assert ReservedFieldsZero(rest) by {
        forall k | 0 <= k < |rest.products| ensures rest.products[k] == r.products[k + 1] { }
      }
      BuildResponseOnto(rest);
    }
  }

  // ---------------------------------------------------------------------
  // Available countries (`get_available_countries`)
  // ---------------------------------------------------------------------

  function CountryInfos(names: seq<string>): (infos: seq<CountryInfo>)
    ensures |infos| == |names|
    ensures forall k :: 0 <= k < |names| ==> infos[k].name == names[k]
  {
    if names == [] then [] else [CountryInfo(names[0])] + CountryInfos(names[1..])
  }
}
