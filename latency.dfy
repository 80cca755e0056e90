/**
 * The scoped request timer: `LatencyHistogram` owns a metrics sink (its
 * clock) and a histogram; a `TimeHandle` remembers when it was started and,
 * when stopped, records one `(start, end)` sample.
 */
module Latency {

  /** A started timer (`TimeHandle`): the clock reading at its start and the histogram it reports to. */
  datatype TimeHandle = TimeHandle(start: int, histo: LatencyHistogram)

  class LatencyHistogram {
    /** The sink's monotone clock (`Sink::now`). */
    var clock: int
    /** The `(start, end)` timings recorded so far (`Histogram::record_timing`). */
    var samples: seq<(int, int)>

    /** Every sample was taken from this clock: it starts no later than it ends, and both are past readings. */
    ghost predicate Valid()
      reads this
    {
      forall k :: 0 <= k < |samples| ==> samples[k].0 <= samples[k].1 <= clock
    }

    /** `LatencyHistogram::new` over a fresh sink whose clock reads `now`. */
    constructor (now: int)
      ensures Valid() && clock == now && samples == []
    {
      clock := now;
      samples := [];
    }

    /** Time passes: the environment advances the sink's clock. */
    method Tick(elapsed: nat)
      requires Valid()
      modifies this
      ensures Valid()
      ensures clock == old(clock) + elapsed && samples == old(samples)
    {
      clock := clock + elapsed;
    }

    /** `LatencyHistogram::record`: start a timer on this histogram. */
    method Record() returns (h: TimeHandle)
      ensures h.start == clock && h.histo == this
    {
      h := Start(this);
    }
  }

  /** `TimeHandle::start`: read the clock once. */
  method Start(histo: LatencyHistogram) returns (h: TimeHandle)
    ensures h.start == histo.clock && h.histo == histo
  {
    h := TimeHandle(histo.clock, histo);
  }

  /** `TimeHandle::stop`: read the clock again and record exactly one sample. */
  method Stop(h: TimeHandle)
    requires h.histo.Valid() && h.start <= h.histo.clock
    modifies h.histo
    ensures h.histo.Valid() && h.histo.clock == old(h.histo.clock)
    ensures h.histo.samples == old(h.histo.samples) + [(h.start, old(h.histo.clock))]
  {
    var end := h.histo.clock;
    h.histo.samples := h.histo.samples + [(h.start, end)];
  }
}
