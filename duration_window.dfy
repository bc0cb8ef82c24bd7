/** The pass-duration windows of the renderers: a `std::deque<std::uint64_t>`
    that the timestamp-readback callback appends one duration to, dropping
    its front entry once it holds more than 30, and whose mean the
    renderers report (src/pt/reference_path_tracer.cpp:674-699,
    src/pt/renderer.cpp:893-945, src/pt/deferred_renderer.cpp:440-465 and
    2132-2153). */
module DurationWindows {
  import opened Geometry

  /** The most entries a window keeps. */
  const WINDOW_SIZE: nat := 30

  /** `end - begin` on `std::uint64_t` timestamps: wraps when the end
      timestamp is the smaller one. */
  function Delta(begin: U64, end: U64): (d: U64)
    ensures (begin + d) % U64_LIMIT == end
    ensures begin <= end ==> d == end - begin
  {
    (end - begin) % U64_LIMIT
  }

  /** `push_back(d)`, then `pop_front()` when the deque holds more than
      30 entries: the window grows by one entry until it holds 30. */
  function Pushed(window: seq<U64>, d: U64): (w: seq<U64>)
    ensures |window| < WINDOW_SIZE ==> |w| == |window| + 1
    ensures |window| >= WINDOW_SIZE ==> |w| == |window|
  {
    var pushed := window + [d];
    if |pushed| > WINDOW_SIZE then pushed[1..] else pushed
  }

  /** The recorded window ends with the new duration, after the newest
      entries of the old window. */
  lemma PushedKeepsNewest(window: seq<U64>, d: U64)
    ensures var w := Pushed(window, d);
            && 0 < |w| && w[|w| - 1] == d
            && w[..|w| - 1] == window[|window| + 1 - |w|..]
  {
    var pushed := window + [d];
    assert pushed[..|window|] == window;
  }

  /** The last `WINDOW_SIZE` entries of `ds`, or all of them when there are
      fewer. */
  function MostRecent(ds: seq<U64>): (w: seq<U64>)
    ensures |w| <= WINDOW_SIZE
  {
    if |ds| <= WINDOW_SIZE then ds else ds[|ds| - WINDOW_SIZE..]
  }

  /** The window after the durations `ds` are recorded one by one. */
  function PushAll(window: seq<U64>, ds: seq<U64>): seq<U64> {
    if |ds| == 0 then window else Pushed(PushAll(window, ds[..|ds| - 1]), ds[|ds| - 1])
  }

  /** A window that starts empty holds exactly the 30 most recent
      durations, oldest first. */
  lemma {:induction false} WindowKeepsMostRecent(ds: seq<U64>)
    ensures PushAll([], ds) == MostRecent(ds)
  {
    if |ds| > 0 {
      var n := |ds| - 1;
      var front, d := ds[..n], ds[n];
      WindowKeepsMostRecent(front);
      var prev := PushAll([], front);
      assert PushAll([], ds) == Pushed(prev, d);
      if n < WINDOW_SIZE {
        SuffixSnoc(ds, 0);
      } else {
        PushedFull(prev, d);
        assert prev[1..] == front[n - WINDOW_SIZE + 1..];
        SuffixSnoc(ds, n - WINDOW_SIZE + 1);
      }
    }
  }

  /** A suffix of a non-empty sequence is the same suffix of all but its
      last entry, then that entry. */
  lemma SuffixSnoc(xs: seq<U64>, k: nat)
    requires k < |xs|
    ensures xs[..|xs| - 1][k..] + [xs[|xs| - 1]] == xs[k..]
  {
  }

  /** Recording into a full window drops its oldest entry. */
  lemma PushedFull(window: seq<U64>, d: U64)
    requires |window| == WINDOW_SIZE
    ensures Pushed(window, d) == window[1..] + [d]
  {
    assert (window + [d])[1..] == window[1..] + [d];
  }

  /** The sum of the durations, as `std::accumulate` over `std::uint64_t`
      computes it: modulo 2^64. */
  function Sum(ds: seq<U64>): nat {
    if |ds| == 0 then 0 else Sum(ds[..|ds| - 1]) + ds[|ds| - 1]
  }

  /** The reported mean: the literal `0.0f` for an empty window, otherwise
      the accumulated sum divided by the entry count. The conversion to
      milliseconds and the float division are not modelled. */
  datatype Average = NoDurations | Mean(sumNs: nat, count: nat)

  /** `averageRenderpassDurationMs` and its siblings. */
  function AverageOf(window: seq<U64>): (a: Average)
    ensures a.NoDurations? <==> |window| == 0
    ensures a.Mean? ==> a.count == |window| && a.sumNs < U64_LIMIT
  {
    if |window| == 0 then NoDurations else Mean(Sum(window) % U64_LIMIT, |window|)
  }

  /** Durations each below `b` sum to at most `b` per entry. */
  lemma {:induction false} SumBounded(ds: seq<U64>, b: nat)
    requires forall i :: 0 <= i < |ds| ==> ds[i] < b
    ensures Sum(ds) <= b * |ds|
  {
    if |ds| > 0 {
      var n := |ds| - 1;
      SumBounded(ds[..n], b);
      assert b * |ds| == b * n + b;
    }
  }

  /** A window of at most 30 durations below 2^59 ns each sums without
      wrapping: the mean's sum is the exact total. */
  lemma SumFits(window: seq<U64>)
    requires |window| <= WINDOW_SIZE
    requires forall i :: 0 <= i < |window| ==> window[i] < 0x800_0000_0000_0000
    ensures Sum(window) < U64_LIMIT
    ensures AverageOf(window).Mean? ==> AverageOf(window).sumNs == Sum(window)
  {
    SumBounded(window, 0x800_0000_0000_0000);
    assert 0x800_0000_0000_0000 * |window| <= 0x800_0000_0000_0000 * WINDOW_SIZE;
  }
}
