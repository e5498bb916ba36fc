/**
 * The progress-speed estimator of the orchestrator (Uploader.step): a
 * cursor over the previous sample and a sliding window of the most recent
 * instantaneous speeds, whose rounded mean is published as the average.
 * Speeds are real numbers; JavaScript's floating point is not modelled.
 */
module SpeedMeter {

  /** How many instantaneous speeds the window keeps (`slice(-5)`). */
  const WindowSize: nat := 5

  /**
   * The estimator's fields of the orchestrator: bytes and time of the
   * previous sample, the path being measured, the window and its average.
   */
  datatype Meter = Meter(
    lastTransferred: int,
    lastProcessTime: int,
    currentUploadingPath: string,
    history: seq<real>,
    average: int)

  /** The values the orchestrator starts with and returns to when a batch finishes. */
  const Initial := Meter(0, 0, "", [], 0)

  function Min(a: int, b: int): int { if a <= b then a else b }

  /** `h.slice(-5)`: the last five entries, or all of them when there are fewer. */
  function Window(h: seq<real>): (r: seq<real>)
    ensures |r| == Min(|h|, WindowSize)
    ensures r == h[|h| - |r|..]
  {
    if |h| <= WindowSize then h else h[|h| - WindowSize..]
  }

  /** `reduce((pre, cur) => pre + cur, 0)`, folding from the left. */
  function Sum(h: seq<real>): (r: real)
    ensures (forall k :: 0 <= k < |h| ==> h[k] >= 0.0) ==> r >= 0.0
  {
    if h == [] then 0.0 else Sum(h[..|h| - 1]) + h[|h| - 1]
  }

  /** `sum / length`, the value `Math.round` is applied to. */
  function Mean(h: seq<real>): (r: real)
    requires h != []
    ensures (forall k :: 0 <= k < |h| ==> h[k] >= 0.0) ==> r >= 0.0
  {
    Sum(h) / (|h| as real)
  }

  /** `Math.round`: the nearest integer, halves rounded upwards. */
  function Round(x: real): (n: int)
    ensures x - 0.5 < n as real <= x + 0.5
  {
    (x + 0.5).Floor
  }

  /** Bytes per second: `delta / (elapsedMs / 1000)`. */
  function Speed(delta: int, elapsedMs: int): (v: real)
    requires elapsedMs > 0
    ensures v * (elapsedMs as real / 1000.0) == delta as real
  {
    delta as real / (elapsedMs as real / 1000.0)
  }

  /**
   * The bytes a sample counts: the growth since the previous sample while
   * the same file is measured, the whole count once the path has changed.
   */
  function Delta(m: Meter, path: string, transferred: int): (d: int)
    ensures m.currentUploadingPath == "" || m.currentUploadingPath == path ==> m.lastTransferred + d == transferred
    ensures m.currentUploadingPath != "" && m.currentUploadingPath != path ==> d == transferred
  {
    if m.currentUploadingPath == "" || m.currentUploadingPath == path then transferred - m.lastTransferred
    else transferred
  }

  /** The window and average are consistent: five entries at most, average their rounded mean. */
  predicate WellFormed(m: Meter) {
    && m.lastProcessTime >= 0
    && |m.history| <= WindowSize
    && m.average == (if m.history == [] then 0 else Round(Mean(m.history)))
  }

  /**
   * One call of step with `transferred` bytes for the item at `path`, at
   * clock time `now` (milliseconds). The first sample of a session only
   * sets the cursor.
   */
  function Sample(m: Meter, path: string, transferred: int, now: int): (r: Meter)
    requires m.lastProcessTime > 0 ==> now > m.lastProcessTime
    ensures r.lastTransferred == transferred && r.lastProcessTime == now
    ensures m.lastProcessTime <= 0 ==> r.history == m.history && r.average == m.average
    ensures m.lastProcessTime <= 0 ==>
      r.currentUploadingPath == (if m.currentUploadingPath == "" then path else m.currentUploadingPath)
    ensures m.lastProcessTime > 0 ==>
      && r.currentUploadingPath == path
      && r.history == Window(m.history + [Speed(Delta(m, path, transferred), now - m.lastProcessTime)])
      && r.average == Round(Mean(r.history))
  {
    var current := if m.currentUploadingPath == "" then path else m.currentUploadingPath;
    if m.lastProcessTime > 0 then
      var delta := if current == path then transferred - m.lastTransferred else transferred;
      var history := Window(m.history + [Speed(delta, now - m.lastProcessTime)]);
      Meter(transferred, now, path, history, Round(Mean(history)))
    else
      Meter(transferred, now, current, m.history, m.average)
  }

  /** Every sample keeps the window within five entries and the average equal to their rounded mean. */
  lemma SampleKeepsWellFormed(m: Meter, path: string, transferred: int, now: int)
    requires WellFormed(m) && now > m.lastProcessTime
    ensures WellFormed(Sample(m, path, transferred, now))
  {
  }

  /** The window after pushing each of `speeds`, one by one, into an empty one. */
  function Pushed(speeds: seq<real>): seq<real> {
    if speeds == [] then [] else Window(Pushed(speeds[..|speeds| - 1]) + [speeds[|speeds| - 1]])
  }

  /** However many samples were taken, the window holds exactly the last five, in order. */
  lemma {:induction false} PushedIsLastFive(speeds: seq<real>)
    ensures Pushed(speeds) == speeds[|speeds| - Min(|speeds|, WindowSize)..]
  {
    if speeds != [] {
      var n := |speeds|;
      var init := speeds[..n - 1];
      PushedIsLastFive(init);
      PushOne(init, speeds[n - 1], Pushed(init));
      assert init + [speeds[n - 1]] == speeds;
    }
  }

  /** Pushing one speed onto the last five of `h` gives the last five of `h` and that speed. */
  lemma PushOne(h: seq<real>, v: real, w: seq<real>)
    requires w == h[|h| - Min(|h|, WindowSize)..]
    ensures Window(w + [v]) == (h + [v])[|h| + 1 - Min(|h| + 1, WindowSize)..]
  {
    var a := |h| - Min(|h|, WindowSize);
    assert w + [v] == (h + [v])[a..];
  }

  /**
   * A window of samples only ever holds `Pushed` of the speeds computed so
   * far: each later sample of step pushes exactly its own speed.
   */
  lemma {:induction false} SampleExtendsPushed(m: Meter, path: string, transferred: int, now: int, speeds: seq<real>)
    requires m.lastProcessTime > 0 && now > m.lastProcessTime && m.history == Pushed(speeds)
    ensures Sample(m, path, transferred, now).history ==
      Pushed(speeds + [Speed(Delta(m, path, transferred), now - m.lastProcessTime)])
  {
    PushedSnoc(speeds, Speed(Delta(m, path, transferred), now - m.lastProcessTime), m.history);
  }

  lemma PushedSnoc(speeds: seq<real>, v: real, w: seq<real>)
    requires w == Pushed(speeds)
    ensures Pushed(speeds + [v]) == Window(w + [v])
  {
    var t := speeds + [v];
    assert t[..|t| - 1] == speeds && t[|t| - 1] == v;
  }

  /** The published average lies between the smallest and the largest speed of the window. */
  lemma {:induction false} MeanBetween(h: seq<real>, lo: real, hi: real)
    requires h != [] && forall k :: 0 <= k < |h| ==> lo <= h[k] <= hi
    ensures lo <= Mean(h) <= hi
  {
    SumBetween(h, lo, hi);
    DivideBetween(Sum(h), |h|, lo, hi);
  }

  /** `n` copies of `lo` and of `hi` bound `x`, so `lo` and `hi` bound `x / n`. */
  lemma DivideBetween(x: real, n: nat, lo: real, hi: real)
    requires n > 0 && Copies(n, lo) <= x <= Copies(n, hi)
    ensures lo <= x / n as real <= hi
  {
    CopiesIsProduct(n, lo);
    CopiesIsProduct(n, hi);
    assert x / n as real * n as real == x;
  }

  lemma {:induction false} SumBetween(h: seq<real>, lo: real, hi: real)
    requires forall k :: 0 <= k < |h| ==> lo <= h[k] <= hi
    ensures Copies(|h|, lo) <= Sum(h) <= Copies(|h|, hi)
  {
    if h != [] {
      var init := h[..|h| - 1];
      assert forall k :: 0 <= k < |init| ==> init[k] == h[k];
      SumBetween(init, lo, hi);
    }
  }

  /** `n` copies of `c` added up. */
  function Copies(n: nat, c: real): real {
    if n == 0 then 0.0 else Copies(n - 1, c) + c
  }

  lemma {:induction false} CopiesIsProduct(n: nat, c: real)
    ensures Copies(n, c) == n as real * c
  {
    if n > 0 {
      CopiesIsProduct(n - 1, c);
      assert n as real * c == (n - 1) as real * c + c;
    }
  }

  lemma {:induction false} SumOfSteady(h: seq<real>, c: real)
    requires forall k :: 0 <= k < |h| ==> h[k] == c
    ensures Sum(h) == |h| as real * c
  {
    if h != [] {
      SumOfSteady(h[..|h| - 1], c);
    }
  }

  /** A steady speed is reported as itself (rounded): the window does not distort it. */
  lemma SteadyAverage(h: seq<real>, c: real)
    requires h != [] && forall k :: 0 <= k < |h| ==> h[k] == c
    ensures Mean(h) == c
  {
    SumOfSteady(h, c);
  }
}
