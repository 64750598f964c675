/**
 * How a captured frame of 16-bit samples becomes complex I/Q data: the 2-lane
 * LVDS de-interleave (`dp_reshape2LaneLVDS`), the radar-cube construction of
 * `generate_frame_data`, and the alternative I/Q separation of `organize`.
 *
 * numpy arrays are sequences; a 3-dimensional array is a sequence of sequences
 * of sequences in C order. Samples and the parts of complex values are the
 * integers the float arrays carry.
 */
module LvdsLayout {
  import opened Wrappers
  import opened Arith

  /** A complex sample re + j*im. */
  datatype Complex = Complex(re: int, im: int)

  /**
   * The exceptions of these functions: a reshape to an incompatible size, an
   * unsupported lane count, arrays numpy cannot broadcast together, and a call
   * with the wrong number of arguments.
   */
  datatype LayoutError = ReshapeError | UnsupportedLanes | BroadcastError | ArgumentCountError

  /** The radar settings `generate_frame_data` reads from the configuration. */
  datatype RadarConfig = RadarConfig(chirps: nat, rx: nat, samples: nat, lanes: int, iqSwap: int, chInterleave: int)

  // ---------------------------------------------------------------------------
  // Reshapes
  // ---------------------------------------------------------------------------

  /** The first row of a (count, n) reshape exists, and the rest is a (count - 1, n) reshape. */
  lemma RowsPeel<T>(s: seq<T>, count: nat, n: nat)
    requires |s| == count * n && count > 0
    ensures n <= |s| && |s[n..]| == (count - 1) * n
  {
    MulSucc(count - 1, n);
    MulMono(0, count - 1, n);
  }

  /** Position of element [c][a][x] in the C-order layout of an array of shape (_, d1, d2). */
  function Offset(d1: nat, d2: nat, c: nat, a: nat, x: nat): (f: nat)
  {
    (c * d1 + a) * d2 + x
  }

  /** The position of [c][a][x] is that of row a within plane c. */
  lemma FlatIndex(c: nat, a: nat, x: nat, d1: nat, d2: nat)
    ensures c * (d1 * d2) + (a * d2 + x) == Offset(d1, d2, c, a, x)
  {
    calc {
      (c * d1 + a) * d2 + x;
      (c * d1) * d2 + a * d2 + x;
      c * (d1 * d2) + (a * d2 + x);
    }
  }

  /** `s.reshape(count, n)`: `count` consecutive rows of n entries (C order). */
  function Rows<T>(s: seq<T>, count: nat, n: nat): (rows: seq<seq<T>>)
    requires |s| == count * n
    ensures |rows| == count && forall i :: 0 <= i < count ==> |rows[i]| == n
    decreases count
  {
    if count == 0 then []
    else
      RowsPeel(s, count, n);
      [s[..n]] + Rows(s[n..], count - 1, n)
  }

  /** Entry j of row i is entry i*n + j of the flat sequence. */
  lemma {:induction false} RowsAt<T>(s: seq<T>, count: nat, n: nat, i: nat, j: nat)
    requires |s| == count * n && i < count && j < n
    ensures i * n + j < |s|
    ensures Rows(s, count, n)[i][j] == s[i * n + j]
    decreases count
  {
    RowsPeel(s, count, n);
    MulSucc(i, n);
    MulMono(i + 1, count, n);
    if i > 0 {
      RowsAt(s[n..], count - 1, n, i - 1, j);
      MulSucc(i - 1, n);
    }
  }

  /** The rows laid end to end. */
  function Flatten<T>(rows: seq<seq<T>>): (s: seq<T>)
  {
    if rows == [] then [] else rows[0] + Flatten(rows[1..])
  }

  /** Laying the rows of a reshape end to end gives the flat sequence back. */
  lemma {:induction false} FlattenRows<T>(s: seq<T>, count: nat, n: nat)
    requires |s| == count * n
    ensures Flatten(Rows(s, count, n)) == s
    decreases count
  {
    if count > 0 {
      RowsPeel(s, count, n);
      var rest := s[n..];
      var rows := Rows(s, count, n);
      assert rows == [s[..n]] + Rows(rest, count - 1, n);
      assert rows[1..] == Rows(rest, count - 1, n);
      FlattenRows(rest, count - 1, n);
      assert s == s[..n] + rest;
    }
  }

  /** A 3-dimensional array of shape (d0, d1, d2). */
  predicate Shaped<T>(cube: seq<seq<seq<T>>>, d0: nat, d1: nat, d2: nat)
  {
    && |cube| == d0
    && (forall c :: 0 <= c < d0 ==> |cube[c]| == d1)
    && (forall c, a :: 0 <= c < d0 && 0 <= a < d1 ==> |cube[c][a]| == d2)
  }

  /** `s.reshape(d0, d1, d2)`. */
  function Reshape3<T>(s: seq<T>, d0: nat, d1: nat, d2: nat): (cube: seq<seq<seq<T>>>)
    requires |s| == d0 * d1 * d2
    ensures Shaped(cube, d0, d1, d2)
  {
    MulAssoc(d0, d1, d2);
    var planes := Rows(s, d0, d1 * d2);
    seq(d0, c requires 0 <= c < d0 => Rows(planes[c], d1, d2))
  }

  /** Element [c][a][x] of a reshape is the flat entry (c*d1 + a)*d2 + x. */
  lemma Reshape3At<T>(s: seq<T>, d0: nat, d1: nat, d2: nat, c: nat, a: nat, x: nat)
    requires |s| == d0 * d1 * d2 && c < d0 && a < d1 && x < d2
    ensures Offset(d1, d2, c, a, x) < |s| && Reshape3(s, d0, d1, d2)[c][a][x] == s[Offset(d1, d2, c, a, x)]
  {
    var n := d1 * d2;
    MulAssoc(d0, d1, d2);
    var plane := Rows(s, d0, n)[c];
    assert Reshape3(s, d0, d1, d2)[c] == Rows(plane, d1, d2);
    RowsAt(plane, d1, d2, a, x);
    var j := a * d2 + x;
    assert j < n by {
      MulSucc(a, d2);
      MulMono(a + 1, d1, d2);
    }
    RowsAt(s, d0, n, c, j);
    FlatIndex(c, a, x, d1, d2);
  }

  /** Reading a reshaped array back in C order gives the flat sequence: reshape keeps the order. */
  lemma FlattenReshape3<T>(s: seq<T>, d0: nat, d1: nat, d2: nat)
    requires |s| == d0 * d1 * d2
    ensures Flatten(seq(d0, c requires 0 <= c < d0 => Flatten(Reshape3(s, d0, d1, d2)[c]))) == s
  {
    MulAssoc(d0, d1, d2);
    var planes := Rows(s, d0, d1 * d2);
    var cube := Reshape3(s, d0, d1, d2);
    forall c | 0 <= c < d0 ensures Flatten(cube[c]) == planes[c] {
      FlattenRows(planes[c], d1, d2);
    }
    assert seq(d0, c requires 0 <= c < d0 => Flatten(cube[c])) == planes;
    FlattenRows(s, d0, d1 * d2);
  }

  /** `cube.transpose(0, 2, 1)`: shape (d0, d2, d1), element [c][x][a] taken from [c][a][x]. */
  function SwapInner<T>(cube: seq<seq<seq<T>>>, d0: nat, d1: nat, d2: nat): (t: seq<seq<seq<T>>>)
    requires Shaped(cube, d0, d1, d2)
    ensures Shaped(t, d0, d2, d1)
  {
    seq(d0, c requires 0 <= c < d0 =>
      seq(d2, x requires 0 <= x < d2 =>
        seq(d1, a requires 0 <= a < d1 => cube[c][a][x])))
  }

  /** Transposing the inner two axes twice restores the array. */
  lemma SwapInnerInvolution<T>(cube: seq<seq<seq<T>>>, d0: nat, d1: nat, d2: nat)
    requires Shaped(cube, d0, d1, d2)
    ensures SwapInner(SwapInner(cube, d0, d1, d2), d0, d2, d1) == cube
  {
    var back := SwapInner(SwapInner(cube, d0, d1, d2), d0, d2, d1);
    forall c | 0 <= c < d0 ensures back[c] == cube[c] {
      forall a | 0 <= a < d1 ensures back[c][a] == cube[c][a] {
      }
    }
  }

  // ---------------------------------------------------------------------------
  // 2-lane LVDS de-interleave
  // ---------------------------------------------------------------------------

  /** `np.vstack((a, b)).reshape(-1, order='F')`: the columns of a 2-row array read one after another. */
  function Interleave<T>(a: seq<T>, b: seq<T>): (r: seq<T>)
    requires |a| == |b|
    ensures |r| == 2 * |a|
  {
    if a == [] then [] else [a[0], b[0]] + Interleave(a[1..], b[1..])
  }

  /** Column c of the two rows lands at positions 2c and 2c+1. */
  lemma {:induction false} InterleaveAt<T>(a: seq<T>, b: seq<T>, c: nat)
    requires |a| == |b| && c < |a|
    ensures Interleave(a, b)[2 * c] == a[c] && Interleave(a, b)[2 * c + 1] == b[c]
  {
    if c > 0 {
      InterleaveAt(a[1..], b[1..], c - 1);
    }
  }

  /**
   * `dp_reshape2LaneLVDS`: the flat samples as 4 rows (lane 0 I, lane 1 I, lane 0 Q,
   * lane 1 Q); the I rows and the Q rows are each read column by column, and the
   * two results become the columns of an (len/4 * 2, 2) array.
   */
  function Reshape2LaneLvds(raw: seq<int>): (r: Result<seq<(int, int)>, LayoutError>)
    ensures r.Ok? <==> |raw| % 4 == 0
    ensures r.Ok? ==> |r.value| == |raw| / 2
    ensures r.Err? ==> r.error == ReshapeError
  {
    if |raw| % 4 != 0 then Err(ReshapeError)
    else
      var rows := Rows(raw, 4, |raw| / 4);
      var i := Interleave(rows[0], rows[1]);
      var q := Interleave(rows[2], rows[3]);
      Ok(seq(|i|, j requires 0 <= j < |i| => (i[j], q[j])))
  }

  /** With N = len/4, sample 2c+r (r in {0, 1}) pairs I = raw[r*N + c] with Q = raw[(r+2)*N + c]. */
  lemma Reshape2LaneLvdsAt(raw: seq<int>, c: nat, r: nat)
    requires |raw| % 4 == 0 && c < |raw| / 4 && r < 2
    ensures (r + 2) * (|raw| / 4) + c < |raw|
    ensures Reshape2LaneLvds(raw).value[2 * c + r] == (raw[r * (|raw| / 4) + c], raw[(r + 2) * (|raw| / 4) + c])
  {
    var n := |raw| / 4;
    var rows := Rows(raw, 4, n);
    InterleaveAt(rows[0], rows[1], c);
    InterleaveAt(rows[2], rows[3], c);
    RowsAt(raw, 4, n, r, c);
    RowsAt(raw, 4, n, r + 2, c);
  }

  // ---------------------------------------------------------------------------
  // generate_frame_data
  // ---------------------------------------------------------------------------

  /** `frame_data[:, [0, 1]] = frame_data[:, [1, 0]]`: the two columns exchanged. */
  function SwapIq(pairs: seq<(int, int)>): (r: seq<(int, int)>)
    ensures |r| == |pairs|
    ensures forall j :: 0 <= j < |pairs| ==> r[j].0 == pairs[j].1 && r[j].1 == pairs[j].0
  {
    seq(|pairs|, j requires 0 <= j < |pairs| => (pairs[j].1, pairs[j].0))
  }

  /** `frame_data[:, 0] + 1j * frame_data[:, 1]`. */
  function ToComplex(pairs: seq<(int, int)>): (r: seq<Complex>)
    ensures |r| == |pairs|
    ensures forall j :: 0 <= j < |pairs| ==> r[j] == Complex(pairs[j].0, pairs[j].1)
  {
    seq(|pairs|, j requires 0 <= j < |pairs| => Complex(pairs[j].0, pairs[j].1))
  }

  /** Lines 164-172: the de-interleaved samples as complex values, I and Q exchanged when `iq_swap` is 1. */
  function IqSamples(raw: seq<int>, iqSwap: int): (z: seq<Complex>)
    requires |raw| % 4 == 0
    ensures |z| == |raw| / 2
  {
    var pairs := Reshape2LaneLvds(raw).value;
    ToComplex(if iqSwap == 1 then SwapIq(pairs) else pairs)
  }

  /**
   * `generate_frame_data` with the de-interleave called as the one-argument
   * function it is written as: the radar cube (chirps, rx, samples), or
   * (chirps, samples, rx) when channels are interleaved.
   */
  function GenerateFrameData(cfg: RadarConfig, raw: seq<int>): (r: Result<seq<seq<seq<Complex>>>, LayoutError>)
    ensures r.Ok? <==> cfg.lanes == 2 && |raw| % 4 == 0 && |raw| / 2 == cfg.chirps * cfg.rx * cfg.samples
    ensures r.Err? && cfg.lanes != 2 ==> r.error == UnsupportedLanes
    ensures r.Err? && cfg.lanes == 2 ==> r.error == ReshapeError
    ensures r.Ok? && cfg.chInterleave == 1 ==> Shaped(r.value, cfg.chirps, cfg.samples, cfg.rx)
    ensures r.Ok? && cfg.chInterleave != 1 ==> Shaped(r.value, cfg.chirps, cfg.rx, cfg.samples)
  {
    if cfg.lanes != 2 then Err(UnsupportedLanes)
    else if |raw| % 4 != 0 then Err(ReshapeError)
    else
        var samples := IqSamples(raw, cfg.iqSwap);
        if |samples| != cfg.chirps * cfg.rx * cfg.samples then Err(ReshapeError)
        else
          var cube := Reshape3(samples, cfg.chirps, cfg.rx, cfg.samples);
          if cfg.chInterleave == 1 then Ok(SwapInner(cube, cfg.chirps, cfg.rx, cfg.samples))
          else Ok(cube)
  }

  /** The I/Q pair of flat sample f of a 2-lane capture: N = len/4, f = 2c + r. */
  function LaneSample(raw: seq<int>, iqSwap: int, f: nat): (z: Complex)
    requires |raw| % 4 == 0 && f < |raw| / 2
  {
    var n := |raw| / 4;
    var i := raw[(f % 2) * n + f / 2];
    var q := raw[(f % 2 + 2) * n + f / 2];
    if iqSwap == 1 then Complex(q, i) else Complex(i, q)
  }

  /** Complex sample f is I + jQ of de-interleaved pair f, or Q + jI when `iq_swap` is 1. */
  lemma IqSamplesAt(raw: seq<int>, iqSwap: int, f: nat)
    requires |raw| % 4 == 0 && f < |raw| / 2
    ensures IqSamples(raw, iqSwap)[f] == LaneSample(raw, iqSwap, f)
  {
    Reshape2LaneLvdsAt(raw, f / 2, f % 2);
  }

  /** The flat index of [c][a][x] lies inside a (d0, d1, d2) array. */
  lemma FlatBound(c: nat, a: nat, x: nat, d0: nat, d1: nat, d2: nat)
    requires c < d0 && a < d1 && x < d2
    ensures Offset(d1, d2, c, a, x) < d0 * d1 * d2
  {
    MulSucc(c, d1);
    MulMono(c + 1, d0, d1);
    MulSucc(c * d1 + a, d2);
    MulMono(c * d1 + a + 1, d0 * d1, d2);
  }

  /**
   * Where each element of the radar cube comes from: antenna a, chirp c, sample x
   * is flat sample f = (c*rx + a)*samples + x, found at [c][a][x], or at [c][x][a]
   * when channels are interleaved.
   */
  lemma GenerateFrameDataAt(cfg: RadarConfig, raw: seq<int>, c: nat, a: nat, x: nat)
    requires GenerateFrameData(cfg, raw).Ok?
    requires c < cfg.chirps && a < cfg.rx && x < cfg.samples
    ensures var f := Offset(cfg.rx, cfg.samples, c, a, x);
      && f < |raw| / 2
      && (cfg.chInterleave == 1 ==> GenerateFrameData(cfg, raw).value[c][x][a] == LaneSample(raw, cfg.iqSwap, f))
      && (cfg.chInterleave != 1 ==> GenerateFrameData(cfg, raw).value[c][a][x] == LaneSample(raw, cfg.iqSwap, f))
  {
    var d0, d1, d2 := cfg.chirps, cfg.rx, cfg.samples;
    var samples := IqSamples(raw, cfg.iqSwap);
    assert |samples| == d0 * d1 * d2;
    var cube := Reshape3(samples, d0, d1, d2);
    assert GenerateFrameData(cfg, raw).value == if cfg.chInterleave == 1 then SwapInner(cube, d0, d1, d2) else cube;
    var f := Offset(d1, d2, c, a, x);
    Reshape3At(samples, d0, d1, d2, c, a, x);
    assert cube[c][a][x] == samples[f];
    IqSamplesAt(raw, cfg.iqSwap, f);
  }

  /**
   * `generate_frame_data` as the class defines it: `dp_reshape2LaneLVDS` is declared
   * without `self`, so `self.dp_reshape2LaneLVDS(raw_data)` passes two arguments to
   * a one-parameter function and raises TypeError.
   */
  function GenerateFrameDataAsWritten(cfg: RadarConfig, raw: seq<int>): (r: Result<seq<seq<seq<Complex>>>, LayoutError>)
    ensures r.Err? && (r.error == ArgumentCountError <==> cfg.lanes == 2)
  {
    if cfg.lanes != 2 then Err(UnsupportedLanes)
    else Err(ArgumentCountError)
  }

  /** A 2-lane capture that the corrected function turns into a cube fails as written. */
  lemma GenerateFrameDataAsWrittenFails()
    ensures GenerateFrameData(RadarConfig(1, 1, 2, 2, 0, 0), [1, 2, 3, 4]).Ok?
    ensures GenerateFrameDataAsWritten(RadarConfig(1, 1, 2, 2, 0, 0), [1, 2, 3, 4]) == Err(ArgumentCountError)
  {
  }

  /** `astype(np.single)` on a complex array: float32 keeps the real part of every element. */
  function RealParts(cube: seq<seq<seq<Complex>>>): (r: seq<seq<seq<int>>>)
    ensures |r| == |cube|
    ensures forall c :: 0 <= c < |cube| ==> |r[c]| == |cube[c]|
    ensures forall c, a :: 0 <= c < |cube| && 0 <= a < |cube[c]| ==> |r[c][a]| == |cube[c][a]|
    ensures forall c, a, x :: 0 <= c < |cube| && 0 <= a < |cube[c]| && 0 <= x < |cube[c][a]| ==>
      r[c][a][x] == cube[c][a][x].re
  {
    seq(|cube|, c requires 0 <= c < |cube| =>
      seq(|cube[c]|, a requires 0 <= a < |cube[c]| =>
        seq(|cube[c][a]|, x requires 0 <= x < |cube[c][a]| => cube[c][a][x].re)))
  }

  /**
   * Line 179 as written, with the de-interleave call corrected: the cube is cast to
   * float32 (`np.single`), not to complex64 (`np.csingle`), so only the real parts remain.
   */
  function GenerateFrameDataCast(cfg: RadarConfig, raw: seq<int>): (r: Result<seq<seq<seq<int>>>, LayoutError>)
    ensures r.Ok? <==> GenerateFrameData(cfg, raw).Ok?
    ensures r.Err? ==> r.error == GenerateFrameData(cfg, raw).error
  {
    match GenerateFrameData(cfg, raw)
    case Err(e) => Err(e)
    case Ok(cube) => Ok(RealParts(cube))
  }

  /**
   * What the cast leaves of each element: the I sample of its lane pair, or the Q
   * sample when `iq_swap` is 1; the other half of the pair is lost.
   */
  lemma GenerateFrameDataCastAt(cfg: RadarConfig, raw: seq<int>, c: nat, a: nat, x: nat)
    requires GenerateFrameDataCast(cfg, raw).Ok?
    requires c < cfg.chirps && a < cfg.rx && x < cfg.samples
    ensures var f := Offset(cfg.rx, cfg.samples, c, a, x);
      && f < |raw| / 2
      && (cfg.chInterleave == 1 ==> GenerateFrameDataCast(cfg, raw).value[c][x][a] == LaneSample(raw, cfg.iqSwap, f).re)
      && (cfg.chInterleave != 1 ==> GenerateFrameDataCast(cfg, raw).value[c][a][x] == LaneSample(raw, cfg.iqSwap, f).re)
  {
    GenerateFrameDataAt(cfg, raw, c, a, x);
  }

  /**
   * Two captures whose Q samples differ give different complex cubes but the same
   * cast cube: the quadrature half of every sample is discarded.
   */
  lemma GenerateFrameDataCastLosesQ()
    ensures GenerateFrameData(RadarConfig(1, 1, 2, 2, 0, 0), [1, 2, 3, 4]) != GenerateFrameData(RadarConfig(1, 1, 2, 2, 0, 0), [1, 2, 5, 6])
    ensures GenerateFrameDataCast(RadarConfig(1, 1, 2, 2, 0, 0), [1, 2, 3, 4]) == Ok([[[1, 2]]])
    ensures GenerateFrameDataCast(RadarConfig(1, 1, 2, 2, 0, 0), [1, 2, 5, 6]) == Ok([[[1, 2]]])
  {
    var cfg := RadarConfig(1, 1, 2, 2, 0, 0);
    GenerateFrameDataAt(cfg, [1, 2, 3, 4], 0, 0, 0);
    GenerateFrameDataAt(cfg, [1, 2, 5, 6], 0, 0, 0);
    CastOfSmallCapture([1, 2, 3, 4]);
    CastOfSmallCapture([1, 2, 5, 6]);
  }

  /** A (1, 1, 2) capture whose I samples are 1 and 2 casts to [[[1, 2]]]. */
  lemma CastOfSmallCapture(raw: seq<int>)
    requires |raw| == 4 && raw[0] == 1 && raw[1] == 2
    ensures GenerateFrameDataCast(RadarConfig(1, 1, 2, 2, 0, 0), raw) == Ok([[[1, 2]]])
  {
    var cfg := RadarConfig(1, 1, 2, 2, 0, 0);
    GenerateFrameDataCastAt(cfg, raw, 0, 0, 0);
    GenerateFrameDataCastAt(cfg, raw, 0, 0, 1);
    assert LaneSample(raw, 0, 0).re == 1 && LaneSample(raw, 0, 1).re == 2;
    var r := GenerateFrameDataCast(cfg, raw).value;
    assert Shaped(GenerateFrameData(cfg, raw).value, 1, 1, 2);
    assert |r| == 1 && |r[0]| == 1 && |r[0][0]| == 2;
    assert r[0][0][0] == 1 && r[0][0][1] == 2;
    assert r[0][0] == [1, 2];
    assert r[0] == [[1, 2]];
    assert r == [[[1, 2]]];
    assert GenerateFrameDataCast(cfg, raw).Ok?;
  }

  // ---------------------------------------------------------------------------
  // organize
  // ---------------------------------------------------------------------------

  /** `s[start::step]`. */
  function Strided<T>(s: seq<T>, start: nat, step: nat): (r: seq<T>)
    requires step > 0
    ensures r == [] <==> start >= |s|
    ensures start < |s| ==> r[0] == s[start]
    decreases |s| - start
  {
    if start >= |s| then [] else [s[start]] + Strided(s, start + step, step)
  }

  /** `s[start::2]` and `s[start::4]` have ceil((len - start) / step) entries. */
  lemma {:induction false} StridedLength<T>(s: seq<T>, start: nat, step: nat)
    requires step == 2 || step == 4
    ensures |Strided(s, start, step)| == if start >= |s| then 0 else (|s| - start + step - 1) / step
    decreases |s| - start
  {
    if start < |s| {
      StridedLength(s, start + step, step);
    }
  }

  /** Entry k of `s[start::step]` is s[start + step*k]. */
  lemma {:induction false} StridedAt<T>(s: seq<T>, start: nat, step: nat, k: nat)
    requires step > 0 && k < |Strided(s, start, step)|
    ensures start + step * k < |s| && Strided(s, start, step)[k] == s[start + step * k]
    decreases |s| - start
  {
    if k > 0 {
      StridedAt(s, start + step, step, k - 1);
      MulSucc(k - 1, step);
      assert start + step + step * (k - 1) == start + step * k;
    }
  }

  /** `x + 1j * y` for real arrays x and y, with numpy broadcasting of a length-1 operand. */
  function BroadcastComplex(x: seq<int>, y: seq<int>): (r: Option<seq<Complex>>)
    ensures r.Some? <==> |x| == |y| || |x| == 1 || |y| == 1
    ensures r.Some? && |x| == |y| ==> |r.value| == |x| && forall k :: 0 <= k < |x| ==> r.value[k] == Complex(x[k], y[k])
  {
    if |x| == |y| then Some(seq(|x|, k requires 0 <= k < |x| => Complex(x[k], y[k])))
    else if |x| == 1 then Some(seq(|y|, k requires 0 <= k < |y| => Complex(x[0], y[k])))
    else if |y| == 1 then Some(seq(|x|, k requires 0 <= k < |x| => Complex(x[k], y[0])))
    else None
  }

  /** `ret[start::2] = v`: numpy accepts a value of the slice's length or a single value. */
  function AssignEveryOther(ret: seq<Complex>, start: nat, v: seq<Complex>): (r: Option<seq<Complex>>)
    requires start < 2
    ensures r.Some? <==> |v| == |Strided(ret, start, 2)| || |v| == 1
    ensures r.Some? ==> |r.value| == |ret|
  {
    var count := |Strided(ret, start, 2)|;
    StridedLength(ret, start, 2);
    if |v| != count && |v| != 1 then None
    else
      Some(seq(|ret|, i requires 0 <= i < |ret| =>
        if start <= i && (i - start) % 2 == 0 then (if |v| == 1 then v[0] else v[(i - start) / 2])
        else ret[i]))
  }

  /** Lines 185-186: `ret[0::2] = raw[0::4] + 1j * raw[2::4]` over an array of zeros. */
  function SeparateEven(raw: seq<int>): (r: Option<seq<Complex>>)
    ensures r.Some? ==> |r.value| == |raw| / 2
  {
    match BroadcastComplex(Strided(raw, 0, 4), Strided(raw, 2, 4))
    case None => None
    case Some(even) => AssignEveryOther(seq(|raw| / 2, _ => Complex(0, 0)), 0, even)
  }

  /** Line 187: `ret[1::2] = raw[1::4] + 1j * raw[3::4]`. */
  function SeparateOdd(half: seq<Complex>, raw: seq<int>): (r: Option<seq<Complex>>)
    ensures r.Some? ==> |r.value| == |half|
  {
    match BroadcastComplex(Strided(raw, 1, 4), Strided(raw, 3, 4))
    case None => None
    case Some(odd) => AssignEveryOther(half, 1, odd)
  }

  /** Lines 183-187: the flat complex array, before the final reshape. */
  function OrganizeFlat(raw: seq<int>): (r: Result<seq<Complex>, LayoutError>)
    ensures r.Ok? ==> |r.value| == |raw| / 2
    ensures r.Err? ==> r.error == BroadcastError
  {
    match SeparateEven(raw)
    case None => Err(BroadcastError)
    case Some(half) =>
      match SeparateOdd(half, raw)
      case None => Err(BroadcastError)
      case Some(full) => Ok(full)
  }

  /** The slice lengths `organize` works with, for a raw frame of length 4q + m. */
  lemma OrganizeLengths(raw: seq<int>, zeros: seq<Complex>)
    requires |zeros| == |raw| / 2
    ensures var q, m := |raw| / 4, |raw| % 4;
      && |Strided(raw, 0, 4)| == q + (if m >= 1 then 1 else 0)
      && |Strided(raw, 1, 4)| == q + (if m >= 2 then 1 else 0)
      && |Strided(raw, 2, 4)| == q + (if m >= 3 then 1 else 0)
      && |Strided(raw, 3, 4)| == q
      && |Strided(zeros, 0, 2)| == q + (if m >= 2 then 1 else 0)
      && |Strided(zeros, 1, 2)| == q
  {
    StridedLength(raw, 0, 4);
    StridedLength(raw, 1, 4);
    StridedLength(raw, 2, 4);
    StridedLength(raw, 3, 4);
    StridedLength(zeros, 0, 2);
    StridedLength(zeros, 1, 2);
  }

  /** numpy accepts the separation exactly for lengths that are multiples of 4, and for the lengths 1 and 3. */
  lemma OrganizeDefined(raw: seq<int>)
    ensures OrganizeFlat(raw).Ok? <==> |raw| % 4 == 0 || |raw| == 1 || |raw| == 3
  {
    var zeros := seq(|raw| / 2, _ => Complex(0, 0));
    OrganizeLengths(raw, zeros);
    var half := SeparateEven(raw);
    if half.Some? {
      OrganizeLengths(raw, half.value);
    }
  }

  /** For a length that is a multiple of 4, the even pass puts raw[4k] + j*raw[4k+2] at 2k. */
  lemma SeparateEvenAt(raw: seq<int>, k: nat)
    requires |raw| % 4 == 0 && k < |raw| / 4
    ensures SeparateEven(raw).Some?
    ensures SeparateEven(raw).value[2 * k] == Complex(raw[4 * k], raw[4 * k + 2])
  {
    var zeros := seq(|raw| / 2, _ => Complex(0, 0));
    OrganizeLengths(raw, zeros);
    var even := BroadcastComplex(Strided(raw, 0, 4), Strided(raw, 2, 4)).value;
    assert even[k] == Complex(raw[4 * k], raw[4 * k + 2]) by {
      StridedAt(raw, 0, 4, k);
      StridedAt(raw, 2, 4, k);
    }
    assert (2 * k) % 2 == 0 && (2 * k) / 2 == k;
  }

  /**
   * For a length that is a multiple of 4, the odd pass puts raw[4k+1] + j*raw[4k+3]
   * at 2k+1 and leaves 2k as the even pass wrote it.
   */
  lemma SeparateOddAt(half: seq<Complex>, raw: seq<int>, k: nat)
    requires |raw| % 4 == 0 && |half| == |raw| / 2 && k < |raw| / 4
    ensures SeparateOdd(half, raw).Some?
    ensures SeparateOdd(half, raw).value[2 * k] == half[2 * k]
    ensures SeparateOdd(half, raw).value[2 * k + 1] == Complex(raw[4 * k + 1], raw[4 * k + 3])
  {
    OrganizeLengths(raw, half);
    var odd := BroadcastComplex(Strided(raw, 1, 4), Strided(raw, 3, 4)).value;
    assert odd[k] == Complex(raw[4 * k + 1], raw[4 * k + 3]) by {
      StridedAt(raw, 1, 4, k);
      StridedAt(raw, 3, 4, k);
    }
    assert !(1 <= 2 * k && (2 * k - 1) % 2 == 0);
    assert (2 * k + 1 - 1) % 2 == 0 && (2 * k + 1 - 1) / 2 == k;
  }

  /**
   * For a length that is a multiple of 4, output 2k is raw[4k] + j*raw[4k+2] and
   * output 2k+1 is raw[4k+1] + j*raw[4k+3].
   */
  lemma OrganizeFlatAt(raw: seq<int>, k: nat)
    requires |raw| % 4 == 0 && k < |raw| / 4
    ensures OrganizeFlat(raw).Ok?
    ensures OrganizeFlat(raw).value[2 * k] == Complex(raw[4 * k], raw[4 * k + 2])
    ensures OrganizeFlat(raw).value[2 * k + 1] == Complex(raw[4 * k + 1], raw[4 * k + 3])
  {
    SeparateEvenAt(raw, k);
    SeparateOddAt(SeparateEven(raw).value, raw, k);
  }

  /**
   * A frame of three samples: the even pass writes raw[0] + j*raw[2] to the single
   * output, and the odd pass assigns an empty slice.
   */
  lemma OrganizeFlatThree(raw: seq<int>)
    requires |raw| == 3
    ensures OrganizeFlat(raw).Ok? && OrganizeFlat(raw).value == [Complex(raw[0], raw[2])]
  {
    assert Strided(raw, 4, 4) == [] && Strided(raw, 5, 4) == [] && Strided(raw, 6, 4) == [] && Strided(raw, 7, 4) == [];
    assert Strided(raw, 0, 4) == [raw[0]] && Strided(raw, 2, 4) == [raw[2]];
    assert Strided(raw, 1, 4) == [raw[1]] && Strided(raw, 3, 4) == [];
    var zeros := seq(1, _ => Complex(0, 0));
    assert Strided(zeros, 2, 2) == [] && Strided(zeros, 3, 2) == [];
    assert Strided(zeros, 0, 2) == [zeros[0]] && Strided(zeros, 1, 2) == [];
    var half := AssignEveryOther(zeros, 0, [Complex(raw[0], raw[2])]).value;
    assert half == [Complex(raw[0], raw[2])];
    var even := BroadcastComplex(Strided(raw, 0, 4), Strided(raw, 2, 4));
    assert even.Some? && |even.value| == 1 && even.value[0] == Complex(raw[0], raw[2]);
    assert even.value == [Complex(raw[0], raw[2])];
    assert Strided(half, 3, 2) == [] && Strided(half, 1, 2) == [];
    assert SeparateEven(raw) == Some(half);
    assert AssignEveryOther(half, 1, []).value == half;
  }

  /**
   * Entry f of the separated array, for every length `organize` accepts:
   * raw[2f] + j*raw[2f+2] for even f, raw[2f-1] + j*raw[2f+1] for odd f.
   */
  lemma OrganizeFlatIndex(raw: seq<int>, f: nat)
    requires OrganizeFlat(raw).Ok? && f < |raw| / 2
    ensures 2 * f + 1 < |raw| && (f % 2 == 0 ==> 2 * f + 2 < |raw|)
    ensures f % 2 == 0 ==> OrganizeFlat(raw).value[f] == Complex(raw[2 * f], raw[2 * f + 2])
    ensures f % 2 == 1 ==> OrganizeFlat(raw).value[f] == Complex(raw[2 * f - 1], raw[2 * f + 1])
  {
    OrganizeDefined(raw);
    if |raw| % 4 == 0 {
      var k := f / 2;
      OrganizeFlatAt(raw, k);
      assert f == 2 * k + f % 2;
    } else {
      OrganizeFlatThree(raw);
    }
  }

  /** `organize`: the separated samples reshaped to (num_chirps, num_rx, num_samples). */
  function Organize(raw: seq<int>, chirps: nat, rx: nat, samples: nat): (r: Result<seq<seq<seq<Complex>>>, LayoutError>)
    ensures r.Ok? <==> OrganizeFlat(raw).Ok? && |raw| / 2 == chirps * rx * samples
    ensures r.Ok? ==> Shaped(r.value, chirps, rx, samples)
    ensures r.Ok? ==> r.value == Reshape3(OrganizeFlat(raw).value, chirps, rx, samples)
  {
    match OrganizeFlat(raw)
    case Err(e) => Err(e)
    case Ok(flat) =>
      if |flat| != chirps * rx * samples then Err(ReshapeError)
      else Ok(Reshape3(flat, chirps, rx, samples))
  }

  /**
   * Element [c][a][x] of the organized cube, for every length `organize` accepts:
   * with f = (c*rx + a)*samples + x, it is raw[2f] + j*raw[2f+2] for even f and
   * raw[2f-1] + j*raw[2f+1] for odd f.
   */
  lemma OrganizeAt(raw: seq<int>, chirps: nat, rx: nat, samples: nat, c: nat, a: nat, x: nat)
    requires OrganizeFlat(raw).Ok? && |raw| / 2 == chirps * rx * samples
    requires c < chirps && a < rx && x < samples
    ensures Organize(raw, chirps, rx, samples).Ok?
    ensures var f := Offset(rx, samples, c, a, x);
      && 2 * f + 1 < |raw| && (f % 2 == 0 ==> 2 * f + 2 < |raw|)
      && (f % 2 == 0 ==> Organize(raw, chirps, rx, samples).value[c][a][x] == Complex(raw[2 * f], raw[2 * f + 2]))
      && (f % 2 == 1 ==> Organize(raw, chirps, rx, samples).value[c][a][x] == Complex(raw[2 * f - 1], raw[2 * f + 1]))
  {
    var flat := OrganizeFlat(raw).value;
    Reshape3At(flat, chirps, rx, samples, c, a, x);
    OrganizeFlatIndex(raw, Offset(rx, samples, c, a, x));
  }
}
