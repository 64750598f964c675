/**
 * `RadarProcessor.detect_hand`: a hand is present when some range bin inside the
 * configured window [min_range, max_range] has a magnitude above the threshold, and
 * its distance is the range of the strongest such bin (the first one on a tie).
 * Magnitudes and ranges are modelled as reals.
 */
module HandDetection {
  import opened Wrappers

  /** The `hand_detection` section of the configuration. */
  datatype HandConfig = HandConfig(minRange: real, maxRange: real, threshold: real)

  /** The pair `(hand_detected, detected_distance)`; the distance is None when no hand is seen. */
  datatype Presence = Presence(detected: bool, distance: Option<real>)

  /** numpy's IndexError: a window index past the end of the range profile. */
  datatype DetectError = IndexError

  /** `min_range <= range <= max_range`: a range inside the detection window, which is then non-empty. */
  predicate InWindow(cfg: HandConfig, range: real)
    ensures InWindow(cfg, range) ==> cfg.minRange <= cfg.maxRange
  {
    cfg.minRange <= range <= cfg.maxRange
  }

  /** `np.where((range_axis >= min_range) & (range_axis <= max_range))[0]`: the in-window indices, ascending. */
  function WindowIndices(axis: seq<real>, cfg: HandConfig): (ix: seq<nat>)
    ensures forall j :: 0 <= j < |ix| ==> ix[j] < |axis| && InWindow(cfg, axis[ix[j]])
    ensures forall j, k :: 0 <= j < k < |ix| ==> ix[j] < ix[k]
    ensures forall i :: 0 <= i < |axis| && InWindow(cfg, axis[i]) ==> i in ix
  {
    if axis == [] then []
    else
      var n := |axis| - 1;
      var front := WindowIndices(axis[..n], cfg);
      assert forall i :: 0 <= i < n ==> axis[..n][i] == axis[i];
      if InWindow(cfg, axis[n]) then front + [n] else front
  }

  /** `np.argmax`: the position of the largest value, the first one when several are equal. */
  function ArgMax(v: seq<real>): (m: nat)
    requires |v| > 0
    ensures m < |v|
    ensures forall j :: 0 <= j < |v| ==> v[j] <= v[m]
    ensures forall j :: 0 <= j < m ==> v[j] < v[m]
  {
    if |v| == 1 then 0
    else
      var m := ArgMax(v[..|v| - 1]);
      assert forall j :: 0 <= j < |v| - 1 ==> v[..|v| - 1][j] == v[j];
      if v[|v| - 1] > v[m] then |v| - 1 else m
  }

  /**
   * Bin i is the reported peak: it lies inside the window and above the threshold,
   * no in-window bin is stronger, and every earlier in-window bin is weaker.
   */
  predicate IsPeak(cfg: HandConfig, profile: seq<real>, axis: seq<real>, i: nat)
  {
    && i < |axis| && i < |profile| && InWindow(cfg, axis[i]) && profile[i] > cfg.threshold
    && (forall j :: 0 <= j < |axis| && j < |profile| && InWindow(cfg, axis[j]) ==> profile[j] <= profile[i])
    && (forall j :: 0 <= j < i && InWindow(cfg, axis[j]) ==> profile[j] < profile[i])
  }

  /** `processed_frame[valid_range_indices]`: the profile values at the given indices. */
  function Gather(profile: seq<real>, ix: seq<nat>): (v: seq<real>)
    requires forall j :: 0 <= j < |ix| ==> ix[j] < |profile|
    ensures |v| == |ix|
    ensures forall j :: 0 <= j < |ix| ==> v[j] == profile[ix[j]]
  {
    seq(|ix|, j requires 0 <= j < |ix| => profile[ix[j]])
  }

  /** Some gathered window value exceeds the threshold exactly when some in-window bin does. */
  lemma GatherAbove(cfg: HandConfig, profile: seq<real>, axis: seq<real>)
    requires forall j :: 0 <= j < |WindowIndices(axis, cfg)| ==> WindowIndices(axis, cfg)[j] < |profile|
    ensures var v := Gather(profile, WindowIndices(axis, cfg));
      (exists j :: 0 <= j < |v| && v[j] > cfg.threshold) <==>
      (exists i :: 0 <= i < |axis| && i < |profile| && InWindow(cfg, axis[i]) && profile[i] > cfg.threshold)
  {
    var ix := WindowIndices(axis, cfg);
    var v := Gather(profile, ix);
    if i :| 0 <= i < |axis| && i < |profile| && InWindow(cfg, axis[i]) && profile[i] > cfg.threshold {
      var j :| 0 <= j < |ix| && ix[j] == i;
      assert v[j] > cfg.threshold;
    }
  }

  /** `detect_hand(processed_frame, range_axis)`. */
  function DetectHand(cfg: HandConfig, profile: seq<real>, axis: seq<real>): (r: Result<Presence, DetectError>)
    ensures r.Err? <==> exists i :: |profile| <= i < |axis| && InWindow(cfg, axis[i])
    ensures r.Ok? ==> (r.value.detected <==>
      exists i :: 0 <= i < |axis| && i < |profile| && InWindow(cfg, axis[i]) && profile[i] > cfg.threshold)
    ensures r.Ok? ==> (r.value.distance.Some? <==> r.value.detected)
  {
    var ix := WindowIndices(axis, cfg);
    if exists j :: 0 <= j < |ix| && ix[j] >= |profile| then Err(IndexError)
    else
      var values := Gather(profile, ix);
      GatherAbove(cfg, profile, axis);
      if exists j :: 0 <= j < |values| && values[j] > cfg.threshold then
        var m := ArgMax(values);
        Ok(Presence(true, Some(axis[ix[m]])))
      else
        Ok(Presence(false, None))
  }

  /** The peak bin of the window, as DetectHand picks it. */
  lemma WindowPeak(cfg: HandConfig, profile: seq<real>, axis: seq<real>, m: nat)
    requires forall j :: 0 <= j < |WindowIndices(axis, cfg)| ==> WindowIndices(axis, cfg)[j] < |profile|
    requires |WindowIndices(axis, cfg)| > 0
    requires m == ArgMax(Gather(profile, WindowIndices(axis, cfg)))
    ensures var i := WindowIndices(axis, cfg)[m];
      && (forall j :: 0 <= j < |axis| && j < |profile| && InWindow(cfg, axis[j]) ==> profile[j] <= profile[i])
      && (forall j :: 0 <= j < i && InWindow(cfg, axis[j]) ==> profile[j] < profile[i])
  {
    var ix := WindowIndices(axis, cfg);
    var values := Gather(profile, ix);
    var i := ix[m];
    forall j | 0 <= j < |axis| && j < |profile| && InWindow(cfg, axis[j]) ensures profile[j] <= profile[i] {
      var t :| 0 <= t < |ix| && ix[t] == j;
      assert values[t] == profile[j];
    }
    forall j | 0 <= j < i && InWindow(cfg, axis[j]) ensures profile[j] < profile[i] {
      var t :| 0 <= t < |ix| && ix[t] == j;
      assert t < m;
      assert values[t] == profile[j];
    }
  }

  /** A detected hand is reported at the range of the peak bin, which lies inside the window. */
  lemma DetectHandPeak(cfg: HandConfig, profile: seq<real>, axis: seq<real>)
    requires DetectHand(cfg, profile, axis).Ok? && DetectHand(cfg, profile, axis).value.detected
    ensures exists i: nat :: IsPeak(cfg, profile, axis, i) && DetectHand(cfg, profile, axis).value.distance == Some(axis[i])
    ensures cfg.minRange <= DetectHand(cfg, profile, axis).value.distance.value <= cfg.maxRange
  {
    var ix := WindowIndices(axis, cfg);
    assert forall j :: 0 <= j < |ix| ==> ix[j] < |profile|;
    var values := Gather(profile, ix);
    GatherAbove(cfg, profile, axis);
    var m := ArgMax(values);
    assert DetectHand(cfg, profile, axis) == Ok(Presence(true, Some(axis[ix[m]])));
    WindowPeak(cfg, profile, axis, m);
    var i := ix[m];
    assert values[m] > cfg.threshold;
    assert IsPeak(cfg, profile, axis, i);
  }

  /** The peak is unique: the reported distance does not depend on how the maximum is searched for. */
  lemma PeakUnique(cfg: HandConfig, profile: seq<real>, axis: seq<real>, i: nat, i': nat)
    requires IsPeak(cfg, profile, axis, i) && IsPeak(cfg, profile, axis, i')
    ensures i == i'
  {
  }

  /** Only the in-window bins matter: two profiles that agree there give the same answer. */
  lemma DetectHandWindowOnly(cfg: HandConfig, p: seq<real>, q: seq<real>, axis: seq<real>)
    requires |p| == |q|
    requires forall i :: 0 <= i < |axis| && i < |p| && InWindow(cfg, axis[i]) ==> p[i] == q[i]
    ensures DetectHand(cfg, p, axis) == DetectHand(cfg, q, axis)
  {
    var ix := WindowIndices(axis, cfg);
    if !exists j :: 0 <= j < |ix| && ix[j] >= |p| {
      assert Gather(p, ix) == Gather(q, ix);
    }
  }

  /** With no bin inside the window, no hand is detected. */
  lemma EmptyWindowNoHand(cfg: HandConfig, profile: seq<real>, axis: seq<real>)
    requires forall i :: 0 <= i < |axis| ==> !InWindow(cfg, axis[i])
    ensures DetectHand(cfg, profile, axis) == Ok(Presence(false, None))
  {
  }

  /** Conversely, whenever the profile covers the window, a peak bin is exactly what is reported. */
  lemma DetectHandOfPeak(cfg: HandConfig, profile: seq<real>, axis: seq<real>, i: nat)
    requires forall j :: |profile| <= j < |axis| ==> !InWindow(cfg, axis[j])
    requires IsPeak(cfg, profile, axis, i)
    ensures DetectHand(cfg, profile, axis) == Ok(Presence(true, Some(axis[i])))
  {
    var r := DetectHand(cfg, profile, axis);
    assert r.Ok? && r.value.detected;
    DetectHandPeak(cfg, profile, axis);
    var i': nat :| IsPeak(cfg, profile, axis, i') && r.value.distance == Some(axis[i']);
    PeakUnique(cfg, profile, axis, i, i');
  }

  /** A bin above the threshold in a window of ranges 0.4 to 1.0 is reported at its range. */
  lemma DetectHandExample()
    ensures DetectHand(HandConfig(0.35, 1.0, 125.0), [10.0, 10.0, 130.0, 10.0, 10.0, 10.0],
      [0.0, 0.2, 0.4, 0.6, 0.8, 1.0]) == Ok(Presence(true, Some(0.4)))
  {
    var cfg := HandConfig(0.35, 1.0, 125.0);
    var profile := [10.0, 10.0, 130.0, 10.0, 10.0, 10.0];
    var axis := [0.0, 0.2, 0.4, 0.6, 0.8, 1.0];
    assert IsPeak(cfg, profile, axis, 2);
    DetectHandOfPeak(cfg, profile, axis, 2);
  }
}
