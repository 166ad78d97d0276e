/** The selection rule shared by the sweep in `_CutoTune._cutotune` and by
    `min(..., key=...)` in `_CutoTuneCache.get_best_configs`: a left-to-right
    scan that replaces its candidate only on a strictly smaller time, so the
    earliest of several equal minima wins. Absent entries (`None`) stand for
    candidates the scan skips. */
module Selection {
  import opened Exceptions

  /** Entry `i` is present, no present entry is faster, and every present
      entry before it is strictly slower. */
  predicate IsFirstMinimum(times: seq<Option<real>>, i: nat)
  {
    i < |times| && times[i].Some?
    && (forall j :: 0 <= j < |times| && times[j].Some? ==> times[i].value <= times[j].value)
    && (forall j :: 0 <= j < i && times[j].Some? ==> times[i].value < times[j].value)
  }

  /** The index the scan ends with, or `None` when every entry is skipped. */
  function FirstMinimum(times: seq<Option<real>>): (r: Option<nat>)
    ensures r.None? <==> forall j :: 0 <= j < |times| ==> times[j].None?
    ensures r.Some? ==> IsFirstMinimum(times, r.value)
    ensures forall j: nat :: IsFirstMinimum(times, j) ==> r == Some(j)
  {
    if times == [] then None
    else
      var n := |times| - 1;
      var prev := FirstMinimum(times[..n]);
      assert forall j :: 0 <= j < n ==> times[..n][j] == times[j];
      if times[n].Some? && (prev.None? || times[n].value < times[prev.value].value) then Some(n)
      else prev
  }

  /** One step of the scan: the entry at `i` takes over only when it is
      present and strictly faster than the candidate so far. */
  lemma FirstMinimumStep(times: seq<Option<real>>, i: nat)
    requires i < |times|
    ensures var prev := FirstMinimum(times[..i]);
      FirstMinimum(times[..i + 1]) ==
        if times[i].Some? && (prev.None? || times[i].value < times[prev.value].value) then Some(i) else prev
  {
    assert times[..i + 1][..i] == times[..i];
  }
}
