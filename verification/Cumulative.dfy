/** The cumulative population of each facility by increasing isochrone
    (LIBS/csv_pivotingtable_catchmentpop.py, lines 28-36). */
module Cumulative {
  import opened Zones

  /** Lines 30-36: for every facility, the running sum of its rows' `sum` in
      row order, written back to those rows. The pandas index alignment that
      puts each running sum back on its row is modelled as the write at the
      row's own position. */
  method CumulativeSums(zs: seq<Zone>) returns (cumul: seq<real>)
    ensures |cumul| == |zs|
    ensures forall k :: 0 <= k < |zs| ==> cumul[k] == HfSum(zs[..k + 1], zs[k].hf)
  {
    var facilities := Distinct(FacilityIds(zs));
    cumul := seq(|zs|, _ => 0.0);
    var f := 0;
    while f < |facilities|
      invariant 0 <= f <= |facilities|
      invariant |cumul| == |zs|
      invariant forall k :: 0 <= k < |zs| && zs[k].hf in facilities[..f] ==> cumul[k] == HfSum(zs[..k + 1], zs[k].hf)
    {
      var hf := facilities[f];
      assert hf !in facilities[..f];
      var running := 0.0;
      var k := 0;
      while k < |zs|
        invariant 0 <= k <= |zs|
        invariant |cumul| == |zs|
        invariant running == HfSum(zs[..k], hf)
        invariant forall j :: 0 <= j < |zs| && zs[j].hf in facilities[..f] ==> cumul[j] == HfSum(zs[..j + 1], zs[j].hf)
        invariant forall j :: 0 <= j < k && zs[j].hf == hf ==> cumul[j] == HfSum(zs[..j + 1], hf)
      {
        assert zs[..k + 1] == zs[..k] + [zs[k]];
        HfSumAppend(zs[..k], [zs[k]], hf);
        if zs[k].hf == hf {
          running := running + zs[k].sum;
          cumul := cumul[k := running];
        }
        k := k + 1;
      }
      assert forall x :: x in facilities[..f + 1] <==> x in facilities[..f] || x == hf by {
        assert facilities[..f + 1] == facilities[..f] + [hf];
      }
      f := f + 1;
    }
    assert facilities[..f] == facilities;
    forall k | 0 <= k < |zs|
      ensures cumul[k] == HfSum(zs[..k + 1], zs[k].hf)
    {
      assert zs[k].hf == FacilityIds(zs)[k];
    }
  }

  /** The rows with `sum` replaced by `cumul_sum` (line 36). */
  function Cumulate(zs: seq<Zone>): (r: seq<Zone>)
    ensures |r| == |zs|
    ensures forall k :: 0 <= k < |zs| ==> SameKey(r[k], zs[k])
  {
    seq(|zs|, k requires 0 <= k < |zs| => Zone(zs[k].hf, zs[k].iso, HfSum(zs[..k + 1], zs[k].hf)))
  }

  /** In sorted rows with distinct keys, a row's cumulative population is the
      population of its facility over all isochrones up to its own. */
  lemma CumulativeIsBand(s: seq<Zone>, k: int)
    requires Sorted(s) && UniqueKeys(s)
    requires 0 <= k < |s|
    ensures Cumulate(s)[k].sum == Band(s, s[k].hf, s[k].iso)
  {
    var hf, iso := s[k].hf, s[k].iso;
    var before, after := s[..k + 1], s[k + 1..];
    assert s == before + after;
    BandAppend(before, after, hf, iso);
    assert forall j :: 0 <= j < |before| && before[j].hf == hf ==> before[j].iso <= iso by {
      forall j | 0 <= j < |before| && before[j].hf == hf ensures before[j].iso <= iso {
        if j < k {
          assert KeyLe(s[j], s[k]);
        }
      }
    }
    BandWhole(before, hf, iso);
    assert forall j :: 0 <= j < |after| && after[j].hf == hf ==> after[j].iso > iso by {
      forall j | 0 <= j < |after| && after[j].hf == hf ensures after[j].iso > iso {
        assert after[j] == s[k + 1 + j];
        assert KeyLe(s[k], s[k + 1 + j]);
        assert !SameKey(s[k], s[k + 1 + j]);
      }
    }
    BandEmpty(after, hf, iso);
  }

  /** After sorting rows with distinct keys, each row's cumulative
      population is its facility's population over the isochrones up to its
      own in the unsorted input: rows of other facilities never contribute. */
  lemma CumulativeOfInput(zs: seq<Zone>, k: int)
    requires UniqueKeys(zs)
    requires 0 <= k < |zs|
    ensures Cumulate(Sort(zs))[k].sum == Band(zs, Sort(zs)[k].hf, Sort(zs)[k].iso)
  {
    var s := Sort(zs);
    SortUnique(zs);
    CumulativeIsBand(s, k);
    BandSort(zs, s[k].hf, s[k].iso);
  }

  /** With non-negative populations, a facility's cumulative population does
      not decrease from one of its isochrones to a later one. */
  lemma CumulativeMonotone(s: seq<Zone>, j: int, k: int)
    requires Sorted(s) && UniqueKeys(s)
    requires forall i :: 0 <= i < |s| ==> s[i].sum >= 0.0
    requires 0 <= j < k < |s| && s[j].hf == s[k].hf
    ensures Cumulate(s)[j].sum <= Cumulate(s)[k].sum
  {
    assert KeyLe(s[j], s[k]);
    CumulativeIsBand(s, j);
    CumulativeIsBand(s, k);
    BandMonotone(s, s[k].hf, s[j].iso, s[k].iso);
  }

  /** Cumulating keeps every row's key, so distinct keys stay distinct. */
  lemma CumulateUnique(s: seq<Zone>)
    requires UniqueKeys(s)
    ensures UniqueKeys(Cumulate(s))
  {
    var cz := Cumulate(s);
    forall a, b | 0 <= a < b < |cz| ensures !SameKey(cz[a], cz[b]) {
      assert !SameKey(s[a], s[b]);
    }
  }
}
