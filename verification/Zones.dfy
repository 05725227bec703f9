/** The rows of the catchment statistics once their labels are parsed: one
    zone per (facility, isochrone) pair with its population sum
    (LIBS/csv_pivotingtable_catchmentpop.py, lines 24-28 and 65-69). */
module Zones {

  /** `HF_cat`, `ISO_cat` and `sum` of one statistics row. */
  datatype Zone = Zone(hf: int, iso: int, sum: real)

  // ---------------------------------------------------------------------
  // Sorting by (HF_cat, ISO_cat)
  // ---------------------------------------------------------------------

  /** The lexicographic order of `sort_values(['HF_cat','ISO_cat'])`. */
  predicate KeyLe(a: Zone, b: Zone)
  {
    a.hf < b.hf || (a.hf == b.hf && a.iso <= b.iso)
  }

  predicate SameKey(a: Zone, b: Zone)
  {
    a.hf == b.hf && a.iso == b.iso
  }

  predicate Sorted(zs: seq<Zone>)
  {
    forall i, j :: 0 <= i < j < |zs| ==> KeyLe(zs[i], zs[j])
  }

  /** No two rows share a (facility, isochrone) pair. */
  predicate UniqueKeys(zs: seq<Zone>)
  {
    forall i, j :: 0 <= i < j < |zs| ==> !SameKey(zs[i], zs[j])
  }

  /** Inserts `z` into a sorted sequence, before the rows of equal key. */
  function Insert(z: Zone, s: seq<Zone>): (r: seq<Zone>)
    requires Sorted(s)
    ensures Sorted(r)
    ensures |r| == |s| + 1
    ensures multiset(r) == multiset(s) + multiset{z}
  {
    if |s| == 0 || KeyLe(z, s[0]) then [z] + s
    else
      var t := Insert(z, s[1..]);
      LowerBound(s[0], t, s[1..], z);
      assert s == [s[0]] + s[1..];
      [s[0]] + t
  }

  /** A key below every row of `s` and below `z` is below every row of a
      rearrangement of `s` with `z` added. */
  lemma LowerBound(x: Zone, t: seq<Zone>, s: seq<Zone>, z: Zone)
    requires multiset(t) == multiset(s) + multiset{z}
    requires forall k :: 0 <= k < |s| ==> KeyLe(x, s[k])
    requires KeyLe(x, z)
    ensures forall k :: 0 <= k < |t| ==> KeyLe(x, t[k])
  {
    forall k | 0 <= k < |t| ensures KeyLe(x, t[k]) {
      assert t[k] in multiset(t);
      if t[k] != z {
        assert t[k] in s;
      }
    }
  }

  /** The rows in (HF_cat, ISO_cat) order. */
  function Sort(zs: seq<Zone>): (r: seq<Zone>)
    ensures Sorted(r)
    ensures |r| == |zs|
    ensures multiset(r) == multiset(zs)
  {
    if |zs| == 0 then []
    else
      assert zs == [zs[0]] + zs[1..];
      Insert(zs[0], Sort(zs[1..]))
  }

  /** Sorting keeps the rows, so it keeps their keys distinct. */
  lemma {:induction false} SortUnique(zs: seq<Zone>)
    requires UniqueKeys(zs)
    ensures UniqueKeys(Sort(zs))
    decreases |zs|
  {
    if |zs| > 0 {
      var rest := Sort(zs[1..]);
      SortUnique(zs[1..]);
      forall k | 0 <= k < |rest|
        ensures !SameKey(zs[0], rest[k])
      {
        assert rest[k] in multiset(zs[1..]);
        var j :| 0 <= j < |zs[1..]| && zs[1..][j] == rest[k];
        assert zs[1 + j] == rest[k];
      }
      InsertUnique(zs[0], rest);
    }
  }

  lemma {:induction false} InsertUnique(z: Zone, s: seq<Zone>)
    requires Sorted(s) && UniqueKeys(s)
    requires forall k :: 0 <= k < |s| ==> !SameKey(z, s[k])
    ensures UniqueKeys(Insert(z, s))
    decreases |s|
  {
    if |s| > 0 && !KeyLe(z, s[0]) {
      var t := Insert(z, s[1..]);
      InsertUnique(z, s[1..]);
      forall k | 0 <= k < |t|
        ensures !SameKey(s[0], t[k])
      {
        assert t[k] in multiset(t);
        if t[k] != z {
          assert t[k] in s[1..];
        }
      }
    }
  }

  /** Some row belongs to facility `hf`. */
  predicate HasFacility(zs: seq<Zone>, hf: int)
  {
    exists z :: z in zs && z.hf == hf
  }

  /** Some row lies in isochrone `iso`. */
  predicate HasIso(zs: seq<Zone>, iso: int)
  {
    exists z :: z in zs && z.iso == iso
  }

  /** Some row has the key (`hf`, `iso`). */
  predicate HasPair(zs: seq<Zone>, hf: int, iso: int)
  {
    exists z :: z in zs && z.hf == hf && z.iso == iso
  }

  /** Two row sequences with the same key at every position have the same
      facilities, isochrones and pairs. */
  lemma SameKeys(a: seq<Zone>, b: seq<Zone>)
    requires |a| == |b| && forall k :: 0 <= k < |a| ==> SameKey(a[k], b[k])
    ensures forall hf :: HasFacility(a, hf) <==> HasFacility(b, hf)
    ensures forall iso :: HasIso(a, iso) <==> HasIso(b, iso)
    ensures forall hf, iso :: HasPair(a, hf, iso) <==> HasPair(b, hf, iso)
  {
    forall k | 0 <= k < |a| ensures a[k] in a && b[k] in b {
    }
  }

  // ---------------------------------------------------------------------
  // Population sums
  // ---------------------------------------------------------------------

  /** Population of facility `hf` over all its rows. */
  function HfSum(zs: seq<Zone>, hf: int): real
  {
    if |zs| == 0 then 0.0
    else (if zs[0].hf == hf then zs[0].sum else 0.0) + HfSum(zs[1..], hf)
  }

  /** Population of facility `hf` over its rows with isochrone at most `iso`. */
  function Band(zs: seq<Zone>, hf: int, iso: int): real
  {
    if |zs| == 0 then 0.0
    else (if zs[0].hf == hf && zs[0].iso <= iso then zs[0].sum else 0.0) + Band(zs[1..], hf, iso)
  }

  lemma {:induction false} HfSumAppend(a: seq<Zone>, b: seq<Zone>, hf: int)
    ensures HfSum(a + b, hf) == HfSum(a, hf) + HfSum(b, hf)
    decreases |a|
  {
    if |a| == 0 {
      assert a + b == b;
    } else {
      assert (a + b)[1..] == a[1..] + b;
      HfSumAppend(a[1..], b, hf);
    }
  }

  lemma {:induction false} BandAppend(a: seq<Zone>, b: seq<Zone>, hf: int, iso: int)
    ensures Band(a + b, hf, iso) == Band(a, hf, iso) + Band(b, hf, iso)
    decreases |a|
  {
    if |a| == 0 {
      assert a + b == b;
    } else {
      assert (a + b)[1..] == a[1..] + b;
      BandAppend(a[1..], b, hf, iso);
    }
  }

  lemma {:induction false} BandInsert(z: Zone, s: seq<Zone>, hf: int, iso: int)
    requires Sorted(s)
    ensures Band(Insert(z, s), hf, iso) == Band([z], hf, iso) + Band(s, hf, iso)
    decreases |s|
  {
    if |s| > 0 && !KeyLe(z, s[0]) {
      BandInsert(z, s[1..], hf, iso);
    }
  }

  /** Sorting does not change any facility's band population. */
  lemma {:induction false} BandSort(zs: seq<Zone>, hf: int, iso: int)
    ensures Band(Sort(zs), hf, iso) == Band(zs, hf, iso)
    decreases |zs|
  {
    if |zs| > 0 {
      BandSort(zs[1..], hf, iso);
      BandInsert(zs[0], Sort(zs[1..]), hf, iso);
    }
  }

  /** When every row of `hf` lies within the band, the band is all of `hf`. */
  lemma {:induction false} BandWhole(zs: seq<Zone>, hf: int, iso: int)
    requires forall k :: 0 <= k < |zs| && zs[k].hf == hf ==> zs[k].iso <= iso
    ensures Band(zs, hf, iso) == HfSum(zs, hf)
    decreases |zs|
  {
    if |zs| > 0 {
      BandWhole(zs[1..], hf, iso);
    }
  }

  /** When every row of `hf` lies beyond the band, the band is empty. */
  lemma {:induction false} BandEmpty(zs: seq<Zone>, hf: int, iso: int)
    requires forall k :: 0 <= k < |zs| && zs[k].hf == hf ==> zs[k].iso > iso
    ensures Band(zs, hf, iso) == 0.0
    decreases |zs|
  {
    if |zs| > 0 {
      BandEmpty(zs[1..], hf, iso);
    }
  }

  /** With non-negative populations a wider band holds at least as many. */
  lemma {:induction false} BandMonotone(zs: seq<Zone>, hf: int, lo: int, hi: int)
    requires lo <= hi
    requires forall k :: 0 <= k < |zs| ==> zs[k].sum >= 0.0
    ensures Band(zs, hf, lo) <= Band(zs, hf, hi)
    decreases |zs|
  {
    if |zs| > 0 {
      BandMonotone(zs[1..], hf, lo, hi);
    }
  }

  // ---------------------------------------------------------------------
  // Distinct values in increasing order
  // ---------------------------------------------------------------------

  predicate Increasing(xs: seq<int>)
  {
    forall i, j :: 0 <= i < j < |xs| ==> xs[i] < xs[j]
  }

  function AddValue(x: int, xs: seq<int>): (r: seq<int>)
    requires Increasing(xs)
    ensures Increasing(r)
    ensures forall y :: y in r <==> y == x || y in xs
  {
    if |xs| == 0 || x < xs[0] then [x] + xs
    else if x == xs[0] then xs
    else
      var t := AddValue(x, xs[1..]);
      assert forall k :: 0 <= k < |t| ==> xs[0] < t[k] by {
        forall k | 0 <= k < |t| ensures xs[0] < t[k] {
          assert t[k] in t;
        }
      }
      [xs[0]] + t
  }

  /** The distinct values of `xs` in increasing order, as pandas orders the
      index and the columns of a pivot table. */
  function Distinct(xs: seq<int>): (r: seq<int>)
    ensures Increasing(r)
    ensures forall y :: y in r <==> y in xs
  {
    if |xs| == 0 then []
    else
      assert forall y :: y in xs <==> y == xs[0] || y in xs[1..];
      AddValue(xs[0], Distinct(xs[1..]))
  }

  lemma HeadIsLeast(xs: seq<int>, x: int)
    requires Increasing(xs) && x in xs
    ensures xs[0] <= x
  {
    var k :| 0 <= k < |xs| && xs[k] == x;
    assert k == 0 || xs[0] < xs[k];
  }

  /** A member of the tail of an increasing sequence is a member above the
      head. */
  lemma TailMember(xs: seq<int>, x: int)
    requires Increasing(xs) && |xs| > 0 && x in xs[1..]
    ensures x in xs && xs[0] < x
  {
    var k :| 0 <= k < |xs[1..]| && xs[1..][k] == x;
    assert xs[k + 1] == x;
  }

  /** Two increasing sequences with the same members are the same
      sequence: the order pandas gives an index is determined by its
      values. */
  lemma {:induction false} IncreasingSame(a: seq<int>, b: seq<int>)
    requires Increasing(a) && Increasing(b)
    requires forall x :: x in a <==> x in b
    ensures a == b
    decreases |a|
  {
    if |a| > 0 || |b| > 0 {
      var x := if |a| > 0 then a[0] else b[0];
      assert x in a && x in b;
      assert a[0] in a && b[0] in b;
      HeadIsLeast(a, b[0]);
      HeadIsLeast(b, a[0]);
      forall x ensures x in a[1..] <==> x in b[1..] {
        if x in a[1..] {
          TailMember(a, x);
        }
        if x in b[1..] {
          TailMember(b, x);
        }
      }
      IncreasingSame(a[1..], b[1..]);
      assert a == [a[0]] + a[1..] && b == [b[0]] + b[1..];
    }
  }

  function FacilityIds(zs: seq<Zone>): (r: seq<int>)
    ensures |r| == |zs|
    ensures forall k :: 0 <= k < |zs| ==> r[k] == zs[k].hf
    ensures forall hf :: hf in r <==> HasFacility(zs, hf)
  {
    var r := seq(|zs|, k requires 0 <= k < |zs| => zs[k].hf);
    assert forall hf :: hf in r <==> HasFacility(zs, hf) by {
      forall hf ensures hf in r <==> HasFacility(zs, hf) {
        if hf in r {
          var k :| 0 <= k < |zs| && r[k] == hf;
          assert zs[k] in zs;
        }
        if HasFacility(zs, hf) {
          var z :| z in zs && z.hf == hf;
          var k :| 0 <= k < |zs| && zs[k] == z;
          assert r[k] == hf;
        }
      }
    }
    r
  }

  function IsoValues(zs: seq<Zone>): (r: seq<int>)
    ensures |r| == |zs|
    ensures forall k :: 0 <= k < |zs| ==> r[k] == zs[k].iso
    ensures forall iso :: iso in r <==> HasIso(zs, iso)
  {
    var r := seq(|zs|, k requires 0 <= k < |zs| => zs[k].iso);
    assert forall iso :: iso in r <==> HasIso(zs, iso) by {
      forall iso ensures iso in r <==> HasIso(zs, iso) {
        if iso in r {
          var k :| 0 <= k < |zs| && r[k] == iso;
          assert zs[k] in zs;
        }
        if HasIso(zs, iso) {
          var z :| z in zs && z.iso == iso;
          var k :| 0 <= k < |zs| && zs[k] == z;
          assert r[k] == iso;
        }
      }
    }
    r
  }
}
