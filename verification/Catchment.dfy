/** `GetCatchmentPopByISO` and `GetCatchmentCumulPopByISO`
    (LIBS/csv_pivotingtable_catchmentpop.py): statistics rows in, one line
    per health facility out, with the population of each isochrone band
    (per band, or cumulated up to the band), the total and the
    percentages. */
module Catchment {
  import opened Wrappers
  import opened Strings
  import opened Paths
  import opened Zones
  import opened Labels
  import opened Cumulative
  import opened Pivot

  /** The table and the path and separator it is written with. */
  datatype Output = Output(path: string, sep: string, table: Table)

  // ---------------------------------------------------------------------
  // Output parameters (lines 16-20 and 57-61)
  // ---------------------------------------------------------------------

  /** An empty `out_file` becomes the input path with `_clean` before its
      extension. */
  function OutputPath(inFile: string, outFile: string): (r: string)
    ensures outFile != "" ==> r == outFile
    ensures outFile == "" ==> |r| == |inFile| + 6
  {
    if outFile == "" then
      var (root, ext) := SplitExt(inFile);
      root + "_clean" + ext
    else outFile
  }

  /** The default output keeps the input's extension and its root gains
      `_clean`, so the input file is never overwritten. */
  lemma DefaultOutputPath(inFile: string)
    ensures SplitExt(OutputPath(inFile, "")) == (SplitExt(inFile).0 + "_clean", SplitExt(inFile).1)
    ensures OutputPath(inFile, "") != inFile
  {
    SplitExtInsert(inFile, "_clean");
  }

  /** An empty `out_sep` becomes `in_sep`. */
  function OutputSeparator(inSep: string, outSep: string): (r: string)
    ensures r == outSep || r == inSep
    ensures r == "" ==> inSep == "" && outSep == ""
    ensures outSep != "" ==> r == outSep
  {
    if outSep == "" then inSep else outSep
  }

  // ---------------------------------------------------------------------
  // The two tables
  // ---------------------------------------------------------------------

  lemma SortMembers(zs: seq<Zone>)
    ensures forall z :: z in Sort(zs) <==> z in zs
  {
    var s := Sort(zs);
    forall z ensures z in s <==> z in zs {
      assert z in s <==> z in multiset(s);
      assert z in zs <==> z in multiset(zs);
    }
  }

  /** Lines 68-80: the per-band table of the sorted rows. */
  function PopTable(zs: seq<Zone>, prefix: string): (t: Table)
    ensures forall hf :: HasRow(t, hf) <==> HasFacility(zs, hf)
    ensures forall iso :: iso in t.isos <==> HasIso(zs, iso)
  {
    SortMembers(zs);
    assert forall hf :: HasFacility(Sort(zs), hf) <==> HasFacility(zs, hf);
    PivotTable(Sort(zs), prefix, SumOfBands).value
  }

  /** Lines 27-47: the table of the cumulated sorted rows; `None` on an
      input without rows, where the table has no column to take the total
      from. */
  function CumulPopTable(zs: seq<Zone>, prefix: string): (r: Option<Table>)
    ensures r.Some? <==> |zs| > 0
    ensures r.Some? ==> forall hf :: HasRow(r.value, hf) <==> HasFacility(zs, hf)
    ensures r.Some? ==> forall iso :: iso in r.value.isos <==> HasIso(zs, iso)
  {
    var s := Sort(zs);
    var cz := Cumulate(s);
    SortMembers(zs);
    SameKeys(cz, s);
    assert forall hf :: HasFacility(s, hf) <==> HasFacility(zs, hf);
    assert forall iso :: HasIso(s, iso) <==> HasIso(zs, iso);
    PivotTable(cz, prefix, LastBand)
  }

  /** Both tables have the columns `<prefix>_<iso>`, `<prefix>_TOT`,
      `<prefix>_prct<iso>` and `<prefix>_prctTOT`. */
  lemma TableColumns(zs: seq<Zone>, prefix: string, rule: TotalRule)
    requires PivotTable(zs, prefix, rule).Some?
    ensures var t := PivotTable(zs, prefix, rule).value;
            var n := |t.isos|;
            && |t.columns| == 2 * n + 2
            && (forall c :: 0 <= c < n ==> t.columns[c] == prefix + "_" + IntToString(t.isos[c]))
            && t.columns[n] == prefix + "_TOT"
            && (forall c :: 0 <= c < n ==> t.columns[n + 1 + c] == prefix + "_prct" + IntToString(t.isos[c]))
            && t.columns[2 * n + 1] == prefix + "_prctTOT"
  {
    var t := PivotTable(zs, prefix, rule).value;
    assert t.columns == Columns(prefix, t.isos);
    ColumnLayout(prefix, t.isos);
  }

  /** Each cell of the per-band table is 0 for a (facility, isochrone) pair
      without rows and otherwise the smallest `sum` among that pair's rows. */
  lemma PopTableCell(zs: seq<Zone>, prefix: string, i: int, c: int)
    requires 0 <= i < |PopTable(zs, prefix).rows| && 0 <= c < |PopTable(zs, prefix).isos|
    ensures var t := PopTable(zs, prefix);
            var hf, iso, v := t.rows[i].hf, t.isos[c], t.rows[i].bands[c];
            && ((forall z :: z in zs ==> !At(z, hf, iso)) ==> v == 0.0)
            && ((exists z :: z in zs && At(z, hf, iso)) ==>
                  (exists z :: z in zs && At(z, hf, iso) && z.sum == v) &&
                  (forall z :: z in zs && At(z, hf, iso) ==> v <= z.sum))
  {
    var t := PivotTable(Sort(zs), prefix, SumOfBands).value;
    assert PopTable(zs, prefix) == t;
    PivotCell(Sort(zs), prefix, SumOfBands, i, c);
    SortMembers(zs);
  }

  /** The per-band total is the sum of the row's isochrone columns; when it
      is not zero the total column is 100 % and the isochrone percentages
      add up to 100; when it is zero no percentage is defined. */
  lemma PopTablePercents(zs: seq<Zone>, prefix: string, i: int)
    requires 0 <= i < |PopTable(zs, prefix).rows|
    ensures var row := PopTable(zs, prefix).rows[i];
            && row.total == Sum(row.bands)
            && (row.total != 0.0 ==>
                  && row.totalPercent == Some(100.0)
                  && PercentSum(row.bandPercents) == 100.0
                  && forall c :: 0 <= c < |row.bands| ==> row.bandPercents[c] == Percent(row.bands[c], row.total))
            && (row.total == 0.0 ==>
                  && row.totalPercent == None
                  && forall c :: 0 <= c < |row.bands| ==> row.bandPercents[c] == None)
  {
    assert PopTable(zs, prefix) == PivotTable(Sort(zs), prefix, SumOfBands).value;
    TableRowPercents(Sort(zs), prefix, SumOfBands, i);
  }

  /** A pair of the cumulated sorted rows, taken at its own row `k`. */
  lemma CumulatedCellAt(zs: seq<Zone>, k: int)
    requires UniqueKeys(zs) && 0 <= k < |zs|
    ensures var s := Sort(zs);
            Cell(Cumulate(s), s[k].hf, s[k].iso) == Band(zs, s[k].hf, s[k].iso)
  {
    var s := Sort(zs);
    SortUnique(zs);
    CumulateUnique(s);
    MinSumUnique(Cumulate(s), k);
    CumulativeOfInput(zs, k);
  }

  /** A pair without rows stays without rows after sorting and cumulating. */
  lemma CumulatedCellAbsent(zs: seq<Zone>, hf: int, iso: int)
    requires forall z :: z in zs ==> !At(z, hf, iso)
    ensures Cell(Cumulate(Sort(zs)), hf, iso) == 0.0
  {
    var s := Sort(zs);
    var cz := Cumulate(s);
    SortMembers(zs);
    forall y | y in cz ensures !At(y, hf, iso) {
      var k :| 0 <= k < |cz| && cz[k] == y;
      assert s[k] in s;
    }
  }

  /** With distinct pairs in the input, the `fill_value=0` minimum of a
      pair in the cumulated sorted rows is the facility's population up to
      that isochrone when the pair has a row, and 0 otherwise. */
  lemma CumulatedCell(zs: seq<Zone>, hf: int, iso: int)
    requires UniqueKeys(zs)
    ensures Cell(Cumulate(Sort(zs)), hf, iso) == if exists z :: z in zs && At(z, hf, iso) then Band(zs, hf, iso) else 0.0
  {
    if exists z :: z in zs && At(z, hf, iso) {
      var z :| z in zs && At(z, hf, iso);
      SortMembers(zs);
      assert z in Sort(zs);
      var k :| 0 <= k < |zs| && Sort(zs)[k] == z;
      CumulatedCellAt(zs, k);
    } else {
      CumulatedCellAbsent(zs, hf, iso);
    }
  }

  /** With distinct (facility, isochrone) pairs in the input, a cell of the
      cumulative table is the facility's population over all isochrones up
      to the column's, when the facility has a row for that isochrone, and 0
      otherwise. */
  lemma CumulPopTableCell(zs: seq<Zone>, prefix: string, i: int, c: int)
    requires UniqueKeys(zs) && |zs| > 0
    requires 0 <= i < |CumulPopTable(zs, prefix).value.rows| && 0 <= c < |CumulPopTable(zs, prefix).value.isos|
    ensures var t := CumulPopTable(zs, prefix).value;
            var hf, iso := t.rows[i].hf, t.isos[c];
            t.rows[i].bands[c] == if exists z :: z in zs && At(z, hf, iso) then Band(zs, hf, iso) else 0.0
  {
    var cz := Cumulate(Sort(zs));
    assert CumulPopTable(zs, prefix) == PivotTable(cz, prefix, LastBand);
    var t := CumulPopTable(zs, prefix).value;
    PivotCell(cz, prefix, LastBand, i, c);
    CumulatedCell(zs, t.rows[i].hf, t.isos[c]);
  }

  /** With distinct pairs and non-negative populations, a facility's values
      do not decrease along the isochrones it has rows for. */
  lemma CumulPopTableMonotone(zs: seq<Zone>, prefix: string, i: int, c1: int, c2: int)
    requires UniqueKeys(zs) && |zs| > 0
    requires forall k :: 0 <= k < |zs| ==> zs[k].sum >= 0.0
    requires var t := CumulPopTable(zs, prefix).value;
             && 0 <= i < |t.rows| && 0 <= c1 < c2 < |t.isos|
             && (exists z :: z in zs && At(z, t.rows[i].hf, t.isos[c1]))
             && (exists z :: z in zs && At(z, t.rows[i].hf, t.isos[c2]))
    ensures var t := CumulPopTable(zs, prefix).value;
            t.rows[i].bands[c1] <= t.rows[i].bands[c2]
  {
    var t := CumulPopTable(zs, prefix).value;
    CumulPopTableCell(zs, prefix, i, c1);
    CumulPopTableCell(zs, prefix, i, c2);
    BandMonotone(zs, t.rows[i].hf, t.isos[c1], t.isos[c2]);
  }

  /** The cumulative total is the value of the highest isochrone column
      (0 when the facility has no row there); when it is not zero the total
      column is 100 %. */
  lemma CumulPopTableTotal(zs: seq<Zone>, prefix: string, i: int)
    requires |zs| > 0
    requires 0 <= i < |CumulPopTable(zs, prefix).value.rows|
    ensures var t := CumulPopTable(zs, prefix).value;
            var row, n := t.rows[i], |t.isos|;
            && n > 0
            && (forall c :: 0 <= c < n ==> t.isos[c] <= t.isos[n - 1])
            && row.total == row.bands[n - 1]
            && (row.total != 0.0 ==> row.totalPercent == Some(100.0))
  {
    var t := CumulPopTable(zs, prefix).value;
    PivotRow(Cumulate(Sort(zs)), prefix, LastBand, i);
  }

  // ---------------------------------------------------------------------
  // The cumulative total of a facility without a zone in the last band
  // ---------------------------------------------------------------------

  /** As written, the cumulative total of a facility that has no zone in
      the highest isochrone is the 0 filled into that cell, whatever the
      facility's population, and its percentages are undefined. */
  lemma CumulTotalAsWritten(zs: seq<Zone>, prefix: string, i: int)
    requires UniqueKeys(zs) && |zs| > 0
    requires var t := CumulPopTable(zs, prefix).value;
             0 <= i < |t.rows| && !HasPair(zs, t.rows[i].hf, t.isos[|t.isos| - 1])
    ensures var t := CumulPopTable(zs, prefix).value;
            t.rows[i].total == 0.0 && t.rows[i].totalPercent == None
  {
    var t := CumulPopTable(zs, prefix).value;
    CumulPopTableTotal(zs, prefix, i);
    CumulPopTableCell(zs, prefix, i, |t.isos| - 1);
    PivotRow(Cumulate(Sort(zs)), prefix, LastBand, i);
  }

  /** The same, stated through an isochrone `top` that bounds all of the
      rows: a facility without a row at `top` has a line in the table, and
      its total is 0. */
  lemma CumulTotalWithoutTop(zs: seq<Zone>, prefix: string, top: int, hf: int)
    requires UniqueKeys(zs) && |zs| > 0
    requires HasIso(zs, top) && forall k :: 0 <= k < |zs| ==> zs[k].iso <= top
    requires HasFacility(zs, hf) && !HasPair(zs, hf, top)
    ensures var t := CumulPopTable(zs, prefix).value;
            && HasRow(t, hf)
            && forall i :: 0 <= i < |t.rows| && t.rows[i].hf == hf ==> t.rows[i].total == 0.0
  {
    var t := CumulPopTable(zs, prefix).value;
    forall i | 0 <= i < |t.rows| && t.rows[i].hf == hf
      ensures t.rows[i].total == 0.0
    {
      CumulPopTableTotal(zs, prefix, i);
      var last := t.isos[|t.isos| - 1];
      assert top in t.isos;
      assert HasIso(zs, last);
      var z :| z in zs && z.iso == last;
      CumulTotalAsWritten(zs, prefix, i);
    }
  }

  /** Two zones: facility `h1` reaches only band `lo` and facility `h2`
      only the higher band `hi`. Facility `h1` has a positive population
      but a total of 0. */
  lemma CumulTotalCounterexample(h1: int, h2: int, lo: int, hi: int, p: real, q: real)
    requires h1 != h2 && lo < hi && p > 0.0
    ensures var zs := [Zone(h1, lo, p), Zone(h2, hi, q)];
            var t := CumulPopTable(zs, "POP").value;
            && HasRow(t, h1)
            && HfSum(zs, h1) == p
            && forall i :: 0 <= i < |t.rows| && t.rows[i].hf == h1 ==> t.rows[i].total == 0.0
  {
    var zs := [Zone(h1, lo, p), Zone(h2, hi, q)];
    assert zs[0] in zs && zs[1] in zs;
    assert zs[1..] == [zs[1]] && zs[1..][1..] == [];
    assert HfSum(zs[1..], h1) == 0.0;
    CumulTotalWithoutTop(zs, "POP", hi, h1);
  }

  /** The cumulative table as evidently intended: every isochrone column
      holds the facility's population up to that isochrone, whether or not
      the facility has a zone in it, and the total is the last column. */
  function IntendedCumulTable(zs: seq<Zone>, prefix: string): (r: Option<Table>)
    ensures r.Some? <==> |zs| > 0
    ensures r.Some? ==> Increasing(r.value.isos) && |r.value.isos| > 0
    ensures r.Some? ==> forall iso :: iso in r.value.isos <==> HasIso(zs, iso)
    ensures r.Some? ==> forall hf :: HasRow(r.value, hf) <==> HasFacility(zs, hf)
    ensures r.Some? ==> forall k :: 0 <= k < |r.value.rows| ==> IntendedShape(zs, r.value.isos, r.value.rows[k])
    ensures r.Some? ==> forall i, j :: 0 <= i < j < |r.value.rows| ==> r.value.rows[i].hf < r.value.rows[j].hf
    ensures r.Some? ==> r.value.columns == Columns(prefix, r.value.isos)
  {
    var isos := Distinct(IsoValues(zs));
    var hfs := Distinct(FacilityIds(zs));
    if |zs| == 0 then None
    else
      assert zs[0] in zs;
      assert zs[0].iso in isos;
      var t := Table(isos, Columns(prefix, isos), IntendedRows(zs, isos, hfs));
      assert forall hf :: HasRow(t, hf) <==> hf in hfs by {
        forall hf ensures HasRow(t, hf) <==> hf in hfs {
          if hf in hfs {
            var k :| 0 <= k < |hfs| && hfs[k] == hf;
            assert t.rows[k].hf == hf;
          }
        }
      }
      Some(t)
  }

  /** A row whose every column holds the facility's population up to that
      column's isochrone and whose total is the last column. */
  predicate IntendedShape(zs: seq<Zone>, isos: seq<int>, row: Row)
    requires |isos| > 0
  {
    && |row.bands| == |isos|
    && (forall c :: 0 <= c < |isos| ==> row.bands[c] == Band(zs, row.hf, isos[c]))
    && row.total == row.bands[|isos| - 1]
  }

  function IntendedRows(zs: seq<Zone>, isos: seq<int>, hfs: seq<int>): (rows: seq<Row>)
    requires |isos| > 0
    ensures |rows| == |hfs|
    ensures forall k :: 0 <= k < |hfs| ==> rows[k].hf == hfs[k] && IntendedShape(zs, isos, rows[k])
  {
    if |hfs| == 0 then [] else [IntendedRow(zs, isos, hfs[0])] + IntendedRows(zs, isos, hfs[1..])
  }

  lemma {:induction false} IntendedRowsAt(zs: seq<Zone>, isos: seq<int>, hfs: seq<int>, k: int)
    requires |isos| > 0 && 0 <= k < |hfs|
    ensures IntendedRows(zs, isos, hfs)[k] == IntendedRow(zs, isos, hfs[k])
    decreases k
  {
    var head, tail := IntendedRow(zs, isos, hfs[0]), IntendedRows(zs, isos, hfs[1..]);
    assert IntendedRows(zs, isos, hfs) == [head] + tail;
    if k > 0 {
      IntendedRowsAt(zs, isos, hfs[1..], k - 1);
      assert hfs[1..][k - 1] == hfs[k];
    }
  }

  /** The population of facility `hf` up to each isochrone. */
  function Bands(zs: seq<Zone>, hf: int, isos: seq<int>): (r: seq<real>)
    ensures |r| == |isos|
    ensures forall c :: 0 <= c < |isos| ==> r[c] == Band(zs, hf, isos[c])
  {
    if |isos| == 0 then [] else [Band(zs, hf, isos[0])] + Bands(zs, hf, isos[1..])
  }

  function IntendedRow(zs: seq<Zone>, isos: seq<int>, hf: int): (r: Row)
    requires |isos| > 0
    ensures r.hf == hf && |r.bandPercents| == |isos| && IntendedShape(zs, isos, r)
  {
    var bands := Bands(zs, hf, isos);
    var total := bands[|bands| - 1];
    Row(hf, bands, total, Percents(bands, total), Percent(total, total))
  }

  /** When the columns are increasing and cover every isochrone of the
      rows, the last column of an intended row holds all of the facility's
      population. */
  lemma IntendedRowTotal(zs: seq<Zone>, isos: seq<int>, row: Row)
    requires |isos| > 0 && Increasing(isos)
    requires forall k :: 0 <= k < |zs| ==> zs[k].iso in isos
    requires IntendedShape(zs, isos, row)
    ensures row.total == HfSum(zs, row.hf)
  {
    var n := |isos|;
    forall k | 0 <= k < |zs| && zs[k].hf == row.hf
      ensures zs[k].iso <= isos[n - 1]
    {
      var c :| 0 <= c < n && isos[c] == zs[k].iso;
      assert c == n - 1 || isos[c] < isos[n - 1];
    }
    BandWhole(zs, row.hf, isos[n - 1]);
  }

  /** With non-negative populations an intended row never decreases from
      one column to a later one. */
  lemma IntendedRowMonotone(zs: seq<Zone>, isos: seq<int>, row: Row, c1: int, c2: int)
    requires |isos| > 0 && Increasing(isos)
    requires forall k :: 0 <= k < |zs| ==> zs[k].sum >= 0.0
    requires IntendedShape(zs, isos, row)
    requires 0 <= c1 < c2 < |isos|
    ensures row.bands[c1] <= row.bands[c2]
  {
    BandMonotone(zs, row.hf, isos[c1], isos[c2]);
  }

  /** In the intended table every facility's total is its whole
      population. */
  lemma IntendedCumulTotal(zs: seq<Zone>, prefix: string, t: Table, i: int)
    requires IntendedCumulTable(zs, prefix) == Some(t)
    requires 0 <= i < |t.rows|
    ensures t.rows[i].total == HfSum(zs, t.rows[i].hf)
  {
    forall k | 0 <= k < |zs| ensures zs[k].iso in t.isos {
      assert zs[k] in zs;
    }
    IntendedRowTotal(zs, t.isos, t.rows[i]);
  }

  /** With non-negative populations the columns of the intended table never
      decrease. */
  lemma IntendedCumulMonotone(zs: seq<Zone>, prefix: string, t: Table, i: int, c1: int, c2: int)
    requires IntendedCumulTable(zs, prefix) == Some(t)
    requires 0 <= i < |t.rows| && 0 <= c1 < c2 < |t.isos|
    requires forall k :: 0 <= k < |zs| ==> zs[k].sum >= 0.0
    ensures t.rows[i].bands[c1] <= t.rows[i].bands[c2]
  {
    IntendedRowMonotone(zs, t.isos, t.rows[i], c1, c2);
  }

  /** The percentages of the intended table are taken against the row's
      total, like those of the table as written. */
  lemma IntendedCumulPercents(zs: seq<Zone>, prefix: string, t: Table, i: int)
    requires IntendedCumulTable(zs, prefix) == Some(t)
    requires 0 <= i < |t.rows|
    ensures |t.rows[i].bandPercents| == |t.isos|
    ensures forall c :: 0 <= c < |t.isos| ==> t.rows[i].bandPercents[c] == Percent(t.rows[i].bands[c], t.rows[i].total)
    ensures t.rows[i].total != 0.0 ==> t.rows[i].totalPercent == Some(100.0)
  {
    var isos, hfs := Distinct(IsoValues(zs)), Distinct(FacilityIds(zs));
    assert t.rows == IntendedRows(zs, isos, hfs);
    IntendedRowsAt(zs, isos, hfs, i);
  }

  /** Both tables have the same isochrone columns, and where the facility
      has a zone the table as written and the intended one agree. */
  lemma IntendedAgreesWhereZoned(zs: seq<Zone>, prefix: string, i: int, c: int)
    requires UniqueKeys(zs) && |zs| > 0
    requires 0 <= i < |CumulPopTable(zs, prefix).value.rows| && 0 <= c < |CumulPopTable(zs, prefix).value.isos|
    requires HasPair(zs, CumulPopTable(zs, prefix).value.rows[i].hf, CumulPopTable(zs, prefix).value.isos[c])
    ensures var t, u := CumulPopTable(zs, prefix).value, IntendedCumulTable(zs, prefix).value;
            && t.isos == u.isos
            && forall j :: 0 <= j < |u.rows| && u.rows[j].hf == t.rows[i].hf ==> u.rows[j].bands[c] == t.rows[i].bands[c]
  {
    var t, u := CumulPopTable(zs, prefix).value, IntendedCumulTable(zs, prefix).value;
    IncreasingSame(t.isos, u.isos);
    var hf, iso := t.rows[i].hf, t.isos[c];
    CumulPopTableCell(zs, prefix, i, c);
    var z :| z in zs && z.hf == hf && z.iso == iso;
    assert At(z, hf, iso);
    forall j | 0 <= j < |u.rows| && u.rows[j].hf == hf
      ensures u.rows[j].bands[c] == t.rows[i].bands[c]
    {
      assert IntendedShape(zs, u.isos, u.rows[j]);
    }
  }

  // ---------------------------------------------------------------------
  // The per-band total is the whole population
  // ---------------------------------------------------------------------

  /** The per-isochrone contributions of one zone to facility `hf`: its `sum`
      in the column of its own pair, 0 elsewhere. */
  function ZoneCells(z: Zone, hf: int, isos: seq<int>): (r: seq<real>)
    ensures |r| == |isos|
    ensures forall c :: 0 <= c < |isos| ==> r[c] == if At(z, hf, isos[c]) then z.sum else 0.0
  {
    if |isos| == 0 then [] else [if At(z, hf, isos[0]) then z.sum else 0.0] + ZoneCells(z, hf, isos[1..])
  }

  /** Population of facility `hf` over its rows whose isochrone is a column. */
  function HfSumOver(zs: seq<Zone>, hf: int, isos: seq<int>): real
  {
    if |zs| == 0 then 0.0
    else (if zs[0].hf == hf && zs[0].iso in isos then zs[0].sum else 0.0) + HfSumOver(zs[1..], hf, isos)
  }

  /** Over distinct columns, one zone contributes its `sum` once or not at all. */
  lemma {:induction false} SumZoneCells(z: Zone, hf: int, isos: seq<int>)
    requires Increasing(isos)
    ensures Sum(ZoneCells(z, hf, isos)) == if z.hf == hf && z.iso in isos then z.sum else 0.0
    decreases |isos|
  {
    if |isos| > 0 {
      SumZoneCells(z, hf, isos[1..]);
      assert ZoneCells(z, hf, isos)[1..] == ZoneCells(z, hf, isos[1..]);
      assert forall x :: x in isos <==> x == isos[0] || x in isos[1..];
      if z.iso == isos[0] {
        assert z.iso !in isos[1..];
      }
    }
  }

  /** The sum of a pointwise sum is the sum of the sums. */
  lemma {:induction false} SumPointwise(a: seq<real>, b: seq<real>, ab: seq<real>)
    requires |a| == |b| == |ab|
    requires forall k :: 0 <= k < |ab| ==> ab[k] == a[k] + b[k]
    ensures Sum(ab) == Sum(a) + Sum(b)
    decreases |a|
  {
    if |a| > 0 {
      SumPointwise(a[1..], b[1..], ab[1..]);
    }
  }

  lemma {:induction false} SumCellsEmpty(hf: int, isos: seq<int>)
    ensures Sum(Cells([], hf, isos)) == 0.0
    decreases |isos|
  {
    if |isos| > 0 {
      SumCellsEmpty(hf, isos[1..]);
      assert Cells([], hf, isos)[1..] == Cells([], hf, isos[1..]);
    }
  }

  /** With distinct pairs, a facility's per-band cells add up to its
      population over the columns' isochrones. */
  lemma {:induction false} SumCells(zs: seq<Zone>, hf: int, isos: seq<int>)
    requires UniqueKeys(zs) && Increasing(isos)
    ensures Sum(Cells(zs, hf, isos)) == HfSumOver(zs, hf, isos)
    decreases |zs|
  {
    if |zs| == 0 {
      SumCellsEmpty(hf, isos);
    } else {
      var z, rest := zs[0], zs[1..];
      assert UniqueKeys(rest) by {
        forall i, j | 0 <= i < j < |rest| ensures !SameKey(rest[i], rest[j]) {
          assert rest[i] == zs[i + 1] && rest[j] == zs[j + 1];
        }
      }
      SumCells(rest, hf, isos);
      var a, b := ZoneCells(z, hf, isos), Cells(rest, hf, isos);
      forall c | 0 <= c < |isos|
        ensures Cells(zs, hf, isos)[c] == a[c] + b[c]
      {
        var iso := isos[c];
        if At(z, hf, iso) {
          forall y | y in rest ensures !At(y, hf, iso) {
            var j :| 0 <= j < |rest| && rest[j] == y;
            assert !SameKey(zs[0], zs[j + 1]);
          }
        }
      }
      SumPointwise(a, b, Cells(zs, hf, isos));
      SumZoneCells(z, hf, isos);
    }
  }

  /** When every row's isochrone is a column, the population over the
      columns is the whole population. */
  lemma {:induction false} HfSumOverAll(zs: seq<Zone>, hf: int, isos: seq<int>)
    requires forall k :: 0 <= k < |zs| ==> zs[k].iso in isos
    ensures HfSumOver(zs, hf, isos) == HfSum(zs, hf)
    decreases |zs|
  {
    if |zs| > 0 {
      HfSumOverAll(zs[1..], hf, isos);
    }
  }

  /** Sorting keeps every facility's whole population. */
  lemma SortHfSum(zs: seq<Zone>, hf: int, top: int)
    requires forall k :: 0 <= k < |zs| ==> zs[k].iso <= top
    ensures HfSum(Sort(zs), hf) == HfSum(zs, hf)
  {
    var s := Sort(zs);
    SortMembers(zs);
    forall k | 0 <= k < |s| ensures s[k].iso <= top {
      assert s[k] in s;
      var j :| 0 <= j < |zs| && zs[j] == s[k];
    }
    BandWhole(s, hf, top);
    BandWhole(zs, hf, top);
    BandSort(zs, hf, top);
  }

  /** On sorted rows with distinct pairs, a per-band line's total is the
      facility's population in those rows. */
  lemma PivotRowTotal(s: seq<Zone>, prefix: string, i: int)
    requires UniqueKeys(s)
    requires 0 <= i < |PivotTable(s, prefix, SumOfBands).value.rows|
    ensures var t := PivotTable(s, prefix, SumOfBands).value;
            t.rows[i].total == HfSum(s, t.rows[i].hf)
  {
    var t := PivotTable(s, prefix, SumOfBands).value;
    PivotRow(s, prefix, SumOfBands, i);
    forall k | 0 <= k < |s| ensures s[k].iso in t.isos {
      assert HasIso(s, s[k].iso);
    }
    SumCells(s, t.rows[i].hf, t.isos);
    HfSumOverAll(s, t.rows[i].hf, t.isos);
  }

  /** When the columns are exactly the rows' isochrones, in increasing
      order, no row's isochrone lies beyond the last column. */
  lemma BelowLastColumn(zs: seq<Zone>, isos: seq<int>)
    requires |zs| > 0 && Increasing(isos)
    requires forall iso :: iso in isos <==> HasIso(zs, iso)
    ensures |isos| > 0 && forall k :: 0 <= k < |zs| ==> zs[k].iso <= isos[|isos| - 1]
  {
    assert HasIso(zs, zs[0].iso);
    forall k | 0 <= k < |zs| ensures zs[k].iso <= isos[|isos| - 1] {
      assert HasIso(zs, zs[k].iso);
      var c :| 0 <= c < |isos| && isos[c] == zs[k].iso;
      assert c == |isos| - 1 || isos[c] < isos[|isos| - 1];
    }
  }

  /** Line 75: with distinct pairs, the per-band `<p>_TOT` of a facility is
      its whole population. */
  lemma PopTableTotal(zs: seq<Zone>, prefix: string, i: int)
    requires UniqueKeys(zs)
    requires 0 <= i < |PopTable(zs, prefix).rows|
    ensures PopTable(zs, prefix).rows[i].total == HfSum(zs, PopTable(zs, prefix).rows[i].hf)
  {
    var t, s := PopTable(zs, prefix), Sort(zs);
    assert t == PivotTable(s, prefix, SumOfBands).value;
    SortUnique(zs);
    PivotRowTotal(s, prefix, i);
    var hf := t.rows[i].hf;
    assert HasFacility(zs, hf);
    BelowLastColumn(zs, t.isos);
    SortHfSum(zs, hf, t.isos[|t.isos| - 1]);
  }

  /** The corrected cumulative total of a facility equals its per-band
      total: both are its whole population. */
  lemma IntendedTotalIsPopTotal(zs: seq<Zone>, prefix: string, t: Table, i: int, j: int)
    requires UniqueKeys(zs)
    requires IntendedCumulTable(zs, prefix) == Some(t) && 0 <= i < |t.rows|
    requires 0 <= j < |PopTable(zs, prefix).rows| && PopTable(zs, prefix).rows[j].hf == t.rows[i].hf
    ensures t.rows[i].total == PopTable(zs, prefix).rows[j].total
  {
    IntendedCumulTotal(zs, prefix, t, i);
    PopTableTotal(zs, prefix, j);
  }

  /** As written, the cumulative total of a facility that has a zone in the
      highest isochrone equals its per-band total. */
  lemma CumulTotalIsPopTotal(zs: seq<Zone>, prefix: string, i: int, j: int)
    requires UniqueKeys(zs) && |zs| > 0
    requires var t := CumulPopTable(zs, prefix).value;
             0 <= i < |t.rows| && HasPair(zs, t.rows[i].hf, t.isos[|t.isos| - 1])
    requires 0 <= j < |PopTable(zs, prefix).rows| && PopTable(zs, prefix).rows[j].hf == CumulPopTable(zs, prefix).value.rows[i].hf
    ensures CumulPopTable(zs, prefix).value.rows[i].total == PopTable(zs, prefix).rows[j].total
  {
    var t, u := CumulPopTable(zs, prefix).value, IntendedCumulTable(zs, prefix).value;
    var n, hf := |t.isos|, t.rows[i].hf;
    CumulPopTableTotal(zs, prefix, i);
    IntendedAgreesWhereZoned(zs, prefix, i, n - 1);
    assert HasFacility(zs, hf) by {
      var z :| z in zs && z.hf == hf && z.iso == t.isos[n - 1];
      var k :| 0 <= k < |zs| && zs[k] == z;
    }
    var k :| 0 <= k < |u.rows| && u.rows[k].hf == hf;
    assert IntendedShape(zs, u.isos, u.rows[k]);
    IntendedTotalIsPopTotal(zs, prefix, u, k, j);
  }

  // ---------------------------------------------------------------------
  // The two functions
  // ---------------------------------------------------------------------

  /** The facilities and isochrones of the zones parsed from `rows` are
      exactly those named by the rows' labels. */
  lemma ParsedKeys(rows: seq<StatRow>)
    requires ParseRows(rows).Some?
    ensures forall hf :: HasFacility(ParseRows(rows).value, hf) <==> LabelFacility(rows, hf)
    ensures forall iso :: HasIso(ParseRows(rows).value, iso) <==> LabelIso(rows, iso)
  {
    var zs := ParseRows(rows).value;
    forall hf ensures HasFacility(zs, hf) <==> LabelFacility(rows, hf) {
      if HasFacility(zs, hf) {
        var k :| 0 <= k < |zs| && zs[k].hf == hf;
        assert ParseLabel(rows[k].text).value.0 == hf;
      }
      if LabelFacility(rows, hf) {
        var k :| 0 <= k < |rows| && ParseLabel(rows[k].text).Some? && ParseLabel(rows[k].text).value.0 == hf;
        assert zs[k].hf == hf;
      }
    }
    forall iso ensures HasIso(zs, iso) <==> LabelIso(rows, iso) {
      if HasIso(zs, iso) {
        var k :| 0 <= k < |zs| && zs[k].iso == iso;
        assert ParseLabel(rows[k].text).value.1 == iso;
      }
      if LabelIso(rows, iso) {
        var k :| 0 <= k < |rows| && ParseLabel(rows[k].text).Some? && ParseLabel(rows[k].text).value.1 == iso;
        assert zs[k].iso == iso;
      }
    }
  }

  /** Some row's label names the facility `hf`. */
  predicate LabelFacility(rows: seq<StatRow>, hf: int)
  {
    exists k :: 0 <= k < |rows| && ParseLabel(rows[k].text).Some? && ParseLabel(rows[k].text).value.0 == hf
  }

  /** Some row's label names the isochrone `iso`. */
  predicate LabelIso(rows: seq<StatRow>, iso: int)
  {
    exists k :: 0 <= k < |rows| && ParseLabel(rows[k].text).Some? && ParseLabel(rows[k].text).value.1 == iso
  }

  /** `GetCatchmentPopByISO` (lines 54-85). A label that does not parse
      raises, and so does a file without rows: pandas then applies the
      parser of line 65 to an empty row, and the frame that results cannot
      be assigned to one column. Both are `None`. The table of a successful
      call is described cell by cell by `PopTableCell` and, on the rows
      written for given zones, by `CatchmentPopOfZones`. */
  function CatchmentPopByIso(rows: seq<StatRow>, inFile: string, inSep: string, outFile: string, outSep: string, prefix: string): (r: Option<Output>)
    ensures r.Some? <==> ParseRows(rows).Some? && |rows| > 0
    ensures r.Some? ==> r.value.path == OutputPath(inFile, outFile) && r.value.sep == OutputSeparator(inSep, outSep)
    ensures r.Some? ==> forall hf :: HasRow(r.value.table, hf) <==> LabelFacility(rows, hf)
    ensures r.Some? ==> forall iso :: iso in r.value.table.isos <==> LabelIso(rows, iso)
  {
    match ParseRows(rows)
    case None => None
    case Some(zs) =>
      if |rows| == 0 then None
      else
        ParsedKeys(rows);
        Some(Output(OutputPath(inFile, outFile), OutputSeparator(inSep, outSep), PopTable(zs, prefix)))
  }

  /** `GetCatchmentCumulPopByISO` (lines 13-52) as written, with the total
      taken from the last column. A label that does not parse and a file
      without rows (line 24, as at line 65) raise, modelled as `None`. */
  function CatchmentCumulPopByIso(rows: seq<StatRow>, inFile: string, inSep: string, outFile: string, outSep: string, prefix: string): (r: Option<Output>)
    ensures r.Some? <==> ParseRows(rows).Some? && |rows| > 0
    ensures r.Some? ==> r.value.path == OutputPath(inFile, outFile) && r.value.sep == OutputSeparator(inSep, outSep)
    ensures r.Some? ==> forall hf :: HasRow(r.value.table, hf) <==> LabelFacility(rows, hf)
    ensures r.Some? ==> forall iso :: iso in r.value.table.isos <==> LabelIso(rows, iso)
  {
    match ParseRows(rows)
    case None => None
    case Some(zs) =>
      match CumulPopTable(zs, prefix)
      case None => None
      case Some(t) =>
        ParsedKeys(rows);
        Some(Output(OutputPath(inFile, outFile), OutputSeparator(inSep, outSep), t))
  }

  /** `GetCatchmentCumulPopByISO` with the cumulative table as intended:
      every column, and the total, count the facility's population up to
      that isochrone whether or not the facility has a zone there. */
  function IntendedCatchmentCumulPopByIso(rows: seq<StatRow>, inFile: string, inSep: string, outFile: string, outSep: string, prefix: string): (r: Option<Output>)
    ensures r.Some? <==> ParseRows(rows).Some? && |rows| > 0
    ensures r.Some? ==> r.value.path == OutputPath(inFile, outFile) && r.value.sep == OutputSeparator(inSep, outSep)
    ensures r.Some? ==> forall hf :: HasRow(r.value.table, hf) <==> LabelFacility(rows, hf)
    ensures r.Some? ==> forall iso :: iso in r.value.table.isos <==> LabelIso(rows, iso)
  {
    match ParseRows(rows)
    case None => None
    case Some(zs) =>
      match IntendedCumulTable(zs, prefix)
      case None => None
      case Some(t) =>
        ParsedKeys(rows);
        Some(Output(OutputPath(inFile, outFile), OutputSeparator(inSep, outSep), t))
  }

  /** The rows r.univar writes for the zones `zs`. */
  function ZoneRows(p1: string, p2: string, zs: seq<Zone>): (rows: seq<StatRow>)
    ensures |rows| == |zs|
  {
    seq(|zs|, k requires 0 <= k < |zs| => ZoneRow(p1, p2, zs[k]))
  }

  /** On the rows written for a set of zones, the per-band function fails
      when there are none and otherwise writes the per-band table of exactly
      those zones. */
  lemma CatchmentPopOfZones(p1: string, p2: string, zs: seq<Zone>, inFile: string, inSep: string, outFile: string, outSep: string, prefix: string)
    requires ';' !in p1 && (|p1| == 0 || p1[|p1| - 1] == ' ')
    requires ';' !in p2 && (|p2| == 0 || p2[|p2| - 1] == ' ')
    ensures CatchmentPopByIso(ZoneRows(p1, p2, zs), inFile, inSep, outFile, outSep, prefix)
      == if |zs| == 0 then None
         else Some(Output(OutputPath(inFile, outFile), OutputSeparator(inSep, outSep), PopTable(zs, prefix)))
  {
    ParseRowsRoundTrip(p1, p2, zs);
  }

  /** The same for the cumulative function as written: it fails when there
      are no zones and otherwise writes the as-written cumulative table. */
  lemma CatchmentCumulOfZones(p1: string, p2: string, zs: seq<Zone>, inFile: string, inSep: string, outFile: string, outSep: string, prefix: string)
    requires ';' !in p1 && (|p1| == 0 || p1[|p1| - 1] == ' ')
    requires ';' !in p2 && (|p2| == 0 || p2[|p2| - 1] == ' ')
    ensures CatchmentCumulPopByIso(ZoneRows(p1, p2, zs), inFile, inSep, outFile, outSep, prefix)
      == if |zs| == 0 then None
         else Some(Output(OutputPath(inFile, outFile), OutputSeparator(inSep, outSep), CumulPopTable(zs, prefix).value))
  {
    ParseRowsRoundTrip(p1, p2, zs);
  }

  /** On the rows written for a non-empty set of zones, the corrected
      cumulative function writes one line per facility whose total is the
      facility's whole population. */
  lemma IntendedCatchmentCumulTotals(p1: string, p2: string, zs: seq<Zone>, inFile: string, inSep: string, outFile: string, outSep: string, prefix: string, i: int)
    requires ';' !in p1 && (|p1| == 0 || p1[|p1| - 1] == ' ')
    requires ';' !in p2 && (|p2| == 0 || p2[|p2| - 1] == ' ')
    requires |zs| > 0
    ensures var r := IntendedCatchmentCumulPopByIso(ZoneRows(p1, p2, zs), inFile, inSep, outFile, outSep, prefix);
            && r.Some?
            && (forall hf :: HasRow(r.value.table, hf) <==> HasFacility(zs, hf))
            && (0 <= i < |r.value.table.rows| ==> r.value.table.rows[i].total == HfSum(zs, r.value.table.rows[i].hf))
  {
    ParseRowsRoundTrip(p1, p2, zs);
    var t := IntendedCumulTable(zs, prefix).value;
    if 0 <= i < |t.rows| {
      IntendedCumulTotal(zs, prefix, t, i);
    }
  }
}
