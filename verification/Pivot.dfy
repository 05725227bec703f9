/** The facility × isochrone table built by `pd.pivot_table`, its total
    column and its percentage columns
    (LIBS/csv_pivotingtable_catchmentpop.py, lines 38-47 and 71-80). */
module Pivot {
  import opened Wrappers
  import opened Strings
  import opened Zones

  /** How the `<prefix>_TOT` column is formed: the sum of the isochrone
      columns (line 75) or the last of them (line 42). */
  datatype TotalRule = SumOfBands | LastBand

  /** One facility's line of the table: a value per isochrone column, the
      total, and the percentage of the total in each isochrone column and in
      the total column. */
  datatype Row = Row(hf: int, bands: seq<real>, total: real, bandPercents: seq<Option<real>>, totalPercent: Option<real>)

  /** The isochrone values of the columns, the column names in order, and
      one row per facility. */
  datatype Table = Table(isos: seq<int>, columns: seq<string>, rows: seq<Row>)

  /** The table has a row for facility `hf`. */
  predicate HasRow(t: Table, hf: int)
  {
    exists k :: 0 <= k < |t.rows| && t.rows[k].hf == hf
  }

  predicate At(z: Zone, hf: int, iso: int)
  {
    z.hf == hf && z.iso == iso
  }

  /** `aggfunc=np.min` over the rows of one (facility, isochrone) pair;
      `None` when the pair has no row. */
  function MinSum(zs: seq<Zone>, hf: int, iso: int): (r: Option<real>)
    ensures r.None? <==> forall z :: z in zs ==> !At(z, hf, iso)
    ensures r.Some? ==> exists z :: z in zs && At(z, hf, iso) && z.sum == r.value
    ensures r.Some? ==> forall z :: z in zs && At(z, hf, iso) ==> r.value <= z.sum
  {
    if |zs| == 0 then None
    else
      var rest := MinSum(zs[1..], hf, iso);
      assert forall z :: z in zs <==> z == zs[0] || z in zs[1..];
      if !At(zs[0], hf, iso) then rest
      else if rest.Some? && rest.value < zs[0].sum then rest
      else Some(zs[0].sum)
  }

  /** With distinct keys, the value of a pair is the `sum` of its one row. */
  lemma MinSumUnique(zs: seq<Zone>, k: int)
    requires UniqueKeys(zs) && 0 <= k < |zs|
    ensures MinSum(zs, zs[k].hf, zs[k].iso) == Some(zs[k].sum)
  {
    var m := MinSum(zs, zs[k].hf, zs[k].iso);
    assert zs[k] in zs;
    var z :| z in zs && At(z, zs[k].hf, zs[k].iso) && z.sum == m.value;
    var j :| 0 <= j < |zs| && zs[j] == z;
    assert j == k;
  }

  /** A table cell: the minimum with `fill_value=0`. */
  function Cell(zs: seq<Zone>, hf: int, iso: int): real
  {
    MinSum(zs, hf, iso).GetOr(0.0)
  }

  function Sum(xs: seq<real>): real
  {
    if |xs| == 0 then 0.0 else xs[0] + Sum(xs[1..])
  }

  /** `value/total*100`; a zero total (NaN or infinity in pandas) is `None`. */
  function Percent(v: real, total: real): (r: Option<real>)
    ensures r.Some? <==> total != 0.0
    ensures r.Some? ==> r.value * total == v * 100.0
  {
    if total == 0.0 then None else Some(v / total * 100.0)
  }

  function Percents(vs: seq<real>, total: real): (r: seq<Option<real>>)
    ensures |r| == |vs|
    ensures forall c :: 0 <= c < |vs| ==> r[c] == Percent(vs[c], total)
  {
    if |vs| == 0 then [] else [Percent(vs[0], total)] + Percents(vs[1..], total)
  }

  /** The sum of the defined percentages. */
  function PercentSum(ps: seq<Option<real>>): real
  {
    if |ps| == 0 then 0.0 else ps[0].GetOr(0.0) + PercentSum(ps[1..])
  }

  /** The percentages of several values add up to the percentage of their
      sum. */
  lemma {:induction false} PercentsOfSum(vs: seq<real>, total: real)
    requires total != 0.0
    ensures PercentSum(Percents(vs, total)) == Sum(vs) / total * 100.0
    decreases |vs|
  {
    if |vs| > 0 {
      PercentsOfSum(vs[1..], total);
      var ps := Percents(vs, total);
      assert ps[1..] == Percents(vs[1..], total);
      calc {
        PercentSum(ps);
        vs[0] / total * 100.0 + Sum(vs[1..]) / total * 100.0;
        (vs[0] + Sum(vs[1..])) / total * 100.0;
      }
    }
  }

  // ---------------------------------------------------------------------
  // Column names
  // ---------------------------------------------------------------------

  /** Line 39: the column of an isochrone is the prefix, `_`, and the isochrone. */
  function IsoColumn(prefix: string, iso: int): string
  {
    prefix + "_" + IntToString(iso)
  }

  /** Line 42: the total column is the prefix followed by `_TOT`. */
  function TotalColumn(prefix: string): string
  {
    prefix + "_TOT"
  }

  /** Lines 46-47: the percentage column of a column is the prefix, `_prct`,
      and what follows the prefix and its `_` in that column's name. */
  function PercentColumn(prefix: string, name: string): string
  {
    prefix + "_prct" + PySuffix(name, |prefix| + 1)
  }

  /** One `<prefix>_<iso>` column per isochrone, in order. */
  function IsoColumns(prefix: string, isos: seq<int>): (cs: seq<string>)
    ensures |cs| == |isos|
    ensures forall c :: 0 <= c < |isos| ==> cs[c] == IsoColumn(prefix, isos[c])
  {
    if |isos| == 0 then [] else [IsoColumn(prefix, isos[0])] + IsoColumns(prefix, isos[1..])
  }

  /** One percentage column per named column, in order. */
  function PercentColumns(prefix: string, names: seq<string>): (cs: seq<string>)
    ensures |cs| == |names|
    ensures forall c :: 0 <= c < |names| ==> cs[c] == PercentColumn(prefix, names[c])
  {
    if |names| == 0 then [] else [PercentColumn(prefix, names[0])] + PercentColumns(prefix, names[1..])
  }

  /** The isochrone columns and the total, then one percentage column for
      each of them in the same order. */
  function Columns(prefix: string, isos: seq<int>): (cs: seq<string>)
    ensures |cs| == 2 * |isos| + 2
  {
    var names := IsoColumns(prefix, isos) + [TotalColumn(prefix)];
    names + PercentColumns(prefix, names)
  }

  /** Slicing off `<prefix>_` recovers the isochrone value or `TOT`, so the
      percentage columns are `<prefix>_prct<iso>` and `<prefix>_prctTOT`. */
  lemma ColumnLayout(prefix: string, isos: seq<int>)
    ensures var cs := Columns(prefix, isos);
            && (forall c :: 0 <= c < |isos| ==> cs[c] == prefix + "_" + IntToString(isos[c]))
            && cs[|isos|] == prefix + "_TOT"
            && (forall c :: 0 <= c < |isos| ==> cs[|isos| + 1 + c] == prefix + "_prct" + IntToString(isos[c]))
            && cs[2 * |isos| + 1] == prefix + "_prctTOT"
  {
    var names := IsoColumns(prefix, isos) + [TotalColumn(prefix)];
    assert forall c :: 0 <= c < |isos| ==> names[c] == IsoColumn(prefix, isos[c]);
    assert names[|isos|] == TotalColumn(prefix);
    forall c | 0 <= c < |isos|
      ensures PercentColumn(prefix, IsoColumn(prefix, isos[c])) == prefix + "_prct" + IntToString(isos[c])
    {
      assert IsoColumn(prefix, isos[c]) == (prefix + "_") + IntToString(isos[c]);
      PySuffixStripsPrefix(prefix + "_", IntToString(isos[c]));
    }
    assert TotalColumn(prefix) == (prefix + "_") + "TOT";
    PySuffixStripsPrefix(prefix + "_", "TOT");
  }

  // ---------------------------------------------------------------------
  // The table
  // ---------------------------------------------------------------------

  /** The cells of facility `hf`, one per isochrone. */
  function Cells(zs: seq<Zone>, hf: int, isos: seq<int>): (r: seq<real>)
    ensures |r| == |isos|
    ensures forall c :: 0 <= c < |isos| ==> r[c] == Cell(zs, hf, isos[c])
  {
    if |isos| == 0 then [] else [Cell(zs, hf, isos[0])] + Cells(zs, hf, isos[1..])
  }

  /** One facility's row: its cells, its total by the given rule, and the
      percentages (lines 42-47 or 75-80). */
  function MakeRow(zs: seq<Zone>, isos: seq<int>, hf: int, rule: TotalRule): (r: Row)
    requires rule == LastBand ==> |isos| > 0
    ensures r.hf == hf && |r.bands| == |isos| && |r.bandPercents| == |isos|
  {
    var bands := Cells(zs, hf, isos);
    var total := match rule
      case SumOfBands => Sum(bands)
      case LastBand => bands[|bands| - 1];
    Row(hf, bands, total, Percents(bands, total), Percent(total, total))
  }

  /** `pd.pivot_table(..., index='HF_cat', columns='ISO_cat')`: one row per
      distinct facility and one column per distinct isochrone, both in
      increasing order. The last-column rule on a table without columns is
      the IndexError of `iloc[:, -1]`. */
  function PivotTable(zs: seq<Zone>, prefix: string, rule: TotalRule): (r: Option<Table>)
    ensures r.None? <==> rule == LastBand && |zs| == 0
    ensures r.Some? ==> Increasing(r.value.isos)
    ensures r.Some? ==> forall iso :: iso in r.value.isos <==> HasIso(zs, iso)
    ensures r.Some? ==> forall i, j :: 0 <= i < j < |r.value.rows| ==> r.value.rows[i].hf < r.value.rows[j].hf
    ensures r.Some? ==> forall hf :: HasRow(r.value, hf) <==> HasFacility(zs, hf)
    ensures r.Some? ==> forall k :: 0 <= k < |r.value.rows| ==>
      |r.value.rows[k].bands| == |r.value.isos| && |r.value.rows[k].bandPercents| == |r.value.isos|
    ensures r.Some? ==> r.value.columns == Columns(prefix, r.value.isos)
  {
    var isos := Distinct(IsoValues(zs));
    var hfs := Distinct(FacilityIds(zs));
    assert |zs| == 0 <==> |isos| == 0 by {
      if |zs| > 0 {
        assert zs[0] in zs;
        assert zs[0].iso in isos;
      }
    }
    if rule == LastBand && |isos| == 0 then
      None
    else
      var t := Table(isos, Columns(prefix, isos), Rows(zs, isos, hfs, rule));
      assert forall hf :: HasRow(t, hf) <==> hf in hfs by {
        forall hf ensures HasRow(t, hf) <==> hf in hfs {
          if hf in hfs {
            var k :| 0 <= k < |hfs| && hfs[k] == hf;
            assert t.rows[k].hf == hf;
          }
        }
      }
      Some(t)
  }

  /** One row per facility, in the given order. */
  function Rows(zs: seq<Zone>, isos: seq<int>, hfs: seq<int>, rule: TotalRule): (rows: seq<Row>)
    requires rule == LastBand ==> |isos| > 0
    ensures |rows| == |hfs|
    ensures forall k :: 0 <= k < |hfs| ==> rows[k] == MakeRow(zs, isos, hfs[k], rule) && rows[k].hf == hfs[k]
  {
    if |hfs| == 0 then [] else [MakeRow(zs, isos, hfs[0], rule)] + Rows(zs, isos, hfs[1..], rule)
  }

  /** The rows of a table are made from its zones by `MakeRow`. */
  lemma PivotRow(zs: seq<Zone>, prefix: string, rule: TotalRule, i: int)
    requires PivotTable(zs, prefix, rule).Some?
    requires 0 <= i < |PivotTable(zs, prefix, rule).value.rows|
    ensures var t := PivotTable(zs, prefix, rule).value;
            t.rows[i] == MakeRow(zs, t.isos, t.rows[i].hf, rule)
  {
  }

  /** A cell of a table is the `fill_value=0` minimum of its pair. */
  lemma PivotCell(zs: seq<Zone>, prefix: string, rule: TotalRule, i: int, c: int)
    requires PivotTable(zs, prefix, rule).Some?
    requires 0 <= i < |PivotTable(zs, prefix, rule).value.rows|
    requires 0 <= c < |PivotTable(zs, prefix, rule).value.isos|
    ensures var t := PivotTable(zs, prefix, rule).value;
            t.rows[i].bands[c] == Cell(zs, t.rows[i].hf, t.isos[c])
  {
    PivotRow(zs, prefix, rule, i);
  }

  /** The total of a row follows its rule, the total column is 100 % of a
      non-zero total, each isochrone column is its share of that total, and
      with the sum rule the shares add up to 100. A zero total leaves every
      percentage undefined. */
  lemma MakeRowPercents(zs: seq<Zone>, isos: seq<int>, hf: int, rule: TotalRule)
    requires rule == LastBand ==> |isos| > 0
    ensures var row := MakeRow(zs, isos, hf, rule);
            && (rule == SumOfBands ==> row.total == Sum(row.bands))
            && (rule == LastBand ==> row.total == row.bands[|isos| - 1])
            && (row.total != 0.0 ==>
                  && row.totalPercent == Some(100.0)
                  && forall c :: 0 <= c < |isos| ==> row.bandPercents[c] == Percent(row.bands[c], row.total))
            && (row.total == 0.0 ==>
                  && row.totalPercent == None
                  && forall c :: 0 <= c < |isos| ==> row.bandPercents[c] == None)
            && (rule == SumOfBands && row.total != 0.0 ==> PercentSum(row.bandPercents) == 100.0)
  {
    var row := MakeRow(zs, isos, hf, rule);
    if rule == SumOfBands && row.total != 0.0 {
      PercentsOfSum(row.bands, row.total);
    }
  }

  /** `MakeRowPercents` for a row of a table. */
  lemma TableRowPercents(zs: seq<Zone>, prefix: string, rule: TotalRule, i: int)
    requires PivotTable(zs, prefix, rule).Some?
    requires 0 <= i < |PivotTable(zs, prefix, rule).value.rows|
    ensures var t := PivotTable(zs, prefix, rule).value;
            var row := t.rows[i];
            && |row.bands| == |t.isos|
            && (rule == SumOfBands ==> row.total == Sum(row.bands))
            && (rule == LastBand ==> row.total == row.bands[|t.isos| - 1])
            && (row.total != 0.0 ==>
                  && row.totalPercent == Some(100.0)
                  && forall c :: 0 <= c < |t.isos| ==> row.bandPercents[c] == Percent(row.bands[c], row.total))
            && (row.total == 0.0 ==>
                  && row.totalPercent == None
                  && forall c :: 0 <= c < |t.isos| ==> row.bandPercents[c] == None)
            && (rule == SumOfBands && row.total != 0.0 ==> PercentSum(row.bandPercents) == 100.0)
  {
    var t := PivotTable(zs, prefix, rule).value;
    PivotRow(zs, prefix, rule, i);
    MakeRowPercents(zs, t.isos, t.rows[i].hf, rule);
  }
}
