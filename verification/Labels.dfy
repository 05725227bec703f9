/** Reading the facility id and the isochrone value out of the `label`
    column that r.univar writes for each zone of the crossed map
    (LIBS/csv_pivotingtable_catchmentpop.py, lines 24-25 and 65-66; both
    functions of that file use this same parser). */
module Labels {
  import opened Wrappers
  import opened Strings
  import opened Zones

  /** One row of the statistics file: the text of its `label` column and its `sum`. */
  datatype StatRow = StatRow(text: string, sum: real)

  /** `field.split(" ")[-1]`: the last space-separated word. */
  function LastWord(field: string): (w: string)
    ensures ' ' !in w
  {
    var words := Split(field, ' ');
    words[|words| - 1]
  }

  /** The facility id is the integer of the last word of the first `;`
      field, and the isochrone the integer of the last word of the second. A
      label with a single field raises IndexError and one whose word is
      not an integer raises ValueError; both are `None`. */
  function ParseLabel(text: string): (r: Option<(int, int)>)
    ensures r.Some? ==> ';' in text
  {
    var fields := Split(text, ';');
    if |fields| < 2 then None
    else
      match (ParseInt(LastWord(fields[0])), ParseInt(LastWord(fields[1])))
      case (Some(hf), Some(iso)) => Some((hf, iso))
      case _ => None
  }

  /** A label without `;` has no second field. */
  lemma NoSecondField(text: string)
    requires ';' !in text
    ensures ParseLabel(text) == None
  {
    SplitNoSep(text, ';');
  }

  /** The last word of a field whose final word is `w`. */
  lemma LastWordAfter(p: string, w: string)
    requires ' ' !in w
    requires |p| == 0 || p[|p| - 1] == ' '
    ensures LastWord(p + w) == w
  {
    if |p| == 0 {
      assert p + w == w;
      SplitNoSep(w, ' ');
    } else {
      var q := p[..|p| - 1];
      assert p + w == q + [' '] + w;
      SplitAppend(q, w, ' ');
      SplitNoSep(w, ' ');
    }
  }

  lemma IntToStringPlain(i: int)
    ensures ' ' !in IntToString(i) && ';' !in IntToString(i)
  {
    var s := IntToString(i);
    forall k | 0 <= k < |s| ensures s[k] != ' ' && s[k] != ';' {
      if k > 0 {
        assert IsDigit(s[k]);
      }
    }
  }

  /** The first two `;` fields of `a;b` followed by nothing or by `;...`. */
  lemma FirstTwoFields(a: string, b: string, rest: string)
    requires ';' !in a && ';' !in b
    requires |rest| == 0 || rest[0] == ';'
    ensures var fields := Split(a + ";" + b + rest, ';');
            |fields| >= 2 && fields[0] == a && fields[1] == b
  {
    AppendRegroup(a, ';', b, rest);
    SplitAppend(a, b + rest, ';');
    SplitNoSep(a, ';');
    FirstField(b, rest);
  }

  /** The first `;` field of `b` followed by nothing or by `;...` is `b`. */
  lemma FirstField(b: string, rest: string)
    requires ';' !in b
    requires |rest| == 0 || rest[0] == ';'
    ensures Split(b + rest, ';')[0] == b
  {
    SplitNoSep(b, ';');
    if |rest| == 0 {
      assert b + rest == b;
    } else {
      assert rest == [';'] + rest[1..];
      AppendRegroup(b, ';', [], rest[1..]);
      assert b + rest == b + [';'] + rest[1..];
      SplitAppend(b, rest[1..], ';');
    }
  }

  lemma AppendRegroup<T>(a: seq<T>, x: T, b: seq<T>, r: seq<T>)
    ensures a + [x] + b + r == a + [x] + (b + r)
  {
  }

  /** A label whose first field ends in the facility id and whose second
      field ends in the isochrone value, each after a space or alone, parses
      back to exactly that pair, whatever words precede them and whatever
      fields follow. */
  lemma {:induction false} ParseLabelRoundTrip(p1: string, hf: int, p2: string, iso: int, rest: string)
    requires ';' !in p1 && (|p1| == 0 || p1[|p1| - 1] == ' ')
    requires ';' !in p2 && (|p2| == 0 || p2[|p2| - 1] == ' ')
    requires |rest| == 0 || rest[0] == ';'
    ensures ParseLabel(p1 + IntToString(hf) + ";" + p2 + IntToString(iso) + rest) == Some((hf, iso))
  {
    var h, i := IntToString(hf), IntToString(iso);
    IntToStringPlain(hf);
    IntToStringPlain(iso);
    assert p1 + h + ";" + p2 + i + rest == (p1 + h) + ";" + (p2 + i) + rest;
    FirstTwoFields(p1 + h, p2 + i, rest);
    LastWordAfter(p1, h);
    LastWordAfter(p2, i);
    ParseIntToString(hf);
    ParseIntToString(iso);
  }

  /** A label whose first field does not end in an integer is rejected. */
  lemma ParseLabelRejects(a: string, b: string, rest: string)
    requires ';' !in a && ';' !in b
    requires |rest| == 0 || rest[0] == ';'
    requires ParseInt(LastWord(a)) == None
    ensures ParseLabel(a + ";" + b + rest) == None
  {
    FirstTwoFields(a, b, rest);
  }

  /** A label whose second field does not end in an integer is rejected,
      whatever its first field holds. */
  lemma ParseLabelRejectsIso(a: string, b: string, rest: string)
    requires ';' !in a && ';' !in b
    requires |rest| == 0 || rest[0] == ';'
    requires ParseInt(LastWord(b)) == None
    ensures ParseLabel(a + ";" + b + rest) == None
  {
    FirstTwoFields(a, b, rest);
  }

  /** Lines 24-27: every row becomes a zone; one bad label fails the whole
      file. */
  function ParseRows(rows: seq<StatRow>): (r: Option<seq<Zone>>)
    ensures r.Some? <==> forall k :: 0 <= k < |rows| ==> ParseLabel(rows[k].text).Some?
    ensures r.Some? ==> |r.value| == |rows|
    ensures r.Some? ==> forall k :: 0 <= k < |rows| ==>
      var key := ParseLabel(rows[k].text).value;
      r.value[k] == Zone(key.0, key.1, rows[k].sum)
  {
    if |rows| == 0 then Some([])
    else
      var head, tail := ParseLabel(rows[0].text), ParseRows(rows[1..]);
      if head.None? then None
      else if tail.None? then
        var k :| 0 <= k < |rows[1..]| && ParseLabel(rows[1..][k].text).None?;
        assert ParseLabel(rows[1 + k].text).None?;
        None
      else Some([Zone(head.value.0, head.value.1, rows[0].sum)] + tail.value)
  }

  /** The statistics row r.univar writes for a zone, its label naming the
      facility after the words `p1` and the isochrone after the words `p2`. */
  function ZoneRow(p1: string, p2: string, z: Zone): StatRow
  {
    StatRow(p1 + IntToString(z.hf) + ";" + p2 + IntToString(z.iso), z.sum)
  }

  /** Parsing the rows written for a sequence of zones gives back exactly
      those zones, in the same order. */
  lemma ParseRowsRoundTrip(p1: string, p2: string, zs: seq<Zone>)
    requires ';' !in p1 && (|p1| == 0 || p1[|p1| - 1] == ' ')
    requires ';' !in p2 && (|p2| == 0 || p2[|p2| - 1] == ' ')
    ensures ParseRows(seq(|zs|, k requires 0 <= k < |zs| => ZoneRow(p1, p2, zs[k]))) == Some(zs)
  {
    var rows := seq(|zs|, k requires 0 <= k < |zs| => ZoneRow(p1, p2, zs[k]));
    forall k | 0 <= k < |zs|
      ensures ParseLabel(rows[k].text) == Some((zs[k].hf, zs[k].iso))
    {
      var text := p1 + IntToString(zs[k].hf) + ";" + p2 + IntToString(zs[k].iso);
      assert rows[k].text == text && text + [] == text;
      ParseLabelRoundTrip(p1, zs[k].hf, p2, zs[k].iso, []);
    }
    var r := ParseRows(rows);
    forall k | 0 <= k < |zs| ensures r.value[k] == zs[k] {
      assert rows[k].sum == zs[k].sum;
    }
    assert r.value == zs;
  }
}
