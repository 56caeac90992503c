/**
 * The projections feed (`GET` of `/api/getProjections`): the same extraction as
 * the historical feed without the unemployment rate and the two derived rates,
 * behind a header check that asks only for `outputgap` and `papc`. Like the
 * historical feed it drops the rows flagged as projections.
 */
module ProjectionsFeed {
  import opened Outcomes
  import opened Calendar
  import opened Regime
  import opened NirData
  import opened TaylorRule
  import opened Workbook
  import DataFeed

  /** One element of the `data` array. */
  datatype Observation = Observation(
    instant: int,
    ocr: Option<real>,
    quarter: string,
    outputGap: Option<real>,
    papc: Option<real>,
    isProjection: bool,
    longTermNominalNIR: Option<real>,
    mandateType: Target)

  /** The weaker header check: `urate` and `ocr` are not required. */
  predicate HeaderRejected(cols: Columns)
    ensures HeaderRejected(cols) <==> DataFeed.HeaderRejected(cols.(urate := -1))
  {
    cols.outputGap == -1 || cols.papc == -1
  }

  /** The record the `map` callback builds for a kept row. */
  function Extract(row: seq<Cell>, cols: Columns, table: map<string, real>): (r: Result<Observation>)
    requires Kept(row)
    ensures r.Ok? <==> InTimeRange(SerialToInstant(CellAt(row, 0).value))
    ensures r.Err? ==> r.error == InvalidTimeValue
  {
    var t := SerialToInstant(CellAt(row, 0).value);
    if !InTimeRange(t) then Err(InvalidTimeValue)
    else
      var d := UtcDate(t);
      Ok(Observation(t, OrNull(CellAt(row, cols.ocr)), QuarterLabel(d), OrNull(CellAt(row, cols.outputGap)),
                     OrNull(CellAt(row, cols.papc)), t >= ProjectionStart(),
                     NirLookup(table, IsoDate(d)), InflationTarget(t)))
  }

  /** The neutral rate is the exact-key lookup of the row's own `YYYY-MM-DD` date, null when missing or zero. */
  lemma ExtractLookup(row: seq<Cell>, cols: Columns, table: map<string, real>, o: Observation)
    requires Kept(row) && Extract(row, cols, table) == Ok(o)
    ensures var key := IsoDate(UtcDate(o.instant));
            (o.longTermNominalNIR.Some? <==> key in table && table[key] != 0.0)
            && (o.longTermNominalNIR.Some? ==> o.longTermNominalNIR.value == table[key])
    ensures 1 <= QuarterOf(UtcDate(o.instant).month) <= 4 && o.quarter == QuarterLabel(UtcDate(o.instant))
  {
  }

  function Prepend(x: Option<Observation>, r: Result<seq<Option<Observation>>>): Result<seq<Option<Observation>>>
  {
    match r
    case Ok(xs) => Ok([x] + xs)
    case Err(e) => Err(e)
  }

  /** `rawData.slice(7).map(...)`: null for a skipped row; a date out of range fails the call. */
  function ExtractAll(rows: seq<seq<Cell>>, cols: Columns, table: map<string, real>)
    : (r: Result<seq<Option<Observation>>>)
    ensures r.Ok? ==> |r.value| == |rows|
  {
    if rows == [] then Ok([])
    else
      var rest := ExtractAll(rows[1..], cols, table);
      if !Kept(rows[0]) then Prepend(None, rest)
      else
        match Extract(rows[0], cols, table)
        case Err(e) => Err(e)
        case Ok(o) => Prepend(Some(o), rest)
  }

  /** Row by row: skipped rows map to null and every kept row to its own extraction. */
  lemma {:induction false} ExtractAllPointwise(rows: seq<seq<Cell>>, cols: Columns, table: map<string, real>,
                                               out: seq<Option<Observation>>)
    requires ExtractAll(rows, cols, table) == Ok(out)
    ensures |out| == |rows|
    ensures forall i :: 0 <= i < |rows| ==> (out[i].None? <==> !Kept(rows[i]))
    ensures forall i :: 0 <= i < |rows| && Kept(rows[i]) ==> Extract(rows[i], cols, table) == Ok(out[i].value)
  {
    if rows != [] {
      ExtractHead(rows, cols, table, out);
      ExtractAllPointwise(rows[1..], cols, table, out[1..]);
      forall i | 1 <= i < |rows| ensures rows[1..][i - 1] == rows[i] && out[1..][i - 1] == out[i] {
      }
    }
  }

  /** One unfolding of a successful extraction. */
  lemma ExtractHead(rows: seq<seq<Cell>>, cols: Columns, table: map<string, real>, out: seq<Option<Observation>>)
    requires rows != [] && ExtractAll(rows, cols, table) == Ok(out)
    ensures ExtractAll(rows[1..], cols, table) == Ok(out[1..])
    ensures out[0].None? <==> !Kept(rows[0])
    ensures Kept(rows[0]) ==> Extract(rows[0], cols, table) == Ok(out[0].value)
  {
    var rest := ExtractAll(rows[1..], cols, table);
    assert rest.Ok? && out == [out[0]] + rest.value;
  }

  /** `extractedData.filter(entry => !entry.isProjection)`. */
  function Historical(obs: seq<Observation>): (r: seq<Observation>)
    ensures |r| <= |obs|
  {
    if obs == [] then []
    else (if obs[0].isProjection then [] else [obs[0]]) + Historical(obs[1..])
  }

  /** An observation survives the filter exactly when it is not a projection. */
  lemma {:induction false} HistoricalMembers(obs: seq<Observation>, x: Observation)
    ensures x in Historical(obs) <==> x in obs && !x.isProjection
  {
    if obs != [] {
      HistoricalMembers(obs[1..], x);
      assert obs == [obs[0]] + obs[1..];
    }
  }

  /** `GET` of the projections feed. */
  function GetProjections(sheet: Option<Sheet>, csv: Result<seq<CsvRow>>): (r: Result<seq<Observation>>)
    ensures sheet.None? ==> r == Err(SheetNotFound)
    ensures r.Ok? ==> sheet.Some? && csv.Ok? && |r.value| <= |sheet.value.body|
  {
    if sheet.None? then Err(SheetNotFound)
    else if sheet.value.header.None? then Err(HeaderRowMissing)
    else
      var cols := ColumnsOf(sheet.value.header.value);
      if HeaderRejected(cols) then Err(RequiredColumnsMissing)
      else
        match csv
        case Err(e) => Err(e)
        case Ok(csvRows) =>
          match NirTable(csvRows)
          case Err(e) => Err(e)
          case Ok(table) =>
            match ExtractAll(sheet.value.body, cols, table)
            case Err(e) => Err(e)
            case Ok(mapped) => Ok(Historical(Present(mapped)))
  }

  /** The header is refused exactly when `outputgap` or `papc` is missing; `urate` and `ocr` may be absent. */
  lemma HeaderRejection(header: seq<Option<string>>, body: seq<seq<Cell>>, csv: Result<seq<CsvRow>>)
    requires csv.Err? ==> csv.error.CsvParseError?
    ensures GetProjections(Some(Sheet(Some(header), body)), csv) == Err(RequiredColumnsMissing) <==>
              Some("outputgap") !in header || Some("papc") !in header
  {
    if csv.Ok? {
      NirTableFails(csv.value);
      var table := NirTable(csv.value);
      if table.Ok? {
        var r := ExtractAll(body, ColumnsOf(header), table.value);
        if r.Err? {
          ExtractAllErrors(body, ColumnsOf(header), table.value);
        }
      }
    }
  }

  lemma {:induction false} ExtractAllErrors(rows: seq<seq<Cell>>, cols: Columns, table: map<string, real>)
    ensures ExtractAll(rows, cols, table).Err? ==> ExtractAll(rows, cols, table).error == InvalidTimeValue
  {
    if rows != [] {
      ExtractAllErrors(rows[1..], cols, table);
    }
  }

  /** A response holds no projection: every observation is dated before 2025-01-01. */
  lemma GetProjectionsHistorical(sheet: Option<Sheet>, csv: Result<seq<CsvRow>>, out: seq<Observation>)
    requires GetProjections(sheet, csv) == Ok(out)
    ensures forall x :: x in out ==> !x.isProjection && Before(UtcDate(x.instant), Date(2025, 1, 1))
  {
    var cols := ColumnsOf(sheet.value.header.value);
    var table := NirTable(csv.value).value;
    var mapped := ExtractAll(sheet.value.body, cols, table).value;
    ExtractAllPointwise(sheet.value.body, cols, table, mapped);
    forall x | x in out ensures !x.isProjection && Before(UtcDate(x.instant), Date(2025, 1, 1)) {
      HistoricalMembers(Present(mapped), x);
      PresentMembers(mapped, x);
      var i :| 0 <= i < |mapped| && mapped[i] == Some(x);
      ExtractProjectionFlag(sheet.value.body[i], cols, table, x);
      BeforeProjectionStart(x.instant);
    }
  }

  /** An observation is flagged a projection exactly from the projection start. */
  lemma ExtractProjectionFlag(row: seq<Cell>, cols: Columns, table: map<string, real>, o: Observation)
    requires Kept(row) && Extract(row, cols, table) == Ok(o)
    ensures o.isProjection <==> o.instant >= ProjectionStart()
  {
  }

  // ----- agreement with the historical feed -----

  /** A historical record without `urate`, `taylorOCR` and `inertialOCR`. */
  function Strip(rec: DataFeed.Record): Observation
  {
    Observation(rec.instant, rec.ocr, rec.quarter, rec.outputGap, rec.papc, rec.isProjection,
                rec.longTermNominalNIR, rec.mandateType)
  }

  function StripAll(recs: seq<DataFeed.Record>): (r: seq<Observation>)
    ensures |r| == |recs| && forall i :: 0 <= i < |recs| ==> r[i] == Strip(recs[i])
  {
    if recs == [] then [] else [Strip(recs[0])] + StripAll(recs[1..])
  }

  /** Per row, the two feeds extract the same fields, whatever the previous rate. */
  lemma ExtractAgrees(row: seq<Cell>, cols: Columns, table: map<string, real>, prev: PrevOcr)
    requires Kept(row)
    ensures Extract(row, cols, table).Ok? <==> DataFeed.BuildRecord(row, cols, table, prev).Ok?
    ensures Extract(row, cols, table).Ok? ==>
              Extract(row, cols, table).value == Strip(DataFeed.BuildRecord(row, cols, table, prev).value)
  {
  }

  /** After both filters, the projections feed is the historical feed with the extra fields removed. */
  lemma {:induction false} PipelinesAgree(rows: seq<seq<Cell>>, cols: Columns, table: map<string, real>, prev: PrevOcr)
    ensures ExtractAll(rows, cols, table).Ok? <==> DataFeed.Enrich(rows, cols, table, prev).Ok?
    ensures ExtractAll(rows, cols, table).Ok? ==>
              Historical(Present(ExtractAll(rows, cols, table).value))
              == StripAll(DataFeed.Historical(Present(DataFeed.Enrich(rows, cols, table, prev).value)))
  {
    if rows != [] {
      var next := DataFeed.NextPrev(rows[0], cols, prev);
      PipelinesAgree(rows[1..], cols, table, next);
      var ours := ExtractAll(rows[1..], cols, table);
      var theirs := DataFeed.Enrich(rows[1..], cols, table, next);
      if Kept(rows[0]) {
        ExtractAgrees(rows[0], cols, table, prev);
      }
      if ExtractAll(rows, cols, table).Ok? {
        var mine := ExtractAll(rows, cols, table).value;
        var full := DataFeed.Enrich(rows, cols, table, prev).value;
        assert mine == [mine[0]] + ours.value && mine[1..] == ours.value;
        assert full == [full[0]] + theirs.value && full[1..] == theirs.value;
        var p := Present(full);
        assert p == (if full[0].Some? then [full[0].value] else []) + Present(theirs.value);
        DataFeed.HistoricalAppend(if full[0].Some? then [full[0].value] else [], Present(theirs.value));
        StripAppend(DataFeed.Historical(if full[0].Some? then [full[0].value] else []),
                    DataFeed.Historical(Present(theirs.value)));
        var q := Present(mine);
        assert q == (if mine[0].Some? then [mine[0].value] else []) + Present(ours.value);
        HistoricalAppend(if mine[0].Some? then [mine[0].value] else [], Present(ours.value));
        if full[0].Some? {
          var single := [full[0].value];
          assert single[1..] == [];
          assert DataFeed.Historical(single) == if full[0].value.isProjection then [] else single;
          var mySingle := [mine[0].value];
          assert mySingle[1..] == [];
          assert Historical(mySingle) == if mine[0].value.isProjection then [] else mySingle;
        }
      }
    }
  }

  lemma {:induction false} HistoricalAppend(a: seq<Observation>, b: seq<Observation>)
    ensures Historical(a + b) == Historical(a) + Historical(b)
  {
    if a == [] {
      assert a + b == b;
    } else {
      assert (a + b)[0] == a[0];
      assert (a + b)[1..] == a[1..] + b;
      HistoricalAppend(a[1..], b);
    }
  }

  lemma StripAppend(a: seq<DataFeed.Record>, b: seq<DataFeed.Record>)
    ensures StripAll(a + b) == StripAll(a) + StripAll(b)
  {
    assert |StripAll(a + b)| == |StripAll(a) + StripAll(b)|;
    forall i | 0 <= i < |a + b| ensures StripAll(a + b)[i] == (StripAll(a) + StripAll(b))[i] {
      if i < |a| {
        assert (a + b)[i] == a[i];
      } else {
        assert (a + b)[i] == b[i - |a|];
      }
    }
  }

  /**
   * Whenever the historical feed answers, the projections feed answers with the same
   * observations, minus the unemployment rate and the two derived rates.
   */
  lemma EndpointsAgree(sheet: Option<Sheet>, csv: Result<seq<CsvRow>>)
    requires DataFeed.GetData(sheet, csv).Ok?
    ensures GetProjections(sheet, csv) == Ok(StripAll(DataFeed.GetData(sheet, csv).value))
  {
    var cols := ColumnsOf(sheet.value.header.value);
    var table := NirTable(csv.value).value;
    PipelinesAgree(sheet.value.body, cols, table, NoPrevious);
  }
}
