/**
 * The historical feed (`GET` of `/api/getData`): the header check on row 7, the
 * per-row enrichment that threads the previous policy rate from row to row, the
 * removal of skipped rows and of projections.
 */
module DataFeed {
  import opened Outcomes
  import opened Text
  import opened Calendar
  import opened Regime
  import opened NirData
  import opened TaylorRule
  import opened Workbook

  /** One element of the `data` array. */
  datatype Record = Record(
    instant: int,                    // `date`, as a time value
    ocr: Option<real>,
    quarter: string,
    outputGap: Option<real>,
    papc: Option<real>,
    urate: Option<real>,
    isProjection: bool,
    longTermNominalNIR: Option<real>,
    mandateType: Target,
    taylorOCR: Option<real>,
    inertialOCR: JsNumber)

  /**
   * The header check as written: `urateIndex ==- -1` parses as `urateIndex == -(-1)`,
   * so a missing `urate` column passes and a `urate` column in position 1 fails.
   */
  predicate HeaderRejected(cols: Columns)
    ensures cols.urate != 1 ==> (HeaderRejected(cols) <==> cols.outputGap == -1 || cols.papc == -1)
  {
    cols.outputGap == -1 || cols.papc == -1 || cols.urate == 1
  }

  /** What `prevOCR = row[ocrIndex]` leaves for the next row. */
  function RawPrev(c: Cell): (p: PrevOcr)
    ensures p != NoPrevious
  {
    match c
    case None => PrevUndefined
    case Some(x) => PrevValue(x)
  }

  /** The previous rate after a row: kept rows store their raw `ocr` cell, skipped rows leave it alone. */
  function NextPrev(row: seq<Cell>, cols: Columns, prev: PrevOcr): PrevOcr
  {
    if Kept(row) then RawPrev(CellAt(row, cols.ocr)) else prev
  }

  /** The record the `map` callback builds for a kept row; `toISOString` throws for a date out of range. */
  function BuildRecord(row: seq<Cell>, cols: Columns, table: map<string, real>, prev: PrevOcr): (r: Result<Record>)
    requires Kept(row)
    ensures r.Ok? <==> InTimeRange(SerialToInstant(CellAt(row, 0).value))
    ensures r.Err? ==> r.error == InvalidTimeValue
  {
    var t := SerialToInstant(CellAt(row, 0).value);
    if !InTimeRange(t) then Err(InvalidTimeValue)
    else
      var target := InflationTarget(t);
      var d := UtcDate(t);
      var nir := NirLookup(table, IsoDate(d));
      var inflation := OrZero(CellAt(row, cols.papc));
      var gap := OrNull(CellAt(row, cols.outputGap));
      var actual := OrNull(CellAt(row, cols.ocr));
      Ok(Record(t, actual, QuarterLabel(d), gap, OrNull(CellAt(row, cols.papc)),
                OrNull(CellAt(row, cols.urate)), t >= ProjectionStart(), nir, target,
                TaylorOCR(inflation, gap, nir, target.midpoint),
                ServerInertialOCR(prev, inflation, gap, nir, target.midpoint, actual)))
  }

  /** What a record's fields mean in terms of its row, the table and the previous rate. */
  lemma RecordMeaning(row: seq<Cell>, cols: Columns, table: map<string, real>, prev: PrevOcr, rec: Record)
    requires Kept(row) && BuildRecord(row, cols, table, prev) == Ok(rec)
    ensures rec.instant == SerialToInstant(CellAt(row, 0).value) && InTimeRange(rec.instant)
    ensures rec.isProjection <==> !Before(UtcDate(rec.instant), Date(2025, 1, 1))
    ensures exists i :: 0 <= i < 5 && InEra(i, rec.instant) && rec.mandateType == Era(i)
    ensures rec.longTermNominalNIR.Some? <==>
              IsoDate(UtcDate(rec.instant)) in table && table[IsoDate(UtcDate(rec.instant))] != 0.0
    ensures rec.taylorOCR.None? <==> !Truthy(CellAt(row, cols.outputGap)) || rec.longTermNominalNIR.None?
    ensures rec.ocr.None? <==> !Truthy(CellAt(row, cols.ocr))
    ensures rec.outputGap == OrNull(CellAt(row, cols.outputGap)) && rec.papc == OrNull(CellAt(row, cols.papc))
    ensures rec.urate == OrNull(CellAt(row, cols.urate)) && rec.ocr == OrNull(CellAt(row, cols.ocr))
    ensures rec.quarter == QuarterLabel(UtcDate(rec.instant))
    ensures rec.inertialOCR.Null? ==>
              rec.taylorOCR.None? || (prev.NoPrevious? && rec.ocr.None?)
  {
    ExactlyOneEra(rec.instant);
    BeforeProjectionStart(rec.instant);
  }

  /** Both rates of a record as functions of its own published fields and the previous rate. */
  predicate RatesFrom(rec: Record, prev: PrevOcr)
  {
    var inflation := OrZero(rec.papc);
    rec.taylorOCR == TaylorOCR(inflation, rec.outputGap, rec.longTermNominalNIR, rec.mandateType.midpoint)
    && rec.inertialOCR
       == ServerInertialOCR(prev, inflation, rec.outputGap, rec.longTermNominalNIR, rec.mandateType.midpoint, rec.ocr)
  }

  /** Every record's rates follow from its own published fields and the previous rate. */
  lemma RecordRates(row: seq<Cell>, cols: Columns, table: map<string, real>, prev: PrevOcr, rec: Record)
    requires Kept(row) && BuildRecord(row, cols, table, prev) == Ok(rec)
    ensures RatesFrom(rec, prev)
  {
    assert OrZero(rec.papc) == OrZero(CellAt(row, cols.papc));
  }

  /** Every record carries a quarter label of its own UTC date and is flagged a projection exactly from 2025-01-01. */
  predicate WellFormed(rec: Record)
  {
    InTimeRange(rec.instant)
    && rec.quarter == QuarterLabel(UtcDate(rec.instant))
    && (rec.isProjection <==> rec.instant >= ProjectionStart())
  }

  // ----- the row pass -----

  function Prepend(x: Option<Record>, r: Result<seq<Option<Record>>>): Result<seq<Option<Record>>>
  {
    match r
    case Ok(xs) => Ok([x] + xs)
    case Err(e) => Err(e)
  }

  /**
   * `rawData.slice(7).map(...)` run from previous rate `prev`: null for a skipped
   * row, the record otherwise; the first row whose date is out of range fails the call.
   */
  function Enrich(rows: seq<seq<Cell>>, cols: Columns, table: map<string, real>, prev: PrevOcr)
    : (r: Result<seq<Option<Record>>>)
    ensures r.Ok? ==> |r.value| == |rows|
    ensures r.Err? ==> r.error == InvalidTimeValue
    decreases |rows|
  {
    if rows == [] then Ok([])
    else
      var rest := Enrich(rows[1..], cols, table, NextPrev(rows[0], cols, prev));
      if !Kept(rows[0]) then Prepend(None, rest)
      else
        match BuildRecord(rows[0], cols, table, prev)
        case Err(e) => Err(e)
        case Ok(rec) => Prepend(Some(rec), rest)
  }

  function Concat(xs: seq<Option<Record>>, r: Result<seq<Option<Record>>>): Result<seq<Option<Record>>>
  {
    match r
    case Ok(ys) => Ok(xs + ys)
    case Err(e) => Err(e)
  }

  lemma ConcatPrepend(out: seq<Option<Record>>, x: Option<Record>, r: Result<seq<Option<Record>>>)
    ensures Concat(out, Prepend(x, r)) == Concat(out + [x], r)
  {
    if r.Ok? {
      assert out + ([x] + r.value) == out + [x] + r.value;
    }
  }

  /** The `map` with its closure over `let prevOCR`, as a loop. */
  method EnrichRows(rows: seq<seq<Cell>>, cols: Columns, table: map<string, real>)
    returns (r: Result<seq<Option<Record>>>)
    ensures r == Enrich(rows, cols, table, NoPrevious)
  {
    ghost var total := Enrich(rows, cols, table, NoPrevious);
    var out: seq<Option<Record>> := [];
    var prevOCR := NoPrevious;
    var i := 0;
    EnrichStart(rows, cols, table, total);
    while i < |rows|
      invariant 0 <= i <= |rows| && |out| == i
      invariant total == Concat(out, Enrich(rows[i..], cols, table, prevOCR))
    {
      var row := rows[i];
      if !Truthy(CellAt(row, 0)) {
        SkipStep(rows, cols, table, i, out, prevOCR, total);
        out := out + [None];
      } else {
        var rec := BuildRecord(row, cols, table, prevOCR);
        if rec.Err? {
          ThrowStep(rows, cols, table, i, out, prevOCR, total);
          return Err(rec.error);
        }
        var next := RawPrev(CellAt(row, cols.ocr));
        KeptStep(rows, cols, table, i, out, prevOCR, rec.value, total);
        out := out + [Some(rec.value)];
        prevOCR := next;
      }
      i := i + 1;
    }
    assert out + [] == out;
    r := Ok(out);
  }

  lemma EnrichStart(rows: seq<seq<Cell>>, cols: Columns, table: map<string, real>, total: Result<seq<Option<Record>>>)
    requires total == Enrich(rows, cols, table, NoPrevious)
    ensures total == Concat([], Enrich(rows[0..], cols, table, NoPrevious))
  {
    assert rows[0..] == rows;
    if total.Ok? {
      assert [] + total.value == total.value;
    }
  }

  /** A skipped row appends null and leaves the previous rate alone. */
  lemma SkipStep(rows: seq<seq<Cell>>, cols: Columns, table: map<string, real>, i: nat,
                 out: seq<Option<Record>>, prev: PrevOcr, total: Result<seq<Option<Record>>>)
    requires i < |rows| && !Kept(rows[i])
    requires total == Concat(out, Enrich(rows[i..], cols, table, prev))
    ensures total == Concat(out + [None], Enrich(rows[i + 1..], cols, table, prev))
  {
    assert rows[i..][0] == rows[i] && rows[i..][1..] == rows[i + 1..];
    EnrichSkipped(rows[i..], cols, table, prev);
    ConcatPrepend(out, None, Enrich(rows[i + 1..], cols, table, prev));
  }

  /** A kept row appends its record and stores its raw `ocr` cell. */
  lemma KeptStep(rows: seq<seq<Cell>>, cols: Columns, table: map<string, real>, i: nat,
                 out: seq<Option<Record>>, prev: PrevOcr, rec: Record, total: Result<seq<Option<Record>>>)
    requires i < |rows| && Kept(rows[i]) && BuildRecord(rows[i], cols, table, prev) == Ok(rec)
    requires total == Concat(out, Enrich(rows[i..], cols, table, prev))
    ensures total == Concat(out + [Some(rec)], Enrich(rows[i + 1..], cols, table, RawPrev(CellAt(rows[i], cols.ocr))))
  {
    assert rows[i..][0] == rows[i] && rows[i..][1..] == rows[i + 1..];
    EnrichKept(rows[i..], cols, table, prev);
    ConcatPrepend(out, Some(rec), Enrich(rows[i + 1..], cols, table, NextPrev(rows[i], cols, prev)));
  }

  /** A kept row whose date is out of range fails the whole pass. */
  lemma ThrowStep(rows: seq<seq<Cell>>, cols: Columns, table: map<string, real>, i: nat,
                  out: seq<Option<Record>>, prev: PrevOcr, total: Result<seq<Option<Record>>>)
    requires i < |rows| && Kept(rows[i]) && BuildRecord(rows[i], cols, table, prev).Err?
    requires total == Concat(out, Enrich(rows[i..], cols, table, prev))
    ensures total == Err(BuildRecord(rows[i], cols, table, prev).error)
  {
    assert rows[i..][0] == rows[i];
    EnrichThrows(rows[i..], cols, table, prev);
  }

  /** One unfolding of a successful pass. */
  lemma EnrichHead(rows: seq<seq<Cell>>, cols: Columns, table: map<string, real>,
                   prev: PrevOcr, out: seq<Option<Record>>)
    requires rows != [] && Enrich(rows, cols, table, prev) == Ok(out)
    ensures Enrich(rows[1..], cols, table, NextPrev(rows[0], cols, prev)) == Ok(out[1..])
    ensures out[0].None? <==> !Kept(rows[0])
    ensures Kept(rows[0]) ==> BuildRecord(rows[0], cols, table, prev) == Ok(out[0].value)
  {
    var rest := Enrich(rows[1..], cols, table, NextPrev(rows[0], cols, prev));
    assert rest.Ok? && out == [out[0]] + rest.value;
  }

  /** The previous rate seen by row `i` of a pass started from `prev`. */
  function PrevAt(rows: seq<seq<Cell>>, cols: Columns, prev: PrevOcr, i: nat): PrevOcr
    requires i <= |rows|
  {
    if i == 0 then prev else NextPrev(rows[i - 1], cols, PrevAt(rows, cols, prev, i - 1))
  }

  lemma {:induction false} PrevAtShift(rows: seq<seq<Cell>>, cols: Columns, prev: PrevOcr, i: nat)
    requires 0 < |rows| && i < |rows|
    ensures PrevAt(rows, cols, prev, i + 1) == PrevAt(rows[1..], cols, NextPrev(rows[0], cols, prev), i)
  {
    if i > 0 {
      PrevAtShift(rows, cols, prev, i - 1);
      assert rows[1..][i - 1] == rows[i];
    }
  }

  /** What the pass makes of one row: null when skipped, else the record built from previous rate `p`. */
  predicate RowOutcome(row: seq<Cell>, cols: Columns, table: map<string, real>, p: PrevOcr, o: Option<Record>)
  {
    (o.None? <==> !Kept(row)) && (Kept(row) ==> BuildRecord(row, cols, table, p) == Ok(o.value))
  }

  /**
   * The one-step recurrence, row by row: skipped rows map to null, and each kept row's
   * record is built from the previous rate left by the rows before it.
   */
  lemma {:induction false} EnrichPointwise(rows: seq<seq<Cell>>, cols: Columns, table: map<string, real>,
                                           prev: PrevOcr, out: seq<Option<Record>>)
    requires Enrich(rows, cols, table, prev) == Ok(out)
    ensures |out| == |rows|
    ensures forall i :: 0 <= i < |rows| ==> RowOutcome(rows[i], cols, table, PrevAt(rows, cols, prev, i), out[i])
  {
    if rows != [] {
      var next := NextPrev(rows[0], cols, prev);
      var tail := out[1..];
      EnrichHead(rows, cols, table, prev, out);
      EnrichPointwise(rows[1..], cols, table, next, tail);
      forall i | 1 <= i < |rows|
        ensures RowOutcome(rows[i], cols, table, PrevAt(rows, cols, prev, i), out[i])
      {
        PointwiseStep(rows, cols, table, prev, out, i);
      }
    }
  }

  /** Row `i` of a pass is row `i - 1` of the pass over the rows after the first. */
  lemma PointwiseStep(rows: seq<seq<Cell>>, cols: Columns, table: map<string, real>, prev: PrevOcr,
                      out: seq<Option<Record>>, i: nat)
    requires |out| == |rows| && 1 <= i < |rows|
    requires RowOutcome(rows[1..][i - 1], cols, table, PrevAt(rows[1..], cols, NextPrev(rows[0], cols, prev), i - 1),
                        out[1..][i - 1])
    ensures RowOutcome(rows[i], cols, table, PrevAt(rows, cols, prev, i), out[i])
  {
    TailIndex(rows, i);
    TailIndex(out, i);
    PrevAtShift(rows, cols, prev, i - 1);
    SameOutcome(rows[1..][i - 1], rows[i], cols, table,
                PrevAt(rows[1..], cols, NextPrev(rows[0], cols, prev), i - 1), PrevAt(rows, cols, prev, i),
                out[1..][i - 1], out[i]);
  }

  lemma SameOutcome(row: seq<Cell>, row': seq<Cell>, cols: Columns, table: map<string, real>, p: PrevOcr, p': PrevOcr,
                    o: Option<Record>, o': Option<Record>)
    requires row == row' && p == p' && o == o' && RowOutcome(row, cols, table, p, o)
    ensures RowOutcome(row', cols, table, p', o')
  {
  }

  /** The previous rate at row `i` is null until the first kept row, then the raw `ocr` cell of the latest kept row. */
  lemma {:induction false} PrevAtMeaning(rows: seq<seq<Cell>>, cols: Columns, i: nat)
    requires i <= |rows|
    ensures PrevAt(rows, cols, NoPrevious, i).NoPrevious? <==> forall j :: 0 <= j < i ==> !Kept(rows[j])
    ensures forall j :: 0 <= j < i && Kept(rows[j]) && (forall k :: j < k < i ==> !Kept(rows[k])) ==>
              PrevAt(rows, cols, NoPrevious, i) == RawPrev(CellAt(rows[j], cols.ocr))
  {
    if i > 0 {
      PrevAtMeaning(rows, cols, i - 1);
    }
  }

  /** The pass fails exactly when some kept row's date is outside the time range. */
  lemma {:induction false} EnrichFails(rows: seq<seq<Cell>>, cols: Columns, table: map<string, real>, prev: PrevOcr)
    ensures Enrich(rows, cols, table, prev).Err? <==>
              exists i :: 0 <= i < |rows| && Kept(rows[i]) && !InTimeRange(SerialToInstant(CellAt(rows[i], 0).value))
  {
    if rows != [] {
      var next := NextPrev(rows[0], cols, prev);
      EnrichFails(rows[1..], cols, table, next);
      if exists i :: 0 <= i < |rows| - 1 && Kept(rows[1..][i])
                     && !InTimeRange(SerialToInstant(CellAt(rows[1..][i], 0).value)) {
        var i :| 0 <= i < |rows| - 1 && Kept(rows[1..][i])
                 && !InTimeRange(SerialToInstant(CellAt(rows[1..][i], 0).value));
        assert rows[1..][i] == rows[i + 1];
      }
      if exists i :: 0 <= i < |rows| && Kept(rows[i]) && !InTimeRange(SerialToInstant(CellAt(rows[i], 0).value)) {
        var i :| 0 <= i < |rows| && Kept(rows[i]) && !InTimeRange(SerialToInstant(CellAt(rows[i], 0).value));
        if i > 0 {
          assert rows[1..][i - 1] == rows[i];
        }
      }
    }
  }

  lemma BuildRecordWellFormed(row: seq<Cell>, cols: Columns, table: map<string, real>, prev: PrevOcr)
    requires Kept(row) && BuildRecord(row, cols, table, prev).Ok?
    ensures WellFormed(BuildRecord(row, cols, table, prev).value)
  {
  }

  /** Every record the pass produces is well formed. */
  lemma EnrichWellFormed(rows: seq<seq<Cell>>, cols: Columns, table: map<string, real>, out: seq<Option<Record>>)
    requires Enrich(rows, cols, table, NoPrevious) == Ok(out)
    ensures forall x :: Some(x) in out ==> WellFormed(x)
  {
    EnrichPointwise(rows, cols, table, NoPrevious, out);
    forall x | Some(x) in out ensures WellFormed(x) {
      var i :| 0 <= i < |out| && out[i] == Some(x);
      assert RowOutcome(rows[i], cols, table, PrevAt(rows, cols, NoPrevious, i), out[i]);
      BuildRecordWellFormed(rows[i], cols, table, PrevAt(rows, cols, NoPrevious, i));
    }
  }

  // ----- the projection filter and the endpoint -----

  /** `enrichedData.filter(entry => !entry.isProjection)`. */
  function Historical(recs: seq<Record>): (r: seq<Record>)
    ensures |r| <= |recs|
  {
    if recs == [] then []
    else (if recs[0].isProjection then [] else [recs[0]]) + Historical(recs[1..])
  }

  /** Filtering commutes with concatenation, so the kept records stay in input order. */
  lemma {:induction false} HistoricalAppend(a: seq<Record>, b: seq<Record>)
    ensures Historical(a + b) == Historical(a) + Historical(b)
  {
    if a == [] {
      assert a + b == b;
    } else {
      assert (a + b)[0] == a[0];
      assert (a + b)[1..] == a[1..] + b;
      HistoricalAppend(a[1..], b);
    }
  }

  /** A record survives the filter exactly when it is not a projection. */
  lemma {:induction false} HistoricalMembers(recs: seq<Record>, x: Record)
    ensures x in Historical(recs) <==> x in recs && !x.isProjection
  {
    if recs != [] {
      HistoricalMembers(recs[1..], x);
      assert recs == [recs[0]] + recs[1..];
    }
  }

  /** The header check of `GET`, after `rawData[6]` has been read. */
  function CheckHeader(header: Option<seq<Option<string>>>): (r: Result<Columns>)
    ensures r.Err? <==> header.None? || HeaderRejected(ColumnsOf(header.value))
    ensures r.Ok? ==> r.value == ColumnsOf(header.value)
  {
    if header.None? then Err(HeaderRowMissing)
    else
      var cols := ColumnsOf(header.value);
      if HeaderRejected(cols) then Err(RequiredColumnsMissing) else Ok(cols)
  }

  /**
   * `GET`: `sheet` is the workbook's `Projections` sheet (None when absent) and
   * `csv` the records of `NIR.csv` (or the error with which csv-parse rejected
   * the CSV text).
   */
  function GetData(sheet: Option<Sheet>, csv: Result<seq<CsvRow>>): (r: Result<seq<Record>>)
    ensures sheet.None? ==> r == Err(SheetNotFound)
    ensures r.Ok? ==> sheet.Some? && csv.Ok? && |r.value| <= |sheet.value.body|
  {
    if sheet.None? then Err(SheetNotFound)
    else
      match CheckHeader(sheet.value.header)
      case Err(e) => Err(e)
      case Ok(cols) =>
        match csv
        case Err(e) => Err(e)
        case Ok(csvRows) =>
          match NirTable(csvRows)
          case Err(e) => Err(e)
          case Ok(table) =>
            match Enrich(sheet.value.body, cols, table, NoPrevious)
            case Err(e) => Err(e)
            case Ok(mapped) => Ok(Historical(Present(mapped)))
  }

  /** `GET`, step by step: header check, table load, row pass, the two filters. */
  method Get(sheet: Option<Sheet>, csv: Result<seq<CsvRow>>) returns (r: Result<seq<Record>>)
    ensures r == GetData(sheet, csv)
  {
    if sheet.None? {
      return Err(SheetNotFound);
    }
    var checked := CheckHeader(sheet.value.header);
    if checked.Err? {
      return Err(checked.error);
    }
    if csv.Err? {
      return Err(csv.error);
    }
    var table := LoadNirTable(csv.value);
    if table.Err? {
      return Err(table.error);
    }
    var mapped := EnrichRows(sheet.value.body, checked.value, table.value);
    if mapped.Err? {
      return Err(mapped.error);
    }
    r := Ok(Historical(Present(mapped.value)));
  }

  /** The request is refused for its header exactly when `outputgap` or `papc` is missing or `urate` sits in column 2. */
  lemma HeaderRejection(header: seq<Option<string>>, body: seq<seq<Cell>>, csv: Result<seq<CsvRow>>)
    requires csv.Err? ==> csv.error.CsvParseError?
    ensures GetData(Some(Sheet(Some(header), body)), csv) == Err(RequiredColumnsMissing) <==>
              Some("outputgap") !in header || Some("papc") !in header || IndexOf(header, "urate") == 1
  {
    if csv.Ok? {
      NirTableFails(csv.value);
    }
  }

  /** The typo in both directions: a missing `urate` column is accepted, one in column 2 is refused. */
  lemma HeaderTypoExamples()
    ensures !HeaderRejected(ColumnsOf([None, Some("outputgap"), Some("papc"), Some("ocr")]))
    ensures HeaderRejected(ColumnsOf([None, Some("urate"), Some("outputgap"), Some("papc"), Some("ocr")]))
    ensures !HeaderRejected(ColumnsOf([None, Some("outputgap"), Some("papc")]))
  {
    var h1 := [None, Some("outputgap"), Some("papc"), Some("ocr")];
    assert h1[1] == Some("outputgap") && h1[2] == Some("papc");
    var h2 := [None, Some("urate"), Some("outputgap"), Some("papc"), Some("ocr")];
    assert h2[1] == Some("urate") && h2[2] == Some("outputgap") && h2[3] == Some("papc");
    assert h2[..1] == [None];
    var h3 := [None, Some("outputgap"), Some("papc")];
    assert h3[1] == Some("outputgap") && h3[2] == Some("papc");
  }

  /**
   * What a successful response holds: well-formed records, none of them a
   * projection, so every one is dated before 2025-01-01, with quarter numbers 1..4.
   */
  lemma GetDataHistorical(sheet: Option<Sheet>, csv: Result<seq<CsvRow>>, out: seq<Record>)
    requires GetData(sheet, csv) == Ok(out)
    ensures forall x :: x in out ==> WellFormed(x) && !x.isProjection
    ensures forall x :: x in out ==>
              x.instant < ProjectionStart() && Before(UtcDate(x.instant), Date(2025, 1, 1))
    ensures forall x :: x in out ==> 1 <= QuarterOf(UtcDate(x.instant).month) <= 4
  {
    var cols := CheckHeader(sheet.value.header).value;
    var table := NirTable(csv.value).value;
    var mapped := Enrich(sheet.value.body, cols, table, NoPrevious).value;
    EnrichWellFormed(sheet.value.body, cols, table, mapped);
    forall x | x in out
      ensures WellFormed(x) && !x.isProjection
      ensures x.instant < ProjectionStart() && Before(UtcDate(x.instant), Date(2025, 1, 1))
    {
      HistoricalMembers(Present(mapped), x);
      PresentMembers(mapped, x);
      BeforeProjectionStart(x.instant);
    }
  }

  lemma ExampleKeys()
    ensures IsoDate(Date(2000, 1, 1)) == "2000-01-01" && IsoDate(Date(2000, 4, 1)) == "2000-04-01"
  {
    assert ZeroPad(2000, 4) == "2000" && ZeroPad(1, 2) == "01" && ZeroPad(4, 2) == "04";
  }

  /** A row whose first cell is the serial of `d` is dated `d`. */
  lemma SerialRow(row: seq<Cell>, d: Date)
    requires ValidDate(d) && 100 <= d.year <= 275759
    requires CellAt(row, 0) == Some((DayNumber(d) + 25569) as real)
    ensures SerialToInstant(CellAt(row, 0).value) == Midnight(d)
    ensures InTimeRange(Midnight(d)) && UtcDate(Midnight(d)) == d
  {
    SerialOfDate(d);
    DayNumberInRange(d);
  }

  lemma ExampleDays()
    ensures DayNumber(Date(2000, 1, 1)) == 10957 && DayNumber(Date(2000, 4, 1)) == 11048
  {
  }

  lemma ExampleRegime(t: int)
    requires t == 946684800000 || t == 954547200000
    ensures InflationTarget(t) == Era(1)
  {
  }

  /**
   * The date facts the example rows rely on: each serial names a day of the
   * 0-3% regime, and the neutral-rate table holds 5.0 under that day's key.
   */
  predicate ExampleDate(d: Date, serial: real, table: map<string, real>)
  {
    ValidDate(d) && 100 <= d.year <= 275759 && serial == (DayNumber(d) + 25569) as real
    && serial != 0.0 && InflationTarget(Midnight(d)) == Era(1) && NirLookup(table, IsoDate(d)) == Some(5.0)
  }

  /** 36526 is 2000-01-01 and 36617 is 2000-04-01, both keyed in the example table. */
  lemma ExampleDatesHold(table: map<string, real>)
    requires table == map["2000-01-01" := 5.0, "2000-04-01" := 5.0]
    ensures ExampleDate(Date(2000, 1, 1), 36526.0, table)
    ensures ExampleDate(Date(2000, 4, 1), 36617.0, table)
  {
    ExampleDays();
    ExampleRegime(946684800000);
    ExampleRegime(954547200000);
    ExampleKeys();
  }

  /**
   * A row of the example sheet (columns: date, output gap, inflation, actual rate,
   * unemployment) dated `d`: its record carries the Taylor rate and the inertial rate
   * the server computes from `prev`.
   */
  lemma ExampleRecord(cols: Columns, table: map<string, real>, row: seq<Cell>, d: Date, prev: PrevOcr,
                      gap: real, inflation: real, actual: real, taylor: real, inertial: real)
    requires cols == Columns(1, 2, 4, 3)
    requires CellAt(row, 0).Some? && ExampleDate(d, CellAt(row, 0).value, table)
    requires CellAt(row, 1) == Some(gap) && CellAt(row, 2) == Some(inflation) && CellAt(row, 3) == Some(actual)
    requires gap != 0.0 && inflation != 0.0 && actual != 0.0
    requires taylor == TaylorRate(5.0, inflation, 1.5, gap)
    requires prev.NoPrevious? ==> inertial == actual
    requires prev.PrevValue? ==> inertial == Smoothing * prev.x + Adjustment * taylor
    requires !prev.PrevUndefined?
    ensures Kept(row) && BuildRecord(row, cols, table, prev).Ok?
    ensures BuildRecord(row, cols, table, prev).value.taylorOCR == Some(taylor)
    ensures BuildRecord(row, cols, table, prev).value.inertialOCR == Num(inertial)
  {
    SerialRow(row, d);
    var rec := RecordFields(row, cols, table, prev, d);
    ExampleRates(rec, prev, gap, inflation, actual, taylor, inertial);
  }

  lemma ExampleFirstRecord(cols: Columns, table: map<string, real>, row: seq<Cell>, d: Date)
    requires cols == Columns(1, 2, 4, 3) && row == [Some(36526.0), Some(1.0), Some(2.0), Some(5.0), Some(4.0)]
    requires ExampleDate(d, 36526.0, table)
    ensures Kept(row) && BuildRecord(row, cols, table, NoPrevious).Ok?
    ensures BuildRecord(row, cols, table, NoPrevious).value.taylorOCR == Some(5.75)
    ensures BuildRecord(row, cols, table, NoPrevious).value.inertialOCR == Num(5.0)
  {
    ExampleRecord(cols, table, row, d, NoPrevious, 1.0, 2.0, 5.0, 5.75, 5.0);
  }

  lemma ExampleSecondRecord(cols: Columns, table: map<string, real>, row: seq<Cell>, d: Date)
    requires cols == Columns(1, 2, 4, 3) && row == [Some(36617.0), Some(0.5), Some(1.5), Some(4.8), Some(4.1)]
    requires ExampleDate(d, 36617.0, table)
    ensures Kept(row) && BuildRecord(row, cols, table, PrevValue(5.0)).Ok?
    ensures BuildRecord(row, cols, table, PrevValue(5.0)).value.taylorOCR == Some(5.25)
    ensures BuildRecord(row, cols, table, PrevValue(5.0)).value.inertialOCR == Num(5.0375)
  {
    ExampleRecord(cols, table, row, d, PrevValue(5.0), 0.5, 1.5, 4.8, 5.25, 5.0375);
  }

  /** The fields of the record an example row builds. */
  lemma RecordFields(row: seq<Cell>, cols: Columns, table: map<string, real>, prev: PrevOcr, d: Date)
    returns (rec: Record)
    requires Kept(row) && ExampleDate(d, CellAt(row, 0).value, table)
    requires SerialToInstant(CellAt(row, 0).value) == Midnight(d) && InTimeRange(Midnight(d))
    requires UtcDate(Midnight(d)) == d
    ensures BuildRecord(row, cols, table, prev) == Ok(rec) && RatesFrom(rec, prev)
    ensures rec.outputGap == OrNull(CellAt(row, cols.outputGap)) && rec.papc == OrNull(CellAt(row, cols.papc))
    ensures rec.ocr == OrNull(CellAt(row, cols.ocr))
    ensures rec.longTermNominalNIR == Some(5.0) && rec.mandateType == Era(1)
  {
    rec := BuildRecord(row, cols, table, prev).value;
    RecordRates(row, cols, table, prev, rec);
  }

  /** The rates of a 0-3% record with a neutral rate of 5.0. */
  lemma ExampleRates(rec: Record, prev: PrevOcr, gap: real, inflation: real, actual: real, taylor: real, inertial: real)
    requires RatesFrom(rec, prev) && rec.mandateType == Era(1) && rec.longTermNominalNIR == Some(5.0)
    requires rec.outputGap == Some(gap) && rec.papc == Some(inflation) && rec.ocr == Some(actual)
    requires taylor == TaylorRate(5.0, inflation, 1.5, gap)
    requires prev.NoPrevious? ==> inertial == actual
    requires prev.PrevValue? ==> inertial == Smoothing * prev.x + Adjustment * taylor
    requires !prev.PrevUndefined?
    ensures rec.taylorOCR == Some(taylor) && rec.inertialOCR == Num(inertial)
  {
  }

  /**
   * Two quarters of the 0-3% regime (midpoint 1.5), with a neutral rate of 5.0 on
   * both dates: the first record falls back to its actual rate, the second smooths.
   */
  lemma WorkedExample(first: seq<Cell>, second: seq<Cell>, cols: Columns, table: map<string, real>)
    requires first == [Some(36526.0), Some(1.0), Some(2.0), Some(5.0), Some(4.0)]
    requires second == [Some(36617.0), Some(0.5), Some(1.5), Some(4.8), Some(4.1)]
    requires cols == Columns(1, 2, 4, 3) && table == map["2000-01-01" := 5.0, "2000-04-01" := 5.0]
    ensures var r := Enrich([first, second], cols, table, NoPrevious);
            r.Ok? && |r.value| == 2 && r.value[0].Some? && r.value[1].Some?
            && r.value[0].value.taylorOCR == Some(5.75) && r.value[0].value.inertialOCR == Num(5.0)
            && r.value[1].value.taylorOCR == Some(5.25) && r.value[1].value.inertialOCR == Num(5.0375)
  {
    ExampleDatesHold(table);
    ExampleRecords(first, second, cols, table, Date(2000, 1, 1), Date(2000, 4, 1));
  }

  lemma ExampleRecords(first: seq<Cell>, second: seq<Cell>, cols: Columns, table: map<string, real>, d1: Date, d2: Date)
    requires first == [Some(36526.0), Some(1.0), Some(2.0), Some(5.0), Some(4.0)]
    requires second == [Some(36617.0), Some(0.5), Some(1.5), Some(4.8), Some(4.1)]
    requires cols == Columns(1, 2, 4, 3)
    requires ExampleDate(d1, 36526.0, table) && ExampleDate(d2, 36617.0, table)
    ensures var r := Enrich([first, second], cols, table, NoPrevious);
            r.Ok? && |r.value| == 2 && r.value[0].Some? && r.value[1].Some?
            && r.value[0].value.taylorOCR == Some(5.75) && r.value[0].value.inertialOCR == Num(5.0)
            && r.value[1].value.taylorOCR == Some(5.25) && r.value[1].value.inertialOCR == Num(5.0375)
  {
    ExampleFirstRecord(cols, table, first, d1);
    ExampleSecondRecord(cols, table, second, d2);
    assert NextPrev(first, cols, NoPrevious) == PrevValue(5.0);
    EnrichTwo(first, second, cols, table, NoPrevious);
  }

  /** A pass over two kept rows that both build: the second sees the first's rate. */
  lemma EnrichTwo(first: seq<Cell>, second: seq<Cell>, cols: Columns, table: map<string, real>, prev: PrevOcr)
    requires Kept(first) && BuildRecord(first, cols, table, prev).Ok?
    requires Kept(second) && BuildRecord(second, cols, table, NextPrev(first, cols, prev)).Ok?
    ensures Enrich([first, second], cols, table, prev)
            == Ok([Some(BuildRecord(first, cols, table, prev).value),
                   Some(BuildRecord(second, cols, table, NextPrev(first, cols, prev)).value)])
  {
    var rows: seq<seq<Cell>> := [first, second];
    var p2 := NextPrev(first, cols, prev);
    var r1 := BuildRecord(first, cols, table, prev).value;
    var r2 := BuildRecord(second, cols, table, p2).value;
    assert rows[1..] == [second];
    EnrichOne(second, cols, table, p2);
    EnrichKept(rows, cols, table, prev);
    PairConcat(Some(r1), Some(r2));
  }

  /** A pass over one kept row that builds. */
  lemma EnrichOne(row: seq<Cell>, cols: Columns, table: map<string, real>, prev: PrevOcr)
    requires Kept(row) && BuildRecord(row, cols, table, prev).Ok?
    ensures Enrich([row], cols, table, prev) == Ok([Some(BuildRecord(row, cols, table, prev).value)])
  {
    var rows: seq<seq<Cell>> := [row];
    var r := BuildRecord(row, cols, table, prev).value;
    assert rows[1..] == [];
    assert Enrich(rows[1..], cols, table, NextPrev(row, cols, prev)) == Ok([]);
    EnrichKept(rows, cols, table, prev);
    SingleConcat(Some(r));
  }

  lemma TailIndex<T>(s: seq<T>, i: int)
    requires 1 <= i < |s|
    ensures s[1..][i - 1] == s[i]
  {
  }

  lemma PairConcat<T>(x: T, y: T)
    ensures [x] + [y] == [x, y]
  {
  }

  lemma SingleConcat<T>(x: T)
    ensures [x] + [] == [x]
  {
  }

  /** Unfolding one kept row that builds. */
  lemma EnrichKept(rows: seq<seq<Cell>>, cols: Columns, table: map<string, real>, prev: PrevOcr)
    requires rows != [] && Kept(rows[0]) && BuildRecord(rows[0], cols, table, prev).Ok?
    ensures Enrich(rows, cols, table, prev)
            == Prepend(Some(BuildRecord(rows[0], cols, table, prev).value),
                       Enrich(rows[1..], cols, table, NextPrev(rows[0], cols, prev)))
  {
  }

  lemma EnrichSkipped(rows: seq<seq<Cell>>, cols: Columns, table: map<string, real>, prev: PrevOcr)
    requires rows != [] && !Kept(rows[0])
    ensures Enrich(rows, cols, table, prev) == Prepend(None, Enrich(rows[1..], cols, table, prev))
  {
  }

  lemma EnrichThrows(rows: seq<seq<Cell>>, cols: Columns, table: map<string, real>, prev: PrevOcr)
    requires rows != [] && Kept(rows[0]) && BuildRecord(rows[0], cols, table, prev).Err?
    ensures Enrich(rows, cols, table, prev) == Err(BuildRecord(rows[0], cols, table, prev).error)
  {
  }
}
