/**
 * The browser page (`src/app/page.tsx`): the fold that recomputes both rates over
 * the fetched feed, the quarter-label encoder, the quarter-range filter and the
 * chart series.
 */
module Client {
  import opened Outcomes
  import opened Text
  import opened Calendar
  import opened Regime
  import opened TaylorRule
  import opened Workbook
  import DataFeed

  /** A `DataEntry` as the page receives it. */
  datatype Entry = Entry(
    instant: int,                    // `date`; the page never reads it
    quarter: string,
    outputGap: Option<real>,
    papc: Option<real>,
    urate: Option<real>,
    isProjection: bool,
    ocr: Option<real>,
    longTermNominalNIR: Option<real>,
    mandateType: Target,
    taylorOCR: Option<real>,
    inertialOCR: Option<real>)

  /** JSON carries no NaN: `JSON.stringify` writes it as `null`. */
  function JsonNumber(x: JsNumber): (r: Option<real>)
    ensures r.Some? <==> x.Num?
    ensures r.Some? ==> r.value == x.x
  {
    match x
    case Num(v) => Some(v)
    case _ => None
  }

  /** A server record after the JSON round trip. */
  function FromServer(rec: DataFeed.Record): (e: Entry)
    ensures e.inertialOCR.Some? <==> rec.inertialOCR.Num?
    ensures e.quarter == rec.quarter && e.ocr == rec.ocr && e.taylorOCR == rec.taylorOCR
  {
    Entry(rec.instant, rec.quarter, rec.outputGap, rec.papc, rec.urate, rec.isProjection, rec.ocr,
          rec.longTermNominalNIR, rec.mandateType, rec.taylorOCR, JsonNumber(rec.inertialOCR))
  }

  /**
   * The body of the `map` callback: both rates from the entry's own fields, with
   * `papc || 0` as inflation and the regime midpoint as target. The fields set to
   * null beforehand (lines 175-179) are overwritten here, so that step is subsumed.
   */
  function WithRates(e: Entry, prev: Option<real>): (r: Entry)
    ensures r.(taylorOCR := e.taylorOCR, inertialOCR := e.inertialOCR) == e
    ensures r.taylorOCR.None? <==> e.outputGap.None? || e.longTermNominalNIR.None?
    ensures r.taylorOCR.None? ==> r.inertialOCR.None?
  {
    var inflation := OrZero(e.papc);
    var target := e.mandateType.midpoint;
    e.(taylorOCR := TaylorOCR(inflation, e.outputGap, e.longTermNominalNIR, target),
       inertialOCR := ClientInertialOCR(prev, inflation, e.outputGap, e.longTermNominalNIR, target, e.ocr))
  }

  /** The fold from previous rate `prev`: every entry passes its own `ocr` on to the next. */
  function ClientRates(entries: seq<Entry>, prev: Option<real>): (r: seq<Entry>)
    ensures |r| == |entries|
  {
    if entries == [] then []
    else [WithRates(entries[0], prev)] + ClientRates(entries[1..], entries[0].ocr)
  }

  /** `dataWithOCR`: the `map` with its closure over `let prevOCR`, as a loop. */
  method ComputeRates(entries: seq<Entry>) returns (out: seq<Entry>)
    ensures out == ClientRates(entries, None)
  {
    out := [];
    var prevOCR: Option<real> := None;
    var i := 0;
    assert entries[0..] == entries;
    while i < |entries|
      invariant 0 <= i <= |entries|
      invariant ClientRates(entries, None) == out + ClientRates(entries[i..], prevOCR)
    {
      var entry := entries[i];
      assert entries[i..][0] == entry && entries[i..][1..] == entries[i + 1..];
      var updated := WithRates(entry, prevOCR);
      assert out + ClientRates(entries[i..], prevOCR) == (out + [updated]) + ClientRates(entries[i + 1..], entry.ocr);
      out := out + [updated];
      prevOCR := entry.ocr;
      i := i + 1;
    }
    assert out + [] == out;
  }

  /**
   * The fold, entry by entry: the first entry sees the starting rate, every later one
   * the `ocr` of the entry before it, and only the two rate fields change.
   */
  lemma {:induction false} ClientRatesPointwise(entries: seq<Entry>, prev: Option<real>)
    ensures forall i :: 0 <= i < |entries| ==>
              ClientRates(entries, prev)[i] == WithRates(entries[i], if i == 0 then prev else entries[i - 1].ocr)
    ensures forall i :: 0 <= i < |entries| ==>
              ClientRates(entries, prev)[i].(taylorOCR := entries[i].taylorOCR, inertialOCR := entries[i].inertialOCR)
              == entries[i]
  {
    if entries != [] {
      ClientRatesPointwise(entries[1..], entries[0].ocr);
      var r := ClientRates(entries, prev);
      assert r[1..] == ClientRates(entries[1..], entries[0].ocr);
      forall i | 1 <= i < |entries|
        ensures r[i] == WithRates(entries[i], entries[i - 1].ocr)
      {
        assert entries[1..][i - 1] == entries[i];
        assert i - 1 == 0 || entries[1..][i - 2] == entries[i - 1];
        assert r[1..][i - 1] == r[i];
      }
    }
  }

  /**
   * The previous rate can become null again mid-series: an entry after one without
   * `ocr` falls back to its own `ocr` as its inertial rate.
   */
  lemma FallbackRecurs(entries: seq<Entry>, i: nat)
    requires 0 < i < |entries| && entries[i - 1].ocr.None?
    requires entries[i].outputGap.Some? && entries[i].longTermNominalNIR.Some?
    ensures ClientRates(entries, None)[i].inertialOCR == entries[i].ocr
  {
    ClientRatesPointwise(entries, None);
  }

  /** The rate an entry after a present `ocr` gets: the smoothed Taylor rule. */
  lemma SmoothedAfterPresentRate(entries: seq<Entry>, i: nat)
    requires 0 < i < |entries| && entries[i - 1].ocr.Some?
    requires entries[i].outputGap.Some? && entries[i].longTermNominalNIR.Some?
    ensures var e := entries[i];
            ClientRates(entries, None)[i].inertialOCR
            == Some(0.85 * entries[i - 1].ocr.value
                    + 0.15 * TaylorRate(e.longTermNominalNIR.value, OrZero(e.papc), e.mandateType.midpoint,
                                        e.outputGap.value))
  {
    ClientRatesPointwise(entries, None);
  }

  /** The page recomputes the server's Taylor rate exactly. */
  lemma TaylorAgreesWithServer(row: seq<Cell>, cols: Columns, table: map<string, real>, prev: PrevOcr,
                               rec: DataFeed.Record, clientPrev: Option<real>)
    requires Kept(row) && DataFeed.BuildRecord(row, cols, table, prev) == Ok(rec)
    ensures WithRates(FromServer(rec), clientPrev).taylorOCR == rec.taylorOCR
  {
    DataFeed.RecordRates(row, cols, table, prev, rec);
  }

  /**
   * The inertial rates agree when both sides start from nothing, and when the
   * server's previous cell is a non-zero number, which reaches the page unchanged.
   */
  lemma InertialAgreesWithServer(row: seq<Cell>, cols: Columns, table: map<string, real>, prev: PrevOcr,
                                 rec: DataFeed.Record)
    requires Kept(row) && DataFeed.BuildRecord(row, cols, table, prev) == Ok(rec)
    requires prev.NoPrevious? || (prev.PrevValue? && prev.x != 0.0)
    ensures WithRates(FromServer(rec), if prev.NoPrevious? then None else Some(prev.x)).inertialOCR
            == JsonNumber(rec.inertialOCR)
  {
    DataFeed.RecordRates(row, cols, table, prev, rec);
    InertialFromRates(rec, prev);
  }

  lemma InertialFromRates(rec: DataFeed.Record, prev: PrevOcr)
    requires DataFeed.RatesFrom(rec, prev)
    requires prev.NoPrevious? || (prev.PrevValue? && prev.x != 0.0)
    ensures WithRates(FromServer(rec), if prev.NoPrevious? then None else Some(prev.x)).inertialOCR
            == JsonNumber(rec.inertialOCR)
  {
  }

  /**
   * Where the copies part: after a row whose `ocr` cell is 0 the server smooths
   * from 0, while the page, which received that 0 as null, falls back to the actual rate.
   */
  lemma ZeroPreviousDiverges(row: seq<Cell>, cols: Columns, table: map<string, real>, rec: DataFeed.Record)
    requires Kept(row) && DataFeed.BuildRecord(row, cols, table, PrevValue(0.0)) == Ok(rec)
    requires rec.taylorOCR.Some?
    ensures JsonNumber(rec.inertialOCR) == Some(0.15 * rec.taylorOCR.value)
    ensures WithRates(FromServer(rec), None).inertialOCR == rec.ocr
  {
    DataFeed.RecordRates(row, cols, table, PrevValue(0.0), rec);
    ZeroPreviousFromRates(rec);
  }

  lemma ZeroPreviousFromRates(rec: DataFeed.Record)
    requires DataFeed.RatesFrom(rec, PrevValue(0.0)) && rec.taylorOCR.Some?
    ensures JsonNumber(rec.inertialOCR) == Some(0.15 * rec.taylorOCR.value)
    ensures WithRates(FromServer(rec), None).inertialOCR == rec.ocr
  {
  }

  // ----- quarter labels -----

  /** Whether `/(Q[1-4]) (\d{4})/` matches at position `j`. */
  predicate QuarterAt(s: string, j: int)
  {
    0 <= j && j + 7 <= |s| && s[j] == 'Q' && '1' <= s[j + 1] <= '4' && s[j + 2] == ' '
    && AllDigits(s[j + 3..j + 7])
  }

  /** The leftmost match at or after `i`. */
  function FirstMatch(s: string, i: nat): (r: Option<nat>)
    requires i <= |s|
    ensures r.Some? ==> i <= r.value && QuarterAt(s, r.value)
    ensures r.Some? ==> forall j :: i <= j < r.value ==> !QuarterAt(s, j)
    ensures r.None? ==> forall j :: i <= j ==> !QuarterAt(s, j)
    decreases |s| - i
  {
    if QuarterAt(s, i) then Some(i)
    else if i + 7 >= |s| then None
    else FirstMatch(s, i + 1)
  }

  /** `convertQuarterToNumeric`: `year + quarter / 10` from the first match, 0 when there is none. */
  function QuarterToNumeric(s: string): (r: real)
    ensures FirstMatch(s, 0).None? ==> r == 0.0
  {
    match FirstMatch(s, 0)
    case None => 0.0
    case Some(j) => DigitsValue(s[j + 3..j + 7]) as real + (DigitValue(s[j + 1]) as real) / 10.0
  }

  /** A label of a four-digit year encodes as that year plus a tenth per quarter. */
  lemma QuarterLabelNumeric(d: Date)
    requires ValidDate(d) && 1000 <= d.year <= 9999
    ensures QuarterToNumeric(QuarterLabel(d)) == (d.year as real) + (QuarterOf(d.month) as real) / 10.0
  {
    var s := QuarterLabel(d);
    QuarterLabelShape(d);
    assert Pow10(3) == 1000 && Pow10(4) == 10000;
    NatToStringLength(d.year, 3);
    NatToStringValue(d.year);
    assert s[3..] == NatToString(d.year);
    assert s[3..7] == NatToString(d.year);
    assert QuarterAt(s, 0);
  }

  /**
   * The encoding orders labels as the quarters they name: earlier quarter, smaller
   * number, and equal numbers for the same quarter.
   */
  lemma QuarterNumericOrder(a: Date, b: Date)
    requires ValidDate(a) && 1000 <= a.year <= 9999 && ValidDate(b) && 1000 <= b.year <= 9999
    ensures var qa, qb := QuarterOf(a.month), QuarterOf(b.month);
            var na, nb := QuarterToNumeric(QuarterLabel(a)), QuarterToNumeric(QuarterLabel(b));
            (na < nb <==> a.year < b.year || (a.year == b.year && qa < qb))
            && (na == nb <==> a.year == b.year && qa == qb)
  {
    QuarterLabelNumeric(a);
    QuarterLabelNumeric(b);
  }

  /** Text without a label anywhere encodes as 0, below every real label. */
  lemma NoLabelIsZero(s: string, d: Date)
    requires forall j :: 0 <= j ==> !QuarterAt(s, j)
    requires ValidDate(d) && 1000 <= d.year <= 9999
    ensures QuarterToNumeric(s) == 0.0 < QuarterToNumeric(QuarterLabel(d))
  {
    QuarterLabelNumeric(d);
  }

  // ----- the range filter -----

  predicate InQuarterRange(e: Entry, lo: real, hi: real)
  {
    lo <= QuarterToNumeric(e.quarter) <= hi
  }

  /** `data.filter(entry => startNumeric <= numeric(entry.quarter) <= endNumeric)`. */
  function InRange(data: seq<Entry>, lo: real, hi: real): (r: seq<Entry>)
    ensures |r| <= |data|
  {
    if data == [] then []
    else (if InQuarterRange(data[0], lo, hi) then [data[0]] else []) + InRange(data[1..], lo, hi)
  }

  /** The filter for the selected start and end labels. */
  function RangeFilter(data: seq<Entry>, startQuarter: string, endQuarter: string): (r: seq<Entry>)
    ensures |r| <= |data|
    ensures forall x :: x in r ==> x in data && InQuarterRange(x, QuarterToNumeric(startQuarter), QuarterToNumeric(endQuarter))
    ensures QuarterToNumeric(startQuarter) > QuarterToNumeric(endQuarter) ==> r == []
  {
    var lo, hi := QuarterToNumeric(startQuarter), QuarterToNumeric(endQuarter);
    RangeSound(data, lo, hi);
    if lo > hi then RangeEmpty(data, lo, hi); InRange(data, lo, hi) else InRange(data, lo, hi)
  }

  /** Every survivor of the filter was in the data and in range. */
  lemma RangeSound(data: seq<Entry>, lo: real, hi: real)
    ensures forall x :: x in InRange(data, lo, hi) ==> x in data && InQuarterRange(x, lo, hi)
  {
    forall x | x in InRange(data, lo, hi)
      ensures x in data && InQuarterRange(x, lo, hi)
    {
      RangeMembers(data, lo, hi, x);
    }
  }

  /** An entry survives exactly when its quarter's number lies in `[lo, hi]`. */
  lemma {:induction false} RangeMembers(data: seq<Entry>, lo: real, hi: real, x: Entry)
    ensures x in InRange(data, lo, hi) <==> x in data && InQuarterRange(x, lo, hi)
  {
    if data != [] {
      RangeMembers(data[1..], lo, hi, x);
      assert data == [data[0]] + data[1..];
    }
  }

  /** The filter commutes with concatenation, so the survivors keep their order. */
  lemma {:induction false} RangeAppend(a: seq<Entry>, b: seq<Entry>, lo: real, hi: real)
    ensures InRange(a + b, lo, hi) == InRange(a, lo, hi) + InRange(b, lo, hi)
  {
    if a == [] {
      assert a + b == b;
    } else {
      var x, rest := a[0], a[1..];
      var head := if InQuarterRange(x, lo, hi) then [x] else [];
      assert a == [x] + rest && a + b == [x] + (rest + b);
      calc {
        InRange(a + b, lo, hi);
        { RangeCons(x, rest + b, lo, hi); }
        head + InRange(rest + b, lo, hi);
        { RangeAppend(rest, b, lo, hi); }
        head + (InRange(rest, lo, hi) + InRange(b, lo, hi));
        (head + InRange(rest, lo, hi)) + InRange(b, lo, hi);
        { RangeCons(x, rest, lo, hi); }
        InRange(a, lo, hi) + InRange(b, lo, hi);
      }
    }
  }

  lemma RangeCons(x: Entry, rest: seq<Entry>, lo: real, hi: real)
    ensures InRange([x] + rest, lo, hi) == (if InQuarterRange(x, lo, hi) then [x] else []) + InRange(rest, lo, hi)
  {
    assert ([x] + rest)[0] == x && ([x] + rest)[1..] == rest;
  }

  /** A start after the end selects nothing. */
  lemma {:induction false} RangeEmpty(data: seq<Entry>, lo: real, hi: real)
    requires lo > hi
    ensures InRange(data, lo, hi) == []
  {
    if data != [] {
      RangeEmpty(data[1..], lo, hi);
    }
  }

  lemma {:induction false} RangeKeepsAll(data: seq<Entry>, lo: real, hi: real)
    requires forall i :: 0 <= i < |data| ==> InQuarterRange(data[i], lo, hi)
    ensures InRange(data, lo, hi) == data
  {
    if data != [] {
      assert forall i :: 0 <= i < |data| - 1 ==> data[1..][i] == data[i + 1];
      RangeKeepsAll(data[1..], lo, hi);
      assert data == [data[0]] + data[1..];
    }
  }

  /**
   * The initial selection, first and last quarter of the feed, keeps the whole feed
   * when its quarters ascend.
   */
  lemma InitialRangeKeepsAll(data: seq<Entry>)
    requires data != []
    requires forall i, j :: 0 <= i <= j < |data| ==>
               QuarterToNumeric(data[i].quarter) <= QuarterToNumeric(data[j].quarter)
    ensures RangeFilter(data, data[0].quarter, data[|data| - 1].quarter) == data
  {
    RangeKeepsAll(data, QuarterToNumeric(data[0].quarter), QuarterToNumeric(data[|data| - 1].quarter));
  }

  // ----- chart series -----

  /** `x ?? 0`. */
  function OrZeroNullish(x: Option<real>): (r: real)
    ensures x.None? ==> r == 0.0
    ensures x.Some? ==> r == x.value
  {
    if x.Some? then x.value else 0.0
  }

  /** The labels and the three data series of the chart. */
  datatype Series = Series(labels: seq<string>, ocr: seq<real>, taylor: seq<real>, inertial: seq<real>)

  /** `generateGraphData`: one point per entry in every series, missing values drawn at 0. */
  function GraphData(data: seq<Entry>): (g: Series)
    ensures |g.labels| == |data| && |g.ocr| == |data| && |g.taylor| == |data| && |g.inertial| == |data|
    ensures forall i :: 0 <= i < |data| ==>
              g.labels[i] == data[i].quarter
              && g.ocr[i] == OrZeroNullish(data[i].ocr)
              && g.taylor[i] == OrZeroNullish(data[i].taylorOCR)
              && g.inertial[i] == OrZeroNullish(data[i].inertialOCR)
  {
    Series(seq(|data|, i requires 0 <= i < |data| => data[i].quarter),
           seq(|data|, i requires 0 <= i < |data| => OrZeroNullish(data[i].ocr)),
           seq(|data|, i requires 0 <= i < |data| => OrZeroNullish(data[i].taylorOCR)),
           seq(|data|, i requires 0 <= i < |data| => OrZeroNullish(data[i].inertialOCR)))
  }

  /** Charting a selection of adjacent ranges is charting each and joining the series. */
  lemma GraphAppend(a: seq<Entry>, b: seq<Entry>)
    ensures GraphData(a + b).labels == GraphData(a).labels + GraphData(b).labels
    ensures GraphData(a + b).ocr == GraphData(a).ocr + GraphData(b).ocr
    ensures GraphData(a + b).taylor == GraphData(a).taylor + GraphData(b).taylor
    ensures GraphData(a + b).inertial == GraphData(a).inertial + GraphData(b).inertial
  {
    var g, ga, gb := GraphData(a + b), GraphData(a), GraphData(b);
    forall i | 0 <= i < |a + b|
      ensures g.labels[i] == (ga.labels + gb.labels)[i] && g.ocr[i] == (ga.ocr + gb.ocr)[i]
      ensures g.taylor[i] == (ga.taylor + gb.taylor)[i] && g.inertial[i] == (ga.inertial + gb.inertial)[i]
    {
      if i < |a| {
        assert (a + b)[i] == a[i];
      } else {
        assert (a + b)[i] == b[i - |a|];
      }
    }
  }
}
