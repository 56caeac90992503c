/**
 * What both feed endpoints read from the `Projections` sheet: the header row,
 * the cells of a data row, the serial-date conversion, the quarter label and the
 * neutral-rate lookup, with JavaScript's falsy coercions written out.
 */
module Workbook {
  import opened Outcomes
  import opened Text
  import opened Calendar
  import opened NirData

  /** A spreadsheet cell as `sheet_to_json` yields it in a data row: a number, or `undefined` (None). */
  type Cell = Option<real>

  /**
   * The sheet after `sheet_to_json(sheet, { header: 1 })`: `header` is row 7 (None
   * when the sheet has fewer than seven rows, text cells as `Some`), `body` the rows
   * from row 8 on.
   */
  datatype Sheet = Sheet(header: Option<seq<Option<string>>>, body: seq<seq<Cell>>)

  /** `row[i]`: undefined out of range, including `row[-1]` for a missing column. */
  function CellAt(row: seq<Cell>, i: int): (c: Cell)
    ensures (0 <= i < |row|) ==> c == row[i]
    ensures !(0 <= i < |row|) ==> c == None
  {
    if 0 <= i < |row| then row[i] else None
  }

  /** `x || null`: zero and undefined become null. */
  function OrNull(x: Cell): (r: Option<real>)
    ensures r.None? <==> !Truthy(x)
    ensures r.Some? ==> r == x && r.value != 0.0
  {
    if Truthy(x) then x else None
  }

  /** `x || 0`: undefined becomes zero. */
  function OrZero(x: Cell): (r: real)
    ensures x.Some? ==> r == x.value
    ensures x.None? ==> r == 0.0
  {
    if Truthy(x) then x.value else 0.0
  }

  /** `headers.indexOf(name)`: the first position holding `name`, or -1. */
  function IndexOf(header: seq<Option<string>>, name: string): (r: int)
    ensures -1 <= r < |header|
    ensures r == -1 <==> Some(name) !in header
    ensures r >= 0 ==> header[r] == Some(name) && Some(name) !in header[..r]
  {
    if header == [] then -1
    else if header[0] == Some(name) then 0
    else
      var j := IndexOf(header[1..], name);
      assert header == [header[0]] + header[1..];
      if j == -1 then -1
      else
        assert header[..j + 1] == [header[0]] + header[1..][..j];
        j + 1
  }

  /** The four column positions `GET` looks up in row 7. */
  datatype Columns = Columns(outputGap: int, papc: int, urate: int, ocr: int)

  function ColumnsOf(header: seq<Option<string>>): (c: Columns)
    ensures c.outputGap == IndexOf(header, "outputgap") && c.papc == IndexOf(header, "papc")
    ensures c.urate == IndexOf(header, "urate") && c.ocr == IndexOf(header, "ocr")
  {
    Columns(IndexOf(header, "outputgap"), IndexOf(header, "papc"), IndexOf(header, "urate"), IndexOf(header, "ocr"))
  }

  /** Rows whose first cell is empty or zero are skipped (`if (!dateStr) return null`). */
  predicate Kept(row: seq<Cell>)
  {
    Truthy(CellAt(row, 0))
  }

  /** `excelDateToJSDate`'s time value: `Math.round((serial - 25569) * 86400 * 1000)`. */
  function SerialToInstant(serial: real): int
  {
    ((serial - 25569.0) * 86400000.0 + 0.5).Floor
  }

  /** `Math.round` of the millisecond product: the nearest integer, halves rounding up. */
  lemma SerialRounding(serial: real)
    ensures var ms := (serial - 25569.0) * 86400000.0;
            ms - 0.5 < SerialToInstant(serial) as real <= ms + 0.5
  {
  }

  /** An integer serial is UTC midnight of the day `serial - 25569` days after 1970-01-01. */
  lemma SerialIsMidnight(serial: int)
    ensures SerialToInstant(serial as real) == (serial - 25569) * MsPerDay
    ensures DayOfInstant(SerialToInstant(serial as real)) == serial - 25569
    ensures SerialToInstant(25569.0) == 0
  {
    var t := (serial - 25569) * MsPerDay;
    assert ((serial as real) - 25569.0) * 86400000.0 == t as real;
    assert (t as real + 0.5).Floor == t;
  }

  /** The serial of a calendar date converts to that date's midnight. */
  lemma SerialOfDate(d: Date)
    requires ValidDate(d)
    ensures SerialToInstant((DayNumber(d) + 25569) as real) == Midnight(d)
    ensures UtcDate(SerialToInstant((DayNumber(d) + 25569) as real)) == d
  {
    SerialIsMidnight(DayNumber(d) + 25569);
    MidnightOnDate(d);
  }

  /** `Math.ceil(month / 3)` for a month 1..12. */
  function QuarterOf(month: int): (q: int)
    requires 1 <= month <= 12
    ensures 1 <= q <= 4
    ensures 3 * (q - 1) < month <= 3 * q
  {
    (month + 2) / 3
  }

  /** `Q${quarter} ${year}`. */
  function QuarterLabel(d: Date): string
    requires ValidDate(d)
  {
    "Q" + NatToString(QuarterOf(d.month)) + " " + IntToString(d.year)
  }

  /** The label is `Q`, one digit 1..4 naming the quarter, a space and the year. */
  lemma QuarterLabelShape(d: Date)
    requires ValidDate(d)
    ensures var s := QuarterLabel(d);
            |s| >= 4 && s[0] == 'Q' && '1' <= s[1] <= '4' && s[2] == ' '
            && DigitValue(s[1]) == QuarterOf(d.month) && s[3..] == IntToString(d.year)
  {
    var q := QuarterOf(d.month);
    assert NatToString(q) == [DigitChar(q)];
  }

  /** `projectionStartDate`, 2025-01-01T00:00:00Z, in milliseconds. */
  function ProjectionStart(): int
  {
    1735689600000
  }

  lemma ProjectionStartIsMidnight()
    ensures ProjectionStart() == Midnight(Date(2025, 1, 1))
  {
    assert DayNumber(Date(2025, 1, 1)) == 20089;
  }

  /** An instant is before the projection start exactly when its UTC date is before 2025-01-01. */
  lemma BeforeProjectionStart(t: int)
    ensures t < ProjectionStart() <==> Before(UtcDate(t), Date(2025, 1, 1))
  {
    var start := Date(2025, 1, 1);
    ProjectionStartIsMidnight();
    InstantBeforeMidnight(t, start);
    BeforeIffDayNumber(UtcDate(t), start);
  }

  /** `nirDataMap.get(key) || null`: a missing key and a stored zero both give null. */
  function NirLookup(table: map<string, real>, key: string): (r: Option<real>)
    ensures r.Some? <==> key in table && table[key] != 0.0
    ensures r.Some? ==> r.value == table[key]
  {
    if key in table then OrNull(Some(table[key])) else None
  }

  /** Keep the non-null entries of a mapped sequence, in order (`filter(entry => entry !== null)`). */
  function Present<T>(xs: seq<Option<T>>): (ys: seq<T>)
    ensures |ys| <= |xs|
  {
    if xs == [] then []
    else (if xs[0].Some? then [xs[0].value] else []) + Present(xs[1..])
  }

  /** Dropping nulls commutes with concatenation, so the survivors keep their relative order. */
  lemma {:induction false} PresentAppend<T>(a: seq<Option<T>>, b: seq<Option<T>>)
    ensures Present(a + b) == Present(a) + Present(b)
  {
    if a != [] {
      assert (a + b)[0] == a[0];
      assert (a + b)[1..] == a[1..] + b;
      PresentAppend(a[1..], b);
    } else {
      assert a + b == b;
    }
  }

  /** A value survives exactly when it was present. */
  lemma {:induction false} PresentMembers<T>(xs: seq<Option<T>>, x: T)
    ensures x in Present(xs) <==> Some(x) in xs
  {
    if xs != [] {
      PresentMembers(xs[1..], x);
      assert xs == [xs[0]] + xs[1..];
    }
  }
}
