/**
 * The long-term neutral rate table read from `NIR.csv` (`parseNIRData` and
 * `parseDate`): each row's `DD/MM/YYYY` date becomes a `YYYY-MM-DD` key and a
 * later row with the same key replaces an earlier one.
 */
module NirData {
  import opened Outcomes
  import opened Text
  import opened Calendar

  /** JavaScript truthiness of a number: neither NaN/undefined (None) nor zero. */
  predicate Truthy(x: Option<real>)
  {
    x.Some? && x.value != 0.0
  }

  /** ECMAScript ToIntegerOrInfinity on a finite number: truncation toward zero. */
  function Trunc(x: real): (n: int)
    ensures 0.0 <= x ==> n == x.Floor
    ensures 0.0 <= x ==> (n as real) <= x < (n as real) + 1.0
    ensures x < 0.0 ==> (n as real) - 1.0 < x <= (n as real)
  {
    if x >= 0.0 then x.Floor else -((-x).Floor)
  }

  /** ECMAScript MakeDay: the day number of day `date` of zero-based month `month` of `year`, month overflow carried into the year. */
  function MakeDay(year: int, month: int, date: int): int
  {
    DaysFromCivil(year + month / 12, month % 12 + 1, date)
  }

  /**
   * `Date.UTC(year, month, day)` as a day number: years 0..99 mean 1900..1999,
   * out-of-range months and days carry over, and a time value beyond the range
   * a `Date` can hold is NaN (None).
   */
  function DateUtc(year: real, month: real, day: real): (r: Option<int>)
    ensures r.Some? ==> InTimeRange(r.value * MsPerDay)
  {
    var yi := Trunc(year);
    var yr := if 0 <= yi <= 99 then 1900 + yi else yi;
    var days := MakeDay(yr, Trunc(month), Trunc(day));
    if InTimeRange(days * MsPerDay) then Some(days) else None
  }

  /** What `parseDate` yields: a key, `null`, or a `RangeError` from `toISOString` on an invalid Date. */
  datatype DateKey = Key(key: string) | NoKey | KeyThrows

  /** Token `i` of `s.split("/").map(Number)`; a token that is not there is `undefined` (None). */
  function Token(s: string, i: nat): Option<real>
  {
    var parts := Split(s, '/');
    if i < |parts| then Number(parts[i]) else None
  }

  /** `parseDate` once the tokens are numbers: no key unless all three are truthy. */
  function DateFromFields(day: Option<real>, month: Option<real>, year: Option<real>): (r: DateKey)
    ensures r.NoKey? <==> !Truthy(day) || !Truthy(month) || !Truthy(year)
    ensures r.KeyThrows? <==> Truthy(day) && Truthy(month) && Truthy(year)
                              && DateUtc(year.value, month.value - 1.0, day.value).None?
  {
    if Truthy(day) && Truthy(month) && Truthy(year) then
      match DateUtc(year.value, month.value - 1.0, day.value)
      case Some(n) => Key(IsoDate(CivilFromDays(n)))
      case None => KeyThrows
    else NoKey
  }

  /** `parseDate`: day, month and year from the first three `/`-separated tokens. */
  function ParseDate(s: string): DateKey
  {
    DateFromFields(Token(s, 0), Token(s, 1), Token(s, 2))
  }

  /**
   * `parseDate` gives `null` exactly when one of the first three tokens is
   * missing, NaN or zero, and throws exactly when all three are truthy but
   * `Date.UTC` leaves the time range.
   */
  lemma ParseDateMeaning(s: string)
    ensures ParseDate(s).NoKey? <==> !Truthy(Token(s, 0)) || !Truthy(Token(s, 1)) || !Truthy(Token(s, 2))
    ensures ParseDate(s).KeyThrows? <==>
              Truthy(Token(s, 0)) && Truthy(Token(s, 1)) && Truthy(Token(s, 2))
              && DateUtc(Token(s, 2).value, Token(s, 1).value - 1.0, Token(s, 0).value).None?
    ensures ParseDate(s).Key? ==>
              exists n :: InTimeRange(n * MsPerDay) && ParseDate(s).key == IsoDate(CivilFromDays(n))
  {
    var day, month, year := Token(s, 0), Token(s, 1), Token(s, 2);
    if Truthy(day) && Truthy(month) && Truthy(year) && DateUtc(year.value, month.value - 1.0, day.value).Some? {
      var n := DateUtc(year.value, month.value - 1.0, day.value).value;
      assert InTimeRange(n * MsPerDay) && ParseDate(s).key == IsoDate(CivilFromDays(n));
    }
  }

  /** The text `D/M/Y` with unpadded decimal fields. */
  function DayMonthYear(day: nat, month: nat, year: nat): string
  {
    NatToString(day) + "/" + NatToString(month) + "/" + NatToString(year)
  }

  /** The text `DD/MM/YYYY`: day and month padded to two digits, the year to four. */
  function PaddedDayMonthYear(day: nat, month: nat, year: nat): string
  {
    ZeroPad(day, 2) + "/" + ZeroPad(month, 2) + "/" + ZeroPad(year, 4)
  }

  lemma DigitsHaveNoSlash(s: string)
    requires AllDigits(s)
    ensures '/' !in s
  {
  }

  /** Three slash-free fields joined by `/` split back into those fields. */
  lemma SplitThree(a: string, b: string, c: string)
    requires '/' !in a && '/' !in b && '/' !in c
    ensures Split(a + "/" + b + "/" + c, '/') == [a, b, c]
  {
    SplitNoSeparator(c, '/');
    SplitAtFirst(b, '/', c);
    assert b + "/" + c == b + ['/'] + c;
    SplitAtFirst(a, '/', b + "/" + c);
    assert a + "/" + b + "/" + c == a + ['/'] + (b + "/" + c);
  }

  /** A field of decimal digits, with or without leading zeros, reads as its value. */
  lemma TokenOfDigits(s: string, i: nat, a: string)
    requires |a| >= 1 && AllDigits(a)
    requires i < |Split(s, '/')| && Split(s, '/')[i] == a
    ensures Token(s, i) == Some(DigitsValue(a) as real)
  {
    NumberOfDigitString(a);
  }

  /** Three digit fields joined by `/` yield their values as the first three tokens. */
  lemma FieldTokens(a: string, b: string, c: string)
    requires |a| >= 1 && AllDigits(a) && |b| >= 1 && AllDigits(b) && |c| >= 1 && AllDigits(c)
    ensures var s := a + "/" + b + "/" + c;
            Token(s, 0) == Some(DigitsValue(a) as real) && Token(s, 1) == Some(DigitsValue(b) as real)
            && Token(s, 2) == Some(DigitsValue(c) as real)
  {
    var s := a + "/" + b + "/" + c;
    DigitsHaveNoSlash(a);
    DigitsHaveNoSlash(b);
    DigitsHaveNoSlash(c);
    SplitThree(a, b, c);
    TokenOfDigits(s, 0, a);
    TokenOfDigits(s, 1, b);
    TokenOfDigits(s, 2, c);
  }

  lemma DayMonthYearTokens(day: nat, month: nat, year: nat)
    ensures var s := DayMonthYear(day, month, year);
            Token(s, 0) == Some(day as real) && Token(s, 1) == Some(month as real)
            && Token(s, 2) == Some(year as real)
  {
    NatToStringValue(day);
    NatToStringValue(month);
    NatToStringValue(year);
    FieldTokens(NatToString(day), NatToString(month), NatToString(year));
  }

  lemma PaddedDayMonthYearTokens(day: nat, month: nat, year: nat)
    ensures var s := PaddedDayMonthYear(day, month, year);
            Token(s, 0) == Some(day as real) && Token(s, 1) == Some(month as real)
            && Token(s, 2) == Some(year as real)
  {
    ZeroPadValue(day, 2);
    ZeroPadValue(month, 2);
    ZeroPadValue(year, 4);
    FieldTokens(ZeroPad(day, 2), ZeroPad(month, 2), ZeroPad(year, 4));
  }

  /** Only the first three tokens matter: anything after a further `/` is ignored. */
  lemma ExtraTokensIgnored(s: string, rest: string)
    requires |Split(s, '/')| >= 3
    ensures ParseDate(s + "/" + rest) == ParseDate(s)
  {
    var t := s + "/" + rest;
    assert t == s + ['/'] + rest;
    SplitAppend(s, '/', rest);
    var ps, pt := Split(s, '/'), Split(t, '/');
    assert pt[0] == ps[0] && pt[1] == ps[1] && pt[2] == ps[2];
  }

  /** Day numbers of years 100..275759 stay inside the time range. */
  lemma DayNumberInRange(d: Date)
    requires ValidDate(d) && 100 <= d.year <= 275759
    ensures InTimeRange(DayNumber(d) * MsPerDay)
  {
    MonthWithinYear(d.year, d.month);
    YearStep(d.year);
    if d.year + 1 < 275760 {
      YearsAscend(d.year + 1, 275760);
    }
    if 100 < d.year {
      YearsAscend(100, d.year);
    }
    assert DaysBeforeYear(100) == -683003;
    assert DaysBeforeYear(275760) == 99999744;
  }

  /** A one-based month passed to `Date.UTC` as `month - 1` needs no carry. */
  lemma MakeDayOfMonth(y: int, m: int, day: int)
    requires 1 <= m <= 12
    ensures MakeDay(y, m - 1, day) == DaysFromCivil(y, m, day)
  {
    assert (m - 1) / 12 == 0 && (m - 1) % 12 == m - 1;
  }

  /** `Date.UTC` once its arguments are truncated and the year is mapped. */
  lemma DateUtcFromParts(year: real, month: real, day: real, yr: int, days: int)
    requires yr == (if 0 <= Trunc(year) <= 99 then 1900 + Trunc(year) else Trunc(year))
    requires MakeDay(yr, Trunc(month), Trunc(day)) == days
    requires InTimeRange(days * MsPerDay)
    ensures DateUtc(year, month, day) == Some(days)
  {
  }

  /** `Date.UTC` of a valid calendar date (month one-based in the text, zero-based in the call). */
  lemma DateUtcOfDate(d: Date, year: int)
    requires ValidDate(d) && 100 <= d.year <= 275759
    requires year == d.year || (0 <= year <= 99 && d.year == 1900 + year)
    ensures DateUtc(year as real, (d.month as real) - 1.0, d.day as real) == Some(DayNumber(d))
  {
    assert Trunc((d.month as real) - 1.0) == d.month - 1;
    assert Trunc(year as real) == year;
    assert Trunc(d.day as real) == d.day;
    MakeDayOfMonth(d.year, d.month, d.day);
    DayNumberInRange(d);
    DateUtcFromParts(year as real, (d.month as real) - 1.0, d.day as real, d.year, DayNumber(d));
  }

  /**
   * `parseDate` of a valid date whose day, month and year tokens have those
   * values: the year as written, or 1..99 standing for 1901..1999.
   */
  lemma ParseDateOfTokens(s: string, d: Date, year: nat)
    requires ValidDate(d) && 100 <= d.year <= 275759
    requires year == d.year || (1 <= year <= 99 && d.year == 1900 + year)
    requires Token(s, 0) == Some(d.day as real) && Token(s, 1) == Some(d.month as real)
    requires Token(s, 2) == Some(year as real)
    ensures ParseDate(s) == Key(IsoDate(d))
  {
    DateFieldsOfDate(d, year);
  }

  /** The fields of a valid date, as numbers, give that date's key. */
  lemma DateFieldsOfDate(d: Date, year: nat)
    requires ValidDate(d) && 100 <= d.year <= 275759
    requires year == d.year || (1 <= year <= 99 && d.year == 1900 + year)
    ensures DateFromFields(Some(d.day as real), Some(d.month as real), Some(year as real)) == Key(IsoDate(d))
  {
    DateUtcOfDate(d, year);
    var day, month, yr := Some(d.day as real), Some(d.month as real), Some(year as real);
    assert Truthy(day) && Truthy(month) && Truthy(yr);
    CivilRoundTrip(d);
  }

  /**
   * A correctly written date reads back as itself: `DD/MM/YYYY` of a valid date
   * with a year from 100 on, and the unpadded `D/M/YYYY`, give that date's ISO key.
   */
  lemma ParseDateRoundTrip(d: Date)
    requires ValidDate(d) && 100 <= d.year <= 275759
    ensures ParseDate(PaddedDayMonthYear(d.day, d.month, d.year)) == Key(IsoDate(d))
    ensures ParseDate(DayMonthYear(d.day, d.month, d.year)) == Key(IsoDate(d))
  {
    PaddedDayMonthYearTokens(d.day, d.month, d.year);
    ParseDateOfTokens(PaddedDayMonthYear(d.day, d.month, d.year), d, d.year);
    DayMonthYearTokens(d.day, d.month, d.year);
    ParseDateOfTokens(DayMonthYear(d.day, d.month, d.year), d, d.year);
  }

  /**
   * Two-digit years: `DD/MM/YY` (day and month padded or not) with YY from 1 to 99
   * is read as a date of the twentieth century.
   */
  lemma ParseDateTwoDigitYear(d: Date)
    requires ValidDate(d) && 1901 <= d.year <= 1999
    ensures ParseDate(PaddedDayMonthYear(d.day, d.month, d.year - 1900)) == Key(IsoDate(d))
    ensures ParseDate(DayMonthYear(d.day, d.month, d.year - 1900)) == Key(IsoDate(d))
  {
    var yy := d.year - 1900;
    PaddedDayMonthYearTokens(d.day, d.month, yy);
    ParseDateOfTokens(PaddedDayMonthYear(d.day, d.month, yy), d, yy);
    DayMonthYearTokens(d.day, d.month, yy);
    ParseDateOfTokens(DayMonthYear(d.day, d.month, yy), d, yy);
  }

  // ----- the table -----

  /** A CSV record: the `Date` and `NIR` fields, None when the column is absent. */
  datatype CsvRow = CsvRow(date: Option<string>, nir: Option<string>)

  /** What the `data` handler does with one record. */
  datatype RowEffect = Skip | Put(key: string, value: real) | Throw

  /** The `data` handler: insert when `Date` is non-empty, `NIR` is a number and the date parses. */
  function RowEffectOf(row: CsvRow): RowEffect
  {
    var nirValue := if row.nir.Some? then ParseFloat(row.nir.value) else None;
    if row.date.None? || row.date.value == "" || nirValue.None? then Skip
    else
      match ParseDate(row.date.value)
      case Key(k) => Put(k, nirValue.value)
      case NoKey => Skip
      case KeyThrows => Throw
  }

  /**
   * The handler inserts exactly when `Date` is non-empty, `NIR` has a numeric
   * prefix and the date parses to a key, and it throws exactly when, under the
   * same conditions, `toISOString` throws.
   */
  lemma RowEffectMeaning(row: CsvRow)
    ensures var e := RowEffectOf(row);
            (e.Put? <==> row.date.Some? && row.date.value != "" && row.nir.Some?
                         && ParseFloat(row.nir.value).Some? && ParseDate(row.date.value).Key?)
            && (e.Put? ==> e.key == ParseDate(row.date.value).key && e.value == ParseFloat(row.nir.value).value)
            && (e.Throw? <==> row.date.Some? && row.date.value != "" && row.nir.Some?
                              && ParseFloat(row.nir.value).Some? && ParseDate(row.date.value).KeyThrows?)
  {
  }

  predicate PutsKey(row: CsvRow, k: string)
  {
    RowEffectOf(row).Put? && RowEffectOf(row).key == k
  }

  /** The effect of each record, in order. */
  function Effects(rows: seq<CsvRow>): (e: seq<RowEffect>)
    ensures |e| == |rows| && forall i :: 0 <= i < |rows| ==> e[i] == RowEffectOf(rows[i])
  {
    seq(|rows|, i requires 0 <= i < |rows| => RowEffectOf(rows[i]))
  }

  /** The `Map` after applying `effects` in order to an empty one; a throw fails the load. */
  function Apply(effects: seq<RowEffect>): (r: Result<map<string, real>>)
    ensures r.Err? ==> r.error == InvalidTimeValue
    ensures r.Ok? ==> forall i :: 0 <= i < |effects| && effects[i].Put? ==> effects[i].key in r.value
  {
    if effects == [] then Ok(map[])
    else
      match Apply(effects[..|effects| - 1])
      case Err(e) => Err(e)
      case Ok(m) =>
        match effects[|effects| - 1]
        case Skip => Ok(m)
        case Put(k, v) => Ok(m[k := v])
        case Throw => Err(InvalidTimeValue)
  }

  /** The table after the handler has seen `rows` in order. */
  function NirTable(rows: seq<CsvRow>): (r: Result<map<string, real>>)
    ensures r.Err? ==> r.error == InvalidTimeValue
  {
    Apply(Effects(rows))
  }

  /** Once the handler has thrown, later effects change nothing. */
  lemma {:induction false} FailureSticks(effects: seq<RowEffect>, n: nat)
    requires n <= |effects| && Apply(effects[..n]).Err?
    ensures Apply(effects) == Apply(effects[..n])
  {
    if n < |effects| {
      var init := effects[..|effects| - 1];
      assert init[..n] == effects[..n];
      FailureSticks(init, n);
    } else {
      assert effects[..n] == effects;
    }
  }

  /** `parseNIRData`: the table built by one `set` per accepted record. */
  method LoadNirTable(rows: seq<CsvRow>) returns (r: Result<map<string, real>>)
    ensures r == NirTable(rows)
  {
    ghost var effects := Effects(rows);
    var table: map<string, real> := map[];
    var i := 0;
    while i < |rows|
      invariant 0 <= i <= |rows|
      invariant Apply(effects[..i]) == Ok(table)
    {
      var effect := RowEffectOf(rows[i]);
      assert effect == effects[i];
      match effect {
        case Skip =>
          ApplyStep(effects, i, table);
        case Put(k, v) =>
          ApplyStep(effects, i, table);
          table := table[k := v];
        case Throw =>
          ApplyThrows(effects, i, table);
          return Err(InvalidTimeValue);
      }
      i := i + 1;
    }
    assert effects[..i] == effects;
    r := Ok(table);
  }

  /** One more effect that does not throw: a put updates its key, a skip changes nothing. */
  lemma ApplyStep(effects: seq<RowEffect>, i: nat, table: map<string, real>)
    requires i < |effects| && Apply(effects[..i]) == Ok(table) && !effects[i].Throw?
    ensures Apply(effects[..i + 1])
            == Ok(if effects[i].Put? then table[effects[i].key := effects[i].value] else table)
  {
    assert effects[..i + 1][..i] == effects[..i];
  }

  /** An effect that throws fails the whole load, whatever follows it. */
  lemma ApplyThrows(effects: seq<RowEffect>, i: nat, table: map<string, real>)
    requires i < |effects| && Apply(effects[..i]) == Ok(table) && effects[i].Throw?
    ensures Apply(effects) == Err(InvalidTimeValue)
  {
    assert effects[..i + 1][..i] == effects[..i];
    FailureSticks(effects, i + 1);
  }

  /** Applying effects fails exactly when one of them throws. */
  lemma {:induction false} ApplyFails(effects: seq<RowEffect>)
    ensures Apply(effects).Err? <==> exists i :: 0 <= i < |effects| && effects[i].Throw?
    ensures Apply(effects).Err? ==> Apply(effects).error == InvalidTimeValue
  {
    if effects != [] {
      var init := effects[..|effects| - 1];
      ApplyFails(init);
      if exists i :: 0 <= i < |init| && init[i].Throw? {
        var i :| 0 <= i < |init| && init[i].Throw?;
        assert effects[i] == init[i];
      }
      if exists i :: 0 <= i < |effects| && effects[i].Throw? {
        var i :| 0 <= i < |effects| && effects[i].Throw?;
        if i < |init| {
          assert init[i] == effects[i];
        }
      }
    }
  }

  /** The load fails exactly when some accepted record's date is outside the time range. */
  lemma NirTableFails(rows: seq<CsvRow>)
    ensures NirTable(rows).Err? <==> exists i :: 0 <= i < |rows| && RowEffectOf(rows[i]).Throw?
    ensures NirTable(rows).Err? ==> NirTable(rows).error == InvalidTimeValue
  {
    var e := Effects(rows);
    ApplyFails(e);
    if exists i :: 0 <= i < |rows| && RowEffectOf(rows[i]).Throw? {
      var i :| 0 <= i < |rows| && RowEffectOf(rows[i]).Throw?;
      assert e[i].Throw?;
    }
  }

  predicate PutsAt(effects: seq<RowEffect>, i: nat, k: string)
    requires i < |effects|
  {
    effects[i].Put? && effects[i].key == k
  }

  /** Last write wins, on effects. */
  lemma {:induction false} ApplyLastWrite(effects: seq<RowEffect>, m: map<string, real>, k: string)
    requires Apply(effects) == Ok(m)
    ensures k in m <==> exists i :: 0 <= i < |effects| && PutsAt(effects, i, k)
    ensures forall i :: 0 <= i < |effects| && PutsAt(effects, i, k)
                        && (forall j :: i < j < |effects| ==> !PutsAt(effects, j, k))
                        ==> k in m && m[k] == effects[i].value
  {
    if effects != [] {
      var n := |effects| - 1;
      var init := effects[..n];
      var m0 := Apply(init).value;
      ApplyLastWrite(init, m0, k);
      assert forall i :: 0 <= i < n ==> init[i] == effects[i];
      assert forall i :: 0 <= i < n ==> (PutsAt(init, i, k) <==> PutsAt(effects, i, k));
      if PutsAt(effects, n, k) {
        assert m == m0[k := effects[n].value];
      } else {
        assert k in m <==> k in m0;
        assert k in m ==> m[k] == m0[k];
      }
    }
  }

  /**
   * Last write wins: a key is in the table exactly when some record puts it, and it
   * holds the value of the last record that puts it.
   */
  lemma LastWriteWins(rows: seq<CsvRow>, m: map<string, real>, k: string)
    requires NirTable(rows) == Ok(m)
    ensures k in m <==> exists i :: 0 <= i < |rows| && PutsKey(rows[i], k)
    ensures forall i :: 0 <= i < |rows| && PutsKey(rows[i], k)
                        && (forall j :: i < j < |rows| ==> !PutsKey(rows[j], k))
                        ==> k in m && m[k] == RowEffectOf(rows[i]).value
  {
    var e := Effects(rows);
    ApplyLastWrite(e, m, k);
    forall i | 0 <= i < |rows|
      ensures PutsKey(rows[i], k) <==> PutsAt(e, i, k)
      ensures e[i] == RowEffectOf(rows[i])
    {
      PutsKeyAt(rows, e, i, k);
    }
  }

  lemma PutsKeyAt(rows: seq<CsvRow>, e: seq<RowEffect>, i: nat, k: string)
    requires e == Effects(rows) && i < |rows|
    ensures e[i] == RowEffectOf(rows[i])
    ensures PutsKey(rows[i], k) <==> PutsAt(e, i, k)
  {
  }
}
