/**
 * The pieces of JavaScript string handling the two endpoints rely on: decimal
 * formatting of integers (template literals, `padStart`), `String.prototype.split`
 * on one character, and the two number readers `Number(s)` and `parseFloat(s)`.
 */
module Text {
  import opened Outcomes

  predicate IsDigit(c: char) { '0' <= c <= '9' }

  predicate AllDigits(s: string) { forall j :: 0 <= j < |s| ==> IsDigit(s[j]) }

  function DigitValue(c: char): nat
    requires IsDigit(c)
  {
    (c as int) - ('0' as int)
  }

  function DigitChar(k: nat): (c: char)
    requires k < 10
    ensures IsDigit(c) && DigitValue(c) == k
  {
    (('0' as int) + k) as char
  }

  /** The number a string of decimal digits denotes (the empty string denotes 0). */
  function DigitsValue(s: string): nat
    requires AllDigits(s)
  {
    if s == [] then 0 else DigitsValue(s[..|s| - 1]) * 10 + DigitValue(s[|s| - 1])
  }

  function Pow10(n: nat): (p: nat)
    ensures p >= 1
  {
    if n == 0 then 1 else 10 * Pow10(n - 1)
  }

  /** Shortest decimal representation of a natural number, as `${n}` prints it. */
  function NatToString(n: nat): (s: string)
    ensures |s| >= 1 && AllDigits(s)
  {
    if n < 10 then [DigitChar(n)] else NatToString(n / 10) + [DigitChar(n % 10)]
  }

  /** A JavaScript integer in a template literal: a minus sign, then the digits. */
  function IntToString(i: int): (s: string)
    ensures |s| >= 1
  {
    if i < 0 then "-" + NatToString(-i) else NatToString(i)
  }

  function Zeros(k: nat): (s: string)
    ensures |s| == k && AllDigits(s)
  {
    if k == 0 then "" else "0" + Zeros(k - 1)
  }

  /** `String(n).padStart(width, "0")`. */
  function ZeroPad(n: nat, width: nat): (s: string)
    ensures |s| >= 1 && |s| >= width && AllDigits(s)
  {
    var digits := NatToString(n);
    (if |digits| < width then Zeros(width - |digits|) else "") + digits
  }

  lemma {:induction false} DigitsConcat(a: string, b: string)
    requires AllDigits(a) && AllDigits(b)
    ensures AllDigits(a + b)
    ensures DigitsValue(a + b) == DigitsValue(a) * Pow10(|b|) + DigitsValue(b)
    decreases |b|
  {
    assert AllDigits(a + b);
    if b != [] {
      var b' := b[..|b| - 1];
      var last := b[|b| - 1];
      assert (a + b)[..|a + b| - 1] == a + b' && (a + b)[|a + b| - 1] == last;
      DigitsConcat(a, b');
      assert DigitsValue(a + b) == DigitsValue(a + b') * 10 + DigitValue(last);
      assert DigitsValue(b) == DigitsValue(b') * 10 + DigitValue(last);
      assert Pow10(|b|) == 10 * Pow10(|b'|);
      ShiftDigit(DigitsValue(a), Pow10(|b'|), DigitsValue(b'), DigitValue(last));
    } else {
      assert a + b == a;
    }
  }

  /** Appending a digit to `v * p + w` multiplies both parts by ten. */
  lemma ShiftDigit(v: int, p: int, w: int, d: int)
    ensures (v * p + w) * 10 + d == v * (10 * p) + (w * 10 + d)
  {
  }

  lemma {:induction false} ZerosValue(k: nat)
    ensures DigitsValue(Zeros(k)) == 0
  {
    if k > 0 {
      ZerosValue(k - 1);
      DigitsConcat("0", Zeros(k - 1));
    }
  }

  /** Reading back the digits of `n` gives `n`. */
  lemma {:induction false} NatToStringValue(n: nat)
    ensures DigitsValue(NatToString(n)) == n
  {
    if n >= 10 {
      NatToStringValue(n / 10);
      DigitsConcat(NatToString(n / 10), [DigitChar(n % 10)]);
    }
  }

  /** How many digits `n` has, in terms of powers of ten. */
  lemma {:induction false} NatToStringLength(n: nat, k: nat)
    requires Pow10(k) <= n < Pow10(k + 1)
    ensures |NatToString(n)| == k + 1
  {
    if k > 0 {
      NatToStringLength(n / 10, k - 1);
    }
  }

  /** Zero padding changes the text but not the number it denotes. */
  lemma ZeroPadValue(n: nat, width: nat)
    ensures DigitsValue(ZeroPad(n, width)) == n
    ensures |NatToString(n)| <= width ==> |ZeroPad(n, width)| == width
  {
    var digits := NatToString(n);
    NatToStringValue(n);
    if |digits| < width {
      var zeros := Zeros(width - |digits|);
      assert ZeroPad(n, width) == zeros + digits;
      LeadingZeros(zeros, digits, width - |digits|);
    } else {
      assert ZeroPad(n, width) == "" + digits;
      assert "" + digits == digits;
    }
  }

  /** Leading zeros add nothing to the value. */
  lemma LeadingZeros(zeros: string, digits: string, k: nat)
    requires zeros == Zeros(k) && AllDigits(digits)
    ensures DigitsValue(zeros + digits) == DigitsValue(digits) && |zeros + digits| == k + |digits|
  {
    ZerosValue(k);
    DigitsConcat(zeros, digits);
    assert DigitsValue(zeros) * Pow10(|digits|) == 0;
  }

  /** A number below 10^w has at most w digits. */
  lemma {:induction false} NatToStringShort(n: nat, w: nat)
    requires w >= 1 && n < Pow10(w)
    ensures |NatToString(n)| <= w
  {
    if n >= 10 {
      NatToStringShort(n / 10, w - 1);
    }
  }

  /** Strings of equal length are equal when their digits denote the same number. */
  lemma {:induction false} DigitsInjective(a: string, b: string)
    requires AllDigits(a) && AllDigits(b) && |a| == |b|
    requires DigitsValue(a) == DigitsValue(b)
    ensures a == b
  {
    if a != [] {
      var a', b' := a[..|a| - 1], b[..|b| - 1];
      assert DigitValue(a[|a| - 1]) == DigitValue(b[|b| - 1]);
      DigitsInjective(a', b');
      assert a == a' + [a[|a| - 1]] && b == b' + [b[|b| - 1]];
    }
  }

  // ----- split -----

  /** Concatenation of `parts` with `sep` between neighbours: the inverse of `Split`. */
  function Join(parts: seq<string>, sep: char): string
    requires |parts| >= 1
  {
    if |parts| == 1 then parts[0] else parts[0] + [sep] + Join(parts[1..], sep)
  }

  /** `s.split(sep)`: the maximal separator-free pieces, an empty string giving one empty piece. */
  function Split(s: string, sep: char): (parts: seq<string>)
    ensures |parts| >= 1
    ensures forall i :: 0 <= i < |parts| ==> sep !in parts[i]
    ensures Join(parts, sep) == s
  {
    if s == [] then [[]]
    else
      var rest := Split(s[1..], sep);
      if s[0] == sep then
        assert [[]] + rest == [[]] + rest;
        [[]] + rest
      else
        var parts := [[s[0]] + rest[0]] + rest[1..];
        assert parts[1..] == rest[1..];
        assert sep !in parts[0];
        assert |rest| > 1 ==> Join(rest, sep) == rest[0] + [sep] + Join(rest[1..], sep);
        parts
  }

  lemma {:induction false} SplitNoSeparator(a: string, sep: char)
    requires sep !in a
    ensures Split(a, sep) == [a]
  {
    if a != [] {
      SplitNoSeparator(a[1..], sep);
      assert [a[0]] + a[1..] == a;
    }
  }

  /** One step of the split: a separator starts a new piece, any other character extends the first. */
  lemma SplitCons(c: char, s: string, sep: char)
    ensures Split([c] + s, sep)
            == if c == sep then [[]] + Split(s, sep) else [[c] + Split(s, sep)[0]] + Split(s, sep)[1..]
  {
    assert ([c] + s)[0] == c && ([c] + s)[1..] == s;
  }

  lemma {:induction false} SplitAtFirst(a: string, sep: char, b: string)
    requires sep !in a
    ensures Split(a + [sep] + b, sep) == [a] + Split(b, sep)
  {
    if a == [] {
      assert a + [sep] + b == [sep] + b;
      SplitCons(sep, b, sep);
    } else {
      var c, a' := a[0], a[1..];
      assert a == [c] + a' && a + [sep] + b == [c] + (a' + [sep] + b);
      SplitAtFirst(a', sep, b);
      SplitCons(c, a' + [sep] + b, sep);
      var right := Split(b, sep);
      assert ([a'] + right)[0] == a' && ([a'] + right)[1..] == right;
    }
  }

  /** Text joined at a separator splits into the pieces of each side. */
  lemma {:induction false} SplitAppend(a: string, sep: char, b: string)
    ensures Split(a + [sep] + b, sep) == Split(a, sep) + Split(b, sep)
  {
    var right := Split(b, sep);
    if a == [] {
      assert a + [sep] + b == [sep] + b;
      SplitCons(sep, b, sep);
    } else {
      var c, a' := a[0], a[1..];
      assert a == [c] + a' && a + [sep] + b == [c] + (a' + [sep] + b);
      SplitAppend(a', sep, b);
      SplitCons(c, a' + [sep] + b, sep);
      SplitCons(c, a', sep);
      var left := Split(a', sep);
      if c == sep {
        ConcatAssoc([[]], left, right);
      } else {
        ConsConcat(left, right);
        ConcatAssoc([[c] + left[0]], left[1..], right);
      }
    }
  }

  lemma ConcatAssoc<T>(x: seq<T>, y: seq<T>, z: seq<T>)
    ensures x + (y + z) == (x + y) + z
  {
  }

  lemma ConsConcat<T>(l: seq<T>, r: seq<T>)
    requires |l| >= 1
    ensures (l + r)[0] == l[0] && (l + r)[1..] == l[1..] + r
  {
  }

  /** Splitting a join of separator-free pieces gives the pieces back. */
  lemma {:induction false} SplitJoin(parts: seq<string>, sep: char)
    requires |parts| >= 1
    requires forall i :: 0 <= i < |parts| ==> sep !in parts[i]
    ensures Split(Join(parts, sep), sep) == parts
  {
    if |parts| == 1 {
      SplitNoSeparator(parts[0], sep);
    } else {
      SplitJoin(parts[1..], sep);
      SplitAtFirst(parts[0], sep, Join(parts[1..], sep));
      assert [parts[0]] + parts[1..] == parts;
    }
  }

  // ----- number readers -----

  /** The characters `StrWhiteSpaceChar` of ECMAScript: white space and line terminators. */
  predicate IsJsSpace(c: char)
  {
    c == '\t' || c == '\n' || c == '\r' || c == ' ' || c == '\U{000B}' || c == '\U{000C}'
    || c == '\U{00A0}' || c == '\U{1680}' || ('\U{2000}' <= c <= '\U{200A}')
    || c == '\U{2028}' || c == '\U{2029}' || c == '\U{202F}' || c == '\U{205F}'
    || c == '\U{3000}' || c == '\U{FEFF}'
  }

  function TrimStart(s: string): (t: string)
    ensures |t| <= |s| && t == s[|s| - |t|..]
    ensures forall j :: 0 <= j < |s| - |t| ==> IsJsSpace(s[j])
    ensures t == [] || !IsJsSpace(t[0])
  {
    if s != [] && IsJsSpace(s[0]) then TrimStart(s[1..]) else s
  }

  function TrimEnd(s: string): (t: string)
    ensures |t| <= |s| && t == s[..|t|]
    ensures forall j :: |t| <= j < |s| ==> IsJsSpace(s[j])
    ensures t == [] || !IsJsSpace(t[|t| - 1])
  {
    if s != [] && IsJsSpace(s[|s| - 1]) then TrimEnd(s[..|s| - 1]) else s
  }

  /** Number of decimal digits of `s` from index `i` on. */
  function DigitRun(s: string, i: nat): (n: nat)
    requires i <= |s|
    ensures i + n <= |s|
    ensures forall j :: i <= j < i + n ==> IsDigit(s[j])
    ensures i + n == |s| || !IsDigit(s[i + n])
    decreases |s| - i
  {
    if i < |s| && IsDigit(s[i]) then 1 + DigitRun(s, i + 1) else 0
  }

  /** `x * 10^e` for a possibly negative exponent. */
  function Scale(x: real, e: int): real
  {
    if e >= 0 then x * Pow10(e) as real else x / Pow10(-e) as real
  }

  /** A prefix read as a number: what it denotes and how many characters it spans. */
  datatype Scanned = Scanned(value: real, length: nat)

  /** The optional exponent `e`/`E`, sign, digits at index `i`; length 0 when there is none. */
  function ScanExponent(t: string, i: nat): (r: Scanned)
    requires i <= |t|
    ensures i + r.length <= |t|
    ensures r.length == 0 ==> r.value == 0.0
  {
    if i < |t| && (t[i] == 'e' || t[i] == 'E') then
      var q := if i + 1 < |t| && (t[i + 1] == '+' || t[i + 1] == '-') then i + 2 else i + 1;
      var k := DigitRun(t, q);
      if k == 0 then Scanned(0.0, 0)
      else
        var v := DigitsValue(t[q..q + k]);
        Scanned(if q == i + 2 && t[i + 1] == '-' then -(v as real) else v as real, q + k - i)
    else Scanned(0.0, 0)
  }

  /** Unsigned digits with an optional fraction from index `p` on (at least one digit in all). */
  function ScanMantissa(t: string, p: nat): (r: Option<Scanned>)
    requires p <= |t|
    ensures r.Some? ==> 0 < r.value.length && p + r.value.length <= |t|
  {
    var a := DigitRun(t, p);
    var dot := p + a < |t| && t[p + a] == '.';
    var b := if dot then DigitRun(t, p + a + 1) else 0;
    if a + b == 0 then None
    else
      var digits := t[p..p + a] + (if dot then t[p + a + 1..p + a + 1 + b] else "");
      assert AllDigits(digits);
      Some(Scanned(DigitsValue(digits) as real / Pow10(b) as real, if dot then a + 1 + b else a))
  }

  function SignLength(t: string): nat
  {
    if 0 < |t| && (t[0] == '+' || t[0] == '-') then 1 else 0
  }

  /**
   * The longest prefix of `t` that is a decimal literal: an optional sign, the
   * mantissa, an optional exponent.
   */
  function ScanDecimal(t: string): (r: Option<Scanned>)
    ensures r.Some? ==> 0 < r.value.length <= |t|
  {
    var p := SignLength(t);
    match ScanMantissa(t, p)
    case None => None
    case Some(m) =>
      var e := ScanExponent(t, p + m.length);
      var magnitude := Scale(m.value, e.value.Floor);
      Some(Scanned(if p == 1 && t[0] == '-' then -magnitude else magnitude, p + m.length + e.length))
  }

  /** `Number(s)`: the whole trimmed string must be a literal; empty text is 0; otherwise NaN (None). */
  function Number(s: string): (r: Option<real>)
    ensures TrimStart(TrimEnd(s)) == [] ==> r == Some(0.0)
  {
    var t := TrimStart(TrimEnd(s));
    if t == [] then Some(0.0)
    else
      match ScanDecimal(t)
      case Some(sc) => if sc.length == |t| then Some(sc.value) else None
      case None => None
  }

  /** `parseFloat(s)`: the longest literal after leading white space; NaN (None) when there is none. */
  function ParseFloat(s: string): (r: Option<real>)
    ensures TrimStart(s) == [] ==> r.None?
  {
    match ScanDecimal(TrimStart(s))
    case Some(sc) => Some(sc.value)
    case None => None
  }

  /** A digit string followed by something that cannot continue a literal reads as its value. */
  lemma ScanDigits(s: string, rest: string)
    requires |s| >= 1 && AllDigits(s)
    requires rest == [] || !(IsDigit(rest[0]) || rest[0] == '.' || rest[0] == 'e' || rest[0] == 'E')
    ensures ScanDecimal(s + rest) == Some(Scanned(DigitsValue(s) as real, |s|))
  {
    var t := s + rest;
    assert t[0] == s[0];
    assert SignLength(t) == 0;
    DigitRunPrefix(s, rest, 0);
    assert rest != [] ==> t[|s|] == rest[0];
    assert t[0..|s|] == s;
    ScanWholeNumber(t, 0, |s|);
    var v := DigitsValue(s) as real;
    assert ScanMantissa(t, 0) == Some(Scanned(v, |s|));
    assert ScanExponent(t, |s|) == Scanned(0.0, 0);
    ScanUnsignedNoExponent(t, Scanned(v, |s|));
  }

  lemma ScanUnsignedNoExponent(t: string, m: Scanned)
    requires SignLength(t) == 0 && ScanMantissa(t, 0) == Some(m)
    requires m.length <= |t| && ScanExponent(t, m.length) == Scanned(0.0, 0)
    ensures ScanDecimal(t) == Some(m)
  {
    assert 0.0.Floor == 0;
    assert Pow10(0) == 1;
    assert Scale(m.value, 0) == m.value;
  }

  lemma ScanWholeNumber(t: string, p: nat, a: nat)
    requires p <= |t| && a > 0 && DigitRun(t, p) == a
    requires p + a == |t| || t[p + a] != '.'
    ensures AllDigits(t[p..p + a])
    ensures ScanMantissa(t, p) == Some(Scanned(DigitsValue(t[p..p + a]) as real, a))
  {
    var digits := t[p..p + a] + "";
    assert digits == t[p..p + a];
  }

  /** `Number` reads back what `${n}` prints. */
  /** Trimming leaves a non-empty digit string alone. */
  lemma DigitsUntrimmed(s: string)
    requires |s| >= 1 && AllDigits(s)
    ensures TrimEnd(s) == s && TrimStart(s) == s
  {
    assert !IsJsSpace(s[0]) && !IsJsSpace(s[|s| - 1]);
  }

  /** `Number` reads a non-empty string of decimal digits, leading zeros included, as its value. */
  lemma NumberOfDigitString(s: string)
    requires |s| >= 1 && AllDigits(s)
    ensures Number(s) == Some(DigitsValue(s) as real)
  {
    DigitsUntrimmed(s);
    ScanDigits(s, "");
    assert s + "" == s;
  }

  lemma NumberOfDigits(n: nat)
    ensures Number(NatToString(n)) == Some(n as real)
  {
    NumberOfDigitString(NatToString(n));
    NatToStringValue(n);
  }

  /** `Number` reads `String(n).padStart(width, "0")` as n. */
  lemma NumberOfZeroPad(n: nat, width: nat)
    ensures Number(ZeroPad(n, width)) == Some(n as real)
  {
    NumberOfDigitString(ZeroPad(n, width));
    ZeroPadValue(n, width);
  }

  /** `parseFloat` reads back what `${n}` prints, whatever follows a character that ends a literal. */
  lemma ParseFloatOfDigits(n: nat, rest: string)
    requires rest == [] || !(IsDigit(rest[0]) || rest[0] == '.' || rest[0] == 'e' || rest[0] == 'E')
    ensures ParseFloat(NatToString(n) + rest) == Some(n as real)
  {
    var s := NatToString(n);
    assert (s + rest)[0] == s[0];
    assert TrimStart(s + rest) == s + rest;
    ScanDigits(s, rest);
    NatToStringValue(n);
  }

  lemma {:induction false} DigitRunPrefix(s: string, rest: string, i: nat)
    requires i <= |s| && AllDigits(s)
    requires rest == [] || !IsDigit(rest[0])
    ensures DigitRun(s + rest, i) == |s| - i
    decreases |s| - i
  {
    if i < |s| {
      DigitRunPrefix(s, rest, i + 1);
    }
  }

  /** `parseFloat` and `Number` agree on strings that are a decimal literal and nothing else. */
  lemma NumberAgreesWithParseFloat(s: string)
    requires s != [] && !IsJsSpace(s[0]) && !IsJsSpace(s[|s| - 1])
    requires ScanDecimal(s).Some? && ScanDecimal(s).value.length == |s|
    ensures Number(s) == ParseFloat(s)
  {
  }
}
