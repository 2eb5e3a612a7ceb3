/** Interpretation of single spreadsheet cells: `parse_amount` and
    `parse_date` of src/parsers.py, over an abstract cell value. */
module Cells {
  import opened Common

  /** A spreadsheet cell as pandas hands it over: missing (NaN/None), a
      string, a number (its value in agorot together with the text `str()`
      prints for it), or a timestamp. */
  datatype Cell = Empty | Str(text: string) | Num(agorot: int, shown: string) | Stamp(date: Date)

  /** The cell at column `i`, or a missing cell when the row is shorter
      (`row.iloc[i] if len(row) > i else None`). */
  function CellAt(row: seq<Cell>, i: nat): (c: Cell)
    ensures i < |row| ==> c == row[i]
    ensures i >= |row| ==> c == Empty
  {
    if i < |row| then row[i] else Empty
  }

  /** `str(value)`; a missing cell reads as the empty string, as in the
      `'' if pd.isna(v)` of the credit-card parser. */
  function CellText(c: Cell): string {
    match c
    case Empty => ""
    case Str(s) => s
    case Num(_, shown) => shown
    case Stamp(d) => DateText(d) + " 00:00:00"
  }

  /** `s` with zeros in front up to `width` characters. */
  function LeftPad(s: string, width: nat): (r: string)
    decreases width - |s|
  {
    if |s| >= width then s else LeftPad(['0'] + s, width)
  }

  function YearText(y: int): string {
    LeftPad(NatDigits(Abs(y)), 4)
  }

  function TwoDigitText(n: int): string {
    LeftPad(NatDigits(Abs(n)), 2)
  }

  /** `date.isoformat()` restricted to the day. */
  function DateText(d: Date): string {
    YearText(d.year) + "-" + TwoDigitText(d.month) + "-" + TwoDigitText(d.day)
  }

  // ---------------------------------------------------------------------------
  // parse_amount
  // ---------------------------------------------------------------------------

  /** The characters `re.sub(r'[₪$€,\s]', '', ...)` deletes. */
  predicate IsAmountNoise(c: char) {
    c == '₪' || c == '$' || c == '€' || c == ',' || IsSpace(c)
  }

  function Clean(s: string): string {
    if s == [] then []
    else (if IsAmountNoise(s[0]) then [] else [s[0]]) + Clean(s[1..])
  }

  /** First position of `c` in `s`, as `str.find`. */
  function IndexOf(s: string, c: char): (r: Option<nat>)
    ensures r.Some? ==> r.value < |s| && s[r.value] == c && c !in s[..r.value]
    ensures r.None? ==> c !in s
  {
    if s == [] then None
    else if s[0] == c then Some(0)
    else match IndexOf(s[1..], c)
      case None => None
      case Some(k) => assert s[..k + 1] == [s[0]] + s[1..][..k]; Some(k + 1)
  }

  /** Agorot of a fractional part: its first two digits; further digits are
      below the model's precision and are dropped. */
  function FractionAgorot(f: string): (r: nat)
    requires AllDigits(f)
    ensures r < 100
  {
    if |f| == 0 then 0
    else if |f| == 1 then DigitValue(f[0]) * 10
    else DigitValue(f[0]) * 10 + DigitValue(f[1])
  }

  /** An unsigned decimal numeral `digits[.digits]` with at least one digit. */
  function ParseUnsigned(s: string): (r: Option<nat>)
    ensures r.Some? ==> s != []
  {
    match IndexOf(s, '.')
    case None =>
      if s != [] && AllDigits(s) then Some(DigitsValue(s) * 100) else None
    case Some(k) =>
      var whole, frac := s[..k], s[k + 1..];
      if AllDigits(whole) && AllDigits(frac) && |whole| + |frac| > 0
      then Some(DigitsValue(whole) * 100 + FractionAgorot(frac))
      else None
  }

  /** `float(s)` for an optionally signed decimal numeral, in agorot. */
  function ParseDecimal(s: string): (r: Option<int>)
    ensures s == [] ==> r == None
  {
    var signed := |s| > 0 && (s[0] == '-' || s[0] == '+');
    var body := if signed then s[1..] else s;
    match ParseUnsigned(body)
    case None => None
    case Some(v) => if signed && s[0] == '-' then Some(0 - v as int) else Some(v)
  }

  /** `parse_amount`: numbers pass through, strings are cleaned of currency
      symbols, thousands separators and whitespace and then read as a
      decimal; anything else, and an unreadable residue, is None. */
  function ParseAmount(c: Cell): (r: Option<int>)
    ensures c.Num? ==> r == Some(c.agorot)
    ensures c.Empty? || c.Stamp? ==> r == None
    ensures c.Str? && Clean(c.text) == [] ==> r == None
  {
    match c
    case Empty => None
    case Num(n, _) => Some(n)
    case Stamp(_) => None
    case Str(s) => ParseDecimal(Clean(s))
  }

  /** Cleaning never lengthens a string and leaves no noise behind; together
      with CleanConcat, CleanNoNoise and CleanAllNoise this says it keeps the
      other characters in order. */
  lemma {:induction false} CleanSpec(s: string)
    ensures |Clean(s)| <= |s|
    ensures forall i :: 0 <= i < |Clean(s)| ==> !IsAmountNoise(Clean(s)[i])
  {
    if s != [] {
      CleanSpec(s[1..]);
    }
  }

  lemma {:induction false} CleanConcat(a: string, b: string)
    ensures Clean(a + b) == Clean(a) + Clean(b)
  {
    if a != [] {
      var head := if IsAmountNoise(a[0]) then [] else [a[0]];
      assert (a + b)[0] == a[0] && (a + b)[1..] == a[1..] + b;
      CleanConcat(a[1..], b);
      calc {
        Clean(a + b);
        head + Clean(a[1..] + b);
        head + (Clean(a[1..]) + Clean(b));
        (head + Clean(a[1..])) + Clean(b);
        Clean(a) + Clean(b);
      }
    } else {
      assert a + b == b;
    }
  }

  lemma {:induction false} CleanNoNoise(s: string)
    requires forall i :: 0 <= i < |s| ==> !IsAmountNoise(s[i])
    ensures Clean(s) == s
  {
    if s != [] {
      CleanNoNoise(s[1..]);
    }
  }

  lemma {:induction false} CleanAllNoise(s: string)
    requires forall i :: 0 <= i < |s| ==> IsAmountNoise(s[i])
    ensures Clean(s) == []
  {
    if s != [] {
      CleanAllNoise(s[1..]);
    }
  }

  /** Cleaning is idempotent, so a string and its cleaned form read as the
      same amount. */
  lemma ParseAmountIgnoresNoise(s: string)
    ensures Clean(Clean(s)) == Clean(s)
    ensures ParseAmount(Str(s)) == ParseAmount(Str(Clean(s)))
  {
    CleanSpec(s);
    CleanNoNoise(Clean(s));
  }

  /** Decorating a string with currency symbols, separators or spaces, before
      or after, does not change the amount it reads as. */
  lemma {:induction false} ParseAmountIgnoresDecoration(pre: string, s: string, post: string)
    requires forall i :: 0 <= i < |pre| ==> IsAmountNoise(pre[i])
    requires forall i :: 0 <= i < |post| ==> IsAmountNoise(post[i])
    ensures ParseAmount(Str(pre + s + post)) == ParseAmount(Str(s))
  {
    CleanConcat(pre + s, post);
    CleanConcat(pre, s);
    CleanAllNoise(pre);
    CleanAllNoise(post);
    assert Clean(pre + s + post) == Clean(s);
  }

  /** What the reading accepts once the sign is gone: digits and at most one
      decimal point, with at least one digit. */
  predicate UnsignedNumeral(s: string) {
    && (forall i :: 0 <= i < |s| ==> IsDigit(s[i]) || s[i] == '.')
    && (forall i, j :: 0 <= i < j < |s| && s[i] == '.' ==> s[j] != '.')
    && (exists i :: 0 <= i < |s| && IsDigit(s[i]))
  }

  /** An unsigned numeral, optionally preceded by `-` or `+`. */
  predicate DecimalNumeral(s: string) {
    || UnsignedNumeral(s)
    || (|s| > 0 && (s[0] == '-' || s[0] == '+') && UnsignedNumeral(s[1..]))
  }

  /** Without a point: a numeral is a non-empty run of digits. */
  lemma UnsignedWithoutPoint(s: string)
    requires '.' !in s
    ensures UnsignedNumeral(s) <==> s != [] && AllDigits(s)
  {
    if UnsignedNumeral(s) {
      forall i | 0 <= i < |s| ensures IsDigit(s[i]) {
        assert s[i] in s;
      }
    }
    if s != [] && AllDigits(s) {
      assert IsDigit(s[0]);
    }
  }

  /** With its first point at `k`: a numeral is digits on both sides of it,
      with at least one digit in all. */
  lemma UnsignedAtPoint(s: string, k: nat)
    requires k < |s| && s[k] == '.' && '.' !in s[..k]
    ensures UnsignedNumeral(s) <==>
      AllDigits(s[..k]) && AllDigits(s[k + 1..]) && |s[..k]| + |s[k + 1..]| > 0
  {
    var whole, frac := s[..k], s[k + 1..];
    if UnsignedNumeral(s) {
      forall i | 0 <= i < |whole| ensures IsDigit(whole[i]) {
        assert whole[i] == s[i] && whole[i] in whole;
      }
      forall i | 0 <= i < |frac| ensures IsDigit(frac[i]) {
        assert frac[i] == s[k + 1 + i];
      }
      var d :| 0 <= d < |s| && IsDigit(s[d]);
      assert d != k;
    }
    if AllDigits(whole) && AllDigits(frac) && |whole| + |frac| > 0 {
      forall i | 0 <= i < |s| && i != k ensures IsDigit(s[i]) {
        if i < k {
          assert s[i] == whole[i];
        } else {
          assert s[i] == frac[i - k - 1];
        }
      }
      if k > 0 {
        assert IsDigit(s[0]) by { assert s[0] == whole[0]; }
      } else {
        assert IsDigit(s[k + 1]) by { assert s[k + 1] == frac[0]; }
      }
    }
  }

  /** The unsigned reading succeeds exactly on the unsigned numerals. */
  lemma ParseUnsignedAccepts(s: string)
    ensures ParseUnsigned(s).Some? <==> UnsignedNumeral(s)
  {
    match IndexOf(s, '.')
    case None => UnsignedWithoutPoint(s);
    case Some(k) => UnsignedAtPoint(s, k);
  }

  /** The signed reading succeeds exactly on the decimal numerals. */
  lemma ParseDecimalAccepts(s: string)
    ensures ParseDecimal(s).Some? <==> DecimalNumeral(s)
  {
    var signed := |s| > 0 && (s[0] == '-' || s[0] == '+');
    var body := if signed then s[1..] else s;
    ParseUnsignedAccepts(body);
    if signed {
      assert !UnsignedNumeral(s) by {
        assert !(IsDigit(s[0]) || s[0] == '.');
      }
    }
  }

  /** A string cell is an amount exactly when what is left of it after
      cleaning is an optionally signed decimal numeral. */
  lemma ParseAmountAccepts(s: string)
    ensures ParseAmount(Str(s)).Some? <==> DecimalNumeral(Clean(s))
  {
    ParseDecimalAccepts(Clean(s));
  }

  /** Two digits of agorot. */
  function Cents(c: nat): (r: string)
    requires c < 100
    ensures AllDigits(r) && |r| == 2 && FractionAgorot(r) == c
  {
    [DigitChar(c / 10), DigitChar(c % 10)]
  }

  /** The amount in the form the statements print it: sign, shekels, a
      point, two digits of agorot. */
  function RenderAmount(n: int): string {
    (if n < 0 then "-" else "") + NatDigits(Abs(n) / 100) + ['.'] +
    Cents(Abs(n) % 100)
  }

  lemma {:induction false} IndexOfAfter(a: string, c: char, b: string)
    requires c !in a
    ensures IndexOf(a + [c] + b, c) == Some(|a|)
  {
    var s := a + [c] + b;
    if a != [] {
      assert s[0] == a[0] && s[1..] == a[1..] + [c] + b;
      IndexOfAfter(a[1..], c, b);
    }
  }

  lemma DigitsLack(s: string, x: char)
    requires AllDigits(s) && !IsDigit(x)
    ensures x !in s
  {
    forall i | 0 <= i < |s| ensures s[i] != x {
      assert IsDigit(s[i]);
    }
  }

  lemma ParseUnsignedSplit(s: string, k: nat)
    requires IndexOf(s, '.') == Some(k) && |s| > 1
    requires AllDigits(s[..k]) && AllDigits(s[k + 1..])
    ensures ParseUnsigned(s) == Some(DigitsValue(s[..k]) * 100 + FractionAgorot(s[k + 1..]))
  {
  }

  lemma ParseUnsignedAtPoint(whole: string, frac: string)
    requires AllDigits(whole) && AllDigits(frac) && |whole| + |frac| > 0
    requires IndexOf(whole + ['.'] + frac, '.') == Some(|whole|)
    ensures ParseUnsigned(whole + ['.'] + frac) == Some(DigitsValue(whole) * 100 + FractionAgorot(frac))
  {
    var s := whole + ['.'] + frac;
    assert s[..|whole|] == whole;
    assert s[|whole| + 1..] == frac;
    ParseUnsignedSplit(s, |whole|);
  }

  /** `digits.digits` reads as shekels and agorot. */
  lemma ParseUnsignedPoint(whole: string, frac: string)
    requires AllDigits(whole) && AllDigits(frac) && |whole| + |frac| > 0
    ensures ParseUnsigned(whole + ['.'] + frac) == Some(DigitsValue(whole) * 100 + FractionAgorot(frac))
  {
    DigitsLack(whole, '.');
    IndexOfAfter(whole, '.', frac);
    ParseUnsignedAtPoint(whole, frac);
  }

  lemma RenderUnsigned(whole: nat, cents: nat)
    requires cents < 100
    ensures ParseUnsigned(NatDigits(whole) + ['.'] + Cents(cents)) == Some(whole * 100 + cents)
  {
    ParseUnsignedPoint(NatDigits(whole), Cents(cents));
    NatDigitsValue(whole);
  }

  lemma RenderAmountIsClean(n: int)
    ensures Clean(RenderAmount(n)) == RenderAmount(n)
  {
    var s := RenderAmount(n);
    forall i | 0 <= i < |s| ensures !IsAmountNoise(s[i]) {
      assert IsDigit(s[i]) || s[i] == '.' || s[i] == '-';
    }
    CleanNoNoise(s);
  }

  lemma ParseDecimalNegative(body: string, v: nat)
    requires ParseUnsigned(body) == Some(v)
    ensures ParseDecimal("-" + body) == Some(0 - v as int)
  {
    assert ("-" + body)[1..] == body;
  }

  lemma ParseDecimalUnsigned(body: string, v: nat)
    requires body != [] && IsDigit(body[0]) && ParseUnsigned(body) == Some(v)
    ensures ParseDecimal(body) == Some(v)
  {
  }

  lemma RenderNegativeDecimal(n: int)
    requires n < 0
    ensures ParseDecimal(RenderAmount(n)) == Some(n)
  {
    var m := -n;
    var body := NatDigits(m / 100) + ['.'] + Cents(m % 100);
    RenderUnsigned(m / 100, m % 100);
    assert m / 100 * 100 + m % 100 == m;
    assert RenderAmount(n) == "-" + body;
    ParseDecimalNegative(body, m);
  }

  lemma RenderNonNegativeDecimal(n: int)
    requires n >= 0
    ensures ParseDecimal(RenderAmount(n)) == Some(n)
  {
    var body := NatDigits(n / 100) + ['.'] + Cents(n % 100);
    RenderUnsigned(n / 100, n % 100);
    assert n / 100 * 100 + n % 100 == n;
    assert RenderAmount(n) == body;
    assert body[0] == NatDigits(n / 100)[0];
    ParseDecimalUnsigned(body, n);
  }

  /** Reading back a rendered amount gives the amount. */
  lemma RenderAmountRoundTrip(n: int)
    ensures ParseAmount(Str(RenderAmount(n))) == Some(n)
  {
    RenderAmountIsClean(n);
    if n < 0 {
      RenderNegativeDecimal(n);
    } else {
      RenderNonNegativeDecimal(n);
    }
  }

  // ---------------------------------------------------------------------------
  // parse_date
  // ---------------------------------------------------------------------------

  /** The five `strptime` formats, in the order they are tried:
      `%d.%m.%y`, `%d.%m.%Y`, `%Y-%m-%d`, `%d/%m/%y`, `%d/%m/%Y`. */
  datatype DateFormat = DayMonthYear(sep: char, longYear: bool) | YearMonthDay

  const DATE_FORMATS: seq<DateFormat> := [
    DayMonthYear('.', false), DayMonthYear('.', true), YearMonthDay,
    DayMonthYear('/', false), DayMonthYear('/', true)]

  /** `%d`: one of `3[01]`, `[12]\d`, `0[1-9]`, `[1-9]`, ` [1-9]`. */
  function DayField(t: string): (r: Option<int>)
    ensures r.Some? ==> 1 <= r.value <= 31
  {
    if |t| == 1 && IsDigit(t[0]) && t[0] != '0' then Some(DigitValue(t[0]))
    else if |t| == 2 && t[0] == ' ' && IsDigit(t[1]) && t[1] != '0' then Some(DigitValue(t[1]))
    else if |t| == 2 && AllDigits(t) && 1 <= DigitsValue(t) <= 31 then Some(DigitsValue(t))
    else None
  }

  /** `%m`: one of `1[0-2]`, `0[1-9]`, `[1-9]`. */
  function MonthField(t: string): (r: Option<int>)
    ensures r.Some? ==> 1 <= r.value <= 12
  {
    if |t| == 1 && IsDigit(t[0]) && t[0] != '0' then Some(DigitValue(t[0]))
    else if |t| == 2 && AllDigits(t) && 1 <= DigitsValue(t) <= 12 then Some(DigitsValue(t))
    else None
  }

  /** `%y` (two digits, 69-99 in the 1900s, 00-68 in the 2000s) or `%Y`
      (four digits). */
  function YearField(t: string, long: bool): (r: Option<int>)
    ensures r.Some? ==> 0 <= r.value <= 9999
  {
    if !long && |t| == 2 && AllDigits(t) then
      DigitsValueBound(t);
      Some(if DigitsValue(t) <= 68 then 2000 + DigitsValue(t) else 1900 + DigitsValue(t))
    else if long && |t| == 4 && AllDigits(t) then
      DigitsValueBound(t);
      Some(DigitsValue(t))
    else None
  }

  /** The three fields around the first two occurrences of `sep`. */
  function SplitThree(s: string, sep: char): Option<(string, string, string)> {
    match IndexOf(s, sep)
    case None => None
    case Some(i) =>
      var rest := s[i + 1..];
      match IndexOf(rest, sep)
      case None => None
      case Some(j) => Some((s[..i], rest[..j], rest[j + 1..]))
  }

  /** The date built from parsed fields, if `datetime` accepts it. */
  function CalendarDate(y: Option<int>, m: Option<int>, d: Option<int>): (r: Option<Date>)
    ensures r.Some? ==> ValidDate(r.value)
  {
    if y.Some? && m.Some? && d.Some? && ValidDate(Date(y.value, m.value, d.value))
    then Some(Date(y.value, m.value, d.value))
    else None
  }

  /** `datetime.strptime(s, fmt)`, None on ValueError. */
  function ParseWith(f: DateFormat, s: string): (r: Option<Date>)
    ensures r.Some? ==> ValidDate(r.value)
  {
    match f
    case DayMonthYear(sep, long) =>
      (match SplitThree(s, sep)
       case None => None
       case Some(p) => CalendarDate(YearField(p.2, long), MonthField(p.1), DayField(p.0)))
    case YearMonthDay =>
      (match SplitThree(s, '-')
       case None => None
       case Some(p) => CalendarDate(YearField(p.0, true), MonthField(p.1), DayField(p.2)))
  }

  /** `for fmt in formats: try: return strptime(...)`. */
  function ParseFirst(formats: seq<DateFormat>, s: string): (r: Option<Date>)
    ensures r.Some? ==> ValidDate(r.value)
  {
    if formats == [] then None
    else match ParseWith(formats[0], s)
      case Some(d) => Some(d)
      case None => ParseFirst(formats[1..], s)
  }

  /** The first format that accepts `s` decides. */
  lemma {:induction false} ParseFirstFirstWins(formats: seq<DateFormat>, s: string, i: nat)
    requires i < |formats| && ParseWith(formats[i], s).Some?
    requires forall j :: 0 <= j < i ==> ParseWith(formats[j], s).None?
    ensures ParseFirst(formats, s) == ParseWith(formats[i], s)
  {
    if i > 0 {
      var rest := formats[1..];
      assert ParseWith(formats[0], s).None?;
      forall j | 0 <= j < i - 1 ensures ParseWith(rest[j], s).None? {
        assert rest[j] == formats[j + 1];
      }
      ParseFirstFirstWins(rest, s, i - 1);
    }
  }

  /** The result is None exactly when no format accepts `s`. */
  lemma {:induction false} ParseFirstNoneRejects(formats: seq<DateFormat>, s: string)
    ensures ParseFirst(formats, s).None? <==>
      forall i :: 0 <= i < |formats| ==> ParseWith(formats[i], s).None?
  {
    if formats != [] && ParseWith(formats[0], s).None? {
      var rest := formats[1..];
      ParseFirstNoneRejects(rest, s);
      forall i | 0 < i < |formats| ensures formats[i] == rest[i - 1] {
      }
      forall i | 0 <= i < |rest| ensures rest[i] == formats[i + 1] {
      }
    }
  }

  /** `parse_date`: timestamps pass through, strings are stripped and tried
      against the five formats in order; missing cells, numbers and strings
      no format accepts give None. */
  function ParseDate(c: Cell): (r: Option<Date>)
    ensures c.Stamp? ==> r == Some(c.date)
    ensures c.Empty? || c.Num? ==> r == None
    ensures c.Str? && r.Some? ==> ValidDate(r.value)
  {
    match c
    case Empty => None
    case Num(_, _) => None
    case Stamp(d) => Some(d)
    case Str(s) => ParseFirst(DATE_FORMATS, Strip(s))
  }

  lemma {:induction false} SplitThreeOf(a: string, b: string, c: string, sep: char)
    requires sep !in a && sep !in b
    ensures SplitThree(a + [sep] + b + [sep] + c, sep) == Some((a, b, c))
  {
    var s := a + [sep] + b + [sep] + c;
    assert s == a + [sep] + (b + [sep] + c);
    IndexOfAfter(a, sep, b + [sep] + c);
    var rest := s[|a| + 1..];
    assert rest == b + [sep] + c;
    IndexOfAfter(b, sep, c);
    assert s[..|a|] == a;
    assert rest[..|b|] == b && rest[|b| + 1..] == c;
  }

  /** A string without surrounding whitespace is its own `strip()`. */
  lemma StripNoOp(s: string)
    requires s == [] || (!IsSpace(s[0]) && !IsSpace(s[|s| - 1]))
    ensures Strip(s) == s
  {
    StripLeftNoOp(s);
    StripRightNoOp(s);
  }

  function IsoText(d: Date): string
    requires ValidDate(d)
  {
    Pad4(d.year) + ['-'] + Pad2(d.month) + ['-'] + Pad2(d.day)
  }

  /** Three digit fields joined by `sep` hold no character other than digits
      and `sep`. */
  lemma JoinedLacks(a: string, b: string, c: string, sep: char, x: char)
    requires AllDigits(a) && AllDigits(b) && AllDigits(c)
    requires !IsDigit(x) && x != sep
    ensures x !in a + [sep] + b + [sep] + c
  {
    DigitsLack(a, x);
    DigitsLack(b, x);
    DigitsLack(c, x);
  }

  lemma IsoTextParses(d: Date)
    requires ValidDate(d)
    ensures ParseWith(YearMonthDay, IsoText(d)) == Some(d)
  {
    var y, m, dd := Pad4(d.year), Pad2(d.month), Pad2(d.day);
    DigitsLack(y, '-');
    DigitsLack(m, '-');
    SplitThreeOf(y, m, dd, '-');
    assert IsDigit(dd[0]);
  }

  lemma IsoTextBare(d: Date)
    requires ValidDate(d)
    ensures '.' !in IsoText(d) && '/' !in IsoText(d)
    ensures Strip(IsoText(d)) == IsoText(d)
  {
    var y, m, dd := Pad4(d.year), Pad2(d.month), Pad2(d.day);
    JoinedLacks(y, m, dd, '-', '.');
    JoinedLacks(y, m, dd, '-', '/');
    var s := IsoText(d);
    assert s[0] == y[0] && IsDigit(y[0]);
    assert s[|s| - 1] == dd[1] && IsDigit(dd[1]);
    StripNoOp(s);
  }

  lemma ParseFirstStep(formats: seq<DateFormat>, s: string)
    requires formats != []
    ensures ParseWith(formats[0], s).Some? ==> ParseFirst(formats, s) == ParseWith(formats[0], s)
    ensures ParseWith(formats[0], s).None? ==> ParseFirst(formats, s) == ParseFirst(formats[1..], s)
  {
  }

  lemma NoSeparatorNoMatch(s: string, sep: char, long: bool)
    requires sep !in s
    ensures ParseWith(DayMonthYear(sep, long), s) == None
  {
    assert IndexOf(s, sep) == None;
  }

  /** An ISO date `YYYY-MM-DD` reads back as itself: both day-first formats
      with a dot reject it, the third format accepts it. */
  lemma IsoDateRoundTrip(d: Date)
    requires ValidDate(d)
    ensures ParseDate(Str(IsoText(d))) == Some(d)
  {
    var s := IsoText(d);
    IsoTextParses(d);
    IsoTextBare(d);
    NoSeparatorNoMatch(s, '.', false);
    NoSeparatorNoMatch(s, '.', true);
    var f := DATE_FORMATS;
    ParseFirstStep(f, s);
    ParseFirstStep(f[1..], s);
    ParseFirstStep(f[2..], s);
    assert f[1..][1..] == f[2..];
  }

  function DottedText(d: Date): string
    requires ValidDate(d)
  {
    Pad2(d.day) + ['.'] + Pad2(d.month) + ['.'] + Pad4(d.year)
  }

  lemma DottedTextParses(d: Date)
    requires ValidDate(d)
    ensures ParseWith(DayMonthYear('.', true), DottedText(d)) == Some(d)
    ensures ParseWith(DayMonthYear('.', false), DottedText(d)) == None
  {
    var y, m, dd := Pad4(d.year), Pad2(d.month), Pad2(d.day);
    DigitsLack(dd, '.');
    DigitsLack(m, '.');
    SplitThreeOf(dd, m, y, '.');
    assert IsDigit(dd[0]);
  }

  lemma DottedTextBare(d: Date)
    requires ValidDate(d)
    ensures Strip(DottedText(d)) == DottedText(d)
  {
    var y, dd := Pad4(d.year), Pad2(d.day);
    var s := DottedText(d);
    assert s[0] == dd[0] && IsDigit(dd[0]);
    assert s[|s| - 1] == y[3] && IsDigit(y[3]);
    StripNoOp(s);
  }

  /** `DD.MM.YYYY` reads back as the date: the two-digit-year format fails on
      the four-digit year and the second format accepts it. */
  lemma DottedDateRoundTrip(d: Date)
    requires ValidDate(d)
    ensures ParseDate(Str(DottedText(d))) == Some(d)
  {
    var s := DottedText(d);
    DottedTextParses(d);
    DottedTextBare(d);
    var f := DATE_FORMATS;
    ParseFirstStep(f, s);
    ParseFirstStep(f[1..], s);
  }

  lemma ShortYearFieldValues()
    ensures DayField("30") == Some(30)
    ensures MonthField("01") == Some(1)
    ensures YearField("26", false) == Some(2026)
  {
    DigitsValueOfTwo("26");
    DigitsValueOfTwo("01");
    DigitsValueOfTwo("30");
  }

  lemma ShortYearFields()
    ensures ParseWith(DayMonthYear('.', false), "30.01.26") == Some(Date(2026, 1, 30))
  {
    var s := "30" + ['.'] + "01" + ['.'] + "26";
    SplitThreeOf("30", "01", "26", '.');
    ShortYearFieldValues();
    assert ValidDate(Date(2026, 1, 30)) by {
      assert DaysInMonth(2026, 1) == 31;
    }
    assert ParseWith(DayMonthYear('.', false), s) == Some(Date(2026, 1, 30));
    assert s == "30.01.26";
  }

  /** A two-digit year up to 68 is read in the 2000s (`%y`), e.g. `30.01.26`. */
  lemma ShortYearExample()
    ensures ParseDate(Str("30.01.26")) == Some(Date(2026, 1, 30))
  {
    var s := "30.01.26";
    StripNoOp(s);
    ShortYearFields();
    ParseFirstStep(DATE_FORMATS, s);
  }
}
