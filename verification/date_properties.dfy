/**
 Properties of the `Date` model that relate several operations: the text
 `FromString` reads back, the laws of day arithmetic, what `Scan` makes of each
 kind of driver value, and the round trips through the database and text
 adapters, stated for whatever the `jd` library computes.
 */
module DateProperties {
  import opened Results
  import opened GoBuiltin
  import opened Strconv
  import opened Jd
  import opened Date

  /** A year as `FromString` can read it back: four digits, or `-` and three digits. */
  function YearText(y: int): (t: seq<Byte>)
    requires -999 <= y <= 9999
    ensures |t| == 4
  {
    if y >= 0 then Field(y, 4) else [MINUS] + Field(-y, 3)
  }

  /** `y-m-d` with a zero-padded month and day: the padded form that `FromStringOfMarshalText` assumes `jd.ToDate` writes. */
  function DateText(y: int, m: int, d: int): (t: seq<Byte>)
    requires -999 <= y <= 9999 && 0 <= m < 100 && 0 <= d < 100
    ensures |t| == 10
  {
    YearText(y) + [MINUS] + Field(m, 2) + [MINUS] + Field(d, 2)
  }

  /** `FromString` reads back any written year (a negative one too), month and day. */
  lemma FromStringOfDateText(jd: Library, y: int, m: int, d: int)
    requires -999 <= y <= 9999 && 0 <= m < 100 && 0 <= d < 100
    ensures FromString(jd, DateText(y, m, d)) == Ok(jd.YMD2J(y, m, d))
  {
    AtoiOfYearText(y);
    AtoiOfField(m, 2);
    AtoiOfField(d, 2);
    FromStringOfParsedFields(jd, YearText(y), Field(m, 2), Field(d, 2));
  }

  /** Three four-, two- and two-byte fields that `Atoi` reads, joined by `-`, are a date. */
  lemma FromStringOfParsedFields(jd: Library, year: seq<Byte>, month: seq<Byte>, day: seq<Byte>)
    requires |year| == 4 && |month| == 2 && |day| == 2
    requires Atoi(year).Ok? && Atoi(month).Ok? && Atoi(day).Ok?
    ensures FromString(jd, year + [MINUS] + month + [MINUS] + day)
         == Ok(jd.YMD2J(Atoi(year).value, Atoi(month).value, Atoi(day).value))
  {
    var s := year + [MINUS] + month + [MINUS] + day;
    assert s[0..4] == year;
    assert s[5..7] == month;
    assert s[8..10] == day;
  }

  /** `Atoi` reads a written year back. */
  lemma AtoiOfYearText(y: int)
    requires -999 <= y <= 9999
    ensures Atoi(YearText(y)) == Ok(y)
  {
    if y >= 0 {
      AtoiOfField(y, 4);
    } else {
      AtoiOfSignedField(-y, 3);
    }
  }

  /**
   Whatever `FromString` accepts names a year in -999..9999 and a month and a
   day in -9..99: `jd.YMD2J` sees no other arguments from it.
   */
  lemma FromStringFieldRanges(jd: Library, s: seq<Byte>)
    requires FromString(jd, s).Ok?
    ensures -999 <= Atoi(s[0..4]).value <= 9999
    ensures -9 <= Atoi(s[5..7]).value <= 99 && -9 <= Atoi(s[8..10]).value <= 99
    ensures exists y, m, d ::
      && -999 <= y <= 9999 && -9 <= m <= 99 && -9 <= d <= 99
      && FromString(jd, s).value == jd.YMD2J(y, m, d)
  {
    var y, m, d := Atoi(s[0..4]).value, Atoi(s[5..7]).value, Atoi(s[8..10]).value;
    assert Pow10(3) == 1000 && Pow10(4) == 10000;
    assert Pow10(1) == 10 && Pow10(2) == 100;
    assert FromString(jd, s).value == jd.YMD2J(y, m, d);
  }

  /** No range check: a thirteenth month and a forty-fifth day go straight to the library. */
  lemma FromStringKeepsOutOfRangeFields(jd: Library)
    ensures FromString(jd, DateText(2021, 13, 45)) == Ok(jd.YMD2J(2021, 13, 45))
  {
    FromStringOfDateText(jd, 2021, 13, 45);
  }

  /** A month or a day may carry its own sign: `2021-+1--1` names month 1, day -1. */
  lemma FromStringAcceptsSignedFields(jd: Library)
    ensures FromString(jd, YearText(2021) + [MINUS, PLUS] + Field(1, 1) + [MINUS, MINUS] + Field(1, 1))
         == Ok(jd.YMD2J(2021, 1, -1))
  {
    AtoiOfYearText(2021);
    AtoiOfSignedField(1, 1);
    var month, day := [PLUS] + Field(1, 1), [MINUS] + Field(1, 1);
    FromStringOfParsedFields(jd, YearText(2021), month, day);
    assert YearText(2021) + [MINUS] + month + [MINUS] + day
        == YearText(2021) + [MINUS, PLUS] + Field(1, 1) + [MINUS, MINUS] + Field(1, 1);
  }

  /** The empty text is not a date: `FromString("")` fails like any other wrong length. */
  lemma FromStringRejectsEmpty(jd: Library)
    ensures FromString(jd, []) == Err(Malformed([]))
  {
  }

  /** `01/02/06`, the text `MustFromString` is expected to refuse, is not a date. */
  lemma FromStringRejectsSlashDate(jd: Library)
    ensures FromString(jd, Field(1, 2) + [0x2F] + Field(2, 2) + [0x2F] + Field(6, 2)).Err?
  {
  }

  /** `Sub` is antisymmetric up to 64-bit wrap-around, and exactly so unless the difference is the most negative `int`. */
  lemma {:induction false} SubAntisymmetric(a: Date, b: Date)
    ensures Sub(a, b) == Wrap(-(Sub(b, a) as int))
    ensures Sub(b, a) != MIN_INT64 ==> Sub(a, b) == -(Sub(b, a) as int)
  {
    var q := (b - a - MIN_INT64) / TWO_TO_64;
    WrapOffset(b - a);
    assert -(Sub(b, a) as int) == a - b + q * TWO_TO_64;
    WrapPeriodic(a - b, q);
  }

  /** A day before `d` is one day earlier: `d.Sub(d.AddDate(0, 0, -1)) == 1`. */
  lemma OneDayBefore(shift: (Date, Int64, Int64, Int64) -> Date, d: Date)
    ensures Sub(d, AddDate(shift, d, 0, 0, -1)) == 1
  {
    var e := AddDate(shift, d, 0, 0, -1);
    assert Sub(e, d) == -1;
    SubAntisymmetric(d, e);
  }

  /** Adding days twice is adding their 64-bit sum once. */
  lemma {:induction false} AddDaysCompose(shift: (Date, Int64, Int64, Int64) -> Date, d: Date, a: Int64, b: Int64)
    ensures AddDate(shift, AddDate(shift, d, 0, 0, a), 0, 0, b) == AddDate(shift, d, 0, 0, Wrap(a + b))
  {
    var once := AddDate(shift, d, 0, 0, a);
    var ab := Wrap(a + b);
    assert AddDate(shift, once, 0, 0, b) == Wrap(Wrap(d + a) + b);
    assert AddDate(shift, d, 0, 0, ab) == Wrap(d + Wrap(a + b));
    WrapAssociative(d, a, b);
  }

  /** Adding days and the day difference are inverse: `d2 == d1.AddDate(0, 0, d2.Sub(d1))`. */
  lemma {:induction false} AddDateOfSub(shift: (Date, Int64, Int64, Int64) -> Date, d1: Date, d2: Date)
    ensures AddDate(shift, d1, 0, 0, Sub(d2, d1)) == d2
  {
    WrapAddWrapped(d2 - d1, d1);
  }

  /** A value has one `YYYYMMDD` reading with month and day in 0..99. */
  lemma DecimalFieldsUnique(y: int, m: int, d: int, y': int, m': int, d': int)
    requires 0 <= m < 100 && 0 <= d < 100 && 0 <= m' < 100 && 0 <= d' < 100
    requires y * 10000 + m * 100 + d == y' * 10000 + m' * 100 + d'
    ensures y == y' && m == m' && d == d'
  {
    assert (y - y') * 10000 == (m' - m) * 100 + (d' - d);
    assert y == y';
    assert (m - m') * 100 == d' - d;
  }

  /** A `YYYYMMDD` integer splits back into its year, month and day. */
  lemma SplitYmdOfComposed(y: int, m: int, d: int)
    requires 0 <= m < 100 && 0 <= d < 100 && 0 <= y * 10000 + m * 100 + d <= MAX_INT64
    ensures SplitYmd(y * 10000 + m * 100 + d) == (y, m, d)
  {
    var (y', m', d') := SplitYmd(y * 10000 + m * 100 + d);
    DecimalFieldsUnique(y, m, d, y', m', d');
  }

  /** A negative `YYYYMMDD` integer splits into the negated fields of its magnitude (truncating division). */
  lemma SplitYmdOfNegated(v: Int64)
    requires v > MIN_INT64
    ensures SplitYmd(-v) == (-SplitYmd(v).0, -SplitYmd(v).1, -SplitYmd(v).2)
  {
    if v >= 0 {
      NonNegativeSplit(v);
      TruncatedSplit(-v);
    } else {
      NonNegativeSplit(-v);
      TruncatedSplit(v);
    }
  }

  /** Any 64-bit integer scans as `jd.YMD2J` of its truncating `YYYYMMDD` split, without error. */
  lemma ScanOfInteger(jd: Library, current: Date, v: Int64)
    ensures ScanOutcome(jd, current, Int64Value(v)) == Scanned(jd.YMD2J(SplitYmd(v).0, SplitYmd(v).1, SplitYmd(v).2), None)
  {
  }

  /** Scanning the integer `YYYYMMDD` sets the receiver to that calendar date, without error. */
  lemma ScanOfComposedInteger(jd: Library, current: Date, y: int, m: int, d: int)
    requires 0 <= m < 100 && 0 <= d < 100 && 0 <= y * 10000 + m * 100 + d <= MAX_INT64
    ensures ScanOutcome(jd, current, Int64Value(y * 10000 + m * 100 + d)) == Scanned(jd.YMD2J(y, m, d), None)
  {
    SplitYmdOfComposed(y, m, d);
  }

  /** The negated integer `-(y*10000 + m*100 + d)` scans with every field negated: a BC-style `-YYYYMMDD`. */
  lemma ScanOfNegativeComposedInteger(jd: Library, current: Date, y: int, m: int, d: int)
    requires 0 <= m < 100 && 0 <= d < 100 && 0 <= y * 10000 + m * 100 + d <= MAX_INT64
    ensures ScanOutcome(jd, current, Int64Value(-(y * 10000 + m * 100 + d))) == Scanned(jd.YMD2J(-y, -m, -d), None)
  {
    var v := y * 10000 + m * 100 + d;
    SplitYmdOfComposed(y, m, d);
    SplitYmdOfNegated(v);
  }

  /** The integer `20210304` scans as 4 March 2021, and so does the float `20220714.2` as 14 July 2022. */
  lemma ScanOfIntegerDates(jd: Library, current: Date)
    ensures ScanOutcome(jd, current, Int64Value(20210304)) == Scanned(jd.YMD2J(2021, 3, 4), None)
    ensures ScanOutcome(jd, current, Float64Value(20220714)) == Scanned(jd.YMD2J(2022, 7, 14), None)
  {
    ScanOfComposedInteger(jd, current, 2021, 3, 4);
    ScanOfComposedInteger(jd, current, 2022, 7, 14);
  }

  /** A float64 scans like the integer it truncates to. */
  lemma ScanFloatAsInteger(jd: Library, current: Date, t: Int64)
    ensures ScanOutcome(jd, current, Float64Value(t)) == ScanOutcome(jd, current, Int64Value(t))
  {
  }

  /** Bytes and a string with the same contents scan alike. */
  lemma ScanBytesAsString(jd: Library, current: Date, b: seq<Byte>)
    ensures ScanOutcome(jd, current, BytesValue(b)) == ScanOutcome(jd, current, StringValue(b))
  {
  }

  /** A failed `Scan` is idempotent: the receiver is unchanged and scanning again fails the same way. */
  lemma ScanFailureIsStable(jd: Library, current: Date, src: DriverValue)
    requires !ScanAccepts(jd, src)
    ensures ScanOutcome(jd, ScanOutcome(jd, current, src).date, src) == ScanOutcome(jd, current, src)
  {
  }

  /** A successful `Scan` does not depend on what the receiver held before. */
  lemma ScanSuccessIgnoresReceiver(jd: Library, a: Date, b: Date, src: DriverValue)
    requires ScanAccepts(jd, src)
    ensures ScanOutcome(jd, a, src) == ScanOutcome(jd, b, src)
  {
  }

  /** `Value` of the day 0 is its text, not nil: date.go has no special zero date. */
  lemma ValueOfZeroIsText(jd: Library)
    ensures Value(jd, 0) != Ok(NilValue)
  {
  }

  /**
   Database round trip: when `jd.ToNumber` reads back what `jd.ToDate` writes
   for `d`, scanning what `Value` stored restores `d`.
   */
  lemma ScanOfValue(jd: Library, current: Date, d: Date)
    requires jd.ToNumber(jd.ToDate(d)) == Ok(d)
    ensures ScanOutcome(jd, current, Value(jd, d).value) == Scanned(d, None)
  {
  }

  /**
   Text round trip: when `jd.ToDate` writes `d` as the padded date text of a
   year, month and day that `jd.YMD2J` maps back to `d`, `FromString` (and
   so `UnmarshalText`) reads what `MarshalText` wrote back to `d`.
   */
  lemma FromStringOfMarshalText(jd: Library, d: Date, y: int, m: int, dd: int)
    requires -999 <= y <= 9999 && 0 <= m < 100 && 0 <= dd < 100
    requires jd.ToDate(d) == DateText(y, m, dd) && jd.YMD2J(y, m, dd) == d
    ensures FromString(jd, MarshalText(jd, d).value) == Ok(d)
  {
    FromStringOfDateText(jd, y, m, dd);
  }

  /** A client of `DateVar`: marshalling then unmarshalling into another variable copies the date. */
  method UnmarshalMarshalled(jd: Library, src: DateVar, y: int, m: int, dd: int) returns (dst: DateVar)
    requires -999 <= y <= 9999 && 0 <= m < 100 && 0 <= dd < 100
    requires jd.ToDate(src.value) == DateText(y, m, dd) && jd.YMD2J(y, m, dd) == src.value
    ensures fresh(dst) && dst.value == src.value
  {
    var text := MarshalText(jd, src.value);
    dst := new DateVar(0);
    FromStringOfMarshalText(jd, src.value, y, m, dd);
    var err := dst.UnmarshalText(jd, text.value);
    assert err == None;
  }
}
