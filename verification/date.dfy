/**
 The `Date` type of date.go: a calendar date held as its Julian Day Number in
 a 64-bit `int`, with a strict `YYYY-MM-DD` parser, day arithmetic, and the
 adapters for `database/sql` (`Scan`, `Value`) and `encoding` (`MarshalText`,
 `UnmarshalText`). Every calendar computation is delegated to the `jd` library,
 which is passed in as `jd: Library`.
 */
module Date {
  import opened Results
  import opened GoBuiltin
  import opened Strconv
  import opened Jd

  /** `type Date int`: the Julian Day Number of the date. */
  type Date = Int64

  /** The errors date.go returns; the text of the messages is not modelled. */
  datatype DateError =
    | Malformed(input: seq<Byte>)                                  // wrong length or separators
    | BadField(input: seq<Byte>, field: seq<Byte>, cause: NumError) // a field `strconv.Atoi` rejects
    | Calendar(message: seq<Byte>)                                 // `jd.ToNumber`'s error, passed on as is
    | UnsupportedType(typeName: seq<Byte>)                            // a value `Scan` has no case for

  /** `d.String()`: the library's text for the day, with no special case for any day (0 included). */
  function String(jd: Library, d: Date): (s: seq<Byte>)
    ensures s == jd.ToDate(d)
  {
    jd.ToDate(d)
  }

  /** A field `strconv.Atoi` accepts: an optional sign and at least one digit. */
  predicate IsNumeral(f: seq<Byte>) {
    || (|f| > 0 && AllDigits(f))
    || (|f| > 1 && (f[0] == PLUS || f[0] == MINUS) && AllDigits(f[1..]))
  }

  /** Ten bytes, `-` at offsets 4 and 7, and a numeral in each of the three fields between. */
  predicate IsDateShaped(s: seq<Byte>) {
    && |s| == 10
    && s[4] == MINUS && s[7] == MINUS
    && IsNumeral(s[0..4]) && IsNumeral(s[5..7]) && IsNumeral(s[8..10])
  }

  /**
   `FromString(s)`: strict `YYYY-MM-DD`. It fails on any length other than 10
   and on a byte other than `-` at offset 4 or 7; it succeeds exactly when the
   text is date-shaped, and then gives `jd.YMD2J` of the three parsed fields,
   with no check that the month or the day is in range. A field that does not
   parse is reported together with the whole input.
   */
  function FromString(jd: Library, s: seq<Byte>): (r: Result<Date, DateError>)
    ensures |s| != 10 ==> r == Err(Malformed(s))
    ensures |s| == 10 && (s[4] != MINUS || s[7] != MINUS) ==> r == Err(Malformed(s))
    ensures r.Ok? <==> IsDateShaped(s)
    ensures r.Ok? ==> r.value == jd.YMD2J(Atoi(s[0..4]).value, Atoi(s[5..7]).value, Atoi(s[8..10]).value)
    ensures r.Err? && |s| == 10 && s[4] == MINUS && s[7] == MINUS ==> r.error.BadField? && r.error.input == s
  {
    if |s| != 10 then
      Err(Malformed(s))
    else if s[4] != MINUS || s[7] != MINUS then
      Err(Malformed(s))
    else
      NumeralAtoi(s[0..4]);
      NumeralAtoi(s[5..7]);
      NumeralAtoi(s[8..10]);
      match Atoi(s[0..4])
      case Err(e) => Err(BadField(s, s[0..4], e))
      case Ok(y) =>
        match Atoi(s[5..7])
        case Err(e) => Err(BadField(s, s[5..7], e))
        case Ok(m) =>
          match Atoi(s[8..10])
          case Err(e) => Err(BadField(s, s[8..10], e))
          case Ok(d) => Ok(jd.YMD2J(y, m, d))
  }

  /** For a short field, `strconv.Atoi` succeeds exactly on a numeral. */
  lemma NumeralAtoi(f: seq<Byte>)
    requires |f| < 19
    ensures Atoi(f).Ok? <==> IsNumeral(f)
  {
  }

  /** `MustFromString(s)`: the date `FromString` gives; a malformed `s` is a caller error. */
  function MustFromString(jd: Library, s: seq<Byte>): (d: Date)
    requires FromString(jd, s).Ok?
    ensures FromString(jd, s) == Ok(d)
  {
    FromString(jd, s).value
  }

  /**
   `d.AddDate(years, months, days)`. With no years and no months it is plain
   64-bit addition of days, so the result is exactly `days` days after `d`;
   otherwise it goes through `time.Time`, passed in as `calendarShift`.
   */
  function AddDate(calendarShift: (Date, Int64, Int64, Int64) -> Date,
                   d: Date, years: Int64, months: Int64, days: Int64): (r: Date)
    ensures years == 0 && months == 0 ==> Sub(r, d) == days
    ensures years == 0 && months == 0 && MIN_INT64 <= d + days <= MAX_INT64 ==> r == d + days
    ensures years != 0 || months != 0 ==> r == calendarShift(d, years, months, days)
  {
    if years == 0 && months == 0 then
      SubUndoesAdd(d, days);
      Wrap(d + days)
    else
      calendarShift(d, years, months, days)
  }

  /** `d1.Sub(d2)`: the number of days from `d2` to `d1`, as a 64-bit difference. */
  function Sub(d1: Date, d2: Date): (r: Int64)
    ensures MIN_INT64 <= d1 - d2 <= MAX_INT64 ==> r == d1 - d2
    ensures d1 == d2 ==> r == 0
  {
    Wrap(d1 - d2)
  }

  /** The shapes of value a database driver hands to `Scan` (and `Value` returns). */
  datatype DriverValue =
    | Int64Value(i: Int64)
    | Float64Value(truncated: Int64)  // a float64, after Go's `int(t)` truncation
    | BytesValue(bytes: seq<Byte>)
    | StringValue(text: seq<Byte>)
    | TimeValue(t: Timestamp)
    | NilValue
    | OtherValue(typeName: seq<Byte>)  // the name of the value's Go type

  /**
   The year, month and day fields of a `YYYYMMDD` integer, computed with Go's
   truncating `/` and `%`: `v/10000`, `(v%10000)/100` and `v%100`. The three
   fields always rebuild `v`, month and day stay below 100 in magnitude, and
   all three carry the sign of `v`.
   */
  function SplitYmd(v: Int64): (r: (Int64, Int64, Int64))
    ensures v == r.0 * 10000 + r.1 * 100 + r.2
    ensures -100 < r.1 < 100 && -100 < r.2 < 100
    ensures v >= 0 ==> r.0 >= 0 && r.1 >= 0 && r.2 >= 0
    ensures v <= 0 ==> r.0 <= 0 && r.1 <= 0 && r.2 <= 0
  {
    var y, r := Quo(v, 10000), Rem(v, 10000);
    var m, d := Quo(r, 100), Rem(v, 100);
    TruncatedSplit(v);
    (y, m, d)
  }

  /** The arithmetic behind `SplitYmd`, one sign at a time. */
  lemma TruncatedSplit(v: int)
    ensures var r := Rem(v, 10000);
            && v == Quo(v, 10000) * 10000 + r
            && r == Quo(r, 100) * 100 + Rem(v, 100)
            && (v >= 0 ==> Quo(v, 10000) >= 0 && 0 <= Quo(r, 100) < 100 && 0 <= Rem(v, 100) < 100)
            && (v < 0 ==> Quo(v, 10000) <= 0 && -100 < Quo(r, 100) <= 0 && -100 < Rem(v, 100) <= 0)
  {
    if v >= 0 {
      NonNegativeSplit(v);
    } else {
      var w := -v;
      NonNegativeSplit(w);
      assert Rem(v, 10000) == -(w % 10000);
      assert Quo(-(w % 10000), 100) == -((w % 10000) / 100);
      assert Rem(v, 100) == -(w % 100);
    }
  }

  /** For a non-negative `w` the truncating split is the Euclidean one, digit group by digit group. */
  lemma NonNegativeSplit(w: nat)
    ensures Quo(w, 10000) == w / 10000 && Rem(w, 10000) == w % 10000
    ensures Quo(w % 10000, 100) == (w % 10000) / 100 && Rem(w, 100) == w % 100
    ensures w == (w / 10000) * 10000 + ((w % 10000) / 100) * 100 + w % 100
    ensures w % 100 == (w % 10000) % 100
  {
  }

  /** What `Scan` leaves in the receiver and what it returns. */
  datatype Scanned = Scanned(date: Date, err: Option<DateError>)

  /** Whether `Scan` takes a value: its shape has a case, and text is one `jd.ToNumber` reads. */
  predicate ScanAccepts(jd: Library, src: DriverValue) {
    match src
    case BytesValue(b) => jd.ToNumber(b).Ok?
    case StringValue(s) => jd.ToNumber(s).Ok?
    case OtherValue(_) => false
    case _ => true
  }

  /**
   The effect of `(*Date).Scan` on a receiver holding `current`. It fails
   exactly on the values it does not accept, and a failure leaves the receiver
   as it was. Accepted text stores the number `jd.ToNumber` reads from it, and
   rejected text returns the library's own error; a timestamp stores
   `jd.Number` of it; nil stores 0.
   */
  function ScanOutcome(jd: Library, current: Date, src: DriverValue): (r: Scanned)
    ensures r.err.None? <==> ScanAccepts(jd, src)
    ensures r.err.Some? ==> r.date == current
    ensures src.StringValue? && jd.ToNumber(src.text).Ok? ==> r.date == jd.ToNumber(src.text).value
    ensures src.StringValue? && jd.ToNumber(src.text).Err? ==> r.err == Some(Calendar(jd.ToNumber(src.text).error))
    ensures src.BytesValue? && jd.ToNumber(src.bytes).Ok? ==> r.date == jd.ToNumber(src.bytes).value
    ensures src.BytesValue? && jd.ToNumber(src.bytes).Err? ==> r.err == Some(Calendar(jd.ToNumber(src.bytes).error))
    ensures src.TimeValue? ==> r.date == jd.Number(src.t)
    ensures src.OtherValue? ==> r.err == Some(UnsupportedType(src.typeName))
    ensures src.NilValue? ==> r == Scanned(0, None)
  {
    match src
    case Int64Value(i) =>
      var (y, m, d) := SplitYmd(i);
      Scanned(jd.YMD2J(y, m, d), None)
    case Float64Value(t) =>
      var (y, m, d) := SplitYmd(t);
      Scanned(jd.YMD2J(y, m, d), None)
    case BytesValue(b) =>
      (match jd.ToNumber(b)
       case Err(e) => Scanned(current, Some(Calendar(e)))
       case Ok(j) => Scanned(j, None))
    case StringValue(s) =>
      (match jd.ToNumber(s)
       case Err(e) => Scanned(current, Some(Calendar(e)))
       case Ok(j) => Scanned(j, None))
    case TimeValue(t) => Scanned(jd.Number(t), None)
    case NilValue => Scanned(0, None)
    case OtherValue(name) => Scanned(current, Some(UnsupportedType(name)))
  }

  /** `d.Value()`: the text of `d.String()` for the driver; it never fails and is never nil. */
  function Value(jd: Library, d: Date): (r: Result<DriverValue, DateError>)
    ensures r.Ok? && r.value.StringValue? && r.value.text == String(jd, d)
  {
    Ok(StringValue(String(jd, d)))
  }

  /** `d.MarshalText()`: the bytes of `d.String()`, the same text `Value` hands the driver; it never fails. */
  function MarshalText(jd: Library, d: Date): (r: Result<seq<Byte>, DateError>)
    ensures r.Ok? && Value(jd, d) == Ok(StringValue(r.value))
  {
    Ok(String(jd, d))
  }

  /** A `*Date`: the variable that `Scan` and `UnmarshalText` overwrite. */
  class DateVar {
    var value: Date

    constructor (d: Date)
      ensures value == d
    {
      value := d;
    }

    /**
     `(*Date).Scan(src)`, one case per shape of driver value: the imperative
     form of `ScanOutcome`, overwriting the receiver in place.
     */
    method Scan(jd: Library, src: DriverValue) returns (err: Option<DateError>)
      modifies this
      ensures value == ScanOutcome(jd, old(value), src).date
      ensures err == ScanOutcome(jd, old(value), src).err
    {
      match src {
        case Int64Value(i) =>
          var (y, m, d) := SplitYmd(i);
          value := jd.YMD2J(y, m, d);
          return None;
        case Float64Value(t) =>
          var (y, m, d) := SplitYmd(t);
          value := jd.YMD2J(y, m, d);
          return None;
        case BytesValue(b) =>
          var j := jd.ToNumber(b);
          if j.Err? {
            return Some(Calendar(j.error));
          }
          value := j.value;
          return None;
        case StringValue(s) =>
          var j := jd.ToNumber(s);
          if j.Err? {
            return Some(Calendar(j.error));
          }
          value := j.value;
          return None;
        case TimeValue(t) =>
          value := jd.Number(t);
          return None;
        case NilValue =>
          value := 0;
          return None;
        case OtherValue(name) =>
          return Some(UnsupportedType(name));
      }
    }

    /**
     `(*Date).UnmarshalText(text)`: always overwrites the receiver with what
     `FromString` gives, which is 0 when it fails, and returns its error.
     */
    method UnmarshalText(jd: Library, text: seq<Byte>) returns (err: Option<DateError>)
      modifies this
      ensures FromString(jd, text).Ok? ==> value == FromString(jd, text).value && err == None
      ensures FromString(jd, text).Err? ==> value == 0 && err == Some(FromString(jd, text).error)
    {
      var r := FromString(jd, text);
      match r {
        case Ok(d) =>
          value, err := d, None;
        case Err(e) =>
          value, err := 0, Some(e);
      }
    }
  }
}
