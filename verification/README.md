# muir/date in Dafny

A model of the `Date` type of the Go package `github.com/muir/date`. This model covers date.go, the file that defines `Date`. A `Date` is a Go `int` that holds a Julian Day Number. date.go provides:

- a strict `YYYY-MM-DD` parser, `FromString`, and its panicking form `MustFromString`;
- day arithmetic: `AddDate` and `Sub`;
- the `database/sql` adapters `Scan` and `Value`;
- the `encoding` adapters `MarshalText` and `UnmarshalText`.

Every calendar computation is done by the Julian-day library `github.com/carlosjhr64/jd`. Its source is not part of this model. The four `jd` functions that the modelled operations call are `YMD2J`, `ToDate`, `ToNumber` and `Number`. (date.go also calls `jd.J2YMD`, but only from `Time`, which is left out.) They are the fields of a value `jd: Jd.Library` that every operation calling the library takes as a parameter; `AddDate`, `Sub` and `SplitYmd` do not call it. So every property below holds for whatever that library computes. The year/month path of `AddDate` goes through `time.Time`. It is passed in the same way, as the function `calendarShift`.

Modules, one per concern:

- `GoBuiltin` models Go's 64-bit `int`, whose `+` and `-` wrap around (`Wrap`). It also models `byte`, and the truncating `/` and `%` (`Quo` and `Rem`).
- `Strconv` models `strconv.Atoi`: an optional `+` or `-`, then one or more digits, then a range check.
- `Jd` holds the external library as a record of functions.
- `Date` models date.go. A Go `string` and a `[]byte` are both `seq<Byte>`, so lengths and offsets count bytes, as in Go. The pointer receiver `*Date` of `Scan` and `UnmarshalText` is the class `DateVar`. Its one field, `value`, is overwritten in place. `ScanOutcome` is the function that specifies `Scan`.
- `DateProperties` holds the lemmas that relate several operations, and the date_test.go facts that do not depend on `jd` (date_test.go:16, 36, 42-47, 78, 83).

date_test.go and the code disagree, and the model follows the code. date.go does not guarantee three test expectations:

- that `FromString("")` is the zero date: date.go:49 rejects every length other than 10, and `FromStringRejectsEmpty` states this;
- that `String()` of 0 is `""`: date.go:18-20 has no zero case, so the text is whatever `jd.ToDate(0)` writes;
- that `Value()` of 0 is nil: date.go:131-133 always returns the text, and `ValueOfZeroIsText` states this.

The tests also call `FromJD`, `JD`, `IsZero`, `Zero` and `FromTime`. date.go does not define them, so they are not modelled.

## Model

| member | source | states |
|---|---|---|
| `Date.FromString` | date.go:48-68 | Fails with a malformed-input error when the length is not 10, or when offset 4 or 7 is not `-`. Succeeds exactly when the three fields are `Atoi` numerals. The result is then `jd.YMD2J` of the three parsed values, with no check on month or day range. A field that fails to parse gives a field error that carries the whole input. |
| `Date.NumeralAtoi` | date.go:55-66 | For fields shorter than 19 bytes, `Atoi` succeeds exactly on an optional sign followed by at least one digit. |
| `Date.MustFromString` | date.go:70-76 | Defined only where `FromString` succeeds, and returns the date `FromString` gives. The panic becomes this precondition. |
| `Date.AddDate` | date.go:82-88 | With no years and no months, the result is exactly `days` days after `d` as measured by `Sub`, even across 64-bit overflow. Without overflow it is `d + days`. Otherwise the result is the time-based calendar shift. |
| `Date.Sub` | date.go:90-92 | The plain difference `d1 - d2` when that fits 64 bits. It is 0 for equal dates. |
| `Date.SplitYmd` | date.go:97-100 | The truncating `v/10000`, `(v%10000)/100` and `v%100` always rebuild `v`. Month and day stay below 100 in magnitude. All three fields carry the sign of `v`. |
| `Date.TruncatedSplit` | date.go:99 | The arithmetic behind `SplitYmd` for non-negative and for negative `v`, using Go's truncating division. |
| `Date.String` | date.go:18-20 | The text is what `jd.ToDate` writes for the day number, with no special case for day 0. |
| `Date.ScanOutcome` | date.go:95-128 | `Scan` fails exactly when the value is of an unsupported type, or is bytes or a string that `jd.ToNumber` rejects. A failure leaves the receiver as it was. Accepted bytes or a string store the number `jd.ToNumber` returns; rejected ones return `jd.ToNumber`'s own error. A timestamp stores `jd.Number` of it. An unsupported value reports its type name. A nil value resets the receiver to 0 with no error. |
| `Date.DateVar.Scan` | date.go:95-128 | The receiver's new value and the returned error are those `ScanOutcome` gives for its old value. |
| `Date.Value` | date.go:130-133 | Never fails, never returns nil, and always returns the text of `String()`. |
| `Date.MarshalText` | date.go:135-139 | Never fails, and writes the same text that `Value` hands the driver. |
| `Date.DateVar.UnmarshalText` | date.go:141-146 | Always overwrites the receiver. It stores `FromString`'s date and no error when parsing succeeds. Otherwise it stores 0 and returns `FromString`'s error. |
| `Strconv.Atoi` | date.go:55-66 | An accepted field is an optional sign and at least one digit. A negative result needs a leading `-`. The value is bounded by the field's width. Well-formed fields shorter than 19 bytes always succeed. |
| `Strconv.DigitsValue` | date.go:55-66 | The value of a digit run, accumulated left to right, is below 10 to the power of its length. |
| `Strconv.AtoiOfField` | date.go:55-66 | `Atoi` reads back a zero-padded decimal field. |
| `Strconv.AtoiOfSignedField` | date.go:55-66 | `Atoi` reads back a zero-padded field behind `+` as itself and behind `-` as its negation. |
| `GoBuiltin.Quo` | date.go:99 | Go's `/` by a positive divisor: the quotient truncated toward zero, stated as bounds on `b * q` for either sign of the dividend. |
| `GoBuiltin.Rem` | date.go:99 | Go's `%` by a positive divisor: the remainder is smaller than the divisor in magnitude and carries the sign of the dividend. |
| `GoBuiltin.RemIdentity` | date.go:99 | Go's defining identity `a == (a / b) * b + a % b` holds for `Quo` and `Rem`, so together with `Rem`'s bounds they are exactly Go's `/` and `%`. |
| `GoBuiltin.Wrap` | date.go:85 | 64-bit wrap-around leaves every representable value unchanged. |
| `GoBuiltin.SubUndoesAdd` | date.go:83-92 | Adding `n` with wrap-around and then subtracting the start gives back `n`. |
| `GoBuiltin.WrapAssociative` | date.go:85 | Wrapping addition of day counts is associative. |
| `DateProperties.FromStringOfDateText` | date.go:48-68 | `FromString` reads back any written date. The year has four digits, or `-` and three digits. Month and day are zero-padded. The result is `jd.YMD2J` of those values. |
| `DateProperties.FromStringOfParsedFields` | date.go:52-67 | Any 4-, 2- and 2-byte fields that `Atoi` accepts, joined by `-`, parse to `jd.YMD2J` of their values. |
| `DateProperties.AtoiOfYearText` | date.go:55-58 | A written year, negative years included, parses back to itself. |
| `DateProperties.FromStringFieldRanges` | date.go:55-67 | In every accepted text the year field parses to a value in -999..9999 and the month and day fields to values in -9..99, so `jd.YMD2J` is called with arguments in those ranges. |
| `DateProperties.FromStringKeepsOutOfRangeFields` | date.go:59-67 | `2021-13-45` is accepted, and month 13 and day 45 go to `jd.YMD2J` unchanged. |
| `DateProperties.FromStringAcceptsSignedFields` | date.go:59-67 | `2021-+1--1` is accepted as year 2021, month 1, day -1. |
| `DateProperties.FromStringRejectsEmpty` | date.go:49-51 | The empty text is a malformed-input error, not the zero date. |
| `DateProperties.FromStringRejectsSlashDate` | date.go:49-51 | `01/02/06` is rejected, so `MustFromString` would panic on it. |
| `DateProperties.SubAntisymmetric` | date.go:90-92 | `a.Sub(b)` is the 64-bit negation of `b.Sub(a)`. It is their exact negation unless `b.Sub(a)` is the most negative `int`. |
| `DateProperties.OneDayBefore` | date.go:83-92 | `d.Sub(d.AddDate(0, 0, -1)) == 1` for every `d`. |
| `DateProperties.AddDaysCompose` | date.go:83-85 | Adding `a` days and then `b` days is adding their 64-bit sum once. |
| `DateProperties.AddDateOfSub` | date.go:83-92 | `d1.AddDate(0, 0, d2.Sub(d1)) == d2` for every `d1` and `d2`. |
| `DateProperties.DecimalFieldsUnique` | date.go:97-100 | A number has only one `YYYYMMDD` reading with month and day in 0..99. |
| `DateProperties.SplitYmdOfComposed` | date.go:97-100 | The integer `y*10000 + m*100 + d`, with month and day in 0..99, splits back into `(y, m, d)`. |
| `DateProperties.SplitYmdOfNegated` | date.go:97-100 | Truncating division splits `-v` into the negated fields of `v`. |
| `DateProperties.ScanOfInteger` | date.go:97-100 | Every 64-bit integer, the most negative included, scans with no error to `jd.YMD2J` of its truncating split `v/10000`, `(v%10000)/100`, `v%100`. |
| `DateProperties.ScanOfComposedInteger` | date.go:97-100 | Scanning the integer `YYYYMMDD` sets the receiver to `jd.YMD2J(y, m, d)`, with no error. |
| `DateProperties.ScanOfNegativeComposedInteger` | date.go:97-100 | Scanning the negated integer `-(y*10000 + m*100 + d)` sets the receiver to `jd.YMD2J(-y, -m, -d)`, with no error. |
| `DateProperties.ScanOfIntegerDates` | date.go:97-104 | `20210304` scans as `jd.YMD2J(2021, 3, 4)`, and the truncated float `20220714` as `jd.YMD2J(2022, 7, 14)`. |
| `DateProperties.ScanFloatAsInteger` | date.go:101-104 | A float scans like the integer it truncates to. |
| `DateProperties.ScanBytesAsString` | date.go:105-118 | Bytes and a string with the same contents scan alike. |
| `DateProperties.ScanFailureIsStable` | date.go:105-127 | A rejected value leaves the receiver unchanged, and scanning it again fails the same way. |
| `DateProperties.ScanSuccessIgnoresReceiver` | date.go:96-124 | An accepted value gives a result that does not depend on what the receiver held before. |
| `DateProperties.ValueOfZeroIsText` | date.go:131-133 | `Value` of day 0 is not nil. |
| `DateProperties.ScanOfValue` | date.go:112-133 | If `jd.ToNumber` reads back what `jd.ToDate` writes for `d`, then scanning what `Value` stored restores `d`. |
| `DateProperties.FromStringOfMarshalText` | date.go:137-146 | Suppose `jd.ToDate` writes `d` as a padded date whose `jd.YMD2J` is `d`. Then `FromString`, and so `UnmarshalText`, reads what `MarshalText` wrote back to `d`. |
| `DateProperties.UnmarshalMarshalled` | date.go:137-146 | Under the same condition, unmarshalling the marshalled text into a fresh variable copies the date. |

## Left out

- `Parse`, `MustParse`, `Format` and `Time` (date.go:22-45) are left out. They are wrappers around the `time.Time` layout engine, a foreign library whose behaviour this model cannot state.
- `DateFromTime` (date.go:78-80) is not a separate member. It is `jd.Number`, which the `TimeValue` case of `Scan` calls directly.
- The year/month path of `AddDate` (date.go:87) is the opaque parameter `calendarShift`. Its month-overflow behaviour belongs to `time.Time.AddDate`.
- The internals of `jd.YMD2J`, `jd.ToDate`, `jd.ToNumber`, `jd.Number` and `jd.J2YMD` are left out. As a result, `FromString(d.String()) == d` is proved only under a stated condition on the library (`FromStringOfMarshalText`), not outright.
- The float64 case of `Scan` takes the value after Go's `int(t)` conversion. Floating point and the conversion itself are left out. The conversion's result for out-of-range floats is platform-defined.
- `Strconv.Atoi`: for inputs of 19 bytes or more, Go can report a range error where the model reports a syntax error. This happens when the digits overflow before a later non-digit. date.go only passes fields of at most 4 bytes.
- The panics of `MustFromString` and `MustParse` are left out. `MustFromString` is modelled as a precondition.
- The text of error messages (`errors.Errorf`, `errors.Wrapf`, `fmt.Errorf`) is left out. Errors are kept as a datatype of kinds with the offending input.
- The `driver.Value` interface typing is left out. The shapes `Scan` takes and `Value` returns are the datatype `DriverValue`.
- Go's `int` is taken to be 64 bits wide. 32-bit platforms are not modelled.
- The zero-date behaviour that only date_test.go expects is not modelled, because date.go lacks it. This covers `Zero`, `IsZero`, `FromJD`, `JD`, `FromTime`, an empty string parsing to 0, and nil from `Value`.
