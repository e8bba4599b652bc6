/**
 The Julian-day library (`github.com/carlosjhr64/jd`) that date.go delegates
 every calendar computation to. Its source is not part of this model, so the
 four `jd` functions that the modelled operations call are carried as
 function-valued fields of a `Library` value: every result proved about
 date.go holds for whatever those functions compute. (`jd.J2YMD` is called
 only by `Time`, which is not modelled.)
 */
module Jd {
  import opened Results
  import opened GoBuiltin

  /** A `time.Time`, left opaque: only `jd.Number` looks inside it. */
  datatype Timestamp = Timestamp(instant: int)

  datatype Library = Library(
    /** `jd.YMD2J(year, month, day)`: the Julian Day Number of a calendar date. */
    YMD2J: (Int64, Int64, Int64) -> Int64,
    /** `jd.ToDate(j)`: the `YYYY-MM-DD` text of a Julian Day Number. */
    ToDate: Int64 -> seq<Byte>,
    /** `jd.ToNumber(s)`: the Julian Day Number a date text names, or the library's error message. */
    ToNumber: seq<Byte> -> Result<Int64, seq<Byte>>,
    /** `jd.Number(t)`: the Julian Day Number of a timestamp's calendar date. */
    Number: Timestamp -> Int64
  )
}
