/** Rows of the CSV files as `csv.DictReader` yields them: header name to cell. */
module Csv {

  type Row = map<string, string>

  /** `row.get(key, default)`: a missing key reads as `default`. */
  function Get(row: Row, key: string, default: string): (v: string)
    ensures key in row ==> v == row[key]
    ensures key !in row ==> v == default
  {
    if key in row then row[key] else default
  }
}
