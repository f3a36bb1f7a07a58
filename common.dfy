/** Values shared by every table and handler of the ledger: optional values,
    the HTTP outcome a handler answers with, the raw shapes of request fields,
    and calendar dates. */
module Common {

  datatype Option<+T> = None | Some(value: T) {
    function GetOr(default: T): T {
      match this
      case Some(v) => v
      case None => default
    }
  }

  /** The status a handler answers with: 200, 400, 403, 404 or 500. */
  datatype Outcome = Ok | BadRequest | Forbidden | NotFound | ServerError

  /** Row keys are auto-increment ids, counting from 1; user ids are
      compared with them. */
  type Id = nat
  type UserId = int

  /** Money as the handlers see it after parseFloat, in currency units. */
  type Money = real

  /** JavaScript truthiness of a string field ("" is falsy). */
  predicate TextGiven(s: Option<string>) {
    s.Some? && s.value != ""
  }

  /** `s || null`: an empty string is stored as NULL. */
  function TextOrNull(s: Option<string>): (r: Option<string>)
    ensures r.Some? <==> TextGiven(s)
    ensures r.Some? ==> r == s
  {
    if TextGiven(s) then s else None
  }

  /** A calendar moment: the parts that YEAR(), MONTH() and comparisons read. */
  datatype Date = Date(year: int, month: int, day: int, second: int)

  /** The position of a date on the time line; `new Date(..).getTime()`
      compares by it. Lexicographic in (year, month, day, second) for dates
      whose parts are in range. */
  function Stamp(d: Date): int {
    ((d.year * 13 + d.month) * 32 + d.day) * 86400 + d.second
  }

  /** A date request field: absent, present but unparsable
      (`isNaN(new Date(x).getTime())`), or a date. */
  datatype DateInput = NoDate | BadDate | OnDate(date: Date)

  /** `x && isNaN(new Date(x).getTime())`: the guard every handler uses. */
  predicate Malformed(d: DateInput) {
    d.BadDate?
  }

  /** `x || null` for a date that passed the guard. */
  function DateOrNull(d: DateInput): (r: Option<Date>)
    ensures r.Some? <==> d.OnDate?
    ensures d.OnDate? ==> r == Some(d.date)
  {
    if d.OnDate? then Some(d.date) else None
  }

  /** The result of `parseInt(x, 10)`. */
  datatype Parsed = NaN | Int(value: int)

  /** `!x` for a parsed number: NaN and 0 are falsy. */
  predicate ParsedGiven(p: Parsed) {
    p.Int? && p.value != 0
  }

  /** `x < lo || x > hi`: every comparison with NaN is false. */
  predicate OutOfRange(p: Parsed, lo: int, hi: int) {
    p.Int? && (p.value < lo || p.value > hi)
  }
}
