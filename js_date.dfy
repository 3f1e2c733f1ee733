/** JavaScript `Date` objects where the handlers build them from a request
    body (`new Date(value)`) and the tables write them to a TEXT column
    (`toISOString()`). */
module JsDate {

  import opened Wrappers

  /** A Date object: a time, given by the text `toISOString` renders for
      it, or an Invalid Date. */
  datatype Date = Time(iso: string) | InvalidDate

  /** How the engine reads a date text for `new Date(text)`: the ISO text of
      the time it denotes, or `None` when the text is not a date. Which texts
      are dates is the engine's business, so the reading is a parameter of
      the model; the empty text is never one. */
  type DateParser = f: string -> Option<string> | f("") == None
    witness (s: string) => None

  /** `new Date(null)` is time 0. */
  const Epoch := "1970-01-01T00:00:00.000Z"

  /** The message of the RangeError `toISOString` throws on an Invalid Date. */
  const InvalidTimeValue := "Invalid time value"

  datatype RangeError = RangeError(message: string)

  /** `new Date(text)`: a time exactly when the engine reads the text as
      one; the empty text is an Invalid Date. */
  function Parse(parse: DateParser, text: string): (d: Date)
    ensures d.Time? <==> parse(text).Some?
    ensures d.Time? ==> d.iso == parse(text).value
    ensures text == "" ==> d == InvalidDate
  {
    match parse(text)
    case Some(iso) => Time(iso)
    case None => InvalidDate
  }

  /** `new Date(value)` of a body value that is a text or null (`None`):
      null is time 0, a text is read by the engine. */
  function FromJson(parse: DateParser, value: Option<string>): (d: Date)
    ensures value.None? ==> d == Time(Epoch)
    ensures value.Some? ==> d == Parse(parse, value.value)
  {
    match value
    case None => Time(Epoch)
    case Some(text) => Parse(parse, text)
  }

  /** `toISOString()`: the time's text, or a RangeError on an Invalid Date;
      a time renders as the text it was read as. */
  function ToISOString(d: Date): (r: Result<string, RangeError>)
    ensures r.Success? <==> d.Time?
    ensures r.Success? ==> Time(r.value) == d
    ensures r.Failure? ==> r.error == RangeError(InvalidTimeValue)
  {
    match d
    case Time(iso) => Success(iso)
    case InvalidDate => Failure(RangeError(InvalidTimeValue))
  }

  /** A Date that may be missing can be written: it is missing or a time. */
  predicate Writable(d: Option<Date>) {
    d.Some? ==> d.value.Time?
  }

  /** `d ? d.toISOString() : null` for a nullable column. A Date object is
      truthy even when it is invalid, so only a missing one is NULL, and an
      Invalid Date throws. */
  function ToColumn(d: Option<Date>): (r: Result<Option<string>, RangeError>)
    ensures r.Success? <==> Writable(d)
    ensures r.Success? ==> (r.value.None? <==> d.None?)
    ensures r.Success? && d.Some? ==> Time(r.value.value) == d.value
    ensures r.Failure? ==> r.error == RangeError(InvalidTimeValue)
  {
    match d
    case None => Success(None)
    case Some(date) =>
      match ToISOString(date)
      case Success(iso) => Success(Some(iso))
      case Failure(e) => Failure(e)
  }

  /** The Date a column value stands for; writing it gives the value back. */
  function FromColumn(v: Option<string>): (d: Option<Date>)
    ensures Writable(d)
    ensures ToColumn(d) == Success(v)
  {
    match v
    case None => None
    case Some(iso) => Some(Time(iso))
  }
}
