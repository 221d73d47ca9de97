/** Reading quotes back: the composite repository and the conversion query on top of it. */
module Queries {
  import opened Wrappers
  import opened Decimals
  import opened Precision
  import opened Quotes
  import opened Codecs
  import opened QuoteLog
  import opened QuoteCache

  /** The table's answer: up to `bound` for a historical read, unbounded for the latest. */
  function PostgresGet(rows: seq<Row>, pair: Pair, bound: Option<int>): Result<Option<Quote>, Error> {
    match Newest(rows, pair.Code(), bound)
    case None => Ok(None)
    case Some(row) =>
      match DecodeRow(row)
      case Err(e) => Err(e)
      case Ok(q) => Ok(Some(q))
  }

  /** The cache if it has an answer, the table otherwise. */
  function GetLatest(rows: seq<Row>, entries: Entries, pair: Pair, now: int): Result<Option<Quote>, Error> {
    match GetCached(entries, pair, now)
    case Some(q) => Ok(Some(q))
    case None => PostgresGet(rows, pair, None)
  }

  /** The cache is never asked about the past. */
  function GetLatestBefore(rows: seq<Row>, pair: Pair, timestamp: int): Result<Option<Quote>, Error> {
    PostgresGet(rows, pair, Some(timestamp))
  }

  // ---------------------------------------------------------------- conversion queries

  datatype QueryError = NotFound | TooOld | NegativeAge | Storage(error: Error)

  datatype Conversion = Conversion(amount: nat, original: nat, rate: int, timestamp: int)

  /** An age cannot be negative: building one raises. */
  function AgeBetween(quoteTime: int, reference: int): Result<nat, QueryError> {
    if reference < quoteTime then Err(NegativeAge) else Ok(reference - quoteTime)
  }

  function ValidateFreshness(q: Quote, reference: int, maxAge: nat): Option<QueryError> {
    match AgeBetween(q.timestamp, reference)
    case Err(e) => Some(e)
    case Ok(age) => if age <= maxAge then None else Some(TooOld)
  }

  function Convert(amount: nat, q: Quote, reference: int, maxAge: nat): Result<Conversion, QueryError> {
    match ValidateFreshness(q, reference, maxAge)
    case Some(e) => Err(e)
    case None =>
      if q.rate < 0 then Err(Storage(ValueError))
      else Ok(Conversion(Product(amount, q.rate), amount, q.rate, q.timestamp))
  }

  function HandleFound(amount: nat, found: Result<Option<Quote>, Error>, reference: int, maxAge: nat):
      Result<Conversion, QueryError>
  {
    match found
    case Err(e) => Err(Storage(e))
    case Ok(None) => Err(NotFound)
    case Ok(Some(q)) => Convert(amount, q, reference, maxAge)
  }

  /** The clock is read twice: by the cache at the lookup and for the age of the quote. */
  function HandleLatest(
      rows: seq<Row>, entries: Entries, amount: nat, pair: Pair, now: int, checkedAt: int, maxAge: nat):
      Result<Conversion, QueryError>
  {
    HandleFound(amount, GetLatest(rows, entries, pair, now), checkedAt, maxAge)
  }

  function HandleAt(rows: seq<Row>, amount: nat, pair: Pair, timestamp: int, maxAge: nat):
      Result<Conversion, QueryError>
  {
    HandleFound(amount, GetLatestBefore(rows, pair, timestamp), timestamp, maxAge)
  }
}
