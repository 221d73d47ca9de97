/** The cache: for each symbol the last ticker written, until its time to live is over. */
module QuoteCache {
  import opened Wrappers
  import opened Quotes
  import opened Codecs

  datatype Entry = Entry(ticker: Ticker, expiresAt: int)

  type Entries = map<string, Entry>

  predicate Live(entries: Entries, symbol: string, now: int) {
    symbol in entries && now < entries[symbol].expiresAt
  }

  /** SETEX key ttl payload */
  datatype Command = Command(key: string, entry: Entry)

  function PutCommand(q: Quote, now: int, ttl: nat): Command
    requires EncodeTicker(q).Ok?
  {
    Command(q.pair.Code(), Entry(EncodeTicker(q).value, now + ttl))
  }

  function Apply(entries: Entries, c: Command): Entries {
    entries[c.key := c.entry]
  }

  /** The server executes the commands of a pipeline that reach it, in order. */
  function Execute(entries: Entries, pipeline: seq<Command>, delivered: seq<bool>): Entries
    requires |delivered| == |pipeline|
  {
    if pipeline == [] then entries
    else
      var n := |pipeline| - 1;
      var before := Execute(entries, pipeline[..n], delivered[..n]);
      if delivered[n] then Apply(before, pipeline[n]) else before
  }

  predicate AllEncode(batch: seq<Quote>) {
    forall i | 0 <= i < |batch| :: EncodeTicker(batch[i]).Ok?
  }

  function PutCommands(batch: seq<Quote>, now: int, ttl: nat): seq<Command>
    requires AllEncode(batch)
  {
    seq(|batch|, i requires 0 <= i < |batch| => PutCommand(batch[i], now, ttl))
  }

  function PutDelivered(entries: Entries, batch: seq<Quote>, delivered: seq<bool>, now: int, ttl: nat): Entries
    requires |delivered| == |batch| && AllEncode(batch)
  {
    Execute(entries, PutCommands(batch, now, ttl), delivered)
  }

  /** A read: anything but a live, decodable entry is a miss. */
  function GetCached(entries: Entries, pair: Pair, now: int): Option<Quote> {
    if Live(entries, pair.Code(), now) then
      match DecodeTicker(entries[pair.Code()].ticker, pair)
      case Ok(q) => Some(q)
      case Err(_) => None
    else None
  }

  /** After a pipeline a key holds the entry of the last of its commands that was delivered ... */
  lemma {:induction false} LastDeliveredWins(
      entries: Entries, pipeline: seq<Command>, delivered: seq<bool>, i: nat)
    requires |delivered| == |pipeline| && i < |pipeline| && delivered[i]
    requires forall j | i < j < |pipeline| :: !(delivered[j] && pipeline[j].key == pipeline[i].key)
    ensures
      var after, key := Execute(entries, pipeline, delivered), pipeline[i].key;
      key in after && after[key] == pipeline[i].entry
  {
    var n := |pipeline| - 1;
    if i < n {
      LastDeliveredWins(entries, pipeline[..n], delivered[..n], i);
    }
  }

  /** ... and what it held before if none was. */
  lemma {:induction false} OtherKeysStay(entries: Entries, pipeline: seq<Command>, delivered: seq<bool>, key: string)
    requires |delivered| == |pipeline|
    requires forall i | 0 <= i < |pipeline| :: !(delivered[i] && pipeline[i].key == key)
    ensures
      var after := Execute(entries, pipeline, delivered);
      (key in after <==> key in entries) && (key in after ==> after[key] == entries[key])
  {
    if pipeline != [] {
      var n := |pipeline| - 1;
      OtherKeysStay(entries, pipeline[..n], delivered[..n], key);
    }
  }
}
