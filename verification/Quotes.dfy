/** Currencies, pairs and quotes as the domain builds them, over ASCII text. */
module Quotes {
  import opened Wrappers
  import opened Decimals

  /** `rate` in units of 10^-8, `timestamp` in microseconds. */
  datatype Pair = Pair(base: string, quote: string)
  {
    /** Both the text form and the code of a pair: no separator. */
    function Code(): string {
      base + quote
    }
  }

  datatype Quote = Quote(pair: Pair, rate: int, timestamp: int)

  predicate IsLower(c: char) {
    'a' <= c <= 'z'
  }

  predicate IsUpper(c: char) {
    'A' <= c <= 'Z'
  }

  predicate IsAlnum(c: char) {
    IsLower(c) || IsUpper(c) || '0' <= c <= '9'
  }

  function UpperChar(c: char): char {
    if IsLower(c) then c - 'a' + 'A' else c
  }

  function Upper(s: string): string {
    seq(|s|, i requires 0 <= i < |s| => UpperChar(s[i]))
  }

  /** Some letter is upper case and none is lower case. */
  predicate IsUpperText(s: string) {
    (exists i | 0 <= i < |s| :: IsUpper(s[i])) && (forall i | 0 <= i < |s| :: !IsLower(s[i]))
  }

  /** Letters, digits and underscores, and not underscores alone. */
  predicate IsCodeText(s: string) {
    && (forall i | 0 <= i < |s| :: IsAlnum(s[i]) || s[i] == '_')
    && (exists i | 0 <= i < |s| :: IsAlnum(s[i]))
  }

  function CreateCurrency(code: string): Result<string, Error> {
    if code == "" then Err(ValueError)
    else if !IsCodeText(code) then Err(ValueError)
    else if |code| < 1 || |code| > 20 then Err(ValueError)
    else Ok(Upper(code))
  }

  function CreatePair(base: string, quote: string): Result<Pair, Error> {
    match CreateCurrency(base)
    case Err(e) => Err(e)
    case Ok(b) =>
      match CreateCurrency(quote)
      case Err(e) => Err(e)
      case Ok(q) => if b == q then Err(ValueError) else Ok(Pair(b, q))
  }

  /** Pairs that some constructor call can return. */
  predicate ValidPair(p: Pair) {
    CreatePair(p.base, p.quote) == Ok(p)
  }

  predicate ValidQuote(q: Quote) {
    ValidPair(q.pair) && 1 <= q.rate < LIMIT
  }

  /** One tick's quotes: a common timestamp and no two quotes under one code. */
  ghost predicate IsBatch(batch: seq<Quote>, timestamp: int) {
    && (forall i | 0 <= i < |batch| :: ValidQuote(batch[i]) && batch[i].timestamp == timestamp)
    && (forall i, j | 0 <= i < j < |batch| :: batch[i].pair.Code() != batch[j].pair.Code())
  }

  lemma UpperTwice(s: string)
    ensures Upper(Upper(s)) == Upper(s)
    ensures forall i | 0 <= i < |s| :: !IsLower(Upper(s)[i])
  {
  }

  /** A code constructs exactly if it has 1 to 20 characters, all of them letters, digits or
      underscores, and not underscores alone; the currency is its upper-case form. */
  lemma CreateCurrencyIff(code: string)
    ensures CreateCurrency(code).Ok? <==>
              && 1 <= |code| <= 20
              && (forall i | 0 <= i < |code| ::
                    'a' <= code[i] <= 'z' || 'A' <= code[i] <= 'Z' || '0' <= code[i] <= '9' || code[i] == '_')
              && (exists i :: 0 <= i < |code| && code[i] != '_')
    ensures CreateCurrency(code).Ok? ==>
              var currency := CreateCurrency(code).value;
              && |currency| == |code|
              && forall i | 0 <= i < |code| ::
                   currency[i] as int == if 'a' <= code[i] <= 'z' then code[i] as int - 32 else code[i] as int
  {
  }

  /** Two codes make a pair exactly if both construct and their upper-case forms differ. */
  lemma CreatePairIff(base: string, quote: string)
    ensures CreatePair(base, quote).Ok? <==>
              CreateCurrency(base).Ok? && CreateCurrency(quote).Ok? && CreateCurrency(base) != CreateCurrency(quote)
    ensures CreatePair(base, quote).Ok? ==>
              var p := CreatePair(base, quote).value;
              Ok(p.base) == CreateCurrency(base) && Ok(p.quote) == CreateCurrency(quote)
  {
  }

  lemma CreateCurrencyTwice(code: string)
    requires CreateCurrency(code).Ok?
    ensures CreateCurrency(CreateCurrency(code).value) == CreateCurrency(code)
  {
    UpperTwice(code);
    var i :| 0 <= i < |code| && IsAlnum(code[i]);
    assert IsAlnum(Upper(code)[i]);
  }

  /** The values the constructor returns are exactly the valid pairs. */
  lemma ConstructedPairsAreValid(base: string, quote: string)
    requires CreatePair(base, quote).Ok?
    ensures ValidPair(CreatePair(base, quote).value)
  {
    CreateCurrencyTwice(base);
    CreateCurrencyTwice(quote);
  }

  lemma ValidPairsHaveNoLower(p: Pair)
    requires ValidPair(p)
    ensures p.Code() != ""
    ensures forall i | 0 <= i < |p.Code()| :: !IsLower(p.Code()[i])
  {
    UpperTwice(p.base);
    UpperTwice(p.quote);
  }

  /** Codes do not determine pairs. */
  lemma CodesCollide()
    ensures exists p, p' :: ValidPair(p) && ValidPair(p') && p != p' && p.Code() == p'.Code()
  {
    var p, p' := Pair("AB", "CD"), Pair("ABC", "D");
    assert IsAlnum("AB"[0]) && IsAlnum("CD"[0]) && IsAlnum("ABC"[0]) && IsAlnum("D"[0]);
    assert Upper("AB") == "AB" && Upper("CD") == "CD" && Upper("ABC") == "ABC" && Upper("D") == "D";
    assert ValidPair(p) && ValidPair(p');
    assert p.Code() == p'.Code();
  }
}
