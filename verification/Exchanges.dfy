// Exchange names, printed without a space and parsed back. A text is the
// sequence of its UTF-8 bytes, one character for each byte.

module Exchanges {
  import opened Wrappers
  import opened Sorting

  datatype Venue = Bybit | Binance | Hyperliquid | Okex | Mexc
  datatype MarketKind = Spot | LinearPerps | InversePerps

  datatype Exchange =
    | BinanceLinear | BinanceInverse | BinanceSpot
    | BybitLinear | BybitInverse | BybitSpot
    | HyperliquidLinear | HyperliquidSpot
    | OkexLinear | OkexInverse | OkexSpot
    | MexcLinear | MexcInverse | MexcSpot

  const ALL: seq<Exchange> := [
    BinanceLinear, BinanceInverse, BinanceSpot, BybitLinear, BybitInverse, BybitSpot,
    HyperliquidLinear, HyperliquidSpot, OkexLinear, OkexInverse, OkexSpot, MexcLinear, MexcInverse, MexcSpot]

  function VenueOf(e: Exchange): Venue {
    match e
    case BybitLinear | BybitInverse | BybitSpot => Bybit
    case BinanceLinear | BinanceInverse | BinanceSpot => Binance
    case HyperliquidLinear | HyperliquidSpot => Hyperliquid
    case OkexLinear | OkexInverse | OkexSpot => Okex
    case MexcLinear | MexcInverse | MexcSpot => Mexc
  }

  function MarketOf(e: Exchange): MarketKind {
    match e
    case BinanceLinear | BybitLinear | HyperliquidLinear | OkexLinear | MexcLinear => LinearPerps
    case BinanceInverse | BybitInverse | OkexInverse | MexcInverse => InversePerps
    case BinanceSpot | BybitSpot | HyperliquidSpot | OkexSpot | MexcSpot => Spot
  }

  function VenueName(v: Venue): string {
    match v
    case Bybit => "Bybit"
    case Binance => "Binance"
    case Hyperliquid => "Hyperliquid"
    case Okex => "OKX"
    case Mexc => "MEXC"
  }

  function MarketName(m: MarketKind): string {
    match m
    case Spot => "Spot"
    case LinearPerps => "Linear"
    case InversePerps => "Inverse"
  }

  /** The printed form: venue and market with the space taken out. */
  function ExchangeToString(e: Exchange): string { VenueName(VenueOf(e)) + MarketName(MarketOf(e)) }

  // ------------------------------------------------------------ parsing

  function LowerAscii(c: char): char {
    if 'A' <= c <= 'Z' then (c as int + 32) as char else c
  }

  predicate EqIgnoreCase(a: string, b: string) {
    |a| == |b| && forall i :: 0 <= i < |a| ==> LowerAscii(a[i]) == LowerAscii(b[i])
  }

  function VenueFromStr(s: string): Option<Venue> {
    if EqIgnoreCase(s, "bybit") then Some(Bybit)
    else if EqIgnoreCase(s, "binance") then Some(Binance)
    else if EqIgnoreCase(s, "hyperliquid") then Some(Hyperliquid)
    else if EqIgnoreCase(s, "okx") || EqIgnoreCase(s, "okex") then Some(Okex)
    else if EqIgnoreCase(s, "mexc") then Some(Mexc)
    else None
  }

  function MarketFromStr(s: string): Option<MarketKind> {
    if EqIgnoreCase(s, "spot") then Some(Spot)
    else if EqIgnoreCase(s, "linear") then Some(LinearPerps)
    else if EqIgnoreCase(s, "inverse") then Some(InversePerps)
    else None
  }

  function Find(es: seq<Exchange>, v: Venue, m: MarketKind): Option<Exchange> {
    if es == [] then None
    else if VenueOf(es[0]) == v && MarketOf(es[0]) == m then Some(es[0])
    else Find(es[1..], v, m)
  }

  /** How many bytes of white space the text starts with: one character of it, in UTF-8, or none. */
  function SpaceLength(s: string): (n: nat)
    ensures n <= |s|
  {
    if s == "" then 0
    else
      var a := s[0] as int;
      var b, c := if |s| > 1 then s[1] as int else 0, if |s| > 2 then s[2] as int else 0;
      if 9 <= a <= 13 || a == 32 then 1
      else if a == 0xC2 && (b == 0x85 || b == 0xA0) then 2
      else if (a == 0xE1 && b == 0x9A && c == 0x80)
           || (a == 0xE2 && b == 0x80 && (0x80 <= c <= 0x8A || c == 0xA8 || c == 0xA9 || c == 0xAF))
           || (a == 0xE2 && b == 0x81 && c == 0x9F) || (a == 0xE3 && b == 0x80 && c == 0x80) then 3
      else 0
  }

  /** `split_whitespace`, with the word read so far. */
  function Words(word: string, s: string): seq<string>
    decreases |s|
  {
    if s == "" then (if word == "" then [] else [word])
    else if SpaceLength(s) > 0 then (if word == "" then [] else [word]) + Words("", s[SpaceLength(s)..])
    else Words(word + [s[0]], s[1..])
  }

  /** `parse::<Exchange>()`: exactly two words, a venue and a market that go together. */
  function ParseExchange(s: string): Option<Exchange> {
    var ws := Words("", s);
    if |ws| != 2 then None
    else
      var v, m := VenueFromStr(ws[0]), MarketFromStr(ws[1]);
      if v.None? || m.None? then None else Find(ALL, v.value, m.value)
  }

  predicate EndsWith(s: string, suffix: string) {
    |suffix| <= |s| && s[|s| - |suffix|..] == suffix
  }

  function Spaced(s: string, suffix: string): string
    requires EndsWith(s, suffix)
  {
    s[..|s| - |suffix|] + " " + suffix
  }

  /**
   * Older files have the name without its space, so a known ending is set apart when the
   * text as it is does not parse.
   */
  function StringToExchange(s: string): Option<Exchange> {
    if ParseExchange(s).Some? then ParseExchange(s)
    else ParseExchange(
      if EndsWith(s, "Linear") then Spaced(s, "Linear")
      else if EndsWith(s, "Inverse") then Spaced(s, "Inverse")
      else if EndsWith(s, "Spot") then Spaced(s, "Spot")
      else s)
  }

  // --------------------------------------------------------- round trip

  /** Printable ASCII without the separator. */
  predicate Plain(s: string) {
    forall i :: 0 <= i < |s| ==> 33 <= s[i] as int < 128 && s[i] != ':'
  }

  lemma {:induction false} PlainWord(word: string, s: string, rest: string)
    requires Plain(s)
    ensures Words(word, s + rest) == Words(word + s, rest)
    decreases |s|
  {
    if s == "" {
      assert s + rest == rest && word + s == word;
    } else {
      assert (s + rest)[0] == s[0] && (s + rest)[1..] == s[1..] + rest;
      PlainWord(word + [s[0]], s[1..], rest);
      assert word + [s[0]] + s[1..] == word + s;
    }
  }

  lemma OneWord(word: string, s: string)
    requires Plain(s) && s != ""
    ensures Words(word, s) == [word + s]
  {
    PlainWord(word, s, "");
    assert s + "" == s;
  }

  lemma TwoWords(a: string, b: string)
    requires Plain(a) && Plain(b) && a != "" && b != ""
    ensures Words("", a + " " + b) == [a, b]
  {
    var rest := " " + b;
    PlainWord("", a, rest);
    assert a + " " + b == a + rest && "" + a == a;
    assert SpaceLength(rest) == 1 && rest[1..] == b;
    OneWord("", b);
    assert "" + b == b;
  }

  lemma VenueParses(v: Venue)
    ensures VenueFromStr(VenueName(v)) == Some(v)
    ensures Plain(VenueName(v))
  {
    if v == Mexc { assert LowerAscii(VenueName(v)[0]) != LowerAscii("okex"[0]); }
  }

  lemma MarketParses(m: MarketKind)
    ensures MarketFromStr(MarketName(m)) == Some(m)
    ensures Plain(MarketName(m))
  {
  }

  /** The word names the venue, in capitals or not. */
  ghost predicate CallsVenue(word: string, v: Venue) {
    EqIgnoreCase(word, VenueName(v)) || (v == Okex && EqIgnoreCase(word, "okex"))
  }

  ghost predicate CallsMarket(word: string, m: MarketKind) { EqIgnoreCase(word, MarketName(m)) }

  /** Whether a word equals another one but for capitals does not depend on the capitals of either. */
  lemma SameLetters(a: string, b: string, c: string)
    requires EqIgnoreCase(b, c)
    ensures EqIgnoreCase(a, b) <==> EqIgnoreCase(a, c)
  {
  }

  lemma VenueCalled(word: string, v: Venue)
    ensures VenueFromStr(word) == Some(v) <==> CallsVenue(word, v)
  {
    SameLetters(word, "Bybit", "bybit");
    SameLetters(word, "Binance", "binance");
    SameLetters(word, "Hyperliquid", "hyperliquid");
    SameLetters(word, "OKX", "okx");
    SameLetters(word, "MEXC", "mexc");
    if EqIgnoreCase(word, "okex") { assert LowerAscii(word[0]) == 'o' != LowerAscii("mexc"[0]); }
  }

  lemma MarketCalled(word: string, m: MarketKind)
    ensures MarketFromStr(word) == Some(m) <==> CallsMarket(word, m)
  {
    SameLetters(word, "Spot", "spot");
    SameLetters(word, "Linear", "linear");
    SameLetters(word, "Inverse", "inverse");
  }

  /** A text is an exchange's name exactly when it has two words, the one calling the venue, the other the market. */
  lemma ParseIsExact(s: string, e: Exchange)
    ensures ParseExchange(s) == Some(e) <==>
      var ws := Words("", s);
      |ws| == 2 && CallsVenue(ws[0], VenueOf(e)) && CallsMarket(ws[1], MarketOf(e))
  {
    var ws := Words("", s);
    if |ws| == 2 {
      VenueCalled(ws[0], VenueOf(e));
      MarketCalled(ws[1], MarketOf(e));
      ExchangeFound(e);
      FoundIsRight(ALL, VenueFromStr(ws[0]), MarketFromStr(ws[1]));
    }
  }

  lemma {:induction false} FoundIsRight(es: seq<Exchange>, v: Option<Venue>, m: Option<MarketKind>)
    ensures v.Some? && m.Some? && Find(es, v.value, m.value).Some? ==>
      var e := Find(es, v.value, m.value).value;
      VenueOf(e) == v.value && MarketOf(e) == m.value
  {
    if es != [] { FoundIsRight(es[1..], v, m); }
  }

  /** With one space between its two words, in capitals or not, every exchange's name is read. */
  lemma SpacedNameParses(a: string, b: string, e: Exchange)
    requires Plain(a) && Plain(b) && CallsVenue(a, VenueOf(e)) && CallsMarket(b, MarketOf(e))
    ensures StringToExchange(a + " " + b) == Some(e)
  {
    TwoWords(a, b);
    ParseIsExact(a + " " + b, e);
  }

  function Place(e: Exchange): nat {
    match e
    case BinanceLinear => 0 case BinanceInverse => 1 case BinanceSpot => 2
    case BybitLinear => 3 case BybitInverse => 4 case BybitSpot => 5
    case HyperliquidLinear => 6 case HyperliquidSpot => 7
    case OkexLinear => 8 case OkexInverse => 9 case OkexSpot => 10
    case MexcLinear => 11 case MexcInverse => 12 case MexcSpot => 13
  }

  lemma ExchangeFound(e: Exchange)
    ensures Find(ALL, VenueOf(e), MarketOf(e)) == Some(e)
  {
    assert ALL[Place(e)] == e;
    FoundFrom(e, ALL, Place(e));
  }

  lemma {:induction false} FoundFrom(e: Exchange, es: seq<Exchange>, i: nat)
    requires i < |es| && es[i] == e
    ensures Find(es, VenueOf(e), MarketOf(e)) == Some(e)
  {
    if es[0] != e { FoundFrom(e, es[1..], i - 1); }
  }

  lemma MarketEnding(v: Venue, m: MarketKind)
    ensures var s := VenueName(v) + MarketName(m);
      && EndsWith(s, MarketName(m)) && Spaced(s, MarketName(m)) == VenueName(v) + " " + MarketName(m)
      && (m != LinearPerps ==> !EndsWith(s, "Linear"))
      && (m == Spot ==> !EndsWith(s, "Inverse"))
  {
    var s := VenueName(v) + MarketName(m);
    assert s[|VenueName(v)|..] == MarketName(m);
    assert s[..|VenueName(v)|] == VenueName(v);
    assert Last(s) == Last(MarketName(m));
    if EndsWith(s, "Linear") { assert Last(s) == Last("Linear"); }
    if EndsWith(s, "Inverse") { assert Last(s) == Last("Inverse"); }
  }

  lemma JoinedIsOneWord(e: Exchange)
    ensures ParseExchange(ExchangeToString(e)).None?
    ensures Plain(ExchangeToString(e))
  {
    VenueParses(VenueOf(e));
    MarketParses(MarketOf(e));
    OneWord("", ExchangeToString(e));
  }

  lemma SpacedParses(e: Exchange)
    ensures ParseExchange(VenueName(VenueOf(e)) + " " + MarketName(MarketOf(e))) == Some(e)
  {
    VenueParses(VenueOf(e));
    MarketParses(MarketOf(e));
    TwoWords(VenueName(VenueOf(e)), MarketName(MarketOf(e)));
    ExchangeFound(e);
  }

  /** Every exchange is read back from the name it is printed with, and from the name with the space left in. */
  lemma ExchangeRoundTrip(e: Exchange)
    ensures StringToExchange(ExchangeToString(e)) == Some(e)
    ensures StringToExchange(VenueName(VenueOf(e)) + " " + MarketName(MarketOf(e))) == Some(e)
  {
    JoinedIsOneWord(e);
    SpacedParses(e);
    MarketEnding(VenueOf(e), MarketOf(e));
  }
}
