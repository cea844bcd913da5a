// Tickers: a fixed buffer for the symbol and one for the display symbol, the
// text they are saved as, and the packed form older files have. A text is the
// sequence of its UTF-8 bytes, one character for each byte.

module Tickers {
  import opened Wrappers
  import opened UnixTime
  import opened Exchanges

  const MAX_LEN: nat := 28
  const NUL: char := 0 as char

  datatype Outcome<+T> = Done(value: T) | Rejected(why: Reason) | Panicked
  datatype Reason = NoColon | UnknownExchange | NotTwoParts | TooLong | BadCode(code: nat)

  datatype Ticker = Ticker(bytes: string, exchange: Exchange, displayBytes: string, hasDisplay: bool)

  predicate Ascii(s: string) { forall i :: 0 <= i < |s| ==> (s[i] as int) < 128 }

  function Padded(s: string): (r: string)
    requires |s| <= MAX_LEN
    ensures |r| == MAX_LEN && r[..|s|] == s && forall i :: |s| <= i < MAX_LEN ==> r[i] == NUL
  {
    s + seq(MAX_LEN - |s|, i => NUL)
  }

  /** The constructor panics on what does not fit or would be ambiguous. */
  function NewWithDisplay(symbol: string, exchange: Exchange, display: Option<string>): Outcome<Ticker> {
    if |symbol| > MAX_LEN || '|' in symbol then Panicked
    else
      match display
      case None => Done(Ticker(Padded(symbol), exchange, Padded(""), false))
      case Some(d) =>
        if |d| > MAX_LEN || !Ascii(d) || '|' in d then Panicked
        else Done(Ticker(Padded(symbol), exchange, Padded(d), true))
  }

  /** What the constructor can produce. */
  ghost predicate Built(t: Ticker) {
    exists symbol: string, display: Option<string> :: NewWithDisplay(symbol, t.exchange, display) == Done(t)
  }

  /** The bytes up to the first zero. */
  function AsStr(buffer: string): (r: string)
    ensures |r| <= |buffer| && r == buffer[..|r|] && NUL !in r
    ensures |r| < |buffer| ==> buffer[|r|] == NUL
  {
    if buffer == "" || buffer[0] == NUL then "" else [buffer[0]] + AsStr(buffer[1..])
  }

  function Print(t: Ticker): string {
    var plain := ExchangeToString(t.exchange) + ":" + AsStr(t.bytes);
    if t.hasDisplay then plain + "|" + AsStr(t.displayBytes) else plain
  }

  /** `split_once`. */
  function SplitOnce(s: string, c: char): Option<(string, string)> {
    if s == "" then None
    else if s[0] == c then Some(("", s[1..]))
    else
      match SplitOnce(s[1..], c)
      case None => None
      case Some((a, b)) => Some(([s[0]] + a, b))
  }

  function Parse(s: string): Outcome<Ticker> {
    match SplitOnce(s, ':')
    case None => Rejected(NoColon)
    case Some((name, rest)) =>
      match StringToExchange(name)
      case None => Rejected(UnknownExchange)
      case Some(exchange) =>
        match SplitOnce(rest, '|')
        case Some((symbol, display)) => NewWithDisplay(symbol, exchange, Some(display))
        case None => NewWithDisplay(rest, exchange, None)
  }

  // --------------------------------------------------------- round trip

  lemma {:induction false} SplitAt(a: string, c: char, b: string)
    requires c !in a
    ensures SplitOnce(a + [c] + b, c) == Some((a, b))
  {
    var s := a + [c] + b;
    if a == "" {
      assert s[1..] == b;
    } else {
      assert s[1..] == a[1..] + [c] + b;
      SplitAt(a[1..], c, b);
      assert a == [a[0]] + a[1..];
    }
  }

  /** After the first zero there are only zeros. */
  ghost predicate Unbroken(buffer: string) {
    forall i, j :: 0 <= i < j < |buffer| && buffer[i] == NUL ==> buffer[j] == NUL
  }

  lemma PaddedAgain(buffer: string)
    requires |buffer| == MAX_LEN
    ensures Padded(AsStr(buffer)) == buffer <==> Unbroken(buffer)
  {
    var s := AsStr(buffer);
    var p := Padded(s);
    assert forall i :: 0 <= i < |s| ==> p[i] == p[..|s|][i] == buffer[i];
    if Unbroken(buffer) {
      assert forall i :: 0 <= i < MAX_LEN ==> p[i] == buffer[i];
    }
    if p == buffer {
      assert forall i :: 0 <= i < |s| ==> buffer[i] != NUL;
    }
  }

  lemma BuiltBuffers(t: Ticker)
    requires Built(t)
    ensures |t.bytes| == MAX_LEN && '|' !in t.bytes
    ensures |t.displayBytes| == MAX_LEN && '|' !in t.displayBytes && Ascii(t.displayBytes)
    ensures !t.hasDisplay ==> t.displayBytes == Padded("")
  {
  }

  lemma PartsParse(exchange: Exchange, symbol: string, display: Option<string>)
    requires '|' !in symbol
    ensures Parse(ExchangeToString(exchange) + ":" + (if display.Some? then symbol + "|" + display.value else symbol))
         == NewWithDisplay(symbol, exchange, display)
  {
    var name := ExchangeToString(exchange);
    JoinedIsOneWord(exchange);
    ExchangeRoundTrip(exchange);
    SplitAt(name, ':', if display.Some? then symbol + "|" + display.value else symbol);
    if display.Some? { SplitAt(symbol, '|', display.value); } else { NoneToSplit(symbol, '|'); }
  }

  lemma PrintParts(t: Ticker)
    ensures Print(t) == ExchangeToString(t.exchange) + ":" +
      (if t.hasDisplay then AsStr(t.bytes) + "|" + AsStr(t.displayBytes) else AsStr(t.bytes))
  {
    if t.hasDisplay {
      assert ExchangeToString(t.exchange) + ":" + AsStr(t.bytes) + "|" + AsStr(t.displayBytes)
          == ExchangeToString(t.exchange) + ":" + (AsStr(t.bytes) + "|" + AsStr(t.displayBytes));
    }
  }

  lemma {:induction false} NoneToSplit(s: string, c: char)
    requires c !in s
    ensures SplitOnce(s, c) == None
  {
    if s != "" { NoneToSplit(s[1..], c); }
  }

  lemma Rebuilt(t: Ticker)
    requires Built(t)
    ensures NewWithDisplay(AsStr(t.bytes), t.exchange, if t.hasDisplay then Some(AsStr(t.displayBytes)) else None)
         == Done(Ticker(Padded(AsStr(t.bytes)), t.exchange,
                        if t.hasDisplay then Padded(AsStr(t.displayBytes)) else Padded(""), t.hasDisplay))
  {
    BuiltBuffers(t);
    assert '|' !in AsStr(t.bytes);
    assert '|' !in AsStr(t.displayBytes) && Ascii(AsStr(t.displayBytes));
  }

  /** A saved ticker is read back as it was exactly when no symbol of it has a zero byte inside. */
  lemma TickerRoundTrip(t: Ticker)
    requires Built(t)
    ensures Parse(Print(t)) == Done(t) <==> Unbroken(t.bytes) && Unbroken(t.displayBytes)
  {
    BuiltBuffers(t);
    PrintParts(t);
    PaddedAgain(t.bytes);
    PaddedAgain(t.displayBytes);
    PaddedIsUnbroken("");
    Rebuilt(t);
    PartsParse(t.exchange, AsStr(t.bytes), if t.hasDisplay then Some(AsStr(t.displayBytes)) else None);
  }

  lemma {:induction false} SomethingToSplit(s: string, c: char)
    ensures SplitOnce(s, c).None? <==> c !in s
  {
    if s != "" { SomethingToSplit(s[1..], c); }
  }

  lemma ColonWanted(s: string)
    ensures Parse(s) == Rejected(NoColon) <==> ':' !in s
  {
    SomethingToSplit(s, ':');
  }

  /** The buffer begins with the text and is filled up with zeros. */
  ghost predicate Holds(buffer: string, text: string) {
    |buffer| == 28 && text <= buffer && forall i :: |text| <= i < 28 ==> buffer[i] == 0 as char
  }

  /** What at most 28 bytes can hold without becoming ambiguous. */
  ghost predicate Fits(symbol: string, display: Option<string>) {
    && |symbol| <= 28 && '|' !in symbol
    && (display.Some? ==> |display.value| <= 28 && Ascii(display.value) && '|' !in display.value)
  }

  /**
   * Every text with a colon, in its parts: the name up to the first colon, the symbol up to the first bar,
   * and the display symbol. An unknown name is rejected, and parts that do not fit panic.
   */
  lemma ParseParts(name: string, symbol: string, display: Option<string>)
    requires ':' !in name && '|' !in symbol
    ensures
      var text := name + [':'] + (if display.Some? then symbol + ['|'] + display.value else symbol);
      match StringToExchange(name)
      case None => Parse(text) == Rejected(UnknownExchange)
      case Some(e) =>
        && (Parse(text) == Panicked <==> !Fits(symbol, display))
        && (Fits(symbol, display) ==>
             && Parse(text).Done? && Parse(text).value.exchange == e
             && Holds(Parse(text).value.bytes, symbol)
             && Parse(text).value.hasDisplay == display.Some?
             && Holds(Parse(text).value.displayBytes, if display.Some? then display.value else ""))
  {
    SplitAt(name, ':', if display.Some? then symbol + ['|'] + display.value else symbol);
    if display.Some? { SplitAt(symbol, '|', display.value); } else { NoneToSplit(symbol, '|'); }
  }

  /**
   * So for every exchange and every symbol of at most 28 bytes without separator or zero,
   * with or without display symbol.
   */
  lemma SymbolRoundTrip(symbol: string, exchange: Exchange, display: Option<string>)
    requires |symbol| <= MAX_LEN && '|' !in symbol && NUL !in symbol
    requires display.Some? ==>
      |display.value| <= MAX_LEN && Ascii(display.value) && '|' !in display.value && NUL !in display.value
    ensures NewWithDisplay(symbol, exchange, display).Done?
    ensures var t := NewWithDisplay(symbol, exchange, display).value;
      && Parse(Print(t)) == Done(t) && AsStr(t.bytes) == symbol
      && (display.Some? ==> AsStr(t.displayBytes) == display.value)
  {
    var t := NewWithDisplay(symbol, exchange, display).value;
    PaddedIsUnbroken(symbol);
    PaddedIsUnbroken("");
    if display.Some? { PaddedIsUnbroken(display.value); }
    TickerRoundTrip(t);
  }

  lemma {:induction false} AsStrStops(s: string, zeros: string)
    requires NUL !in s && (zeros == "" || zeros[0] == NUL)
    ensures AsStr(s + zeros) == s
  {
    if s == "" {
      assert s + zeros == zeros;
    } else {
      assert (s + zeros)[1..] == s[1..] + zeros;
      AsStrStops(s[1..], zeros);
      assert s == [s[0]] + s[1..];
    }
  }

  lemma PaddedIsUnbroken(s: string)
    requires |s| <= MAX_LEN && NUL !in s
    ensures Unbroken(Padded(s)) && AsStr(Padded(s)) == s
  {
    var p := Padded(s);
    AsStrStops(s, p[|s|..]);
    assert p == s + p[|s|..];
    PaddedAgain(p);
  }

  // ----------------------------------------- the two-part form, `SerTicker`

  function PrintPair(t: Ticker): string { ExchangeToString(t.exchange) + ":" + AsStr(t.bytes) }

  /** Splits at every colon and wants exactly two parts. */
  function ParsePair(s: string): Outcome<Ticker> {
    match SplitOnce(s, ':')
    case None => Rejected(NotTwoParts)
    case Some((name, symbol)) =>
      if ':' in symbol then Rejected(NotTwoParts)
      else
        match StringToExchange(name)
        case None => Rejected(UnknownExchange)
        case Some(exchange) => NewWithDisplay(symbol, exchange, None)
  }

  /** This form drops the display symbol, and does not come back at all when the symbol has a colon. */
  lemma PairRoundTrip(t: Ticker)
    requires Built(t)
    ensures ParsePair(PrintPair(t)) == Done(t) <==> ':' !in AsStr(t.bytes) && !t.hasDisplay && Unbroken(t.bytes)
  {
    BuiltBuffers(t);
    PaddedAgain(t.bytes);
    JoinedIsOneWord(t.exchange);
    ExchangeRoundTrip(t.exchange);
    SplitAt(ExchangeToString(t.exchange), ':', AsStr(t.bytes));
  }

  // ------------------------------------------------------ the packed form

  const OLD_MAX_LEN: nat := 20
  const PER_WORD: nat := 10

  /** `x >> (6 * i)`. */
  function Shift(x: nat, i: nat): nat {
    if i == 0 then x else Shift(x / 64, i - 1)
  }

  function Code(data: (nat, nat), i: nat): (v: nat)
    ensures v < 64
  {
    Shift(if i / PER_WORD == 0 then data.0 else data.1, i % PER_WORD) % 64
  }

  function CharOf(v: nat): char
    requires v <= 36
  {
    if v <= 9 then ('0' as int + v) as char else if v <= 35 then ('A' as int + (v - 10)) as char else '_'
  }

  function CodeOf(c: char): (v: nat)
    ensures v <= 36
  {
    if '0' <= c <= '9' then c as int - '0' as int else if 'A' <= c <= 'Z' then c as int - 'A' as int + 10 else 36
  }

  predicate OldAlphabet(c: char) { '0' <= c <= '9' || 'A' <= c <= 'Z' || c == '_' }

  predicate OldSymbol(s: string) { |s| <= OLD_MAX_LEN && forall i :: 0 <= i < |s| ==> OldAlphabet(s[i]) }

  /** The packing, least significant symbol first. */
  function PackWord(s: string): nat {
    if s == "" then 0 else CodeOf(s[0]) + 64 * PackWord(s[1..])
  }

  function Pack(s: string): (nat, nat) {
    if |s| <= PER_WORD then (PackWord(s), 0) else (PackWord(s[..PER_WORD]), PackWord(s[PER_WORD..]))
  }

  ghost predicate Legible(data: (nat, nat), len: nat) {
    forall i :: 0 <= i < len ==> Code(data, i) <= 36
  }

  /** The old form: a length, the packed symbol and the exchange's name. */
  method DecodeOld(data: (U64, U64), len: U64, exchange: string) returns (r: Outcome<Ticker>)
    ensures len > OLD_MAX_LEN ==> r == Rejected(TooLong)
    ensures len <= OLD_MAX_LEN && !Legible(data, len) ==> r.Rejected? && r.why.BadCode?
    ensures len <= OLD_MAX_LEN && Legible(data, len) ==> r == Named(Symbol(data, len), exchange)
    ensures forall s {:trigger Pack(s)} :: OldSymbol(s) && |s| == len && data == Pack(s) ==> r == Named(s, exchange)
  {
    forall s {:trigger Pack(s)} | OldSymbol(s) && |s| == len && data == Pack(s)
      ensures Legible(data, len) && Symbol(data, len) == s
    {
      UnpackInverts(s);
    }
    if len > OLD_MAX_LEN { return Rejected(TooLong); }
    var symbol := Unpack(data, len);
    if symbol.Done? { r := Named(symbol.value, exchange); } else { r := Rejected(symbol.why); }
  }

  /** The loop over the packed codes. */
  method Unpack(data: (U64, U64), len: nat) returns (r: Outcome<string>)
    requires len <= OLD_MAX_LEN
    ensures Legible(data, len) ==> r == Done(Symbol(data, len))
    ensures !Legible(data, len) ==> r.Rejected? && r.why.BadCode?
  {
    var symbol := "";
    for i := 0 to len
      invariant Legible(data, i) && symbol == Symbol(data, i)
    {
      var v := Shift(if i / PER_WORD == 0 then data.0 else data.1, i % PER_WORD) % 64;
      assert v == Code(data, i);
      if v > 36 { return Rejected(BadCode(v)); }
      symbol := symbol + [CharOf(v)];
    }
    r := Done(symbol);
  }

  function Named(symbol: string, exchange: string): Outcome<Ticker> {
    match StringToExchange(exchange)
    case None => Rejected(UnknownExchange)
    case Some(e) => NewWithDisplay(symbol, e, None)
  }

  /** The symbol the first `len` codes spell. */
  function Symbol(data: (nat, nat), len: nat): (s: string)
    requires Legible(data, len)
    ensures |s| == len && forall i :: 0 <= i < len ==> s[i] == CharOf(Code(data, i))
  {
    if len == 0 then "" else Symbol(data, len - 1) + [CharOf(Code(data, len - 1))]
  }

  /** A symbol out of an old file, with the name of its exchange, gives the ticker of that symbol and exchange. */
  lemma OldTickerComesBack(s: string, e: Exchange)
    requires OldSymbol(s)
    ensures Named(s, ExchangeToString(e)).Done?
    ensures var t := Named(s, ExchangeToString(e)).value;
      AsStr(t.bytes) == s && t.exchange == e && !t.hasDisplay
  {
    ExchangeRoundTrip(e);
    assert '|' !in s && NUL !in s;
    PaddedIsUnbroken(s);
  }

  lemma {:induction false} WordHolds(s: string, i: nat)
    requires i < |s|
    ensures Shift(PackWord(s), i) % 64 == CodeOf(s[i])
  {
    if i > 0 {
      assert PackWord(s) / 64 == PackWord(s[1..]);
      WordHolds(s[1..], i - 1);
    }
  }

  lemma {:induction false} WordFits(s: string)
    ensures PackWord(s) < Power64(|s|)
  {
    if s != "" { WordFits(s[1..]); }
  }

  function Power64(n: nat): nat {
    if n == 0 then 1 else 64 * Power64(n - 1)
  }

  lemma TenFit()
    ensures Power64(10) <= U64_MAX
  {
    assert Power64(5) == 1_073_741_824;
    assert Power64(10) == 64 * 64 * 64 * 64 * 64 * Power64(5);
  }

  lemma {:induction false} Power64Monotone(a: nat, b: nat)
    requires a <= b
    ensures Power64(a) <= Power64(b)
    decreases b
  {
    if a < b { Power64Monotone(a, b - 1); }
  }

  /** Both words of a packed symbol fit. */
  lemma PackFits(s: string)
    requires |s| <= OLD_MAX_LEN
    ensures Pack(s).0 <= U64_MAX && Pack(s).1 <= U64_MAX
  {
    var a, b := if |s| <= PER_WORD then s else s[..PER_WORD], if |s| <= PER_WORD then "" else s[PER_WORD..];
    WordFits(a);
    WordFits(b);
    Power64Monotone(|a|, 10);
    Power64Monotone(|b|, 10);
    TenFit();
  }

  /** The codes read from the words are the characters. */
  lemma PackHolds(s: string, i: nat)
    requires i < |s| <= OLD_MAX_LEN && OldAlphabet(s[i])
    ensures Code(Pack(s), i) == CodeOf(s[i]) && CharOf(CodeOf(s[i])) == s[i]
  {
    if |s| <= PER_WORD {
      WordHolds(s, i);
    } else if i < PER_WORD {
      WordHolds(s[..PER_WORD], i);
    } else {
      WordHolds(s[PER_WORD..], i - PER_WORD);
    }
  }

  /** Unpacking a packed symbol gives the symbol. */
  lemma UnpackInverts(s: string)
    requires OldSymbol(s)
    ensures Pack(s).0 <= U64_MAX && Pack(s).1 <= U64_MAX
    ensures Legible(Pack(s), |s|) && Symbol(Pack(s), |s|) == s
  {
    PackFits(s);
    forall i | 0 <= i < |s| ensures Code(Pack(s), i) == CodeOf(s[i]) && CharOf(CodeOf(s[i])) == s[i] {
      PackHolds(s, i);
    }
    assert forall i :: 0 <= i < |s| ==> Symbol(Pack(s), |s|)[i] == s[i];
  }
}

/** Price steps in integer units, multiplied and divided again. */
module TickSteps {
  import opened Wrappers
  import opened UnixTime
  import opened Powers

  type U16 = x: int | 0 <= x < 0x1_0000

  function Factor(multiplier: U16): (m: int)
    ensures 1 <= m < 0x1_0000
  {
    Max(multiplier, 1)
  }

  function Clamp(x: int): I64 { Max(I64_MIN, Min(x, I64_MAX)) }

  /** The checked multiplication panics on overflow. */
  function MultiplyStep(multiplier: U16, units: I64): Option<I64> {
    var product := units * Factor(multiplier);
    if I64_MIN <= product <= I64_MAX then Some(product) else None
  }

  function UnscaleStep(multiplier: U16, scaled: I64): I64 {
    var m := Factor(multiplier);
    if m == 1 then scaled
    else
      var q, r := scaled / m, scaled % m;
      DivisionShrinks(scaled, m);
      Max(if Clamp(r * 2) >= m then q + 1 else q, 1)
  }

  lemma DivisionShrinks(x: int, m: int)
    requires m >= 2 && I64_MIN <= x <= I64_MAX
    ensures I64_MIN <= x / m < I64_MAX
  {
  }

  lemma QuotientOfProduct(u: int, m: int)
    requires m >= 1
    ensures (u * m) / m == u && (u * m) % m == 0
  {
    var q, r := (u * m) / m, (u * m) % m;
    assert (u - q) * m == r;
    Multiples(u - q, m);
  }

  /** Unscaling undoes multiplying exactly for positive steps, and for every step when the factor is one. */
  lemma UnscaleInverts(multiplier: U16, units: I64)
    requires MultiplyStep(multiplier, units).Some?
    ensures UnscaleStep(multiplier, MultiplyStep(multiplier, units).value) == units <==>
      units >= 1 || Factor(multiplier) == 1
  {
    QuotientOfProduct(units, Factor(multiplier));
  }

  /** The result is the nearest multiple, a half rounding up, unless that would be below one unit. */
  lemma UnscaleRounds(multiplier: U16, scaled: I64)
    ensures var m, u := Factor(multiplier), UnscaleStep(multiplier, scaled);
      if m == 1 then u == scaled
      else if 2 * scaled < m then u == 1
      else u >= 1 && -m <= 2 * (scaled - u * m) < m
  {
    var m := Factor(multiplier);
    if m > 1 { RoundedQuotient(scaled, m); }
  }

  lemma RoundedQuotient(x: I64, m: int)
    requires 2 <= m < 0x1_0000
    ensures var u := if Clamp((x % m) * 2) >= m then x / m + 1 else x / m;
      -m <= 2 * (x - u * m) < m && (2 * x < m ==> u < 1) && (2 * x >= m ==> u >= 1)
  {
    var q, r := x / m, x % m;
    assert x == q * m + r && 0 <= r < m;
    assert (q + 1) * m == q * m + m;
    Multiples(q, m);
    Multiples(q + 1, m);
  }
}
