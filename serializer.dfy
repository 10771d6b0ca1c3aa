/** The wire decoder of the feed. A line is a list of `tag<kv>value` fields separated by a delimiter;
    the tag is the field's first character: `t` time, `i` instrument, `p` price, `q` quantity, `s`
    side. Decoding fills in a message taken from the message pool; a line starting with `#` is a
    comment and yields none. The decoded message is then offered to the engine queue with a bounded
    number of retries. */
module Serializer {
  import opened Data
  import opened JavaText
  import opened Messages
  import opened Pools

  // ---------------------------------------------------------------------------------------------
  // Prices

  /** The price strings `parsePrice` handles without an exception. A string without a dot must be a
      `long`; otherwise the text before the first dot followed by the text between the first and
      the second dot must be one (any further piece is ignored). */
  predicate PriceParses(ps: string)
  {
    var parts := JavaSplit(ps, '.');
    if |parts| == 1 then IsLongText(ps) else |parts| >= 2 && IsLongText(parts[0] + parts[1])
  }

  /** `parsePrice`: the price times 100, in `long` arithmetic. A whole number is multiplied by 100;
      a number with a decimal part is read with the dot taken out, and multiplied by 10 when there
      is a single decimal digit. More than two decimal digits are not scaled down. */
  function ParsePrice(ps: string): (r: int)
    requires PriceParses(ps)
    ensures LongMin <= r <= LongMax
    ensures '.' !in ps && LongMin <= ParseLong(ps) * 100 <= LongMax ==> r == ParseLong(ps) * 100
  {
    var parts := JavaSplit(ps, '.');
    if |parts| == 1 then Wrap64(ParseLong(ps) * 100)
    else
      var n := ParseLong(parts[0] + parts[1]);
      if |parts[1]| == 1 then Wrap64(n * 10) else n
  }

  /** A fixed-point price written with its two decimals, the format `parsePrice` is meant for. */
  function FormatPrice(v: nat): string
  {
    Decimal(v / 100) + "." + [DigitChar(v % 100 / 10), DigitChar(v % 10)]
  }

  /** `parsePrice` reads back every price written with two decimals. */
  lemma PriceRoundTrip(v: nat)
    requires v <= LongMax
    ensures PriceParses(FormatPrice(v)) && ParsePrice(FormatPrice(v)) == v
  {
    var q, r := v / 100, v % 100;
    var a, t := Decimal(q), [DigitChar(r / 10), DigitChar(v % 10)];
    assert v % 10 == r % 10;
    assert FormatPrice(v) == a + "." + t;
    DecimalValue(q);
    TwoDigitsValue(r);
    DivMod100(v);
    TwoDecimals(a, t);
  }

  /** An integer part and two decimal digits are read as the integer part times 100 plus the
      decimals. */
  lemma TwoDecimals(a: string, t: string)
    requires AllDigits(a) && AllDigits(t) && |t| == 2
    requires DigitsValue(a) * 100 + DigitsValue(t) <= LongMax
    ensures PriceParses(a + "." + t) && ParsePrice(a + "." + t) == DigitsValue(a) * 100 + DigitsValue(t)
  {
    TwoPieces(a, t);
    DigitsConcat(a, t);
    assert Pow10(|t|) == 100;
    ParseDigits(a + t);
  }

  /** A whole number `n` is read as `n` times 100. */
  lemma WholePrice(n: nat)
    requires n * 100 <= LongMax
    ensures PriceParses(Decimal(n)) && ParsePrice(Decimal(n)) == n * 100
  {
    ParseDecimal(n);
    assert '.' !in Decimal(n);
  }

  /** A number `a.b` with a single decimal digit is padded: `a` times 100 plus `b` times 10. */
  lemma OneDecimalPrice(a: nat, b: nat)
    requires b < 10 && a * 100 + b * 10 <= LongMax
    ensures PriceParses(Decimal(a) + "." + [DigitChar(b)])
    ensures ParsePrice(Decimal(a) + "." + [DigitChar(b)]) == a * 100 + b * 10
  {
    var s, t := Decimal(a), [DigitChar(b)];
    TwoPieces(s, t);
    DigitsConcat(s, t);
    DecimalValue(a);
    ParseDigits(s + t);
  }

  lemma DivMod100(v: nat)
    ensures (v / 100) * 100 + v % 100 == v
  {
  }

  lemma TwoDigitsValue(c: nat)
    requires c < 100
    ensures DigitsValue([DigitChar(c / 10), DigitChar(c % 10)]) == c
  {
    var t := [DigitChar(c / 10), DigitChar(c % 10)];
    assert t[..1] == [DigitChar(c / 10)];
    assert t[..1][..0] == [];
    assert DigitsValue(t[..1]) == c / 10;
    DivMod10(c);
  }

  lemma DivMod10(c: nat)
    ensures (c / 10) * 10 + c % 10 == c
  {
  }

  lemma TwoPieces(a: string, t: string)
    requires AllDigits(a) && AllDigits(t) && t != ""
    ensures JavaSplit(a + "." + t, '.') == [a, t]
  {
    assert '.' !in a && '.' !in t;
    assert Join([a, t], '.') == a + "." + t;
    JavaSplitJoin([a, t], '.');
  }

  /** A whole number is scaled: "7" is read as 700. */
  lemma WholePriceSeven()
    ensures PriceParses("7") && ParsePrice("7") == 700
  {
    WholePrice(7);
    assert Decimal(7) == "7";
  }

  /** A single decimal digit is padded: "12.5" is read as 1250. */
  lemma OneDecimalTwelveFifty()
    ensures PriceParses("12.5") && ParsePrice("12.5") == 1250
  {
    assert Decimal(125) == "125";
    TwoPieces("12", "5");
    assert "12" + "." + "5" == "12.5";
    assert "12" + "5" == "125";
    ParseDecimal(125);
  }

  /** Two decimal digits are read as they stand: "3.14" is read as 314. */
  lemma TwoDecimalsThreeFourteen()
    ensures PriceParses("3.14") && ParsePrice("3.14") == 314
  {
    assert Decimal(314) == "314";
    TwoPieces("3", "14");
    assert "3" + "." + "14" == "3.14";
    assert "3" + "14" == "314";
    ParseDecimal(314);
  }

  /** 1250, the value of "12.5", is written back as "12.50". */
  lemma FormatTwelveFifty()
    ensures FormatPrice(1250) == "12.50"
  {
    assert Decimal(12) == "12";
    assert DigitChar(5) == '5' && DigitChar(0) == '0';
  }

  /** A third decimal digit is not scaled down: "3.145" is read as 3145, i.e. 31.45. */
  lemma ThirdDecimalNotScaled()
    ensures PriceParses("3.145") && ParsePrice("3.145") == 3145
  {
    assert Decimal(3) == "3";
    assert Decimal(145) == "145";
    assert Decimal(3145) == "3145";
    TwoPieces("3", "145");
    assert "3" + "." + "145" == "3.145";
    assert "3" + "145" == "3145";
    ParseDecimal(3145);
  }

  // ---------------------------------------------------------------------------------------------
  // Fields

  function PairNamed(v: string): Option<CcyPair>
  {
    if v == "BTCUSD" then Some(BTCUSD)
    else if v == "ETHUSD" then Some(ETHUSD)
    else if v == "SOLUSD" then Some(SOLUSD)
    else None
  }

  function PairName(p: CcyPair): string
  {
    match p
    case BTCUSD => "BTCUSD"
    case ETHUSD => "ETHUSD"
    case SOLUSD => "SOLUSD"
  }

  /** `CcyPair.valueOf` accepts exactly the constant names. */
  lemma PairNameRoundTrip(p: CcyPair, v: string)
    ensures PairNamed(PairName(p)) == Some(p)
    ensures PairNamed(v) != None ==> PairName(PairNamed(v).value) == v
  {
  }

  /** The quantity texts that mean "remove this price level". */
  predicate IsZeroQuantity(v: string)
  {
    v == "0" || v == "0.0" || v == "0.00"
  }

  predicate IsTag(c: char)
  {
    c == 't' || c == 'i' || c == 'p' || c == 'q' || c == 's'
  }

  /** The values a known tag can take without an exception. */
  predicate ValueOk(tag: char, v: string)
  {
    if tag == 't' then IsLongText(v)
    else if tag == 'i' then PairNamed(v) != None
    else if tag == 'p' then PriceParses(v)
    else if tag == 'q' then IsZeroQuantity(v) || IsLongText(v)
    else true
  }

  /** A field decodes without an exception: it is not empty, and a known tag has a value after the
      key-value delimiter. */
  predicate FieldOk(f: string, kv: char)
  {
    |f| > 0 && (IsTag(f[0]) ==> |JavaSplit(f, kv)| >= 2 && ValueOk(f[0], JavaSplit(f, kv)[1]))
  }

  /** One field applied to the message fields. An unknown tag changes nothing; a zero quantity sets
      the type to remove and leaves the quantity as it was; any side other than `b` is an offer. */
  function DecodeField(fs: Fields, f: string, kv: char): Fields
    requires FieldOk(f, kv)
  {
    if !IsTag(f[0]) then fs else SetField(fs, f[0], JavaSplit(f, kv)[1])
  }

  /** The message field a known tag sets, set from the field's value. */
  function SetField(fs: Fields, tag: char, v: string): Fields
    requires IsTag(tag) && ValueOk(tag, v)
  {
    if tag == 't' then fs.(time := ParseLong(v))
    else if tag == 'i' then fs.(pair := PairNamed(v))
    else if tag == 'p' then fs.(price := ParsePrice(v))
    else if tag == 'q' then
      if IsZeroQuantity(v) then fs.(kind := Some(RemovePriceLevel))
      else fs.(kind := Some(AddOrUpdatePriceLevel), quantity := ParseLong(v))
    else fs.(side := Some(if v == "b" then Bid else Offer))
  }

  /** The fields applied in order. */
  function DecodeFields(fs: Fields, fields: seq<string>, kv: char): Fields
    requires forall i :: 0 <= i < |fields| ==> FieldOk(fields[i], kv)
  {
    if fields == [] then fs
    else DecodeField(DecodeFields(fs, fields[..|fields| - 1], kv), fields[|fields| - 1], kv)
  }

  /** A line decodes without an exception: it is not empty and, unless it is a comment, each of its
      fields decodes. */
  predicate LineOk(line: string, delim: char, kv: char)
  {
    |line| > 0 &&
    (line[0] != '#' ==> forall i :: 0 <= i < |JavaSplit(line, delim)| ==> FieldOk(JavaSplit(line, delim)[i], kv))
  }

  /** Some field of the list carries tag `c`. */
  predicate HasTag(fields: seq<string>, c: char)
  {
    exists i :: 0 <= i < |fields| && |fields[i]| > 0 && fields[i][0] == c
  }

  /** The message field a tag sets is the same in `a` and `b` (the type and the quantity for `q`). */
  predicate Keeps(c: char, a: Fields, b: Fields)
  {
    if c == 't' then a.time == b.time
    else if c == 'i' then a.pair == b.pair
    else if c == 'p' then a.price == b.price
    else if c == 'q' then a.kind == b.kind && a.quantity == b.quantity
    else if c == 's' then a.side == b.side
    else a == b
  }

  /** A field leaves alone what the other tags set. */
  lemma DecodeFieldKeeps(fs: Fields, f: string, kv: char, c: char)
    requires FieldOk(f, kv) && f[0] != c && IsTag(c)
    ensures Keeps(c, DecodeField(fs, f, kv), fs)
  {
  }

  /** Nothing resets a pooled message: what no field of the line sets keeps the message's previous
      value. */
  lemma {:induction false} AbsentTagKeepsField(fs: Fields, fields: seq<string>, kv: char, c: char)
    requires forall i :: 0 <= i < |fields| ==> FieldOk(fields[i], kv)
    requires IsTag(c) && !HasTag(fields, c)
    ensures Keeps(c, DecodeFields(fs, fields, kv), fs)
  {
    if fields != [] {
      var init, last := fields[..|fields| - 1], fields[|fields| - 1];
      AbsentTagKeepsField(fs, init, kv, c);
      DecodeFieldKeeps(DecodeFields(fs, init, kv), last, kv, c);
    }
  }

  /** One `tag<kv>value` field. */
  function Field(tag: char, v: string, kv: char): string
  {
    [tag] + [kv] + v
  }

  lemma FieldSplit(tag: char, v: string, kv: char)
    requires kv != tag && kv !in v && v != ""
    ensures JavaSplit(Field(tag, v, kv), kv) == [[tag], v]
  {
    assert Join([[tag], v], kv) == Field(tag, v, kv);
    JavaSplitJoin([[tag], v], kv);
  }

  lemma DecodeFieldsSnoc(fs: Fields, fields: seq<string>, f: string, kv: char)
    requires forall i :: 0 <= i < |fields| ==> FieldOk(fields[i], kv)
    requires FieldOk(f, kv)
    ensures forall i :: 0 <= i < |fields + [f]| ==> FieldOk((fields + [f])[i], kv)
    ensures DecodeFields(fs, fields + [f], kv) == DecodeField(DecodeFields(fs, fields, kv), f, kv)
  {
    assert (fields + [f])[..|fields|] == fields;
  }

  /** A reference layout of a market-data line: its five fields for a positive quantity, with an
      offer written as side `o` (any side other than `b` decodes as an offer). The decoder does not
      depend on this order; it is one the round-trip lemmas below are stated for. */
  function EncodedFields(m: Fields, kv: char): seq<string>
    requires m.pair != None && m.side != None && m.time >= 0 && m.price >= 0 && m.quantity > 0
  {
    [Field('t', Decimal(m.time), kv),
     Field('i', PairName(m.pair.value), kv),
     Field('p', FormatPrice(m.price), kv),
     Field('q', Decimal(m.quantity), kv),
     Field('s', if m.side == Some(Bid) then "b" else "o", kv)]
  }

  function EncodeLine(m: Fields, delim: char, kv: char): string
    requires m.pair != None && m.side != None && m.time >= 0 && m.price >= 0 && m.quantity > 0
  {
    Join(EncodedFields(m, kv), delim)
  }

  /** Delimiters that cannot be confused with the text of a field. */
  predicate PlainDelimiters(delim: char, kv: char)
  {
    delim != kv && PlainChar(delim) && PlainChar(kv)
  }

  /** A character that appears in no tag, digit, decimal point, pair name or side letter. */
  predicate PlainChar(c: char)
  {
    !IsDigit(c) && c != '.' && c !in "tipqsBTCUSDETHUSDSOLUSDbo"
  }

  lemma PlainText(delim: char, kv: char, m: Fields)
    requires PlainDelimiters(delim, kv)
    requires m.pair != None && m.price >= 0
    ensures delim !in PairName(m.pair.value) && kv !in PairName(m.pair.value)
    ensures delim !in FormatPrice(m.price) && kv !in FormatPrice(m.price)
  {
    assert AllDigits(Decimal(m.price / 100));
  }

  /** A line written by `EncodeLine` splits back into its five fields. */
  lemma EncodedLineSplits(m: Fields, delim: char, kv: char)
    requires m.pair != None && m.side != None && m.time >= 0 && m.price >= 0 && m.quantity > 0
    requires PlainDelimiters(delim, kv)
    ensures JavaSplit(EncodeLine(m, delim, kv), delim) == EncodedFields(m, kv)
  {
    var fs := EncodedFields(m, kv);
    PlainText(delim, kv, m);
    assert AllDigits(Decimal(m.time)) && AllDigits(Decimal(m.quantity));
    forall i | 0 <= i < |fs| ensures delim !in fs[i] {
    }
    JavaSplitJoin(fs, delim);
  }

  /** A positive quantity written in decimal is not one of the texts meaning "remove". */
  lemma PositiveNotZeroText(q: nat)
    requires q > 0
    ensures !IsZeroQuantity(Decimal(q))
  {
    DecimalValue(q);
    assert '.' !in Decimal(q);
  }

  lemma DecodeFieldOf(fs: Fields, tag: char, v: string, kv: char)
    requires IsTag(tag) && kv != tag && kv !in v && v != "" && ValueOk(tag, v)
    ensures FieldOk(Field(tag, v, kv), kv)
    ensures DecodeField(fs, Field(tag, v, kv), kv) == SetField(fs, tag, v)
  {
    FieldSplit(tag, v, kv);
  }

  lemma TimeField(fs: Fields, t: nat, kv: char)
    requires t <= LongMax && !IsDigit(kv) && kv != 't'
    ensures FieldOk(Field('t', Decimal(t), kv), kv)
    ensures DecodeField(fs, Field('t', Decimal(t), kv), kv) == fs.(time := t)
  {
    ParseDecimal(t);
    assert kv !in Decimal(t);
    DecodeFieldOf(fs, 't', Decimal(t), kv);
  }

  lemma PairField(fs: Fields, p: CcyPair, kv: char)
    requires kv !in "iBTCUSDETHUSDSOLUSD"
    ensures FieldOk(Field('i', PairName(p), kv), kv)
    ensures DecodeField(fs, Field('i', PairName(p), kv), kv) == fs.(pair := Some(p))
  {
    DecodeFieldOf(fs, 'i', PairName(p), kv);
  }

  lemma PriceField(fs: Fields, v: nat, kv: char)
    requires v <= LongMax && !IsDigit(kv) && kv != '.' && kv != 'p'
    ensures FieldOk(Field('p', FormatPrice(v), kv), kv)
    ensures DecodeField(fs, Field('p', FormatPrice(v), kv), kv) == fs.(price := v)
  {
    PriceRoundTrip(v);
    PriceTextChars(v, kv);
    DecodeFieldOf(fs, 'p', FormatPrice(v), kv);
  }

  /** A rendered price holds only digits and one decimal point. */
  lemma PriceTextChars(v: nat, c: char)
    requires !IsDigit(c) && c != '.'
    ensures c !in FormatPrice(v)
  {
    assert AllDigits(Decimal(v / 100));
  }

  lemma QuantityField(fs: Fields, q: nat, kv: char)
    requires 0 < q <= LongMax && !IsDigit(kv) && kv != 'q'
    ensures FieldOk(Field('q', Decimal(q), kv), kv)
    ensures DecodeField(fs, Field('q', Decimal(q), kv), kv) ==
      fs.(kind := Some(AddOrUpdatePriceLevel), quantity := q)
  {
    ParseDecimal(q);
    PositiveNotZeroText(q);
    assert kv !in Decimal(q);
    DecodeFieldOf(fs, 'q', Decimal(q), kv);
  }

  lemma SideField(fs: Fields, sd: Side, kv: char)
    requires kv !in "sbo"
    ensures FieldOk(Field('s', if sd == Bid then "b" else "o", kv), kv)
    ensures DecodeField(fs, Field('s', if sd == Bid then "b" else "o", kv), kv) == fs.(side := Some(sd))
  {
    DecodeFieldOf(fs, 's', if sd == Bid then "b" else "o", kv);
  }

  /** Each field of an encoded line decodes to the value it was written from. */
  lemma DecodeEncodedFields(m: Fields, before: Fields, kv: char)
    requires m.pair != None && m.side != None && m.time >= 0 && m.price >= 0 && m.quantity > 0
    requires m.time <= LongMax && m.price <= LongMax && m.quantity <= LongMax
    requires PlainChar(kv)
    ensures forall i :: 0 <= i < |EncodedFields(m, kv)| ==> FieldOk(EncodedFields(m, kv)[i], kv)
    ensures DecodeFields(before, EncodedFields(m, kv), kv) == m.(kind := Some(AddOrUpdatePriceLevel))
  {
    var sv := if m.side.value == Bid then "b" else "o";
    var a, b, c := Field('t', Decimal(m.time), kv), Field('i', PairName(m.pair.value), kv), Field('p', FormatPrice(m.price), kv);
    var d, e := Field('q', Decimal(m.quantity), kv), Field('s', sv, kv);
    assert EncodedFields(m, kv) == [a, b, c, d, e];
    var f0 := before.(time := m.time);
    var f1 := f0.(pair := m.pair);
    var f2 := f1.(price := m.price);
    var f3 := f2.(kind := Some(AddOrUpdatePriceLevel), quantity := m.quantity);
    TimeField(before, m.time, kv);
    PairField(f0, m.pair.value, kv);
    PriceField(f1, m.price, kv);
    QuantityField(f2, m.quantity, kv);
    SideField(f3, m.side.value, kv);
    ComposeFive(before, a, b, c, d, e, kv);
  }

  lemma ComposeFive(before: Fields, a: string, b: string, c: string, d: string, e: string, kv: char)
    requires FieldOk(a, kv) && FieldOk(b, kv) && FieldOk(c, kv) && FieldOk(d, kv) && FieldOk(e, kv)
    ensures forall i :: 0 <= i < 5 ==> FieldOk([a, b, c, d, e][i], kv)
    ensures DecodeFields(before, [a, b, c, d, e], kv) ==
      DecodeField(DecodeField(DecodeField(DecodeField(DecodeField(before, a, kv), b, kv), c, kv), d, kv), e, kv)
  {
    DecodeFieldsSnoc(before, [], a, kv);
    DecodeFieldsSnoc(before, [a], b, kv);
    DecodeFieldsSnoc(before, [a, b], c, kv);
    DecodeFieldsSnoc(before, [a, b, c], d, kv);
    DecodeFieldsSnoc(before, [a, b, c, d], e, kv);
    assert [] + [a] == [a] && [a] + [b] == [a, b] && [a, b] + [c] == [a, b, c];
    assert [a, b, c] + [d] == [a, b, c, d] && [a, b, c, d] + [e] == [a, b, c, d, e];
  }

  /** Decoding a line written by `EncodeLine` yields the encoded message as an upsert, whatever the
      pooled message held before. */
  lemma DecodeEncodedLine(m: Fields, before: Fields, delim: char, kv: char)
    requires m.pair != None && m.side != None && m.time >= 0 && m.price >= 0 && m.quantity > 0
    requires m.time <= LongMax && m.price <= LongMax && m.quantity <= LongMax
    requires PlainDelimiters(delim, kv)
    ensures LineOk(EncodeLine(m, delim, kv), delim, kv)
    ensures DecodeFields(before, JavaSplit(EncodeLine(m, delim, kv), delim), kv) == m.(kind := Some(AddOrUpdatePriceLevel))
  {
    EncodedLineSplits(m, delim, kv);
    DecodeEncodedFields(m, before, kv);
    assert EncodeLine(m, delim, kv)[0] == 't';
  }

  // ---------------------------------------------------------------------------------------------
  // The serializer

  /** Whether the `i`-th call of `offer` on the engine queue succeeds: the queue's answers are an
      input, and a call past their end fails. */
  function Accepts(answers: seq<bool>, i: nat): bool
  {
    i < |answers| && answers[i]
  }

  /** The most calls of `offer` one line can take: the first, then up to `retryCount` + 1 in the
      retry loop, whose condition calls `offer` before it tests the count. */
  function OfferBound(retryCount: int): (n: nat)
    ensures n >= 2 && n >= retryCount + 2
  {
    if retryCount > 0 then retryCount + 2 else 2
  }

  /** Some call within the bound succeeds. */
  predicate Delivered(answers: seq<bool>, retryCount: int)
  {
    exists i :: 0 <= i < OfferBound(retryCount) && Accepts(answers, i)
  }

  class MessageSerializer {
    const pool: MessagePool
    const delim: char
    const kv: char
    const retryCount: int
    /** The engine's inbound queue. */
    var queue: seq<Message>

    constructor (queue: seq<Message>, pool: MessagePool, retryCount: int, delim: char, kv: char)
      ensures this.queue == queue && this.pool == pool && this.retryCount == retryCount
      ensures this.delim == delim && this.kv == kv
    {
      this.queue, this.pool, this.retryCount, this.delim, this.kv := queue, pool, retryCount, delim, kv;
    }

    /** One field of `deserialize`'s loop: the setter its tag selects, or nothing for an unknown tag. */
    method ApplyField(m: Message, f: string)
      requires FieldOk(f, kv)
      modifies m
      ensures m.Snapshot() == DecodeField(old(m.Snapshot()), f, kv)
    {
      if f[0] == 't' {
        m.SetTime(ParseLong(JavaSplit(f, kv)[1]));
      } else if f[0] == 'i' {
        m.SetPair(PairNamed(JavaSplit(f, kv)[1]));
      } else if f[0] == 'p' {
        m.SetPrice(ParsePrice(JavaSplit(f, kv)[1]));
      } else if f[0] == 'q' {
        var quantity := JavaSplit(f, kv)[1];
        if IsZeroQuantity(quantity) {
          m.SetKind(Some(RemovePriceLevel));
        } else {
          m.SetKind(Some(AddOrUpdatePriceLevel));
          m.SetQuantity(ParseLong(JavaSplit(f, kv)[1]));
        }
      } else if f[0] == 's' {
        m.SetSide(Some(if JavaSplit(f, kv)[1] == "b" then Bid else Offer));
      }
    }

    /** The field loop of `deserialize`: the fields applied to `m` in order. */
    method DecodeInto(m: Message, fields: seq<string>)
      requires forall i :: 0 <= i < |fields| ==> FieldOk(fields[i], kv)
      modifies m
      ensures m.Snapshot() == DecodeFields(old(m.Snapshot()), fields, kv)
    {
      ghost var start := m.Snapshot();
      var ptr := 0;
      while ptr < |fields|
        invariant 0 <= ptr <= |fields|
        invariant m.Snapshot() == DecodeFields(start, fields[..ptr], kv)
      {
        assert fields[..ptr + 1][..ptr] == fields[..ptr];
        ApplyField(m, fields[ptr]);
        ptr := ptr + 1;
      }
      assert fields[..ptr] == fields;
    }

    /** `deserialize`: a comment yields no message and takes nothing from the pool; any other line
        fills in a message acquired from the pool, field by field, starting from whatever that
        message held. */
    method Deserialize(line: string) returns (r: Option<Message>)
      requires LineOk(line, delim, kv)
      modifies pool`free, pool.free
      ensures line[0] == '#' ==> r == None && pool.free == old(pool.free)
      ensures line[0] != '#' ==> r != None
      ensures r != None && fresh(r.value) ==>
        r.value.Snapshot() == DecodeFields(Fields(None, None, None, 0, 0, 0), JavaSplit(line, delim), kv) &&
        pool.free == old(pool.free)
      ensures forall x :: x in old(pool.free) && r != Some(x) ==> x.Snapshot() == old(x.Snapshot())
      ensures r != None && !fresh(r.value) ==>
        r.value in old(pool.free) && pool.free == old(pool.free) - multiset{r.value} &&
        r.value.Snapshot() == DecodeFields(old(r.value.Snapshot()), JavaSplit(line, delim), kv)
    {
      if line[0] == '#' {
        return None;
      }
      var fields := JavaSplit(line, delim);
      var m := pool.AcquireObject();
      DecodeInto(m, fields);
      r := Some(m);
    }

    /** Offers `m` to the engine queue: once, and when that fails, again while retries remain.
        `answers` are the queue's answers to successive calls. The result says whether `m` was
        enqueued and how many calls were made. */
    method OfferWithRetries(m: Message, answers: seq<bool>) returns (enqueued: bool, calls: nat)
      modifies `queue
      ensures 1 <= calls <= OfferBound(retryCount)
      ensures forall i :: 0 <= i < calls - 1 ==> !Accepts(answers, i)
      ensures enqueued <==> Accepts(answers, calls - 1)
      ensures !enqueued ==> calls == OfferBound(retryCount)
      ensures enqueued <==> Delivered(answers, retryCount)
      ensures queue == old(queue) + (if enqueued then [m] else [])
    {
      enqueued := Accepts(answers, 0);
      calls := 1;
      if enqueued {
        queue := queue + [m];
      } else {
        var current := retryCount;
        enqueued := Accepts(answers, calls);
        calls := calls + 1;
        if enqueued {
          queue := queue + [m];
        }
        while !enqueued && current > 0
          invariant current <= retryCount && (current < retryCount ==> current >= 0)
          invariant calls == 2 + (retryCount - current)
          invariant forall i :: 0 <= i < calls - 1 ==> !Accepts(answers, i)
          invariant enqueued <==> Accepts(answers, calls - 1)
          invariant queue == old(queue) + (if enqueued then [m] else [])
          decreases current
        {
          current := current - 1;
          enqueued := Accepts(answers, calls);
          calls := calls + 1;
          if enqueued {
            queue := queue + [m];
          }
        }
      }
      if !enqueued {
        assert forall i :: 0 <= i < OfferBound(retryCount) ==> !Accepts(answers, i);
      }
    }

    /** `onMessage` as written: `true` for every line that is not a comment, even when every offer
        failed and the message was dropped, although the method is documented to return whether the
        message was submitted (MessageSerializerImpl.java lines 35 and 60). */
    method OnMessageAsWritten(line: string, answers: seq<bool>) returns (submitted: bool, message: Option<Message>)
      requires LineOk(line, delim, kv)
      modifies `queue, pool`free, pool.free
      ensures submitted <==> line[0] != '#'
      ensures message == None <==> line[0] == '#'
      ensures message == None ==> queue == old(queue) && pool.free == old(pool.free)
      ensures message != None ==>
        queue == old(queue) + (if Delivered(answers, retryCount) then [message.value] else [])
      ensures message != None && fresh(message.value) ==>
        message.value.Snapshot() == DecodeFields(Fields(None, None, None, 0, 0, 0), JavaSplit(line, delim), kv) &&
        pool.free == old(pool.free)
      ensures forall x :: x in old(pool.free) && message != Some(x) ==> x.Snapshot() == old(x.Snapshot())
      ensures message != None && !fresh(message.value) ==>
        message.value in old(pool.free) && pool.free == old(pool.free) - multiset{message.value} &&
        message.value.Snapshot() == DecodeFields(old(message.value.Snapshot()), JavaSplit(line, delim), kv)
    {
      message := Deserialize(line);
      if message == None {
        return false, message;
      }
      var enqueued, calls := OfferWithRetries(message.value, answers);
      submitted := true;
    }

    /** `onMessage` as documented: `true` iff the decoded message was enqueued. The decoded message
        is also returned, so that what was enqueued can be named. */
    method OnMessage(line: string, answers: seq<bool>) returns (submitted: bool, message: Option<Message>)
      requires LineOk(line, delim, kv)
      modifies `queue, pool`free, pool.free
      ensures submitted <==> line[0] != '#' && Delivered(answers, retryCount)
      ensures message == None <==> line[0] == '#'
      ensures message == None ==> queue == old(queue) && pool.free == old(pool.free)
      ensures message != None ==> queue == old(queue) + (if submitted then [message.value] else [])
      ensures message != None && fresh(message.value) ==>
        message.value.Snapshot() == DecodeFields(Fields(None, None, None, 0, 0, 0), JavaSplit(line, delim), kv) &&
        pool.free == old(pool.free)
      ensures forall x :: x in old(pool.free) && message != Some(x) ==> x.Snapshot() == old(x.Snapshot())
      ensures message != None && !fresh(message.value) ==>
        message.value in old(pool.free) && pool.free == old(pool.free) - multiset{message.value} &&
        message.value.Snapshot() == DecodeFields(old(message.value.Snapshot()), JavaSplit(line, delim), kv)
    {
      message := Deserialize(line);
      if message == None {
        return false, message;
      }
      var calls;
      submitted, calls := OfferWithRetries(message.value, answers);
    }
  }

  /** A side-only line whose first offer is accepted enqueues the message it decoded: a fresh one
      from an empty pool, with side bid and every other field at its default. */
  method SideLineEnqueued() returns (submitted: bool, queued: seq<Fields>)
    ensures submitted && queued == [Fields(None, None, Some(Bid), 0, 0, 0)]
  {
    var pool := new MessagePool();
    var s := new MessageSerializer([], pool, 3, ',', '=');
    FieldSplit('s', "b", '=');
    assert Field('s', "b", '=') == "s=b";
    assert ',' !in "s=b";
    assert JavaSplit("s=b", ',') == ["s=b"];
    assert Delivered([true], 3) by { assert Accepts([true], 0); }
    var m;
    submitted, m := s.OnMessage("s=b", [true]);
    assert DecodeFields(Fields(None, None, None, 0, 0, 0), ["s=b"], '=') == Fields(None, None, Some(Bid), 0, 0, 0) by {
      assert ["s=b"][..0] == [];
    }
    queued := [s.queue[0].Snapshot()];
  }

  /** The defect on one input: a side-only line, every offer refused. The documented contract
      answers `false`; as written `onMessage` answers `true` with the queue unchanged. */
  method DroppedMessageReported() returns (asWritten: bool, documented: bool, queued: nat)
    ensures asWritten && !documented && queued == 0
  {
    var pool := new MessagePool();
    var s := new MessageSerializer([], pool, 3, ',', '=');
    FieldSplit('s', "b", '=');
    assert Field('s', "b", '=') == "s=b";
    assert ',' !in "s=b";
    assert JavaSplit("s=b", ',') == ["s=b"];
    assert !Delivered([], 3);
    var m;
    asWritten, m := s.OnMessageAsWritten("s=b", []);
    queued := |s.queue|;
    documented, m := s.OnMessage("s=b", []);
  }
}
