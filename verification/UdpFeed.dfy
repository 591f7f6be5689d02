/** The binary market-data feed: the publisher's buffer, and a reader for its packed layout. */
module UdpFeed {
  import opened Words

  const UDP_FEED_MAGIC := 0x48465444
  const UDP_FEED_VERSION := 1
  const HEADER_SIZE := 24
  const LEVEL_SIZE := 16

  /** Price and quantity as 64-bit words; a quantity is the bit pattern of a double. */
  datatype PriceLevel = PriceLevel(price: U64, quantityBits: U64)

  /** A parsed book; its own timestamp is not part of the feed. */
  datatype ParsedBook = ParsedBook(instrument: seq<Byte>, bids: seq<PriceLevel>, asks: seq<PriceLevel>,
                                   isSnapshot: bool)

  /** What a message says. */
  datatype Feed = Feed(exchange: Byte, timestamp: U64, book: ParsedBook)

  // ---------- Writing ----------

  function LevelBytes(l: PriceLevel): (s: seq<Byte>)
    ensures |s| == LEVEL_SIZE
  {
    ToBE(l.price, 8) + ToBE(l.quantityBits, 8)
  }

  function LevelsBytes(levels: seq<PriceLevel>): (s: seq<Byte>)
    ensures |s| == LEVEL_SIZE * |levels|
  {
    if levels == [] then [] else LevelsBytes(levels[..|levels| - 1]) + LevelBytes(levels[|levels| - 1])
  }

  /** The header with its length fields cut to their widths. */
  function HeaderBytes(f: Feed): (s: seq<Byte>)
    ensures |s| == HEADER_SIZE
  {
    ToBE(UDP_FEED_MAGIC, 4) + ToBE(UDP_FEED_VERSION, 2) + [if f.book.isSnapshot then 1 else 2, f.exchange]
    + ToBE(f.timestamp, 8) + ToBE(|f.book.instrument| % 0x1_0000_0000, 4)
    + ToBE(|f.book.bids| % 0x1_0000, 2) + ToBE(|f.book.asks| % 0x1_0000, 2)
  }

  /** The whole buffer: 24 bytes of header, the symbol, then 16 bytes for every bid and every ask. */
  function Encode(f: Feed): (s: seq<Byte>)
    ensures |s| == HEADER_SIZE + |f.book.instrument| + LEVEL_SIZE * (|f.book.bids| + |f.book.asks|)
  {
    HeaderBytes(f) + f.book.instrument + LevelsBytes(f.book.bids) + LevelsBytes(f.book.asks)
  }

  class UdpPublisher {
    var buffer: seq<Byte>

    constructor () {
      buffer := [];
    }

    method PushLevels(levels: seq<PriceLevel>)
      modifies this
      ensures buffer == old(buffer) + LevelsBytes(levels)
    {
      hide LevelBytes;
      var i := 0;
      assert levels[..0] == [];
      while i < |levels|
        invariant 0 <= i <= |levels|
        invariant buffer == old(buffer) + LevelsBytes(levels[..i])
      {
        assert levels[..i + 1][..i] == levels[..i];
        buffer := buffer + LevelBytes(levels[i]);
        i := i + 1;
      }
      assert levels[..i] == levels;
    }

    /** `serialize_and_send` up to the socket: the reused buffer is cleared, so nothing of an earlier message stays. */
    method Serialize(book: ParsedBook, exchange: Byte, now: U64)
      modifies this
      ensures buffer == Encode(Feed(exchange, now, book))
    {
      hide LevelsBytes, HeaderBytes;
      buffer := [];
      buffer := buffer + HeaderBytes(Feed(exchange, now, book));
      if book.instrument != [] {
        buffer := buffer + book.instrument;
      }
      PushLevels(book.bids);
      PushLevels(book.asks);
    }
  }

  // ---------- Reading ----------

  function Word(s: seq<Byte>, at: nat, n: nat): nat
    requires at + n <= |s|
  {
    FromBE(s[at..at + n])
  }

  function ReadLevel(s: seq<Byte>): PriceLevel
    requires |s| == LEVEL_SIZE
  {
    Pow256Values();
    PriceLevel(FromBE(s[..8]), FromBE(s[8..]))
  }

  function ReadLevels(s: seq<Byte>, n: nat): (r: seq<PriceLevel>)
    requires |s| == LEVEL_SIZE * n
    ensures |r| == n
  {
    if n == 0 then []
    else ReadLevels(s[..LEVEL_SIZE * (n - 1)], n - 1) + [ReadLevel(s[LEVEL_SIZE * (n - 1)..])]
  }

  /** A reader of the packed layout; anything that is not exactly one message is refused. */
  function Decode(s: seq<Byte>): (r: Option<Feed>)
    ensures r.Some? ==> |r.value.book.instrument| < TWO32 && |r.value.book.bids| < TWO16 && |r.value.book.asks| < TWO16
  {
    if |s| < HEADER_SIZE || Word(s, 0, 4) != UDP_FEED_MAGIC || Word(s, 4, 2) != UDP_FEED_VERSION
       || s[6] !in {1, 2} then None
    else
      Pow256Values();
      var n, b, a := Word(s, 16, 4), Word(s, 20, 2), Word(s, 22, 2);
      if |s| != HEADER_SIZE + n + LEVEL_SIZE * (b + a) then None
      else
        var bidsAt := HEADER_SIZE + n;
        var asksAt := bidsAt + LEVEL_SIZE * b;
        Some(Feed(s[7], Word(s, 8, 8),
                  ParsedBook(s[HEADER_SIZE..bidsAt], ReadLevels(s[bidsAt..asksAt], b),
                             ReadLevels(s[asksAt..], a), s[6] == 1)))
  }

  // ---------- Round trip ----------

  lemma LevelBack(l: PriceLevel)
    ensures ReadLevel(LevelBytes(l)) == l
  {
    hide ToBE, FromBE;
    Pow256Values();
    FromToBE(l.price, 8);
    FromToBE(l.quantityBits, 8);
    assert LevelBytes(l)[..8] == ToBE(l.price, 8) && LevelBytes(l)[8..] == ToBE(l.quantityBits, 8);
  }

  lemma {:induction false} LevelsBack(levels: seq<PriceLevel>)
    ensures ReadLevels(LevelsBytes(levels), |levels|) == levels
  {
    hide LevelBytes, ReadLevel;
    if levels != [] {
      var n := |levels| - 1;
      LevelsBack(levels[..n]);
      LevelBack(levels[n]);
      var s := LevelsBytes(levels);
      assert s[..LEVEL_SIZE * n] == LevelsBytes(levels[..n]);
      assert s[LEVEL_SIZE * n..] == LevelBytes(levels[n]);
    }
  }

  lemma HeaderSlices(f: Feed)
    ensures var h := HeaderBytes(f);
            && h[0..4] == ToBE(UDP_FEED_MAGIC, 4) && h[4..6] == ToBE(UDP_FEED_VERSION, 2)
            && h[6] == (if f.book.isSnapshot then 1 else 2) && h[7] == f.exchange && h[8..16] == ToBE(f.timestamp, 8)
            && h[16..20] == ToBE(|f.book.instrument| % 0x1_0000_0000, 4)
            && h[20..22] == ToBE(|f.book.bids| % 0x1_0000, 2) && h[22..24] == ToBE(|f.book.asks| % 0x1_0000, 2)
  {
    hide ToBE;
  }

  /** What a reader finds in the header, whatever follows it. */
  lemma HeaderBack(f: Feed, rest: seq<Byte>)
    ensures var s := HeaderBytes(f) + rest;
            && Word(s, 0, 4) == UDP_FEED_MAGIC && Word(s, 4, 2) == UDP_FEED_VERSION
            && s[6] == (if f.book.isSnapshot then 1 else 2) && s[7] == f.exchange && Word(s, 8, 8) == f.timestamp
            && Word(s, 16, 4) == |f.book.instrument| % 0x1_0000_0000
            && Word(s, 20, 2) == |f.book.bids| % 0x1_0000 && Word(s, 22, 2) == |f.book.asks| % 0x1_0000
  {
    hide HeaderBytes, ToBE, FromBE;
    Pow256Values();
    HeaderSlices(f);
    var h, s := HeaderBytes(f), HeaderBytes(f) + rest;
    assert s[0..4] == h[0..4] && s[4..6] == h[4..6] && s[8..16] == h[8..16];
    assert s[16..20] == h[16..20] && s[20..22] == h[20..22] && s[22..24] == h[22..24];
    FromToBE(UDP_FEED_MAGIC, 4);
    FromToBE(UDP_FEED_VERSION, 2);
    FromToBE(f.timestamp, 8);
    FromToBE(|f.book.instrument| % 0x1_0000_0000, 4);
    FromToBE(|f.book.bids| % 0x1_0000, 2);
    FromToBE(|f.book.asks| % 0x1_0000, 2);
  }

  predicate Fits(b: ParsedBook) {
    |b.instrument| < TWO32 && |b.bids| < TWO16 && |b.asks| < TWO16
  }

  lemma FittingBack(f: Feed)
    requires Fits(f.book)
    ensures Decode(Encode(f)) == Some(f)
  {
    hide HeaderBytes, LevelsBytes, ReadLevels, Word;
    var b := f.book;
    var rest := b.instrument + LevelsBytes(b.bids) + LevelsBytes(b.asks);
    HeaderBack(f, rest);
    var s := Encode(f);
    assert s == HeaderBytes(f) + rest;
    var bidsAt := HEADER_SIZE + |b.instrument|;
    var asksAt := bidsAt + LEVEL_SIZE * |b.bids|;
    assert s[HEADER_SIZE..bidsAt] == b.instrument;
    assert s[bidsAt..asksAt] == LevelsBytes(b.bids);
    assert s[asksAt..] == LevelsBytes(b.asks);
    LevelsBack(b.bids);
    LevelsBack(b.asks);
  }

  /**
   * The feed can be read back, message type, exchange, time, symbol and all levels in order, exactly for books that
   * fit the header's length fields.
   */
  lemma FeedRoundTrip(f: Feed)
    ensures Decode(Encode(f)) == Some(f) <==> Fits(f.book)
  {
    hide Encode, Word, ReadLevels;
    if Fits(f.book) {
      FittingBack(f);
    }
  }

  /** Different messages that fit never share an encoding. */
  lemma FeedInjective(f: Feed, g: Feed)
    requires Fits(f.book) && Fits(g.book) && Encode(f) == Encode(g)
    ensures f == g
  {
    hide Encode, Decode;
    FeedRoundTrip(f);
    FeedRoundTrip(g);
  }

  // ---------- The bytes of a message ----------

  lemma {:induction false} LevelsAt(levels: seq<PriceLevel>, i: nat)
    requires i < |levels|
    ensures LevelsBytes(levels)[16 * i..16 * i + 16] == LevelBytes(levels[i])
  {
    hide LevelBytes;
    var n := |levels| - 1;
    if i < n {
      LevelsAt(levels[..n], i);
      assert LevelsBytes(levels)[16 * i..16 * i + 16] == LevelsBytes(levels[..n])[16 * i..16 * i + 16];
    }
  }

  lemma MagicBytes()
    ensures ToBE(0x48465444, 4) == [0x48, 0x46, 0x54, 0x44] && ToBE(1, 2) == [0, 1]
  {
    assert ToBE(0x48, 1) == [0x48] && ToBE(0x4846, 2) == [0x48, 0x46] && ToBE(0x484654, 3) == [0x48, 0x46, 0x54];
    assert ToBE(0, 1) == [0];
  }

  /** Parts of a message by their offsets. */
  lemma FeedParts(f: Feed)
    ensures var s, b := Encode(f), f.book;
            var bidsAt := 24 + |b.instrument|;
            var asksAt := bidsAt + 16 * |b.bids|;
            && |s| == asksAt + 16 * |b.asks|
            && s[..24] == HeaderBytes(f) && s[24..bidsAt] == b.instrument
            && s[bidsAt..asksAt] == LevelsBytes(b.bids) && s[asksAt..] == LevelsBytes(b.asks)
  {
    hide HeaderBytes, LevelsBytes;
  }

  /**
   * The header byte by byte: the letters HFTD, version 1, message type 1 for a snapshot and 2 for an update, the
   * exchange, the time, and the three lengths, all in network order; then the symbol.
   */
  lemma HeaderLayout(f: Feed)
    ensures var s, n := Encode(f), |f.book.instrument|;
            && |s| == 24 + n + 16 * (|f.book.bids| + |f.book.asks|)
            && s[0..4] == [0x48, 0x46, 0x54, 0x44] && s[4] == 0 && s[5] == 1
            && s[6] == (if f.book.isSnapshot then 1 else 2) && s[7] == f.exchange
            && s[8..16] == ToBE(f.timestamp, 8)
            && s[16..20] == ToBE(n % 0x1_0000_0000, 4)
            && s[20..22] == ToBE(|f.book.bids| % 0x1_0000, 2) && s[22..24] == ToBE(|f.book.asks| % 0x1_0000, 2)
            && s[24..24 + n] == f.book.instrument
  {
    MagicBytes();
    HeaderSlices(f);
    FeedParts(f);
    hide Encode, HeaderBytes, ToBE;
    var s, h := Encode(f), HeaderBytes(f);
    assert s[0..4] == h[0..4] && s[4..6] == h[4..6] && s[8..16] == h[8..16];
    assert s[16..20] == h[16..20] && s[20..22] == h[20..22] && s[22..24] == h[22..24];
    assert s[4] == s[4..6][0] && s[5] == s[4..6][1] && s[6] == h[6] && s[7] == h[7];
  }

  /** Every level by its offset: the bids behind the symbol, then the asks, each price before its quantity. */
  lemma LevelLayout(f: Feed, isBid: bool, i: nat)
    requires i < if isBid then |f.book.bids| else |f.book.asks|
    ensures var s, l := Encode(f), if isBid then f.book.bids[i] else f.book.asks[i];
            var at := 24 + |f.book.instrument| + 16 * (if isBid then i else |f.book.bids| + i);
            && at + 16 <= |s|
            && s[at..at + 8] == ToBE(l.price, 8) && s[at + 8..at + 16] == ToBE(l.quantityBits, 8)
  {
    FeedParts(f);
    hide Encode, HeaderBytes, ToBE, LevelsBytes;
    var s, levels := Encode(f), if isBid then f.book.bids else f.book.asks;
    LevelsAt(levels, i);
    var from := 24 + |f.book.instrument| + if isBid then 0 else 16 * |f.book.bids|;
    var part := LevelsBytes(levels);
    assert s[from..from + |part|] == part;
    SliceWithin(s, from, part, 16 * i, 8);
    SliceWithin(s, from, part, 16 * i + 8, 8);
    SliceWithin(part, 16 * i, LevelBytes(levels[i]), 0, 8);
    SliceWithin(part, 16 * i, LevelBytes(levels[i]), 8, 8);
  }

  lemma SliceWithin(s: seq<Byte>, from: nat, part: seq<Byte>, at: nat, n: nat)
    requires from + |part| <= |s| && s[from..from + |part|] == part && at + n <= |part|
    ensures s[from + at..from + at + n] == part[at..at + n]
  {
    assert forall k :: 0 <= k < |part| ==> part[k] == s[from + k] by {
      forall k | 0 <= k < |part| ensures part[k] == s[from + k] { assert s[from..from + |part|][k] == s[from + k]; }
    }
  }
}
