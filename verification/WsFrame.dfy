/** WebSocket frames (RFC 6455 sections 5.2 and 5.3): two encoders, the decoder, and how they fit together. */
module WsFrame {
  import opened Buffers
  import opened Words

  type Key = s: seq<Byte> | |s| == 4 witness [0, 0, 0, 0]

  /** The string of a message; its length is a size that fits in memory. */
  type Payload = s: seq<Byte> | |s| < 0x8000_0000_0000_0000

  // ---------- The encoder's frame ----------

  /** Bytes of extended length that the encoder uses. */
  function ExtLen(n: nat): (k: nat) {
    if n < 126 then 0 else if n <= 65535 then 2 else 8
  }

  /** The second byte and the extended length, for a mask bit of 0 or 128. */
  function LengthField(mask: bool, k: nat, n: nat): (s: seq<Byte>)
    requires k in {0, 2, 8} && (k == 0 ==> n <= 125)
    ensures |s| == 1 + k
  {
    var bit := if mask then 128 else 0;
    if k == 0 then [bit + n] else if k == 2 then [bit + 126] + ToBE(n, 2) else [bit + 127] + ToBE(n, 8)
  }

  /** The payload with byte i exclusive-ored with key byte i mod 4. */
  function Masked(payload: seq<Byte>, key: Key): (s: seq<Byte>)
    ensures |s| == |payload|
  {
    seq(|payload|, i requires 0 <= i < |payload| => Xor(payload[i], key[i % 4]))
  }

  function KeyAndBody(payload: seq<Byte>, mask: bool, key: Key): (s: seq<Byte>) {
    if mask then key + Masked(payload, key) else payload
  }

  /** What `frame_message` writes. */
  function Encode(payload: Payload, opcode: Byte, mask: bool, key: Key): (s: seq<Byte>)
    ensures |s| == 2 + ExtLen(|payload|) + (if mask then 4 else 0) + |payload|
  {
    [128 + opcode % 16] + LengthField(mask, ExtLen(|payload|), |payload|) + KeyAndBody(payload, mask, key)
  }

  // ---------- The decoder ----------

  /** `Overrun`: the length check passed although the payload does not end inside the data. */
  datatype Decoded = Incomplete | Overrun | Frame(fin: bool, opcode: Byte, payload: seq<Byte>)

  /** The payload length a header claims, and the size of its extended length. */
  function ReadLength(d: seq<Byte>): (r: Option<(nat, nat)>)
    ensures r.Some? ==> r.value.1 in {0, 2, 8} && 2 + r.value.1 <= |d|
  {
    if |d| < 2 then None
    else
      var n := d[1] % 128;
      if n <= 125 then Some((n, 0))
      else if n == 126 then if |d| < 4 then None else Some((FromBE(d[2..4]), 2))
      else if |d| < 10 then None else Some((FromBE(d[2..10]), 8))
  }

  /** The decoding part of `process_websocket_frame`; sizes are 64-bit sums. */
  function Decode(d: seq<Byte>): (r: Decoded)
    ensures r.Frame? ==> ReadLength(d).Some? && |r.payload| == ReadLength(d).value.0
  {
    match ReadLength(d)
    case None => Incomplete
    case Some((n, k)) =>
      var masked := d[1] >= 128;
      var body := 2 + k + if masked then 4 else 0;
      if |d| < (body + n) % 0x1_0000_0000_0000_0000 then Incomplete
      else if |d| < body + n then Overrun
      else if masked then Frame(d[0] >= 128, d[0] % 16, Masked(d[body..body + n], d[2 + k..6 + k]))
      else Frame(d[0] >= 128, d[0] % 16, d[body..body + n])
  }

  // ---------- Round trip ----------

  lemma MaskTwice(payload: seq<Byte>, key: Key)
    ensures Masked(Masked(payload, key), key) == payload
  {
    hide Xor;
    forall i | 0 <= i < |payload| ensures Masked(Masked(payload, key), key)[i] == payload[i] {
      XorTwice(payload[i], key[i % 4]);
    }
  }

  /** A written length field is read back, whatever stands around it. */
  lemma LengthBack(first: Byte, mask: bool, k: nat, n: nat, rest: seq<Byte>)
    requires k in {0, 2, 8} && (if k == 0 then n <= 125 else n < Pow256(k))
    ensures var d := [first] + LengthField(mask, k, n) + rest;
            ReadLength(d) == Some((n, k)) && (d[1] >= 128 <==> mask) && d[0] == first && d[2 + k..] == rest
  {
    hide ToBE, FromBE;
    var d := [first] + LengthField(mask, k, n) + rest;
    assert d[2 + k..] == rest;
    if k > 0 {
      FromToBE(n, k);
      assert d[2..2 + k] == ToBE(n, k);
    }
  }

  lemma PayloadBound(n: nat)
    requires n < 0x8000_0000_0000_0000
    ensures if ExtLen(n) == 0 then n <= 125 else n < Pow256(ExtLen(n))
  {
    Pow256Values();
  }

  lemma SliceOfRest(d: seq<Byte>, a: nat, i: nat, j: nat)
    requires i <= j && a + j <= |d|
    ensures d[a + i..a + j] == d[a..][i..j]
  {
  }

  /** A decoder that has read the length and finds key and body behind it returns the payload. */
  lemma DecodeParts(d: seq<Byte>, k: nat, payload: Payload, mask: bool, key: Key, tail: seq<Byte>)
    requires ReadLength(d) == Some((|payload|, k)) && (d[1] >= 128 <==> mask)
    requires d[2 + k..] == KeyAndBody(payload, mask, key) + tail
    ensures Decode(d) == Frame(d[0] >= 128, d[0] % 16, payload)
  {
    hide ReadLength, Masked, KeyAndBody;
    var n := |payload|;
    BodyParts(payload, mask, key, tail);
    if mask {
      SliceOfRest(d, 2 + k, 0, 4);
      SliceOfRest(d, 2 + k, 4, 4 + n);
      MaskTwice(payload, key);
    } else {
      SliceOfRest(d, 2 + k, 0, n);
    }
  }

  lemma BodyParts(payload: Payload, mask: bool, key: Key, tail: seq<Byte>)
    ensures var rest, n := KeyAndBody(payload, mask, key) + tail, |payload|;
            && |rest| >= n + (if mask then 4 else 0)
            && (if mask then rest[0..4] == key && rest[4..4 + n] == Masked(payload, key) else rest[0..n] == payload)
  {
    hide Masked;
  }

  /**
   * Round trip: decoding an encoded frame, whatever follows it, gives back the opcode and the payload.
   */
  lemma FrameRoundTrip(payload: Payload, opcode: Byte, mask: bool, key: Key, tail: seq<Byte>)
    ensures Decode(Encode(payload, opcode, mask, key) + tail) == Frame(true, opcode % 16, payload)
  {
    hide LengthField, ReadLength, Masked, KeyAndBody, Decode;
    var n, k := |payload|, ExtLen(|payload|);
    var rest := KeyAndBody(payload, mask, key) + tail;
    PayloadBound(n);
    LengthBack(128 + opcode % 16, mask, k, n, rest);
    assert Encode(payload, opcode, mask, key) + tail == [128 + opcode % 16] + LengthField(mask, k, n) + rest;
    DecodeParts(Encode(payload, opcode, mask, key) + tail, k, payload, mask, key, tail);
  }

  /** Every strict prefix of a frame is told incomplete. */
  lemma StrictPrefixIncomplete(payload: Payload, opcode: Byte, mask: bool, key: Key, m: nat)
    requires m < |Encode(payload, opcode, mask, key)|
    ensures Decode(Encode(payload, opcode, mask, key)[..m]) == Incomplete
  {
    hide Masked, ReadLength, LengthField, KeyAndBody;
    var n, k := |payload|, ExtLen(|payload|);
    var d := Encode(payload, opcode, mask, key);
    var rest := KeyAndBody(payload, mask, key);
    PayloadBound(n);
    LengthBack(128 + opcode % 16, mask, k, n, rest);
    PrefixLength(d, m);
  }

  /** Reading the length from a prefix: not enough data, or the same answer. */
  lemma PrefixLength(d: seq<Byte>, m: nat)
    requires m <= |d|
    ensures ReadLength(d[..m]) == None || ReadLength(d[..m]) == ReadLength(d)
  {
    hide FromBE;
    if m >= 4 { assert d[..m][2..4] == d[2..4]; }
    if m >= 10 { assert d[..m][2..10] == d[2..10]; }
  }

  /** The encoder's length field is the shortest one from which the same length can be read. */
  lemma ShortestLength(d: seq<Byte>)
    ensures ReadLength(d).Some? ==> ReadLength(d).value.1 >= ExtLen(ReadLength(d).value.0)
  {
    Pow256Values();
    hide FromBE;
  }

  /** The size of the whole frame that a header announces. */
  function FrameSize(d: seq<Byte>): nat
    requires ReadLength(d).Some?
  {
    2 + ReadLength(d).value.1 + (if d[1] >= 128 then 4 else 0) + ReadLength(d).value.0
  }

  lemma FrameSizeBound(d: seq<Byte>)
    requires ReadLength(d).Some?
    ensures FrameSize(d) < TWO64 + 14
  {
    Pow256Values();
    hide FromBE;
  }

  /**
   * The decoder's length check. It lets a frame through that does not end inside the data exactly if the 64-bit sum
   * wraps and the data reaches what is left of it; in that case and only in that case the check is not the intended
   * one, which tells a frame incomplete if and only if its size is not there. Lengths that RFC 6455 allows (most
   * significant bit 0) never wrap.
   */
  lemma GuardExact(d: seq<Byte>)
    requires ReadLength(d).Some? && |d| < 0x8000_0000_0000_0000
    ensures Decode(d) == Overrun <==> FrameSize(d) >= TWO64 && |d| >= FrameSize(d) - TWO64
    ensures (Decode(d) == Incomplete <==> |d| < FrameSize(d))
            <==> !(FrameSize(d) >= TWO64 && |d| >= FrameSize(d) - TWO64)
    ensures ReadLength(d).value.0 < 0x8000_0000_0000_0000 ==> FrameSize(d) < TWO64
  {
    FrameSizeBound(d);
    hide FromBE, Masked, ReadLength;
  }

  function AllOnes(k: nat): (s: seq<Byte>)
    ensures |s| == k
  {
    if k == 0 then [] else AllOnes(k - 1) + [255]
  }

  lemma {:induction false} AllOnesBE(k: nat)
    ensures FromBE(AllOnes(k)) == Pow256(k) - 1
  {
    if k > 0 {
      AllOnesBE(k - 1);
      assert AllOnes(k)[..k - 1] == AllOnes(k - 1);
    }
  }

  /** A header that claims the greatest length: with its masking key it passes the check, without it is incomplete. */
  lemma OverrunInput()
    ensures var header := [129, 255] + AllOnes(8);
            Decode(header) == Incomplete && Decode(header + [0, 0, 0, 0]) == Overrun
  {
    Pow256Values();
    AllOnesBE(8);
    hide AllOnes, FromBE, Masked;
    var header := [129, 255] + AllOnes(8);
    assert header[2..10] == AllOnes(8) && (header + [0, 0, 0, 0])[2..10] == AllOnes(8);
  }

  // ---------- The bytes of a frame, one by one ----------

  /** Eight bytes of n, the one of the greatest weight first. */
  predicate Weighted(s: seq<Byte>, n: nat) {
    && |s| == 8
    && n < 0x1_0000_0000_0000_0000
    && forall j :: 0 <= j < 8 ==> s[j] == n / Pow256(7 - j) % 256
  }

  /** The length n stands in d as section 5.2 lays it out: seven bits, or 126 and two bytes, or 127 and eight. */
  predicate LengthStands(d: seq<Byte>, n: nat) {
    && |d| >= 2
    && d[1] % 128 == (if n <= 125 then n else if n <= 65535 then 126 else 127)
    && (126 <= n <= 65535 ==> |d| >= 4 && d[2] == n / 256 && d[3] == n % 256)
    && (n > 65535 ==> |d| >= 10 && Weighted(d[2..10], n))
  }

  /** Header length at which the payload starts. */
  function BodyAt(n: nat, mask: bool): nat {
    (if n <= 125 then 2 else if n <= 65535 then 4 else 10) + (if mask then 4 else 0)
  }

  /** Sections 5.2 and 5.3 byte by byte: a final frame, its masked bytes exclusive-ored with the key before them. */
  predicate IsFrame(d: seq<Byte>, payload: Payload, opcode: Byte, mask: bool, key: Key) {
    var n, h := |payload|, BodyAt(|payload|, mask);
    && |d| == h + n
    && d[0] == 128 + opcode % 16
    && LengthStands(d, n)
    && (d[1] >= 128 <==> mask)
    && (mask ==> d[h - 4] == key[0] && d[h - 3] == key[1] && d[h - 2] == key[2] && d[h - 1] == key[3])
    && forall i :: 0 <= i < n ==> d[h + i] == if mask then Xor(payload[i], d[h - 4 + i % 4]) else payload[i]
  }

  lemma ToBEWeighted(n: nat)
    requires n < 0x1_0000_0000_0000_0000
    ensures Weighted(ToBE(n, 8), n)
  {
    forall j | 0 <= j < 8 ensures ToBE(n, 8)[j] == n / Pow256(7 - j) % 256 { ByteAt(n, 8, j); }
  }

  /** No other bytes denote n in network order. */
  lemma WeightedIs(s: seq<Byte>, n: nat)
    requires Weighted(s, n)
    ensures s == ToBE(n, 8) && FromBE(s) == n
  {
    ToBEWeighted(n);
    Pow256Values();
    FromToBE(n, 8);
    hide ToBE, FromBE;
  }

  lemma ToBE2(n: nat)
    requires n < 0x1_0000
    ensures ToBE(n, 2) == [n / 256, n % 256]
  {
    assert ToBE(n / 256, 1) == [n / 256];
  }

  lemma LengthFieldBytes(first: Byte, mask: bool, n: nat, rest: seq<Byte>)
    requires n < 0x8000_0000_0000_0000
    ensures LengthStands([first] + LengthField(mask, ExtLen(n), n) + rest, n)
  {
    hide ToBE, Weighted;
    var k := ExtLen(n);
    var d := [first] + LengthField(mask, k, n) + rest;
    if k == 2 { ToBE2(n); }
    if k == 8 {
      ToBEWeighted(n);
      assert d[2..10] == ToBE(n, 8);
    }
  }

  /** What the encoder writes is that frame. */
  lemma EncodeIsFrame(payload: Payload, opcode: Byte, mask: bool, key: Key)
    ensures IsFrame(Encode(payload, opcode, mask, key), payload, opcode, mask, key)
  {
    var n := |payload|;
    var rest := KeyAndBody(payload, mask, key);
    LengthFieldBytes(128 + opcode % 16, mask, n, rest);
    hide ToBE, LengthStands, Xor;
  }

  /** The header at the start of d says n bytes of payload and has k bytes of extended length. */
  predicate Announces(d: seq<Byte>, n: nat, k: nat) {
    && |d| >= 2 + k
    && if d[1] % 128 <= 125 then k == 0 && n == d[1] % 128
       else if d[1] % 128 == 126 then k == 2 && n < 0x1_0000 && d[2] == n / 256 && d[3] == n % 256
       else k == 8 && Weighted(d[2..10], n)
  }

  lemma AnnouncedIsRead(d: seq<Byte>, n: nat, k: nat)
    requires Announces(d, n, k)
    ensures ReadLength(d) == Some((n, k))
  {
    hide Weighted, FromBE;
    if k == 2 {
      assert d[2..4] == [d[2], d[3]];
      TwoBytes(d[2], d[3]);
    } else if k == 8 {
      WeightedIs(d[2..10], n);
    }
  }

  /**
   * Reading a frame byte by byte, masked or not and with the length in any of the three forms: it is taken exactly if
   * the data holds all the bytes its header announces, and byte i of the payload is byte i behind the header,
   * exclusive-ored with byte i mod 4 of the key that ends the header if the mask bit is set.
   */
  lemma DecodeExact(d: seq<Byte>, n: nat, k: nat)
    requires Announces(d, n, k)
    ensures var r, h := Decode(d), 2 + k + if d[1] >= 128 then 4 else 0;
            && (r.Frame? <==> |d| >= h + n)
            && (r == Incomplete <==> |d| < (h + n) % 0x1_0000_0000_0000_0000)
            && (r.Frame? ==>
                  && (r.fin <==> d[0] >= 128)
                  && r.opcode == d[0] % 16
                  && |r.payload| == n
                  && forall i :: 0 <= i < n ==>
                       r.payload[i] == if d[1] >= 128 then Xor(d[h + i], d[h - 4 + i % 4]) else d[h + i])
  {
    AnnouncedIsRead(d, n, k);
    hide ReadLength, Announces, Xor;
  }

  /** There is always such a header except in data that is too short for one, which is told incomplete. */
  lemma HeaderOrIncomplete(d: seq<Byte>)
    ensures Decode(d) == Incomplete || exists n, k :: Announces(d, n, k)
    ensures (exists n, k :: Announces(d, n, k))
            <==> |d| >= 2 && (d[1] % 128 == 126 ==> |d| >= 4) && (d[1] % 128 == 127 ==> |d| >= 10)
  {
    hide Weighted, FromBE;
    if |d| >= 2 && (d[1] % 128 == 126 ==> |d| >= 4) && (d[1] % 128 == 127 ==> |d| >= 10) {
      if d[1] % 128 <= 125 {
        assert Announces(d, d[1] % 128, 0);
      } else if d[1] % 128 == 126 {
        var n: nat := (d[2] as int) * 256 + d[3];
        assert Announces(d, n, 2);
      } else {
        var s := d[2..10];
        Pow256Values();
        ToFromBE(s);
        ToBEWeighted(FromBE(s));
        assert Announces(d, FromBE(s), 8);
      }
    }
  }

  // ---------- frame_message ----------

  /** The masking loop. */
  method CopyMasked(buffer: array<Byte>, at: nat, payload: seq<Byte>, key: Key)
    requires at + |payload| <= buffer.Length
    modifies buffer
    ensures buffer[..] == Patch(old(buffer[..]), at, Masked(payload, key))
  {
    hide Xor;
    var i := 0;
    while i < |payload|
      invariant 0 <= i <= |payload|
      invariant forall j :: 0 <= j < buffer.Length ==>
                  buffer[j] == if at <= j < at + i then Xor(payload[j - at], key[(j - at) % 4]) else old(buffer[j])
    {
      buffer[at + i] := Xor(payload[i], key[i % 4]);
      i := i + 1;
    }
    assert buffer[..] == Patch(old(buffer[..]), at, Masked(payload, key));
  }

  /**
   * `frame_message`: 0 and an untouched buffer if the frame does not fit; otherwise exactly the returned number
   * of bytes is written, and they are the frame.
   */
  method FrameMessage(buffer: array<Byte>, payload: Payload, opcode: Byte, mask: bool, key: Key) returns (written: nat)
    modifies buffer
    ensures var frame := Encode(payload, opcode, mask, key);
            if |frame| > buffer.Length then written == 0 && buffer[..] == old(buffer[..])
            else written == |frame| && buffer[..] == frame + old(buffer[|frame|..])
    ensures written > 0 <==> BodyAt(|payload|, mask) + |payload| <= buffer.Length
    ensures written > 0 ==> IsFrame(buffer[..written], payload, opcode, mask, key)
  {
    hide Masked, ToBE, Xor, LengthField, Patch, IsFrame;
    EncodeIsFrame(payload, opcode, mask, key);
    var payloadLen := |payload|;
    var headerLen := 2;
    if payloadLen >= 126 {
      if payloadLen <= 65535 {
        headerLen := headerLen + 2;
      } else {
        headerLen := headerLen + 8;
      }
    }
    if mask {
      headerLen := headerLen + 4;
    }
    if headerLen + payloadLen > buffer.Length {
      return 0;
    }
    ghost var before := buffer[..];
    var offset := WriteHeader(buffer, payloadLen, opcode, mask);
    ghost var header := [128 + opcode % 16] + LengthField(mask, ExtLen(payloadLen), payloadLen);
    ghost var body := KeyAndBody(payload, mask, key);
    PatchAfter(header, before, body);
    WriteBody(buffer, offset, payload, mask, key);
    written := headerLen + payloadLen;
  }

  lemma PatchAfter(header: seq<Byte>, before: seq<Byte>, body: seq<Byte>)
    requires |header| + |body| <= |before|
    ensures Patch(header + before[|header|..], |header|, body) == header + body + before[|header| + |body|..]
  {
    assert before[|header|..][|body|..] == before[|header| + |body|..];
  }

  lemma PatchTwice(s: seq<Byte>, at: nat, f: seq<Byte>, g: seq<Byte>)
    requires at + |f| + |g| <= |s|
    ensures Patch(Patch(s, at, f), at + |f|, g) == Patch(s, at, f + g)
  {
  }

  /** The masking key and the masked payload, or the plain payload. */
  method WriteBody(buffer: array<Byte>, offset: nat, payload: Payload, mask: bool, key: Key)
    requires offset + |KeyAndBody(payload, mask, key)| <= buffer.Length
    modifies buffer
    ensures buffer[..] == Patch(old(buffer[..]), offset, KeyAndBody(payload, mask, key))
  {
    hide Masked, Patch;
    if mask {
      PatchTwice(buffer[..], offset, key, Masked(payload, key));
      Blit(buffer, offset, key);
      CopyMasked(buffer, offset + 4, payload, key);
    } else {
      Blit(buffer, offset, payload);
    }
  }

  method WriteHeader(buffer: array<Byte>, payloadLen: nat, opcode: Byte, mask: bool) returns (offset: nat)
    requires 2 + ExtLen(payloadLen) <= buffer.Length
    modifies buffer
    ensures offset == 2 + ExtLen(payloadLen)
    ensures buffer[..]
         == [128 + opcode % 16] + LengthField(mask, ExtLen(payloadLen), payloadLen) + old(buffer[..])[offset..]
  {
    hide ToBE;
    buffer[0] := 128 + opcode % 16;
    offset := 1;
    var bit := if mask then 128 else 0;
    if payloadLen < 126 {
      buffer[offset] := bit + payloadLen;
      offset := offset + 1;
    } else if payloadLen <= 65535 {
      buffer[offset] := bit + 126;
      offset := offset + 1;
      Blit(buffer, offset, ToBE(payloadLen, 2));
      offset := offset + 2;
    } else {
      buffer[offset] := bit + 127;
      offset := offset + 1;
      Blit(buffer, offset, ToBE(payloadLen, 8));
      offset := offset + 8;
    }
  }

  // ---------- generate_websocket_frame ----------

  function Reverse(s: seq<Byte>): (r: seq<Byte>)
    ensures |r| == |s|
  {
    if s == [] then [] else Reverse(s[1..]) + [s[0]]
  }

  /** `rte_cpu_to_be` on a little-endian host. */
  function ByteSwap(n: nat, k: nat): nat { FromBE(Reverse(ToBE(n, k))) }

  /** n shifted right by i bytes. */
  function ShiftBytes(n: nat, i: nat): nat {
    if i == 0 then n else ShiftBytes(n / 256, i - 1)
  }

  lemma {:induction false} DigitAt(n: nat, k: nat, j: nat)
    requires j < k
    ensures ToBE(n, k)[j] == ShiftBytes(n, k - 1 - j) % 256
  {
    if j < k - 1 {
      DigitAt(n / 256, k - 1, j);
    }
  }

  /** The frame of `generate_websocket_frame`: always masked, the length swapped and then pushed high byte first. */
  function Generated(payload: Payload, opcode: Byte, fin: bool, key: Key): (s: seq<Byte>) {
    var k := ExtLen(|payload|);
    var n := if k == 0 then |payload| else ByteSwap(|payload|, k);
    [(if fin then 128 else 0) + opcode % 16] + LengthField(true, k, n) + key + Masked(payload, key)
  }

  lemma {:induction false} ReverseAt(s: seq<Byte>, j: nat)
    requires j < |s|
    ensures Reverse(s)[j] == s[|s| - 1 - j]
  {
    if j < |s| - 1 { ReverseAt(s[1..], j); }
  }

  /** A swapped number, written in network order, has its lowest byte first. */
  lemma SwappedBytes(n: nat, k: nat, j: nat)
    requires j < k
    ensures ToBE(ByteSwap(n, k), k)[j] == n / Pow256(j) % 256
  {
    ToFromBE(Reverse(ToBE(n, k)));
    ReverseAt(ToBE(n, k), j);
    ByteAt(n, k, k - 1 - j);
    hide ToBE, FromBE, Reverse;
  }

  /** The eight bytes of n with the lowest first. */
  predicate LowestFirst(s: seq<Byte>, n: nat) {
    |s| == 8 && forall j :: 0 <= j < 8 ==> s[j] == n / Pow256(j) % 256
  }

  lemma SwappedLong(n: nat)
    ensures LowestFirst(ToBE(ByteSwap(n, 8), 8), n)
  {
    hide ByteSwap, ToBE;
    forall j | 0 <= j < 8 ensures ToBE(ByteSwap(n, 8), 8)[j] == n / Pow256(j) % 256 { SwappedBytes(n, 8, j); }
  }

  lemma SwappedShort(n: nat)
    requires n < 0x1_0000
    ensures ToBE(ByteSwap(n, 2), 2) == [n % 256, n / 256]
  {
    hide Pow256, ByteSwap;
    ToBE2(n);
    var s := ToBE(n, 2);
    ReverseAt(s, 0);
    ReverseAt(s, 1);
    ToFromBE(Reverse(s));
    hide ToBE, FromBE, Reverse;
    assert ByteSwap(n, 2) == FromBE(Reverse(s)) by { ByteSwapIs(n, 2); }
  }

  lemma ByteSwapIs(n: nat, k: nat)
    ensures ByteSwap(n, k) == FromBE(Reverse(ToBE(n, k)))
  {
  }

  /**
   * The second encoder's frame byte by byte, on a little-endian host: the same header, always with a key, but the
   * bytes of an extended length stand lowest first.
   */
  lemma GeneratedBytes(payload: Payload, opcode: Byte, fin: bool, key: Key)
    ensures var d, n, h := Generated(payload, opcode, fin, key), |payload|, BodyAt(|payload|, true);
            && |d| == h + n
            && d[0] == (if fin then 128 else 0) + opcode % 16
            && d[1] == 128 + (if n <= 125 then n else if n <= 65535 then 126 else 127)
            && (126 <= n <= 65535 ==> d[2] == n % 256 && d[3] == n / 256)
            && (n > 65535 ==> LowestFirst(d[2..10], n))
            && d[h - 4] == key[0] && d[h - 3] == key[1] && d[h - 2] == key[2] && d[h - 1] == key[3]
            && forall i :: 0 <= i < n ==> d[h + i] == Xor(payload[i], d[h - 4 + i % 4])
  {
    hide Xor, ByteSwap, ToBE, LowestFirst;
    var d, n := Generated(payload, opcode, fin, key), |payload|;
    if 126 <= n <= 65535 {
      SwappedShort(n);
    } else if n > 65535 {
      SwappedLong(n);
      assert d[2..10] == ToBE(ByteSwap(n, 8), 8);
    }
  }

  method GenerateWebsocketFrame(payload: Payload, opcode: Byte, fin: bool, key: Key) returns (frame: seq<Byte>)
    ensures frame == Generated(payload, opcode, fin, key)
  {
    hide ByteSwap, ToBE, Xor;
    var n := |payload|;
    frame := [(if fin then 128 else 0) + opcode % 16];
    ghost var first := frame;
    if n <= 125 {
      frame := frame + [128 + n];
    } else if n <= 0xFFFF {
      var len16 := ByteSwap(n, 2);
      DigitAt(len16, 2, 0);
      DigitAt(len16, 2, 1);
      frame := frame + [128 + 126];
      frame := frame + [ShiftBytes(len16, 1) % 256];
      frame := frame + [ShiftBytes(len16, 0) % 256];
      assert ToBE(len16, 2) == [ShiftBytes(len16, 1) % 256, ShiftBytes(len16, 0) % 256];
    } else {
      var len64 := ByteSwap(n, 8);
      frame := frame + [128 + 127];
      var i := 8;
      while i > 0
        invariant 0 <= i <= 8
        invariant frame == first + [255] + ToBE(len64, 8)[..8 - i]
      {
        i := i - 1;
        DigitAt(len64, 8, 7 - i);
        frame := frame + [ShiftBytes(len64, i) % 256];
      }
    }
    frame := frame + key;
    ghost var header := frame;
    assert header == first + LengthField(true, ExtLen(n), if n <= 125 then n else ByteSwap(n, ExtLen(n))) + key;
    var i := 0;
    while i < n
      invariant 0 <= i <= n
      invariant frame == header + Masked(payload, key)[..i]
    {
      frame := frame + [Xor(payload[i], key[i % 4])];
      i := i + 1;
    }
  }

  /** A length that reads the same from both ends. */
  predicate Palindrome(n: nat) {
    ExtLen(n) > 0 ==> ToBE(n, ExtLen(n)) == Reverse(ToBE(n, ExtLen(n)))
  }

  lemma SwapFixes(n: nat, k: nat)
    requires n < Pow256(k)
    ensures ByteSwap(n, k) == n <==> ToBE(n, k) == Reverse(ToBE(n, k))
    ensures ByteSwap(n, k) < Pow256(k)
  {
    hide Reverse, ToBE, FromBE;
    ToFromBE(Reverse(ToBE(n, k)));
    FromToBE(n, k);
  }

  /**
   * On a little-endian host the two encoders agree, and the second one's frames can be read back, exactly for
   * payloads of at most 125 bytes and for longer ones whose length bytes are a palindrome.
   */
  lemma GeneratedExact(payload: Payload, opcode: Byte, key: Key, tail: seq<Byte>)
    ensures Generated(payload, opcode, true, key) == Encode(payload, opcode, true, key) <==> Palindrome(|payload|)
    ensures Decode(Generated(payload, opcode, true, key) + tail) == Frame(true, opcode % 16, payload)
            <==> Palindrome(|payload|)
  {
    hide Masked, ToBE, ReadLength, LengthField, ByteSwap, Decode, Reverse, Encode, Generated;
    var n, k := |payload|, ExtLen(|payload|);
    var c := if k == 0 then n else ByteSwap(n, k);
    var g, e := Generated(payload, opcode, true, key), Encode(payload, opcode, true, key);
    PayloadBound(n);
    if k > 0 { SwapFixes(n, k); }
    GeneratedLength(payload, opcode, key, tail);
    GeneratedLength(payload, opcode, key, []);
    assert g + [] == g && e + [] == e;
    FrameRoundTrip(payload, opcode, true, key, tail);
    FrameRoundTrip(payload, opcode, true, key, []);
  }

  /** What a decoder takes the length of a generated frame to be; without a swap effect the frames are equal. */
  lemma GeneratedLength(payload: Payload, opcode: Byte, key: Key, tail: seq<Byte>)
    ensures var n, k := |payload|, ExtLen(|payload|);
            var c := if k == 0 then n else ByteSwap(n, k);
            && ReadLength(Generated(payload, opcode, true, key) + tail) == Some((c, k))
            && (c == n ==> Generated(payload, opcode, true, key) == Encode(payload, opcode, true, key))
  {
    hide Masked, ToBE, ReadLength, LengthField, ByteSwap, Reverse;
    var n, k := |payload|, ExtLen(|payload|);
    var c := if k == 0 then n else ByteSwap(n, k);
    var rest := key + Masked(payload, key) + tail;
    PayloadBound(n);
    if k > 0 { SwapFixes(n, k); }
    LengthBack(128 + opcode % 16, true, k, c, rest);
    assert Generated(payload, opcode, true, key) + tail == [128 + opcode % 16] + LengthField(true, k, c) + rest;
    if c == n {
      var frame := [128 + opcode % 16] + LengthField(true, k, n) + (key + Masked(payload, key));
      assert Encode(payload, opcode, true, key) == frame && Generated(payload, opcode, true, key) == frame;
    }
  }

  /** Payloads of at most 125 bytes are always in the good case, one of 126 bytes is not. */
  lemma PalindromeCases()
    ensures forall n :: 0 <= n <= 125 ==> Palindrome(n)
    ensures !Palindrome(126)
  {
    assert ToBE(126, 2) == [0, 126] by {
      assert ToBE(0, 1) == [0];
    }
    assert [0, 126][1..] == [126] && [126][1..] == [];
    assert Reverse([126]) == [126];
    assert Reverse([0, 126]) == [126, 0];
    assert [0, 126][0] != [126, 0][0];
  }
}
