/**
 * One UDP datagram of the DCA1000 capture link, as `DCA1000._read_data_packet`
 * takes it apart: a 4-byte little-endian signed sequence number, a 6-byte
 * little-endian byte counter, and a payload of little-endian 16-bit words that
 * are reinterpreted as signed samples.
 */
module CapturePacket {
  import opened Wrappers
  import opened ByteCodec

  /** Bytes before the payload: sequence number (4) and byte counter (6). */
  const HEADER_BYTES: nat := 10

  /** A decoded datagram. Samples are the int16 values the source carries in float32, which are exact. */
  datatype Packet = Packet(packetNum: int, byteCount: nat, payload: seq<int>)

  /** The exceptions decoding can raise: struct.error for a short header, ValueError for an odd payload. */
  datatype DecodeError = ShortHeader | OddPayload

  /** `struct.unpack('<1l', data[:4])`. */
  function SequenceNumber(data: seq<Byte>): (n: int)
    requires |data| >= 4
    ensures -0x8000_0000 <= n < 0x8000_0000
    ensures n % 0x1_0000_0000 == LittleEndian(data[..4])
  {
    Pow256Values();
    Int32(LittleEndian(data[..4]))
  }

  /** `struct.unpack('>Q', b'\x00\x00' + data[4:10][::-1])`: the six counter bytes reversed and read big-endian. */
  function ByteCounter(data: seq<Byte>): (c: nat)
    requires |data| >= HEADER_BYTES
    ensures c == LittleEndian(data[4..10])
    ensures c < 0x1_0000_0000_0000
  {
    var counter := data[4..10];
    BigEndianZeroPrefix([0] + Reverse(counter));
    BigEndianZeroPrefix(Reverse(counter));
    assert [0, 0] + Reverse(counter) == [0] + ([0] + Reverse(counter));
    BigEndianOfReverse(counter);
    Pow256Values();
    BigEndian([0, 0] + Reverse(counter))
  }

  /**
   * Lines 128-129: little-endian uint16 words, cast to float32, then to int16, then back
   * to float32. A word of 0x8000 or more is out of int16 range in the float32 to int16
   * cast; the model takes the two's-complement wrap-around.
   */
  function Words(bytes: seq<Byte>): (ws: seq<int>)
    requires |bytes| % 2 == 0
    ensures |ws| == |bytes| / 2
  {
    if bytes == [] then []
    else
      Pow256Values();
      [Int16(LittleEndian(bytes[..2]))] + Words(bytes[2..])
  }

  /** Word k is the signed 16-bit value whose bit pattern is bytes 2k (low) and 2k+1 (high). */
  lemma {:induction false} WordAt(bytes: seq<Byte>, k: nat)
    requires |bytes| % 2 == 0 && k < |bytes| / 2
    ensures -0x8000 <= Words(bytes)[k] < 0x8000
    ensures Words(bytes)[k] % 0x1_0000 == bytes[2 * k] as int + 256 * bytes[2 * k + 1] as int
  {
    Pow256Values();
    if k == 0 {
      assert LittleEndian(bytes[..2]) == bytes[0] as int + 256 * bytes[1] as int by {
        assert bytes[..2][1..] == [bytes[1]];
        assert bytes[..2][1..][1..] == [];
      }
    } else {
      WordAt(bytes[2..], k - 1);
      assert bytes[2..][2 * (k - 1)] == bytes[2 * k];
      assert bytes[2..][2 * (k - 1) + 1] == bytes[2 * k + 1];
    }
  }

  /** `_read_data_packet` after `recvfrom`: header fields and payload samples of one datagram. */
  function DecodePacket(data: seq<Byte>): (r: Result<Packet, DecodeError>)
    ensures r.Ok? <==> |data| >= HEADER_BYTES && (|data| - HEADER_BYTES) % 2 == 0
    ensures r.Err? ==> (r.error == ShortHeader <==> |data| < HEADER_BYTES)
    ensures r.Ok? ==> -0x8000_0000 <= r.value.packetNum < 0x8000_0000
    ensures r.Ok? ==> r.value.packetNum % 0x1_0000_0000 == LittleEndian(data[..4])
    ensures r.Ok? ==> r.value.byteCount == LittleEndian(data[4..10]) < 0x1_0000_0000_0000
    ensures r.Ok? ==> |r.value.payload| == (|data| - HEADER_BYTES) / 2
  {
    if |data| < HEADER_BYTES then Err(ShortHeader)
    else if (|data| - HEADER_BYTES) % 2 != 0 then Err(OddPayload)
    else Ok(Packet(SequenceNumber(data), ByteCounter(data), Words(data[HEADER_BYTES..])))
  }

  /** Every payload sample of a decoded datagram is a signed 16-bit value. */
  lemma PayloadInt16(data: seq<Byte>, k: nat)
    requires DecodePacket(data).Ok? && k < |DecodePacket(data).value.payload|
    ensures -0x8000 <= DecodePacket(data).value.payload[k] < 0x8000
    ensures DecodePacket(data).value.payload[k] % 0x1_0000 == data[10 + 2 * k] as int + 256 * data[11 + 2 * k] as int
  {
    WordAt(data[HEADER_BYTES..], k);
  }

  // ---------------------------------------------------------------------------
  // The sender's side: what the capture board puts on the wire
  // ---------------------------------------------------------------------------

  /** A packet that fits the wire format. */
  predicate WellFormed(p: Packet)
  {
    && -0x8000_0000 <= p.packetNum < 0x8000_0000
    && p.byteCount < 0x1_0000_0000_0000
    && forall k :: 0 <= k < |p.payload| ==> -0x8000 <= p.payload[k] < 0x8000
  }

  function EncodeWords(ws: seq<int>): (bytes: seq<Byte>)
    requires forall k :: 0 <= k < |ws| ==> -0x8000 <= ws[k] < 0x8000
    ensures |bytes| == 2 * |ws|
  {
    if ws == [] then []
    else
      Pow256Values();
      ToLittleEndian(ws[0] % 0x1_0000, 2) + EncodeWords(ws[1..])
  }

  function EncodePacket(p: Packet): (data: seq<Byte>)
    requires WellFormed(p)
    ensures |data| == HEADER_BYTES + 2 * |p.payload|
  {
    Pow256Values();
    ToLittleEndian(p.packetNum % 0x1_0000_0000, 4) + ToLittleEndian(p.byteCount, 6) + EncodeWords(p.payload)
  }

  lemma {:induction false} WordsOfEncodeWords(ws: seq<int>)
    requires forall k :: 0 <= k < |ws| ==> -0x8000 <= ws[k] < 0x8000
    ensures Words(EncodeWords(ws)) == ws
  {
    if ws != [] {
      Pow256Values();
      var bytes := EncodeWords(ws);
      var head := ToLittleEndian(ws[0] % 0x1_0000, 2);
      assert bytes[..2] == head;
      assert bytes[2..] == EncodeWords(ws[1..]);
      WordsOfEncodeWords(ws[1..]);
      Int16OfPattern(ws[0]);
      assert ws == [ws[0]] + ws[1..];
    }
  }

  lemma {:induction false} EncodeWordsOfWords(bytes: seq<Byte>)
    requires |bytes| % 2 == 0
    ensures forall k :: 0 <= k < |Words(bytes)| ==> -0x8000 <= Words(bytes)[k] < 0x8000
    ensures EncodeWords(Words(bytes)) == bytes
  {
    forall k | 0 <= k < |Words(bytes)| ensures -0x8000 <= Words(bytes)[k] < 0x8000 {
      WordAt(bytes, k);
    }
    if bytes != [] {
      Pow256Values();
      var ws := Words(bytes);
      assert ws[1..] == Words(bytes[2..]);
      EncodeWordsOfWords(bytes[2..]);
      var u := LittleEndian(bytes[..2]);
      assert ws[0] % 0x1_0000 == u;
      LittleEndianInjective(ToLittleEndian(u, 2), bytes[..2]);
      assert bytes == bytes[..2] + bytes[2..];
    }
  }

  /** Decoding what a well-formed packet encodes to gives that packet back. */
  lemma DecodeEncode(p: Packet)
    requires WellFormed(p)
    ensures DecodePacket(EncodePacket(p)) == Ok(p)
  {
    Pow256Values();
    var data := EncodePacket(p);
    var seqBytes := ToLittleEndian(p.packetNum % 0x1_0000_0000, 4);
    var countBytes := ToLittleEndian(p.byteCount, 6);
    assert data[..4] == seqBytes;
    assert data[4..10] == countBytes;
    assert data[HEADER_BYTES..] == EncodeWords(p.payload);
    Int32OfPattern(p.packetNum);
    WordsOfEncodeWords(p.payload);
  }

  /** A datagram that decodes is exactly the encoding of what it decodes to: no byte is ignored. */
  lemma EncodeDecode(data: seq<Byte>)
    requires DecodePacket(data).Ok?
    ensures WellFormed(DecodePacket(data).value)
    ensures EncodePacket(DecodePacket(data).value) == data
  {
    Pow256Values();
    var p := DecodePacket(data).value;
    EncodeWordsOfWords(data[HEADER_BYTES..]);
    assert WellFormed(p);
    var seqBytes := ToLittleEndian(p.packetNum % 0x1_0000_0000, 4);
    LittleEndianInjective(seqBytes, data[..4]);
    var countBytes := ToLittleEndian(p.byteCount, 6);
    LittleEndianInjective(countBytes, data[4..10]);
    assert data == data[..4] + data[4..10] + data[HEADER_BYTES..];
  }
}
