/**
 * The byte-level conversions the capture link relies on: the integer formats of
 * Python's `struct` module ('<l', '>Q'), numpy's uint16 -> float32 -> int16 cast
 * (taken as wrap-around), and the 'hex' codec of `codecs.decode`.
 */
module ByteCodec {
  import opened Wrappers

  type Byte = b: int | 0 <= b < 256

  function Pow256(k: nat): (p: nat)
    ensures p >= 1
  {
    if k == 0 then 1 else 256 * Pow256(k - 1)
  }

  lemma Pow256Values()
    ensures Pow256(2) == 0x1_0000
    ensures Pow256(4) == 0x1_0000_0000
    ensures Pow256(6) == 0x1_0000_0000_0000
  {
    assert Pow256(1) == 256;
    assert Pow256(2) == 0x1_0000;
    assert Pow256(3) == 0x100_0000;
    assert Pow256(4) == 0x1_0000_0000;
    assert Pow256(5) == 0x100_0000_0000;
  }

  /** Unsigned value of a byte string read least significant byte first. */
  function LittleEndian(bs: seq<Byte>): (n: nat)
    ensures n < Pow256(|bs|)
  {
    if bs == [] then 0
    else
      var rest := LittleEndian(bs[1..]);
      assert rest <= Pow256(|bs| - 1) - 1;
      bs[0] + 256 * rest
  }

  /** Unsigned value of a byte string read most significant byte first ('>' formats of struct). */
  function BigEndian(bs: seq<Byte>): (n: nat)
    ensures n < Pow256(|bs|)
  {
    if bs == [] then 0
    else
      var high := BigEndian(bs[..|bs| - 1]);
      assert high <= Pow256(|bs| - 1) - 1;
      256 * high + bs[|bs| - 1]
  }

  /** The `width` little-endian bytes of `n`: the inverse of LittleEndian. */
  function ToLittleEndian(n: nat, width: nat): (bs: seq<Byte>)
    requires n < Pow256(width)
    ensures |bs| == width
    ensures LittleEndian(bs) == n
  {
    if width == 0 then []
    else [n % 256] + ToLittleEndian(n / 256, width - 1)
  }

  /** Two byte strings of one width with one value are equal: LittleEndian is injective. */
  lemma {:induction false} LittleEndianInjective(a: seq<Byte>, b: seq<Byte>)
    requires |a| == |b|
    requires LittleEndian(a) == LittleEndian(b)
    ensures a == b
  {
    if a != [] {
      assert a[0] == LittleEndian(a) % 256 && b[0] == LittleEndian(b) % 256;
      assert LittleEndian(a[1..]) == LittleEndian(a) / 256;
      assert LittleEndian(b[1..]) == LittleEndian(b) / 256;
      LittleEndianInjective(a[1..], b[1..]);
      assert a == [a[0]] + a[1..];
      assert b == [b[0]] + b[1..];
    }
  }

  function Reverse<T>(s: seq<T>): (r: seq<T>)
    ensures |r| == |s|
    ensures forall i :: 0 <= i < |s| ==> r[i] == s[|s| - 1 - i]
  {
    if s == [] then [] else Reverse(s[1..]) + [s[0]]
  }

  /** Reading the reversed bytes most significant first is reading the bytes least significant first. */
  lemma {:induction false} BigEndianOfReverse(s: seq<Byte>)
    ensures BigEndian(Reverse(s)) == LittleEndian(s)
  {
    if s != [] {
      var r := Reverse(s);
      assert r[..|r| - 1] == Reverse(s[1..]);
      assert r[|r| - 1] == s[0];
      BigEndianOfReverse(s[1..]);
    }
  }

  /** Leading zero bytes do not change a big-endian value. */
  lemma {:induction false} BigEndianZeroPrefix(s: seq<Byte>)
    ensures BigEndian([0] + s) == BigEndian(s)
  {
    if s != [] {
      var t := [0] + s;
      assert t[..|t| - 1] == [0] + s[..|s| - 1];
      BigEndianZeroPrefix(s[..|s| - 1]);
    }
  }

  /** Two's-complement reading of a 16-bit unsigned value: the wrap-around of numpy's float32 -> int16 cast. */
  function Int16(u: nat): (v: int)
    requires u < 0x1_0000
    ensures -0x8000 <= v < 0x8000
    ensures v % 0x1_0000 == u
  {
    if u >= 0x8000 then u - 0x1_0000 else u
  }

  /** Two's-complement reading of a 32-bit unsigned value (struct's '<l'). */
  function Int32(u: nat): (v: int)
    requires u < 0x1_0000_0000
    ensures -0x8000_0000 <= v < 0x8000_0000
    ensures v % 0x1_0000_0000 == u
  {
    if u >= 0x8000_0000 then u - 0x1_0000_0000 else u
  }

  /** The signed reading determines its input: the two's-complement pattern of v is v mod 2^16. */
  lemma Int16OfPattern(v: int)
    requires -0x8000 <= v < 0x8000
    ensures Int16(v % 0x1_0000) == v
  {
  }

  lemma Int32OfPattern(v: int)
    requires -0x8000_0000 <= v < 0x8000_0000
    ensures Int32(v % 0x1_0000_0000) == v
  {
  }

  // ---------------------------------------------------------------------------
  // The 'hex' codec (binascii.a2b_hex)
  // ---------------------------------------------------------------------------

  predicate IsHexDigit(c: char)
  {
    ('0' <= c <= '9') || ('a' <= c <= 'f') || ('A' <= c <= 'F')
  }

  function HexValue(c: char): (d: nat)
    requires IsHexDigit(c)
    ensures d < 16
  {
    if '0' <= c <= '9' then c as int - '0' as int
    else if 'a' <= c <= 'f' then c as int - 'a' as int + 10
    else c as int - 'A' as int + 10
  }

  /**
   * codecs.decode(s, 'hex'): every two digits give one byte, high nibble first;
   * an odd length or a character that is not a hex digit is an error (None).
   */
  function HexDecode(s: string): (r: Option<seq<Byte>>)
    ensures r.Some? ==> 2 * |r.value| == |s|
  {
    if |s| == 0 then Some([])
    else if |s| == 1 || !IsHexDigit(s[0]) || !IsHexDigit(s[1]) then None
    else
      match HexDecode(s[2..])
      case None => None
      case Some(rest) => Some([16 * HexValue(s[0]) + HexValue(s[1])] + rest)
  }

  /** The hex codec accepts exactly the even-length strings of hex digits. */
  lemma {:induction false} HexDecodeDefined(s: string)
    ensures HexDecode(s).Some? <==> |s| % 2 == 0 && forall i :: 0 <= i < |s| ==> IsHexDigit(s[i])
  {
    if |s| >= 2 {
      HexDecodeDefined(s[2..]);
      assert forall i :: 2 <= i < |s| ==> s[i] == s[2..][i - 2];
    }
  }

  /** Byte k of the decoded text is the value of digits 2k (high nibble) and 2k+1 (low nibble). */
  lemma {:induction false} HexDecodeAt(s: string, k: nat)
    requires HexDecode(s).Some? && k < |HexDecode(s).value|
    ensures IsHexDigit(s[2 * k]) && IsHexDigit(s[2 * k + 1])
    ensures HexDecode(s).value[k] == 16 * HexValue(s[2 * k]) + HexValue(s[2 * k + 1])
  {
    if k > 0 {
      HexDecodeAt(s[2..], k - 1);
      assert s[2 * k] == s[2..][2 * (k - 1)];
      assert s[2 * k + 1] == s[2..][2 * (k - 1) + 1];
    }
  }

  /** A string of hex digits decodes to the bytes its digit pairs spell. */
  lemma HexDecodeIs(s: string, bs: seq<Byte>)
    requires |s| == 2 * |bs|
    requires forall i :: 0 <= i < |s| ==> IsHexDigit(s[i])
    requires forall k :: 0 <= k < |bs| ==> bs[k] == 16 * HexValue(s[2 * k]) + HexValue(s[2 * k + 1])
    ensures HexDecode(s) == Some(bs)
  {
    HexDecodeDefined(s);
    var r := HexDecode(s).value;
    forall k | 0 <= k < |bs| ensures r[k] == bs[k] {
      HexDecodeAt(s, k);
    }
    assert r == bs;
  }

  /** Both decodings joined, or None when either failed. */
  function Concat(x: Option<seq<Byte>>, y: Option<seq<Byte>>): (r: Option<seq<Byte>>)
  {
    if x.Some? && y.Some? then Some(x.value + y.value) else None
  }

  /** Hex text split after two even-length pieces decodes piecewise. */
  lemma HexDecodeAppendEven(a: string, b: string, c: string)
    requires |a| % 2 == 0 && |b| % 2 == 0
    ensures HexDecode(a + b + c) == Concat(HexDecode(a + b), HexDecode(c))
  {
    HexDecodeAppend(a + b, c);
  }

  /** Three pieces of hex text, the first two of even length, decode piecewise. */
  lemma HexDecodeJoin3(a: string, b: string, c: string)
    requires |a| % 2 == 0 && |b| % 2 == 0
    ensures HexDecode(a + b + c) == Concat(Concat(HexDecode(a), HexDecode(b)), HexDecode(c))
  {
    HexDecodeAppend(a, b);
    HexDecodeAppendEven(a, b, c);
  }

  /** Five pieces of hex text, the first four of even length, decode piecewise. */
  lemma HexDecodeJoin(a: string, b: string, c: string, d: string, e: string)
    requires |a| % 2 == 0 && |b| % 2 == 0 && |c| % 2 == 0 && |d| % 2 == 0
    ensures HexDecode(a + b + c + d + e) ==
      Concat(Concat(Concat(Concat(HexDecode(a), HexDecode(b)), HexDecode(c)), HexDecode(d)), HexDecode(e))
  {
    var abc := a + b + c;
    HexDecodeJoin3(a, b, c);
    EvenLength(a, b, c);
    HexDecodeJoin3(abc, d, e);
  }

  lemma EvenLength(a: string, b: string, c: string)
    requires |a| % 2 == 0 && |b| % 2 == 0 && |c| % 2 == 0
    ensures |a + b + c| % 2 == 0
  {
  }

  function HexChar(d: nat): (c: char)
    requires d < 16
    ensures IsHexDigit(c) && HexValue(c) == d
  {
    if d < 10 then (48 + d) as char else (87 + d) as char
  }

  /** Lower-case hex text of a byte string, two digits per byte (bytes.hex()). */
  function HexEncode(bs: seq<Byte>): (s: string)
    ensures |s| == 2 * |bs|
  {
    if bs == [] then "" else [HexChar(bs[0] / 16), HexChar(bs[0] % 16)] + HexEncode(bs[1..])
  }

  /** Decoding the hex text of a byte string gives the byte string back. */
  lemma {:induction false} HexRoundTrip(bs: seq<Byte>)
    ensures HexDecode(HexEncode(bs)) == Some(bs)
  {
    if bs != [] {
      HexRoundTrip(bs[1..]);
      var s := HexEncode(bs);
      assert s[2..] == HexEncode(bs[1..]);
      assert IsHexDigit(s[0]) && IsHexDigit(s[1]);
      assert 16 * HexValue(s[0]) + HexValue(s[1]) == bs[0];
      calc {
        HexDecode(s);
        Some([16 * HexValue(s[0]) + HexValue(s[1])] + bs[1..]);
        { assert bs == [bs[0]] + bs[1..]; }
        Some(bs);
      }
    }
  }

  /** Hex text split at an even position decodes piecewise. */
  lemma {:induction false} HexDecodeAppend(a: string, b: string)
    requires |a| % 2 == 0
    ensures HexDecode(a + b) == Concat(HexDecode(a), HexDecode(b))
  {
    if a == [] {
      assert a + b == b;
      if HexDecode(b).Some? {
        assert [] + HexDecode(b).value == HexDecode(b).value;
      }
    } else {
      assert (a + b)[2..] == a[2..] + b;
      assert (a + b)[0] == a[0] && (a + b)[1] == a[1];
      HexDecodeAppend(a[2..], b);
      if IsHexDigit(a[0]) && IsHexDigit(a[1]) && HexDecode(a[2..]).Some? && HexDecode(b).Some? {
        var x := [16 * HexValue(a[0]) + HexValue(a[1])];
        assert x + (HexDecode(a[2..]).value + HexDecode(b).value) == (x + HexDecode(a[2..]).value) + HexDecode(b).value;
      }
    }
  }
}
