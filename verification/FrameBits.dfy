/**
 The frame layout of section 5.2 of RFC 6455 bit by bit and byte by byte, and what the writer and the reader make of it.
 The layout is stated without the functions either of them uses: bits by position, lengths by the value of each byte.
 */
module FrameBits {
  import opened Common
  import opened Frames

  /** Bit `k` of `n`, the lowest being bit 0. */
  predicate Bit(n: nat, k: nat) {
    n / Pow2(k) % 2 == 1
  }

  // ----- Bits -----

  lemma Times(d: nat, p: nat, q: nat)
    requires p <= q
    ensures d * p <= d * q
  {
  }

  lemma Distribute(a: nat, b: nat, q: nat, r: nat)
    ensures a * (b * q + r) == (a * b) * q + a * r
  {
    assert a * (b * q) == (a * b) * q;
  }

  lemma DivisionIsUnique(n: nat, d: nat, q: nat, r: nat)
    requires d > 0 && n == d * q + r && r < d
    ensures n / d == q
  {
    var p, m := n / d, n % d;
    assert n == d * p + m;
    if p < q {
      Times(d, p + 1, q);
      assert false;
    } else if p > q {
      Times(d, q + 1, p);
      assert false;
    }
  }

  lemma Compose(n: nat, a: nat, b: nat, h: nat, t: nat, q: nat, r: nat)
    requires n == a * h + t && h == b * q + r
    ensures n == (a * b) * q + (a * r + t)
  {
    Distribute(a, b, q, r);
  }

  lemma Below(a: nat, b: nat, r: nat, t: nat)
    requires r < b && t < a
    ensures a * r + t < a * b
  {
    Times(a, r + 1, b);
    assert a * (r + 1) == a * r + a;
  }

  lemma DivideTwice(n: nat, a: nat, b: nat)
    requires a > 0 && b > 0
    ensures a * b > 0 && n / (a * b) == n / a / b
  {
    var h, t := n / a, n % a;
    var q, r := h / b, h % b;
    Compose(n, a, b, h, t, q, r);
    Below(a, b, r, t);
    DivisionIsUnique(n, a * b, q, a * r + t);
  }

  lemma HigherBit(n: nat, k: nat)
    ensures Bit(n, k + 1) <==> Bit(n / 2, k)
  {
    DivideTwice(n, 2, Pow2(k));
  }

  lemma LowestBit(n: nat)
    ensures Bit(n, 0) <==> n % 2 == 1
  {
  }

  lemma XorHalves(a: nat, b: nat, width: nat)
    requires width > 0
    ensures XorBits(a, b, width) / 2 == XorBits(a / 2, b / 2, width - 1)
    ensures XorBits(a, b, width) % 2 == if a % 2 == b % 2 then 0 else 1
  {
  }

  /** The exclusive or has exactly the bits in which its arguments differ. */
  lemma {:induction false} XorBitsBit(a: nat, b: nat, width: nat, k: nat)
    requires k < width
    ensures Bit(XorBits(a, b, width), k) <==> Bit(a, k) != Bit(b, k)
    decreases width
  {
    XorHalves(a, b, width);
    if k == 0 {
      LowestBit(a);
      LowestBit(b);
      LowestBit(XorBits(a, b, width));
    } else {
      HigherBit(XorBits(a, b, width), k - 1);
      HigherBit(a, k - 1);
      HigherBit(b, k - 1);
      XorBitsBit(a / 2, b / 2, width - 1, k - 1);
    }
  }

  lemma XorBit(a: Byte, b: Byte, k: nat)
    requires k < 8
    ensures Bit(Xor(a, b), k) <==> Bit(a, k) != Bit(b, k)
  {
    XorBitsBit(a, b, 8, k);
  }

  lemma {:induction false} BitsDetermine(a: nat, b: nat, width: nat)
    requires a < Pow2(width) && b < Pow2(width)
    requires forall k :: 0 <= k < width ==> (Bit(a, k) <==> Bit(b, k))
    ensures a == b
    decreases width
  {
    if width > 0 {
      assert Bit(a, 0) <==> Bit(b, 0);
      LowestBit(a);
      LowestBit(b);
      forall k | 0 <= k < width - 1
        ensures Bit(a / 2, k) <==> Bit(b / 2, k)
      {
        HigherBit(a, k);
        HigherBit(b, k);
        assert Bit(a, k + 1) <==> Bit(b, k + 1);
      }
      BitsDetermine(a / 2, b / 2, width - 1);
    }
  }

  lemma LowPowers()
    ensures Pow2(0) == 1 && Pow2(1) == 2 && Pow2(2) == 4 && Pow2(3) == 8 && Pow2(4) == 16 && Pow2(5) == 32
    ensures Pow2(6) == 64 && Pow2(7) == 128 && Pow2(8) == 256
  {
    assert Pow2(2) == 2 * Pow2(1);
    assert Pow2(4) == 2 * Pow2(3) == 16;
    assert Pow2(6) == 2 * Pow2(5) == 64;
    assert Pow2(8) == 2 * Pow2(7) == 256;
  }

  lemma HighestBit(b: Byte)
    ensures Bit(b, 7) <==> b >= 128
  {
    LowPowers();
  }

  lemma LowBits(b: Byte, k: nat)
    requires k < 4
    ensures Bit(b % 16, k) <==> Bit(b, k)
  {
    LowPowers();
    assert b == b / 16 * 16 + b % 16;
    if k == 0 {
    } else if k == 1 {
      assert b / 2 == b / 16 * 8 + b % 16 / 2;
    } else if k == 2 {
      assert b / 4 == b / 16 * 4 + b % 16 / 4;
    } else {
      assert b / 8 == b / 16 * 2 + b % 16 / 8;
    }
  }

  // ----- Byte order -----

  /** The bytes of a number, the most significant first. */
  predicate MostSignificantFirst(s: Bytes, n: nat) {
    forall i :: 0 <= i < |s| ==> s[i] == n / Pow256(|s| - 1 - i) % 256
  }

  lemma {:induction false} BigEndianByte(n: nat, width: nat, i: nat)
    requires i < width
    ensures BigEndian(n, width)[i] == n / Pow256(width - 1 - i) % 256
    decreases width
  {
    if i < width - 1 {
      BigEndianByte(n / 256, width - 1, i);
      DivideTwice(n, 256, Pow256(width - 2 - i));
    } else {
      assert n / Pow256(0) == n;
    }
  }

  lemma BigEndianIsByPosition(s: Bytes, n: nat)
    ensures MostSignificantFirst(s, n) <==> s == BigEndian(n, |s|)
  {
    forall i | 0 <= i < |s|
      ensures BigEndian(n, |s|)[i] == n / Pow256(|s| - 1 - i) % 256
    {
      BigEndianByte(n, |s|, i);
    }
  }

  // ----- The layout -----

  /** The two header bytes: final, this opcode in the low four bits, masked or not. */
  predicate IsHeader(first: Byte, second: Byte, opcode: nat, masked: bool) {
    && Bit(first, 7) && (forall k :: 0 <= k < 4 ==> (Bit(first, k) <==> Bit(opcode, k)))
    && (Bit(second, 7) <==> masked)
  }

  /** The length, in the low seven bits of the second byte or in the extension they announce. */
  predicate IsLength(second: Byte, ext: Bytes, length: nat) {
    && |ext| == (if second % 128 == 126 then 2 else if second % 128 == 127 then 8 else 0)
    && (ext == [] ==> length == second % 128)
    && (ext != [] ==> length < Pow256(|ext|) && MostSignificantFirst(ext, length))
  }

  /** The body: as it is, or with each bit flipped where the mask, repeated every four bytes, has a one. */
  predicate IsBody(raw: Bytes, mask: Bytes, payload: Bytes) {
    && |raw| == |payload|
    && (mask == [] ==> raw == payload)
    && (|mask| == 4 ==>
          forall i, k :: 0 <= i < |raw| && 0 <= k < 8 ==> (Bit(raw[i], k) <==> Bit(payload[i], k) != Bit(mask[i % 4], k)))
  }

  /** A final frame with this content, laid out field by field. */
  predicate IsFrame(first: Byte, second: Byte, ext: Bytes, mask: Bytes, raw: Bytes, opcode: nat, payload: Bytes) {
    && opcode < 16 && (mask == [] || |mask| == 4)
    && IsHeader(first, second, opcode, mask != []) && IsLength(second, ext, |payload|) && IsBody(raw, mask, payload)
  }

  function Laid(first: Byte, second: Byte, ext: Bytes, mask: Bytes, raw: Bytes): Bytes {
    [first, second] + ext + mask + raw
  }

  lemma MaskedIsBody(payload: Bytes, mask: Bytes)
    requires |mask| == 4
    ensures IsBody(Masked(payload, mask), mask, payload)
  {
    forall i, k | 0 <= i < |payload| && 0 <= k < 8
      ensures Bit(Masked(payload, mask)[i], k) <==> Bit(payload[i], k) != Bit(mask[i % 4], k)
    {
      XorBit(payload[i], mask[i % 4], k);
    }
  }

  /** There is one payload for each body. */
  lemma BodyIsMasked(raw: Bytes, mask: Bytes, payload: Bytes)
    requires |mask| == 4 && IsBody(raw, mask, payload)
    ensures payload == Masked(raw, mask)
  {
    forall i | 0 <= i < |raw|
      ensures payload[i] == Masked(raw, mask)[i]
    {
      LowPowers();
      var unmasked := Masked(raw, mask)[i];
      forall k | 0 <= k < 8
        ensures Bit(payload[i], k) <==> Bit(unmasked, k)
      {
        XorBit(raw[i], mask[i % 4], k);
      }
      BitsDetermine(payload[i], unmasked, 8);
    }
  }

  lemma WrittenHeader(opcode: nat, second: Byte)
    requires opcode < 16 && second >= 128
    ensures IsHeader(FinalBit(opcode), second, opcode, true)
  {
    HighestBit(FinalBit(opcode));
    HighestBit(second);
    forall k | 0 <= k < 4
      ensures Bit(FinalBit(opcode), k) <==> Bit(opcode, k)
    {
      assert FinalBit(opcode) % 16 == opcode % 16;
      LowBits(FinalBit(opcode), k);
      LowBits(opcode, k);
    }
  }

  lemma WrittenLength(length: nat, width: nat, second: Byte)
    requires (width == 2 && second == 254 && length < Pow256(2)) || (width == 8 && second == 255 && length < Pow256(8))
    ensures IsLength(second, BigEndian(length, width), length)
  {
    BigEndianIsByPosition(BigEndian(length, width), length);
  }

  /** What the writer sends is a masked frame with the given opcode, mask and payload, in this layout and no other: the
      shortest length field that holds the length, and nothing before, between or after the fields. */
  lemma WrittenIsFrame(payload: Bytes, opcode: nat, mask: Bytes) returns (second: Byte, ext: Bytes, raw: Bytes)
    requires |mask| == 4 && opcode < 16 && |payload| < 0x1_0000_0000_0000_0000
    ensures EncodeFrame(payload, opcode, mask) == Ok(Laid(128 + opcode, second, ext, mask, raw))
    ensures IsFrame(128 + opcode, second, ext, mask, raw, opcode, payload)
    ensures |ext| == if |payload| < 126 then 0 else if |payload| < 0x1_0000 then 2 else 8
  {
    Pow256Values();
    var length := |payload|;
    raw := Masked(payload, mask);
    MaskedIsBody(payload, mask);
    if length < 126 {
      second, ext := 128 + length, [];
      assert [128 + opcode, second] + ext == [128 + opcode, second];
    } else if length < 0x1_0000 {
      second, ext := 254, BigEndian(length, 2);
      WrittenLength(length, 2, 254);
    } else {
      second, ext := 255, BigEndian(length, 8);
      WrittenLength(length, 8, 255);
    }
    WrittenHeader(opcode, second);
  }

  lemma HeaderReads(first: Byte, second: Byte, opcode: nat, masked: bool)
    requires opcode < 16 && IsHeader(first, second, opcode, masked)
    ensures first >= 128 && first % 16 == opcode && (second >= 128 <==> masked)
  {
    HighestBit(first);
    HighestBit(second);
    LowPowers();
    forall k | 0 <= k < 4
      ensures Bit(first % 16, k) <==> Bit(opcode, k)
    {
      LowBits(first, k);
    }
    BitsDetermine(first % 16, opcode, 4);
  }

  lemma LengthReads(second: Byte, ext: Bytes, length: nat)
    requires IsLength(second, ext, length)
    ensures |ext| == ExtendedBytes(second % 128)
    ensures length == if ext == [] then second % 128 else FromBigEndian(ext)
  {
    if ext != [] {
      BigEndianIsByPosition(ext, length);
      BigEndianRoundTrip(length, |ext|);
    }
  }

  lemma UnmaskedParses(first: Byte, second: Byte, ext: Bytes, raw: Bytes, rest: Bytes)
    requires first >= 128 && second < 128 && |ext| == ExtendedBytes(second % 128)
    requires |raw| == if ext == [] then second % 128 else FromBigEndian(ext)
    ensures ParseFrame([first, second] + (ext + (raw + rest))) == Ok((Frame(first % 16, raw), rest))
  {
    SplitAt([first, second], ext + (raw + rest));
    SplitAt(ext, raw + rest);
    SplitAt(raw, rest);
  }

  lemma UnmaskedLaid(first: Byte, second: Byte, ext: Bytes, raw: Bytes, rest: Bytes)
    ensures Laid(first, second, ext, [], raw) + rest == [first, second] + (ext + (raw + rest))
  {
  }

  /** Every frame laid out like that, masked as clients send it or not as servers do, is read as its opcode and payload,
      and what follows it is left. */
  lemma FrameIsRead(first: Byte, second: Byte, ext: Bytes, mask: Bytes, raw: Bytes, opcode: nat, payload: Bytes, rest: Bytes)
    requires IsFrame(first, second, ext, mask, raw, opcode, payload)
    ensures ParseFrame(Laid(first, second, ext, mask, raw) + rest) == Ok((Frame(opcode, payload), rest))
  {
    HeaderReads(first, second, opcode, mask != []);
    LengthReads(second, ext, |payload|);
    if mask == [] {
      UnmaskedLaid(first, second, ext, raw, rest);
      UnmaskedParses(first, second, ext, raw, rest);
    } else {
      BodyIsMasked(raw, mask, payload);
      Reassociate([first, second], ext, mask, raw, rest);
      LayoutParses(first, second, ext, mask, raw, rest);
    }
  }

  lemma ReadHeader(first: Byte, second: Byte)
    requires first >= 128
    ensures IsHeader(first, second, first % 16, second >= 128)
  {
    HighestBit(first);
    HighestBit(second);
    forall k | 0 <= k < 4
      ensures Bit(first, k) <==> Bit(first % 16, k)
    {
      LowBits(first, k);
    }
  }

  lemma {:induction false} ToBigEndian(s: Bytes)
    ensures BigEndian(FromBigEndian(s), |s|) == s
    decreases |s|
  {
    if s != [] {
      var init, last := s[..|s| - 1], s[|s| - 1];
      ToBigEndian(init);
      assert FromBigEndian(s) / 256 == FromBigEndian(init) && FromBigEndian(s) % 256 == last;
      assert s == init + [last];
    }
  }

  lemma ReadLength(second: Byte, ext: Bytes)
    requires |ext| == ExtendedBytes(second % 128)
    ensures IsLength(second, ext, if ext == [] then second % 128 else FromBigEndian(ext))
  {
    if ext != [] {
      ToBigEndian(ext);
      BigEndianIsByPosition(ext, FromBigEndian(ext));
      FromBigEndianBound(ext);
    }
  }

  lemma ReadBodyIsBody(raw: Bytes, mask: Bytes)
    requires |mask| == 4
    ensures IsBody(raw, mask, Masked(raw, mask))
  {
    MaskedIsBody(Masked(raw, mask), mask);
    MaskInvolution(raw, mask);
  }

  lemma BodyTaken(body: Bytes, length: nat, masked: bool) returns (mask: Bytes, raw: Bytes)
    requires ParseBody(0, length, masked, body).Ok?
    ensures var (frame, rest) := ParseBody(0, length, masked, body).value;
            && body == mask + (raw + rest) && |frame.payload| == length && IsBody(raw, mask, frame.payload)
            && (if masked then |mask| == 4 else mask == [])
  {
    var (frame, rest) := ParseBody(0, length, masked, body).value;
    if masked {
      mask, raw := body[..4], body[4..][..length];
      ReadBodyIsBody(raw, mask);
      assert body[4..] == raw + rest;
    } else {
      mask, raw := [], body[..length];
      assert body == raw + rest && [] + (raw + rest) == raw + rest;
    }
  }

  lemma SameBody(opcode: nat, length: nat, masked: bool, body: Bytes)
    ensures ParseBody(opcode, length, masked, body)
         == match ParseBody(0, length, masked, body)
            case Ok((frame, rest)) => Ok((Frame(opcode, frame.payload), rest))
            case Err(e) => Err(e)
  {
  }

  /** And the reader accepts nothing else: whatever it reads as a frame is laid out like that. */
  lemma ReadIsFrame(b: Bytes) returns (first: Byte, second: Byte, ext: Bytes, mask: Bytes, raw: Bytes)
    requires ParseFrame(b).Ok?
    ensures var (frame, rest) := ParseFrame(b).value;
            b == Laid(first, second, ext, mask, raw) + rest && IsFrame(first, second, ext, mask, raw, frame.opcode, frame.payload)
  {
    first, second := b[0], b[1];
    ReadHeader(first, second);
    var width, tail := ExtendedBytes(second % 128), b[2..];
    ext := tail[..width];
    ReadLength(second, ext);
    var body, length := tail[width..], if ext == [] then second % 128 else FromBigEndian(ext);
    SameBody(first % 16, length, second >= 128, body);
    mask, raw := BodyTaken(body, length, second >= 128);
    FieldsMeet(b, ext, mask, raw, ParseFrame(b).value.1);
  }

  lemma FieldsMeet(b: Bytes, ext: Bytes, mask: Bytes, raw: Bytes, rest: Bytes)
    requires |b| >= 2 && b[2..] == ext + (mask + (raw + rest))
    ensures b == Laid(b[0], b[1], ext, mask, raw) + rest
  {
    assert b == [b[0], b[1]] + b[2..];
    Reassociate([b[0], b[1]], ext, mask, raw, rest);
  }
}
