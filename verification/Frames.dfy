/**
 The client WebSocket frame codec of `tools/hermes_demo.py`: a writer for final masked
 frames, and a reader that assembles each field from a socket that may deliver any
 number of bytes at a time.
 */
module Frames {
  import opened Common

  // ----- Bytes and big-endian numbers -----

  function Pow2(n: nat): (r: nat)
    ensures r > 0
  {
    if n == 0 then 1 else 2 * Pow2(n - 1)
  }

  function Pow256(n: nat): (r: nat)
    ensures r > 0
  {
    if n == 0 then 1 else 256 * Pow256(n - 1)
  }

  lemma Pow256Values()
    ensures Pow256(2) == 0x1_0000
    ensures Pow256(8) == 0x1_0000_0000_0000_0000
  {
    assert Pow256(1) == 256;
    assert Pow256(2) == 0x1_0000;
    assert Pow256(4) == 256 * Pow256(3) == 0x1_0000_0000;
    assert Pow256(6) == 256 * Pow256(5) == 0x1_0000_0000_0000;
    assert Pow256(8) == 256 * Pow256(7) == 0x1_0000_0000_0000_0000;
  }

  /** The exclusive or of the low `width` bits of `a` and `b`. */
  function XorBits(a: nat, b: nat, width: nat): (r: nat)
    ensures r < Pow2(width)
  {
    if width == 0 then 0
    else (if a % 2 == b % 2 then 0 else 1) + 2 * XorBits(a / 2, b / 2, width - 1)
  }

  lemma {:induction false} XorBitsInvolution(a: nat, b: nat, width: nat)
    requires a < Pow2(width)
    ensures XorBits(XorBits(a, b, width), b, width) == a
  {
    if width > 0 {
      XorBitsInvolution(a / 2, b / 2, width - 1);
    }
  }

  lemma Pow2Eight()
    ensures Pow2(8) == 256
  {
    assert Pow2(4) == 2 * Pow2(3) == 16;
    assert Pow2(6) == 2 * Pow2(5) == 64;
    assert Pow2(8) == 2 * Pow2(7) == 256;
  }

  function Xor(a: Byte, b: Byte): Byte {
    Pow2Eight();
    XorBits(a, b, 8)
  }

  /** `struct.pack("!H", n)` for width 2 and `struct.pack("!Q", n)` for width 8. */
  function BigEndian(n: nat, width: nat): (r: Bytes)
    ensures |r| == width
  {
    if width == 0 then [] else BigEndian(n / 256, width - 1) + [n % 256]
  }

  function FromBigEndian(s: Bytes): nat {
    if s == [] then 0 else FromBigEndian(s[..|s| - 1]) * 256 + s[|s| - 1]
  }

  lemma {:induction false} BigEndianRoundTrip(n: nat, width: nat)
    requires n < Pow256(width)
    ensures FromBigEndian(BigEndian(n, width)) == n
  {
    if width > 0 {
      BigEndianRoundTrip(n / 256, width - 1);
      var r := BigEndian(n, width);
      assert r[..|r| - 1] == BigEndian(n / 256, width - 1);
    }
  }

  lemma {:induction false} FromBigEndianBound(s: Bytes)
    ensures FromBigEndian(s) < Pow256(|s|)
  {
    if s != [] {
      FromBigEndianBound(s[..|s| - 1]);
    }
  }

  // ----- Masking -----

  function Masked(payload: Bytes, mask: Bytes): (r: Bytes)
    requires |mask| == 4
    ensures |r| == |payload|
  {
    seq(|payload|, i requires 0 <= i < |payload| => Xor(payload[i], mask[i % 4]))
  }

  /** Masking is its own inverse (section 5.3 of RFC 6455). */
  lemma MaskInvolution(payload: Bytes, mask: Bytes)
    requires |mask| == 4
    ensures Masked(Masked(payload, mask), mask) == payload
  {
    forall i | 0 <= i < |payload|
      ensures Masked(Masked(payload, mask), mask)[i] == payload[i]
    {
      Pow2Eight();
      XorBitsInvolution(payload[i], mask[i % 4], 8);
    }
  }

  // ----- Writer -----

  datatype Frame = Frame(opcode: nat, payload: Bytes)

  datatype EncodeError = OpcodeNotAByte | PayloadTooLong

  /** `0x80 | opcode` for an opcode that fits one byte. */
  function FinalBit(opcode: nat): nat {
    if opcode % 256 < 128 then opcode + 128 else opcode
  }

  function EncodeFrame(payload: Bytes, opcode: nat, mask: Bytes): (r: Result<Bytes, EncodeError>)
    requires |mask| == 4
    ensures r.Ok? <==> opcode < 256 && |payload| < 0x1_0000_0000_0000_0000
  {
    var first := FinalBit(opcode);
    var length := |payload|;
    if first >= 256 then Err(OpcodeNotAByte)
    else if length < 126 then
      Ok([first, 128 + length] + mask + Masked(payload, mask))
    else if length < 0x1_0000 then
      Ok([first, 254] + BigEndian(length, 2) + mask + Masked(payload, mask))
    else if length < 0x1_0000_0000_0000_0000 then
      Ok([first, 255] + BigEndian(length, 8) + mask + Masked(payload, mask))
    else Err(PayloadTooLong)
  }

  // ----- The frame layout of section 5.2 of RFC 6455, as a parser of a byte string -----

  datatype ReadError = ClosedEarly | Fragmented

  /** Number of extended-length bytes announced by the seven-bit length field. */
  function ExtendedBytes(length7: nat): nat {
    if length7 == 126 then 2 else if length7 == 127 then 8 else 0
  }

  /** The masking key (when present) and the body, after the length field. */
  function ParseBody(opcode: nat, length: nat, masked: bool, b: Bytes): (r: Result<(Frame, Bytes), ReadError>)
    ensures r.Ok? ==> |r.value.1| <= |b|
    ensures r.Ok? ==> |b| == (if masked then 4 else 0) + length + |r.value.1| && |r.value.0.payload| == length
  {
    if masked then
      if |b| < 4 || |b[4..]| < length then Err(ClosedEarly)
      else Ok((Frame(opcode, Masked(b[4..][..length], b[..4])), b[4..][length..]))
    else
      if |b| < length then Err(ClosedEarly)
      else Ok((Frame(opcode, b[..length]), b[length..]))
  }

  function ParseFrame(b: Bytes): (r: Result<(Frame, Bytes), ReadError>)
    ensures r.Ok? ==> |r.value.1| < |b|
  {
    if |b| < 2 then Err(ClosedEarly)
    else if b[0] < 128 then Err(Fragmented)
    else
      var ext := ExtendedBytes(b[1] % 128);
      var tail := b[2..];
      if |tail| < ext then Err(ClosedEarly)
      else
        var length := if ext == 0 then b[1] % 128 else FromBigEndian(tail[..ext]);
        ParseBody(b[0] % 16, length, b[1] >= 128, tail[ext..])
  }

  /** Reads frames until the bytes run out. */
  function ParseAll(b: Bytes): Result<seq<Frame>, ReadError>
    decreases |b|
  {
    if b == [] then Ok([])
    else
      match ParseFrame(b)
      case Err(e) => Err(e)
      case Ok((frame, rest)) =>
        match ParseAll(rest)
        case Err(e) => Err(e)
        case Ok(frames) => Ok([frame] + frames)
  }

  function Prepended(frames: seq<Frame>, r: Result<seq<Frame>, ReadError>): Result<seq<Frame>, ReadError> {
    match r
    case Err(e) => Err(e)
    case Ok(more) => Ok(frames + more)
  }

  lemma PrependedNone(r: Result<seq<Frame>, ReadError>)
    ensures Prepended([], r) == r
  {
    assert r.Ok? ==> [] + r.value == r.value;
  }

  lemma PrependedSnoc(frames: seq<Frame>, frame: Frame, r: Result<seq<Frame>, ReadError>)
    ensures Prepended(frames, Prepended([frame], r)) == Prepended(frames + [frame], r)
  {
    if r.Ok? {
      Assoc(frames, [frame], r.value);
    }
  }

  // ----- Reader over a socket with short reads -----

  /** A socket: the bytes the peer sends before closing, and an arbitrary delivery pattern. */
  class Connection {
    var incoming: Bytes
    var calls: nat
    const pattern: nat -> nat

    constructor (bytes: Bytes, pattern: nat -> nat)
      ensures incoming == bytes && this.pattern == pattern
    {
      incoming := bytes;
      calls := 0;
      this.pattern := pattern;
    }

    /** `recv(n)`: between one and `n` bytes, or none once the peer has closed. */
    method Recv(n: nat) returns (chunk: Bytes)
      requires n > 0
      modifies this
      ensures chunk + incoming == old(incoming) && |chunk| <= n
      ensures chunk == [] <==> old(incoming) == []
    {
      var wanted := 1 + pattern(calls);
      var size := if wanted < n then wanted else n;
      chunk := Clip(incoming, size);
      incoming := incoming[|chunk|..];
      calls := calls + 1;
    }

    method ReadExact(length: nat) returns (r: Result<Bytes, ReadError>)
      modifies this
      ensures length <= |old(incoming)| ==>
                r == Ok(old(incoming)[..length]) && incoming == old(incoming)[length..]
      ensures length > |old(incoming)| ==> r == Err(ClosedEarly) && incoming == []
    {
      var chunks: Bytes := [];
      while |chunks| < length
        invariant |chunks| <= length
        invariant chunks + incoming == old(incoming)
      {
        var chunk := Recv(length - |chunks|);
        if chunk == [] {
          return Err(ClosedEarly);
        }
        chunks := chunks + chunk;
      }
      r := Ok(chunks);
      assert old(incoming) == chunks + incoming;
    }

    /** However the bytes are cut into reads, the frame is the one the layout describes. */
    method ReadFrame() returns (r: Result<Frame, ReadError>)
      modifies this
      ensures match ParseFrame(old(incoming))
              case Ok((frame, rest)) => r == Ok(frame) && incoming == rest
              case Err(e) => r == Err(e)
    {
      var head := ReadExact(2);
      if head.Err? {
        return Err(head.error);
      }
      var first, second := head.value[0], head.value[1];
      if first < 128 {
        return Err(Fragmented);
      }
      var length: nat := second % 128;
      if length == 126 {
        var extended := ReadExact(2);
        if extended.Err? {
          return Err(extended.error);
        }
        length := FromBigEndian(extended.value);
      } else if length == 127 {
        var extended := ReadExact(8);
        if extended.Err? {
          return Err(extended.error);
        }
        length := FromBigEndian(extended.value);
      } else {
        assert incoming == incoming[0..];
      }
      assert ParseFrame(old(incoming)) == ParseBody(first % 16, length, second >= 128, incoming);
      r := ReadBody(first % 16, length, second >= 128);
    }

    /** Frame after frame until the peer has closed: the list the bytes parse as, however they are cut. */
    method ReadFrames() returns (r: Result<seq<Frame>, ReadError>)
      modifies this
      ensures r == ParseAll(old(incoming))
      ensures r.Ok? ==> incoming == []
    {
      var frames: seq<Frame> := [];
      PrependedNone(ParseAll(incoming));
      while incoming != []
        invariant ParseAll(old(incoming)) == Prepended(frames, ParseAll(incoming))
        decreases |incoming|
      {
        var frame := ReadFrame();
        if frame.Err? {
          return Err(frame.error);
        }
        PrependedSnoc(frames, frame.value, ParseAll(incoming));
        frames := frames + [frame.value];
      }
      assert frames + [] == frames;
      r := Ok(frames);
    }

    /** The part of the reader after the length field. */
    method ReadBody(opcode: nat, length: nat, masked: bool) returns (r: Result<Frame, ReadError>)
      modifies this
      ensures match ParseBody(opcode, length, masked, old(incoming))
              case Ok((frame, rest)) => r == Ok(frame) && incoming == rest
              case Err(e) => r == Err(e)
    {
      var mask: Bytes := [];
      if masked {
        var key := ReadExact(4);
        if key.Err? {
          return Err(key.error);
        }
        mask := key.value;
      }
      var body := ReadExact(length);
      if body.Err? {
        return Err(body.error);
      }
      var payload := if mask != [] then Masked(body.value, mask) else body.value;
      r := Ok(Frame(opcode, payload));
    }
  }

  // ----- Round trips -----

  lemma BodyParses(opcode: nat, mask: Bytes, raw: Bytes, rest: Bytes)
    requires |mask| == 4
    ensures ParseBody(opcode, |raw|, true, mask + (raw + rest)) == Ok((Frame(opcode, Masked(raw, mask)), rest))
  {
    SplitAt(mask, raw + rest);
    SplitAt(raw, rest);
  }

  /** The reader takes apart a byte string laid out as header, length, mask, body and rest. */
  lemma LayoutParses(first: Byte, second: Byte, ext: Bytes, mask: Bytes, raw: Bytes, rest: Bytes)
    requires first >= 128 && second >= 128 && |mask| == 4
    requires |ext| == ExtendedBytes(second % 128)
    requires |raw| == if ext == [] then second % 128 else FromBigEndian(ext)
    ensures ParseFrame([first, second] + (ext + (mask + (raw + rest))))
         == Ok((Frame(first % 16, Masked(raw, mask)), rest))
  {
    SplitAt([first, second], ext + (mask + (raw + rest)));
    SplitAt(ext, mask + (raw + rest));
    BodyParses(first % 16, mask, raw, rest);
  }

  lemma Reassociate(head: Bytes, ext: Bytes, mask: Bytes, raw: Bytes, rest: Bytes)
    ensures head + ext + mask + raw + rest == head + (ext + (mask + (raw + rest)))
  {
  }

  /** One encoded frame followed by anything reads back as that frame, leaving the rest. */
  lemma FrameRoundTrip(payload: Bytes, opcode: nat, mask: Bytes, rest: Bytes)
    requires |mask| == 4 && opcode < 16 && |payload| < 0x1_0000_0000_0000_0000
    ensures ParseFrame(EncodeFrame(payload, opcode, mask).value + rest) == Ok((Frame(opcode, payload), rest))
  {
    FrameReadBack(payload, opcode, mask, rest);
  }

  /** What the reader makes of any frame the writer accepts: only the low four opcode bits survive. */
  lemma FrameReadBack(payload: Bytes, opcode: nat, mask: Bytes, rest: Bytes)
    requires |mask| == 4 && opcode < 256 && |payload| < 0x1_0000_0000_0000_0000
    ensures ParseFrame(EncodeFrame(payload, opcode, mask).value + rest)
         == Ok((Frame(opcode % 16, payload), rest))
  {
    Pow256Values();
    var length := |payload|;
    var raw := Masked(payload, mask);
    var first := FinalBit(opcode);
    var encoded := EncodeFrame(payload, opcode, mask).value;
    if length < 126 {
      LayoutParses(first, 128 + length, [], mask, raw, rest);
      Reassociate([first, 128 + length], [], mask, raw, rest);
      assert [first, 128 + length] + [] == [first, 128 + length];
    } else if length < 0x1_0000 {
      BigEndianRoundTrip(length, 2);
      LayoutParses(first, 254, BigEndian(length, 2), mask, raw, rest);
      Reassociate([first, 254], BigEndian(length, 2), mask, raw, rest);
    } else {
      BigEndianRoundTrip(length, 8);
      LayoutParses(first, 255, BigEndian(length, 8), mask, raw, rest);
      Reassociate([first, 255], BigEndian(length, 8), mask, raw, rest);
    }
    MaskInvolution(payload, mask);
  }

  /** The round trip holds exactly for the opcodes that fit the four-bit field. */
  lemma OpcodeSurvivesIff(payload: Bytes, opcode: nat, mask: Bytes, rest: Bytes)
    requires |mask| == 4 && opcode < 256 && |payload| < 0x1_0000_0000_0000_0000
    ensures ParseFrame(EncodeFrame(payload, opcode, mask).value + rest) == Ok((Frame(opcode, payload), rest))
            <==> opcode < 16
  {
    FrameReadBack(payload, opcode, mask, rest);
  }

  /** A frame cut anywhere before its end is reported as an early close, never as another frame. */
  lemma TruncatedFrameIsDetected(b: Bytes, k: nat)
    requires ParseFrame(b).Ok? && k < |b| - |ParseFrame(b).value.1|
    ensures ParseFrame(b[..k]) == Err(ClosedEarly)
  {
    if k >= 2 {
      var cut := b[..k];
      var ext := ExtendedBytes(b[1] % 128);
      assert cut[2..] == b[2..][..k - 2];
      if k - 2 >= ext {
        assert cut[2..][..ext] == b[2..][..ext];
      }
    }
  }

  ghost predicate Encodable(frames: seq<Frame>, masks: seq<Bytes>) {
    && |frames| == |masks|
    && (forall i :: 0 <= i < |frames| ==>
          |masks[i]| == 4 && frames[i].opcode < 16 && |frames[i].payload| < 0x1_0000_0000_0000_0000)
  }

  function EncodeAll(frames: seq<Frame>, masks: seq<Bytes>): Bytes
    requires Encodable(frames, masks)
  {
    if frames == [] then []
    else EncodeFrame(frames[0].payload, frames[0].opcode, masks[0]).value + EncodeAll(frames[1..], masks[1..])
  }

  /** A stream of frames reads back as the same list, and every byte is consumed. */
  lemma {:induction false} StreamRoundTrip(frames: seq<Frame>, masks: seq<Bytes>)
    requires Encodable(frames, masks)
    ensures ParseAll(EncodeAll(frames, masks)) == Ok(frames)
  {
    if frames != [] {
      var rest := EncodeAll(frames[1..], masks[1..]);
      FrameRoundTrip(frames[0].payload, frames[0].opcode, masks[0], rest);
      StreamRoundTrip(frames[1..], masks[1..]);
      assert frames == [frames[0]] + frames[1..];
    }
  }

  /** What one side writes the other reads, over a connection that may deliver any number of bytes at a time:
      the same list of frames, and every byte is consumed. */
  method WriteThenRead(frames: seq<Frame>, masks: seq<Bytes>, pattern: nat -> nat)
      returns (r: Result<seq<Frame>, ReadError>, left: Bytes)
    requires Encodable(frames, masks)
    ensures r == Ok(frames) && left == []
  {
    var sent: Bytes := [];
    for i := 0 to |frames|
      invariant sent + EncodeAll(frames[i..], masks[i..]) == EncodeAll(frames, masks)
    {
      var bytes := EncodeFrame(frames[i].payload, frames[i].opcode, masks[i]).value;
      assert frames[i..][1..] == frames[i + 1..] && masks[i..][1..] == masks[i + 1..];
      Assoc(sent, bytes, EncodeAll(frames[i + 1..], masks[i + 1..]));
      sent := sent + bytes;
    }
    assert frames[|frames|..] == [] && sent + [] == sent;
    StreamRoundTrip(frames, masks);
    var connection := new Connection(sent, pattern);
    r := connection.ReadFrames();
    left := connection.incoming;
  }

  /** The writer picks the shortest length field: no masked frame that reads back to the same
      payload is shorter (the minimal-length rule of section 5.2 of RFC 6455). */
  lemma EncodingIsMinimal(b: Bytes, frame: Frame, mask: Bytes)
    requires |mask| == 4 && frame.opcode < 16 && |b| >= 2 && b[1] >= 128
    requires ParseFrame(b) == Ok((frame, []))
    ensures |frame.payload| < 0x1_0000_0000_0000_0000
    ensures |EncodeFrame(frame.payload, frame.opcode, mask).value| <= |b|
  {
    Pow256Values();
    var ext := ExtendedBytes(b[1] % 128);
    if ext > 0 {
      FromBigEndianBound(b[2..][..ext]);
    }
  }
}
