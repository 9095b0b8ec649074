/**
 What the decoder makes of bytes, against the encoding form itself: UTF-8 is the bit distribution of table 3-6 of
 section 3.9 of the Unicode Standard, and a part that belongs to no encoding is replaced as a whole.
 */
module Utf8Text {
  import opened Common
  import opened Utf8

  /** A trailing byte: the bits of `u` from bit `6 * k` on, six of them. */
  function Trail(u: nat, k: nat): Byte {
    0x80 + u / Pow64(k) % 64
  }

  /** The bit distribution: one to four bytes by the size of the scalar value. */
  function EncodeChar(c: char): (r: Bytes)
    ensures 1 <= |r| <= 4
  {
    var u := c as int;
    if u < 0x80 then [u]
    else if u < 0x800 then [0xC0 + u / 64, Trail(u, 0)]
    else if u < 0x1_0000 then [0xE0 + u / 4096, Trail(u, 1), Trail(u, 0)]
    else [0xF0 + u / 262144, Trail(u, 2), Trail(u, 1), Trail(u, 0)]
  }

  function Encode(text: string): Bytes {
    if text == "" then [] else EncodeChar(text[0]) + Encode(text[1..])
  }

  // ----- Decoding what was encoded -----

  /** Inside the encoding of a character nothing is produced, and the next byte is expected. */
  predicate Expects(p: Bytes, next: Byte) {
    Emit(Between, p) == "" && Continues(After(Between, p), next)
  }

  lemma OneByte(b: Byte)
    ensures Emit(Between, [b]) == Feed(Between, b).0 && After(Between, [b]) == Feed(Between, b).1
  {
    assert [b][1..] == [];
    assert Emit(Between, [b]) == Feed(Between, b).0 + "";
  }

  lemma NextByte(p: Bytes, b: Byte)
    ensures Emit(Between, p + [b]) == Emit(Between, p) + Feed(After(Between, p), b).0
    ensures After(Between, p + [b]) == Feed(After(Between, p), b).1
  {
    EmitAppend(Between, p, [b]);
    var m := After(Between, p);
    assert [b][1..] == [];
    assert Emit(m, [b]) == Feed(m, b).0 + "";
  }

  lemma TwoBytes(a: Byte, b: Byte)
    requires IsLead(a) && Continues(Lead(a), b)
    ensures Expects([a], b) && Emit(Between, [a, b]) == Feed(Lead(a), b).0 && After(Between, [a, b]) == Feed(Lead(a), b).1
  {
    OneByte(a);
    NextByte([a], b);
    assert [a] + [b] == [a, b];
  }

  lemma TwoByteChar(c: char)
    requires 0x80 <= c as int < 0x800
    ensures var e := EncodeChar(c);
            Expects([e[0]], e[1]) && Emit(Between, e) == [c] && After(Between, e) == Between
  {
    var e := EncodeChar(c);
    TwoBytes(e[0], e[1]);
  }

  /** The state inside a three-byte character. */
  lemma ThreeByteLead(c: char)
    requires 0x800 <= c as int < 0x1_0000
    ensures var e := EncodeChar(c);
            && IsLead(e[0]) && Continues(Lead(e[0]), e[1])
            && Feed(Lead(e[0]), e[1]) == ("", Inside(c as int / 64, 1, 0x80, 0xBF))
  {
    var u := c as int;
    assert u < 0xD800 || u >= 0xE000;
    assert u / 64 == u / 4096 * 64 + u / 64 % 64;
  }

  lemma ThreeByteChar(c: char)
    requires 0x800 <= c as int < 0x1_0000
    ensures var e := EncodeChar(c);
            && Expects([e[0]], e[1]) && Expects([e[0], e[1]], e[2])
            && Emit(Between, e) == [c] && After(Between, e) == Between
  {
    var e := EncodeChar(c);
    ThreeByteLead(c);
    TwoBytes(e[0], e[1]);
    NextByte([e[0], e[1]], e[2]);
    assert [e[0], e[1]] + [e[2]] == e;
    assert c as int == c as int / 64 * 64 + c as int % 64;
  }

  lemma FourByteLead(c: char)
    requires 0x1_0000 <= c as int
    ensures var e := EncodeChar(c);
            && IsLead(e[0]) && Continues(Lead(e[0]), e[1])
            && Feed(Lead(e[0]), e[1]) == ("", Inside(c as int / 4096, 2, 0x80, 0xBF))
  {
    var u := c as int;
    assert u < 0x11_0000;
    assert u / 4096 == u / 262144 * 64 + u / 4096 % 64;
  }

  lemma FourByteRest(c: char)
    requires 0x1_0000 <= c as int
    ensures var e := EncodeChar(c);
            && Feed(Inside(c as int / 4096, 2, 0x80, 0xBF), e[2]) == ("", Inside(c as int / 64, 1, 0x80, 0xBF))
            && Feed(Inside(c as int / 64, 1, 0x80, 0xBF), e[3]) == ([c], Between)
  {
    var u := c as int;
    assert u < 0x11_0000;
    assert u / 64 == u / 4096 * 64 + u / 64 % 64;
    assert u == u / 64 * 64 + u % 64;
  }

  lemma FourByteChar(c: char)
    requires 0x1_0000 <= c as int
    ensures var e := EncodeChar(c);
            && Expects([e[0]], e[1]) && Expects([e[0], e[1]], e[2]) && Expects([e[0], e[1], e[2]], e[3])
            && Emit(Between, e) == [c] && After(Between, e) == Between
  {
    var e := EncodeChar(c);
    FourByteLead(c);
    FourByteRest(c);
    FourFeeds(e[0], e[1], e[2], e[3], c as int / 4096, c as int / 64, c);
    assert [e[0], e[1], e[2], e[3]] == e;
  }

  lemma FourFeeds(b0: Byte, b1: Byte, b2: Byte, b3: Byte, two: nat, one: nat, c: char)
    requires Valid(Inside(two, 2, 0x80, 0xBF)) && Valid(Inside(one, 1, 0x80, 0xBF))
    requires IsLead(b0) && Continues(Lead(b0), b1) && Feed(Lead(b0), b1) == ("", Inside(two, 2, 0x80, 0xBF))
    requires 0x80 <= b2 <= 0xBF && Feed(Inside(two, 2, 0x80, 0xBF), b2) == ("", Inside(one, 1, 0x80, 0xBF))
    requires 0x80 <= b3 <= 0xBF && Feed(Inside(one, 1, 0x80, 0xBF), b3) == ([c], Between)
    ensures Expects([b0], b1) && Expects([b0, b1], b2) && Expects([b0, b1, b2], b3)
    ensures Emit(Between, [b0, b1, b2, b3]) == [c] && After(Between, [b0, b1, b2, b3]) == Between
  {
    TwoBytes(b0, b1);
    NextByte([b0, b1], b2);
    assert [b0, b1] + [b2] == [b0, b1, b2];
    NextByte([b0, b1, b2], b3);
    assert [b0, b1, b2] + [b3] == [b0, b1, b2, b3];
  }

  /** One encoded character is decoded as that character, whatever follows. */
  lemma EncodedCharDecodes(c: char, s: Bytes)
    ensures Emit(Between, EncodeChar(c)) == [c] && After(Between, EncodeChar(c)) == Between
    ensures Decode(EncodeChar(c) + s) == [c] + Decode(s)
  {
    var e := EncodeChar(c);
    if c as int < 0x80 {
      OneByte(e[0]);
    } else if c as int < 0x800 {
      TwoByteChar(c);
    } else if c as int < 0x1_0000 {
      ThreeByteChar(c);
    } else {
      FourByteChar(c);
    }
    EmitAppend(Between, e, s);
    Assoc([c], Emit(Between, s), Flush(After(Between, s)));
  }

  /** Every text comes back from its encoding. */
  lemma {:induction false} DecodeEncoded(text: string)
    ensures Decode(Encode(text)) == text
  {
    if text == "" {
      assert Decode([]) == "" + "";
    } else {
      DecodeEncoded(text[1..]);
      EncodedCharDecodes(text[0], Encode(text[1..]));
      assert [text[0]] + text[1..] == text;
    }
  }

  /** In particular ASCII bytes are their own text. */
  lemma {:induction false} AsciiDecodes(s: Bytes)
    requires Ascii(s)
    ensures |Decode(s)| == |s| && forall i :: 0 <= i < |s| ==> Decode(s)[i] == s[i] as char
  {
    if s == [] {
      assert Decode([]) == "" + "";
    } else {
      AsciiDecodes(s[1..]);
      EncodedCharDecodes(s[0] as char, s[1..]);
      assert EncodeChar(s[0] as char) + s[1..] == s;
    }
  }

  // ----- What belongs to no encoding -----

  /** Some character's encoding begins like this. */
  ghost predicate StartsEncoding(p: Bytes) {
    exists c: char :: p <= EncodeChar(c)
  }

  ghost predicate IsEncoding(p: Bytes) {
    exists c: char :: p == EncodeChar(c)
  }

  /** A maximal ill-formed part in front of `rest`: a byte with which no encoding begins, or the beginning of one that
      breaks off, because the input ends or no encoding goes on like that. */
  ghost predicate IllFormed(part: Bytes, rest: Bytes) {
    || (|part| == 1 && !StartsEncoding(part))
    || (part != [] && StartsEncoding(part) && !IsEncoding(part) && (rest == [] || !StartsEncoding(part + [rest[0]])))
  }

  lemma PrefixOf(e: Bytes, p: Bytes)
    requires p <= e && p != e && p != [] && |e| <= 4
    ensures p == [e[0]] || (|e| >= 3 && p == [e[0], e[1]]) || (|e| >= 4 && p == [e[0], e[1], e[2]])
    ensures |p| < |e| && p + [e[|p|]] <= e
  {
  }

  /** In the middle of an encoding nothing has been produced and its next byte is expected. */
  lemma MidEncoding(c: char, p: Bytes)
    requires p <= EncodeChar(c) && p != EncodeChar(c) && p != []
    ensures |p| < |EncodeChar(c)| && Expects(p, EncodeChar(c)[|p|])
  {
    var e := EncodeChar(c);
    PrefixOf(e, p);
    if c as int < 0x800 {
      TwoByteChar(c);
    } else if c as int < 0x1_0000 {
      ThreeByteChar(c);
    } else {
      FourByteChar(c);
    }
  }

  /** A byte begins an encoding exactly if it is ASCII or a lead byte. */
  lemma FirstByteStarts(b: Byte)
    ensures StartsEncoding([b]) <==> b < 0x80 || IsLead(b)
  {
    if b < 0x80 {
      assert [b] <= EncodeChar(b as char);
    } else if IsLead(b) {
      var u := if b < 0xE0 then (b - 0xC0) * 64 else if b == 0xE0 then 0x800 else if b < 0xF0 then (b - 0xE0) * 4096
               else if b == 0xF0 then 0x1_0000 else (b - 0xF0) * 262144;
      assert [b] <= EncodeChar(u as char);
    }
    if StartsEncoding([b]) {
      var c: char :| [b] <= EncodeChar(c);
      assert b == EncodeChar(c)[0];
      assert c as int < 0x11_0000;
    }
  }

  lemma SixBits(high: nat, low: nat)
    requires low < 64
    ensures (high * 64 + low) / 64 == high && (high * 64 + low) % 64 == low
  {
  }

  lemma TwoBytesOf(a: nat, z: nat) returns (d: char)
    requires 2 <= a < 32 && z < 64
    ensures EncodeChar(d) == [0xC0 + a, 0x80 + z]
  {
    SixBits(a, z);
    d := (a * 64 + z) as char;
  }

  lemma ThreeBytesOf(a: nat, b: nat, z: nat) returns (d: char)
    requires a < 16 && b < 64 && z < 64
    requires 0x20 <= a * 64 + b && (a * 64 + b < 0x360 || 0x380 <= a * 64 + b)
    ensures EncodeChar(d) == [0xE0 + a, 0x80 + b, 0x80 + z]
  {
    var h := a * 64 + b;
    SixBits(a, b);
    SixBits(h, z);
    var v := h * 64 + z;
    assert v / 4096 == v / 64 / 64;
    d := v as char;
  }

  lemma FourBytesOf(a: nat, b: nat, e: nat, z: nat) returns (d: char)
    requires a <= 4 && b < 64 && e < 64 && z < 64
    requires 0x10 <= a * 64 + b < 0x110
    ensures EncodeChar(d) == [0xF0 + a, 0x80 + b, 0x80 + e, 0x80 + z]
  {
    var h := a * 64 + b;
    SixBits(a, b);
    SixBits(h, e);
    var k := h * 64 + e;
    SixBits(k, z);
    var v := k * 64 + z;
    assert v / 4096 == v / 64 / 64;
    assert v / 262144 == v / 64 / 64 / 64;
    d := v as char;
  }

  /** The bits of a lead byte and of the byte after it. */
  function High(lead: int, second: int): int {
    lead * 64 + second
  }

  lemma ThreeByteBits(c: char)
    requires 0x800 <= c as int < 0x1_0000
    ensures var e := EncodeChar(c);
            && 0 <= e[0] - 0xE0 < 16 && 0x20 <= High(e[0] - 0xE0, e[1] - 0x80)
            && (High(e[0] - 0xE0, e[1] - 0x80) < 0x360 || 0x380 <= High(e[0] - 0xE0, e[1] - 0x80))
  {
    var u := c as int;
    assert u / 4096 * 64 + u / 64 % 64 == u / 64;
    assert u < 0xD800 || 0xE000 <= u;
  }

  lemma FourByteBits(c: char)
    requires 0x1_0000 <= c as int
    ensures var e := EncodeChar(c); 0 <= e[0] - 0xF0 <= 4 && 0x10 <= High(e[0] - 0xF0, e[1] - 0x80) < 0x110
  {
    var u := c as int;
    assert u / 262144 * 64 + u / 4096 % 64 == u / 4096;
  }

  /** The bytes of a character, back to their bits. */
  lemma BytesOf(c: char)
    ensures var u, e := c as int, EncodeChar(c);
            && (0x80 <= u < 0x800 ==> 2 <= e[0] - 0xC0 < 32)
            && (0x800 <= u < 0x1_0000 ==>
                  && 0 <= e[0] - 0xE0 < 16
                  && 0x20 <= High(e[0] - 0xE0, e[1] - 0x80)
                  && (High(e[0] - 0xE0, e[1] - 0x80) < 0x360 || 0x380 <= High(e[0] - 0xE0, e[1] - 0x80)))
            && (0x1_0000 <= u ==> 0 <= e[0] - 0xF0 <= 4 && 0x10 <= High(e[0] - 0xF0, e[1] - 0x80) < 0x110)
  {
    if 0x800 <= c as int < 0x1_0000 {
      ThreeByteBits(c);
    } else if 0x1_0000 <= c as int {
      FourByteBits(c);
    }
  }

  lemma LastByteGoesOn(c: char, p: Bytes, b: Byte) returns (d: char)
    requires |EncodeChar(c)| >= 2 && p == EncodeChar(c)[..|EncodeChar(c)| - 1] && 0x80 <= b <= 0xBF
    ensures p + [b] <= EncodeChar(d)
  {
    var e := EncodeChar(c);
    BytesOf(c);
    if |e| == 2 {
      d := TwoBytesOf(e[0] - 0xC0, b - 0x80);
    } else if |e| == 3 {
      d := ThreeBytesOf(e[0] - 0xE0, e[1] - 0x80, b - 0x80);
    } else {
      d := FourBytesOf(e[0] - 0xF0, e[1] - 0x80, e[2] - 0x80, b - 0x80);
    }
  }

  lemma SecondByteOfThree(c: char, b: Byte) returns (d: char)
    requires 0x800 <= c as int < 0x1_0000 && Continues(After(Between, [EncodeChar(c)[0]]), b)
    ensures [EncodeChar(c)[0], b] <= EncodeChar(d)
  {
    var lead := EncodeChar(c)[0];
    ThreeByteLead(c);
    OneByte(lead);
    assert 0xE0 <= lead < 0xF0;
    d := ThreeBytesOf(lead - 0xE0, b - 0x80, 0);
  }

  lemma SecondByteOfFour(c: char, b: Byte) returns (d: char)
    requires 0x1_0000 <= c as int && Continues(After(Between, [EncodeChar(c)[0]]), b)
    ensures [EncodeChar(c)[0], b] <= EncodeChar(d)
  {
    var lead := EncodeChar(c)[0];
    FourByteLead(c);
    OneByte(lead);
    BytesOf(c);
    d := FourBytesOf(lead - 0xF0, b - 0x80, 0, 0);
  }

  lemma ThirdByteOfFour(c: char, b: Byte) returns (d: char)
    requires 0x1_0000 <= c as int && 0x80 <= b <= 0xBF
    ensures [EncodeChar(c)[0], EncodeChar(c)[1], b] <= EncodeChar(d)
  {
    BytesOf(c);
    d := FourBytesOf(EncodeChar(c)[0] - 0xF0, EncodeChar(c)[1] - 0x80, b - 0x80, 0);
  }

  /** Every continuation range lies within the trailing bytes. */
  lemma ContinuesInRange(m: State, b: Byte)
    requires Continues(m, b)
    ensures 0x80 <= b <= 0xBF
  {
  }

  /** In the middle of an encoding the decoder goes on with a byte exactly if some encoding does. */
  lemma GoesOnIff(c: char, p: Bytes, b: Byte)
    requires p <= EncodeChar(c) && p != EncodeChar(c) && p != []
    ensures Continues(After(Between, p), b) <==> StartsEncoding(p + [b])
  {
    var e := EncodeChar(c);
    PrefixOf(e, p);
    if StartsEncoding(p + [b]) {
      var d: char :| p + [b] <= EncodeChar(d);
      assert EncodeChar(d)[|p|] == (p + [b])[|p|] == b;
      assert p <= EncodeChar(d);
      MidEncoding(d, p);
    }
    if Continues(After(Between, p), b) {
      ContinuesInRange(After(Between, p), b);
      var d: char;
      if |p| == |e| - 1 {
        d := LastByteGoesOn(c, p, b);
      } else if |e| == 3 {
        d := SecondByteOfThree(c, b);
        assert p + [b] == [e[0], b];
      } else if |p| == 1 {
        d := SecondByteOfFour(c, b);
        assert p + [b] == [e[0], b];
      } else {
        d := ThirdByteOfFour(c, b);
        assert p + [b] == [e[0], e[1], b];
      }
      assert p + [b] <= EncodeChar(d);
    }
  }

  lemma StrayIsReplaced(b: Byte, rest: Bytes)
    requires !StartsEncoding([b])
    ensures Decode([b] + rest) == [REPLACEMENT] + Decode(rest)
  {
    FirstByteStarts(b);
    OneByte(b);
    assert Feed(Between, b).0 == "" + [REPLACEMENT] == [REPLACEMENT];
    EmitAppend(Between, [b], rest);
    Assoc([REPLACEMENT], Emit(Between, rest), Flush(After(Between, rest)));
  }

  lemma BrokenIsReplaced(c: char, part: Bytes, rest: Bytes)
    requires part <= EncodeChar(c) && part != EncodeChar(c) && part != []
    requires rest == [] || !StartsEncoding(part + [rest[0]])
    ensures Decode(part + rest) == [REPLACEMENT] + Decode(rest)
  {
    MidEncoding(c, part);
    if rest != [] {
      GoesOnIff(c, part, rest[0]);
    }
    var m := After(Between, part);
    EmitAppend(Between, part, rest);
    BrokenOff(m, rest);
    assert "" + Emit(m, rest) == Emit(m, rest);
  }

  /** A maximal ill-formed part becomes one replacement character, and decoding starts afresh after it. */
  lemma IllFormedIsReplaced(part: Bytes, rest: Bytes)
    requires IllFormed(part, rest)
    ensures Decode(part + rest) == [REPLACEMENT] + Decode(rest)
  {
    if |part| == 1 && !StartsEncoding(part) {
      assert part == [part[0]];
      StrayIsReplaced(part[0], rest);
    } else {
      var c: char :| part <= EncodeChar(c);
      assert part != EncodeChar(c);
      BrokenIsReplaced(c, part, rest);
    }
  }

  lemma Longer(b: Bytes, k: nat)
    requires k < |b|
    ensures b[..k] + b[k..] == b && b[k..][0] == b[k] && b[..k] + [b[k]] == b[..k + 1]
  {
  }

  /** Every input begins with an encoding or with a maximal ill-formed part. */
  lemma FirstPart(b: Bytes, k: nat) returns (n: nat)
    requires 1 <= k <= |b| && StartsEncoding(b[..k])
    ensures 1 <= n <= |b| && (IsEncoding(b[..n]) || IllFormed(b[..n], b[n..]))
    decreases 4 - k
  {
    var c: char :| b[..k] <= EncodeChar(c);
    assert k <= 4;
    if IsEncoding(b[..k]) || k == |b| {
      n := k;
      assert b[|b|..] == [];
    } else {
      Longer(b, k);
      if StartsEncoding(b[..k + 1]) {
        n := FirstPart(b, k + 1);
      } else {
        n := k;
      }
    }
  }

  /** What one character of a decoded text stands for: its encoding, or a maximal ill-formed part. */
  ghost predicate StandsFor(c: char, part: Bytes, rest: Bytes) {
    part == EncodeChar(c) || (c == REPLACEMENT && IllFormed(part, rest))
  }

  /** The characters of the text stand for the parts, one by one. */
  ghost predicate Reads(parts: seq<Bytes>, text: string)
    decreases |parts|
  {
    |parts| == |text|
    && (parts != [] ==> StandsFor(text[0], parts[0], Flatten(parts[1..])) && Reads(parts[1..], text[1..]))
  }

  lemma OnePart(b: Bytes) returns (c: char, part: Bytes, rest: Bytes)
    requires b != []
    ensures part + rest == b && part != [] && StandsFor(c, part, rest) && Decode(b) == [c] + Decode(rest)
  {
    var n: nat := 1;
    if StartsEncoding(b[..1]) {
      n := FirstPart(b, 1);
    }
    part, rest := b[..n], b[n..];
    assert part + rest == b;
    if IsEncoding(part) {
      c :| part == EncodeChar(c);
      EncodedCharDecodes(c, rest);
    } else {
      c := REPLACEMENT;
      IllFormedIsReplaced(part, rest);
    }
  }

  /** The decoded text of any input whatsoever: the input falls into parts, and the text has one character for each,
      the one a part encodes or U+FFFD for a maximal ill-formed part. */
  lemma {:induction false} DecodeReplacesIllFormed(b: Bytes) returns (parts: seq<Bytes>)
    ensures Flatten(parts) == b && Reads(parts, Decode(b))
    decreases |b|
  {
    if b == [] {
      parts := [];
      assert Decode([]) == "" + "";
    } else {
      var c, part, rest := OnePart(b);
      assert |b| == |part| + |rest|;
      var more := DecodeReplacesIllFormed(rest);
      parts := [part] + more;
      assert parts[1..] == more && ([c] + Decode(rest))[1..] == Decode(rest);
    }
  }

  // ----- Text cut by a limit -----

  /** `k` is the number of characters whose encodings fit into `n` bytes. */
  predicate Fits(text: string, n: nat, k: nat) {
    && k <= |text| && |Encode(text[..k])| <= n
    && (k < |text| ==> |Encode(text[..k])| + |EncodeChar(text[k])| > n)
  }

  lemma FitsAfterFirst(text: string, n: nat, k: nat)
    requires text != "" && |EncodeChar(text[0])| <= n && Fits(text[1..], n - |EncodeChar(text[0])|, k)
    ensures Fits(text, n, k + 1) && |Encode(text[..k + 1])| == |EncodeChar(text[0])| + |Encode(text[1..][..k])|
    ensures text[..k + 1] == [text[0]] + text[1..][..k]
  {
    assert text[..k + 1][0] == text[0] && text[..k + 1][1..] == text[1..][..k];
  }

  /** The first `n` bytes of an encoded text: the characters that fit, and one U+FFFD if the cut is inside the next. */
  lemma {:induction false} CutTextDecodes(text: string, n: nat) returns (k: nat)
    ensures Fits(text, n, k)
    ensures Decode(Clip(Encode(text), n)) == text[..k] + if k == |text| || |Encode(text[..k])| == n then "" else [REPLACEMENT]
    decreases |text|
  {
    if text == "" {
      k := 0;
      assert Decode([]) == "" + "";
    } else {
      var first, rest := EncodeChar(text[0]), Encode(text[1..]);
      if |first| <= n {
        k := CutTextDecodes(text[1..], n - |first|);
        FitsAfterFirst(text, n, k);
        assert Clip(first + rest, n) == first + Clip(rest, n - |first|);
        EncodedCharDecodes(text[0], Clip(rest, n - |first|));
        Assoc([text[0]], text[1..][..k], if k == |text[1..]| || |Encode(text[1..][..k])| == n - |first| then "" else [REPLACEMENT]);
        k := k + 1;
      } else {
        k := 0;
        assert text[..0] == "" && Clip(first + rest, n) == first[..n];
        CutFirst(text[0], n);
      }
    }
  }

  lemma CutFirst(c: char, n: nat)
    requires n < |EncodeChar(c)|
    ensures Decode(EncodeChar(c)[..n]) == if n == 0 then "" else [REPLACEMENT]
  {
    assert Decode([]) == "" + "";
    if n > 0 {
      var part := EncodeChar(c)[..n];
      BrokenIsReplaced(c, part, []);
      assert part + [] == part && [REPLACEMENT] + "" == [REPLACEMENT];
    }
  }
}
