/**
 Decoding bytes as UTF-8 with errors replaced, as `bytes.decode("utf-8", errors="replace")`
 does: each maximal ill-formed part becomes one U+FFFD (section 3.9 of the Unicode Standard).
 */
module Utf8 {
  import opened Common

  const REPLACEMENT: char := 0xFFFD as char

  /** Between characters, or inside one: the bits so far, the bytes left, and the range of the next. */
  datatype RawState = Between | Inside(bits: nat, left: nat, low: Byte, high: Byte)

  function Pow64(n: nat): nat {
    if n == 0 then 1 else if n == 1 then 64 else if n == 2 then 4096 else 262144
  }

  /** Whatever the remaining bytes are, the character will be a scalar value. */
  predicate Valid(m: RawState) {
    m.Inside? ==>
      && 1 <= m.left <= 3 && 0x80 <= m.low <= m.high <= 0xBF
      && var unit := Pow64(m.left - 1);
         var least := (m.bits * 64 + m.low - 0x80) * unit;
         var most := (m.bits * 64 + m.high - 0x80) * unit + unit - 1;
         most < 0xD800 || (0xE000 <= least && most < 0x11_0000)
  }

  type State = m: RawState | Valid(m) witness Between

  predicate IsLead(b: Byte) {
    0xC2 <= b <= 0xF4
  }

  function Lead(b: Byte): State
    requires IsLead(b)
  {
    if b < 0xE0 then Inside(b - 0xC0, 1, 0x80, 0xBF)
    else if b == 0xE0 then Inside(0, 2, 0xA0, 0xBF)
    else if b == 0xED then Inside(0xD, 2, 0x80, 0x9F)
    else if b < 0xF0 then Inside(b - 0xE0, 2, 0x80, 0xBF)
    else if b == 0xF0 then Inside(0, 3, 0x90, 0xBF)
    else if b == 0xF4 then Inside(4, 3, 0x80, 0x8F)
    else Inside(b - 0xF0, 3, 0x80, 0xBF)
  }

  predicate Continues(m: State, b: Byte) {
    m.Inside? && m.low <= b <= m.high
  }

  /** The text produced by one byte, and the state after it. */
  function Feed(m: State, b: Byte): (string, State) {
    if Continues(m, b) then
      var bits := m.bits * 64 + b - 0x80;
      if m.left == 1 then ([bits as char], Between) else ("", Inside(bits, m.left - 1, 0x80, 0xBF))
    else
      var broken := if m.Inside? then [REPLACEMENT] else "";
      if b < 0x80 then (broken + [b as char], Between)
      else if IsLead(b) then (broken, Lead(b))
      else (broken + [REPLACEMENT], Between)
  }

  function Emit(m: State, s: Bytes): string
    decreases |s|
  {
    if s == [] then "" else Feed(m, s[0]).0 + Emit(Feed(m, s[0]).1, s[1..])
  }

  function After(m: State, s: Bytes): State
    decreases |s|
  {
    if s == [] then m else After(Feed(m, s[0]).1, s[1..])
  }

  /** A character cut short by the end of the input. */
  function Flush(m: State): string {
    if m.Inside? then [REPLACEMENT] else ""
  }

  function Decode(s: Bytes): string {
    Emit(Between, s) + Flush(After(Between, s))
  }

  // ----- Decoding in pieces -----

  lemma {:induction false} EmitAppend(m: State, a: Bytes, b: Bytes)
    ensures Emit(m, a + b) == Emit(m, a) + Emit(After(m, a), b)
    ensures After(m, a + b) == After(After(m, a), b)
    decreases |a|
  {
    if a == [] {
      assert a + b == b;
    } else {
      var (text, next) := Feed(m, a[0]);
      EmitAppend(next, a[1..], b);
      assert (a + b)[1..] == a[1..] + b;
      Assoc(text, Emit(next, a[1..]), Emit(After(next, a[1..]), b));
    }
  }

  /** Everything produced from a state onwards, to the end of the input. */
  function Finish(m: State, s: Bytes): string {
    Emit(m, s) + Flush(After(m, s))
  }

  lemma FinishStep(m: State, s: Bytes)
    requires s != []
    ensures Finish(m, s) == Feed(m, s[0]).0 + Finish(Feed(m, s[0]).1, s[1..])
  {
    var (text, next) := Feed(m, s[0]);
    Assoc(text, Emit(next, s[1..]), Flush(After(next, s[1..])));
  }

  /** A byte that does not continue the open character breaks it off, as the end of input would. */
  lemma BrokenOff(m: State, s: Bytes)
    requires s == [] || !Continues(m, s[0])
    ensures Finish(m, s) == Flush(m) + Finish(Between, s)
  {
    if s == [] {
      assert Finish(m, []) == "" + Flush(m);
      assert Finish(Between, []) == "" + "";
    } else {
      FinishStep(m, s);
      FinishStep(Between, s);
      assert Feed(m, s[0]).0 == Flush(m) + Feed(Between, s[0]).0;
      assert Feed(m, s[0]).1 == Feed(Between, s[0]).1;
      Assoc(Flush(m), Feed(Between, s[0]).0, Finish(Feed(m, s[0]).1, s[1..]));
    }
  }

  /** Starting inside a character costs at most one replacement over starting between characters. */
  lemma {:induction false} InsideCostsAtMostOne(m: State, s: Bytes)
    requires m.Inside?
    ensures |Finish(m, s)| <= 1 + |Finish(Between, s)|
    decreases |s|, 1
  {
    if s == [] || !Continues(m, s[0]) {
      BrokenOff(m, s);
    } else {
      ContinuingCostsNothing(m, s);
    }
  }

  lemma {:induction false} ContinuingCostsNothing(m: State, s: Bytes)
    requires s != [] && Continues(m, s[0])
    ensures |Finish(m, s)| <= |Finish(Between, s)|
    decreases |s|, 0
  {
    FinishStep(m, s);
    FinishStep(Between, s);
    assert "" + [REPLACEMENT] == [REPLACEMENT];
    assert !IsLead(s[0]) && Feed(Between, s[0]) == ([REPLACEMENT], Between);
    if m.left > 1 {
      InsideCostsAtMostOne(Feed(m, s[0]).1, s[1..]);
    }
  }

  /** The cut between `a` and `b` falls inside a character. */
  predicate Splits(a: Bytes, b: Bytes) {
    b != [] && Continues(After(Between, a), b[0])
  }

  /** Decoding two pieces separately gives the text of the whole exactly when no character is split;
      when one is, the pieces give strictly more text. */
  lemma DecodeInTwo(a: Bytes, b: Bytes)
    ensures Decode(a + b) == Decode(a) + Decode(b) <==> !Splits(a, b)
    ensures |Decode(a + b)| <= |Decode(a)| + |Decode(b)|
    ensures Splits(a, b) ==> |Decode(a + b)| < |Decode(a)| + |Decode(b)|
  {
    var m := After(Between, a);
    EmitAppend(Between, a, b);
    Assoc(Emit(Between, a), Emit(m, b), Flush(After(m, b)));
    assert Decode(a + b) == Emit(Between, a) + Finish(m, b);
    if Splits(a, b) {
      ContinuingCostsNothing(m, b);
    } else {
      BrokenOff(m, b);
      Assoc(Emit(Between, a), Flush(m), Finish(Between, b));
    }
  }

  /** No cut between consecutive pieces falls inside a character. */
  ghost predicate CutsBetweenCharacters(pieces: seq<Bytes>) {
    forall i :: 0 < i < |pieces| ==> !Splits(Flatten(pieces[..i]), pieces[i])
  }

  lemma Cancel(a: string, b: string, c: string)
    requires a + c == b + c
    ensures a == b
  {
    assert |a| == |b|;
    assert a == (a + c)[..|a|] && b == (b + c)[..|a|];
  }

  lemma CutsOfPrefix(init: seq<Bytes>, last: Bytes)
    ensures CutsBetweenCharacters(init + [last])
        <==> CutsBetweenCharacters(init) && (init != [] ==> !Splits(Flatten(init), last))
  {
    var pieces := init + [last];
    assert forall i :: 0 <= i <= |init| ==> pieces[..i] == init[..i];
    assert init[..|init|] == init;
    if CutsBetweenCharacters(pieces) && init != [] {
      assert !Splits(Flatten(pieces[..|init|]), pieces[|init|]);
      forall i | 0 < i < |init|
        ensures !Splits(Flatten(init[..i]), init[i])
      {
        assert !Splits(Flatten(pieces[..i]), pieces[i]);
      }
    }
  }

  /** Decoding piece by piece agrees with decoding the whole if and only if every cut falls between
      characters. */
  lemma {:induction false} PiecewiseDecodeIff(pieces: seq<Bytes>)
    ensures ConcatMap(Decode, pieces) == Decode(Flatten(pieces)) <==> CutsBetweenCharacters(pieces)
    ensures |Decode(Flatten(pieces))| <= |ConcatMap(Decode, pieces)|
    decreases |pieces|
  {
    if pieces == [] {
      assert Decode([]) == "" + "";
    } else {
      var init, last := pieces[..|pieces| - 1], pieces[|pieces| - 1];
      assert pieces == init + [last];
      PiecewiseDecodeIff(init);
      ConcatMapSnoc(Decode, init, last);
      FlattenSnoc(init, last);
      CutsOfPrefix(init, last);
      DecodeInTwo(Flatten(init), last);
      if init == [] {
        assert !Splits([], last);
      }
      if ConcatMap(Decode, pieces) == Decode(Flatten(pieces)) {
        Cancel(ConcatMap(Decode, init), Decode(Flatten(init)), Decode(last));
      }
    }
  }

  predicate Ascii(s: Bytes) {
    forall i :: 0 <= i < |s| ==> s[i] < 0x80
  }

  lemma {:induction false} AsciiStaysBetween(s: Bytes)
    requires Ascii(s)
    ensures After(Between, s) == Between
  {
    if s != [] {
      AsciiStaysBetween(s[1..]);
    }
  }

  /** ASCII text can be cut anywhere. */
  lemma AsciiCutsAnywhere(pieces: seq<Bytes>)
    requires Ascii(Flatten(pieces))
    ensures CutsBetweenCharacters(pieces)
  {
    forall i | 0 < i < |pieces|
      ensures !Splits(Flatten(pieces[..i]), pieces[i])
    {
      FlattenAppend(pieces[..i], pieces[i..]);
      assert pieces[..i] + pieces[i..] == pieces;
      var head := Flatten(pieces[..i]);
      assert forall k :: 0 <= k < |head| ==> head[k] == Flatten(pieces)[k];
      AsciiStaysBetween(head);
    }
  }
}
