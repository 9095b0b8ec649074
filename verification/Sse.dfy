/**
 The server-sent-event encoder of the Python runtime's `app.py`, with reference decoders:
 the event stream interpretation of sections 9.2.5 and 9.2.6 of the WHATWG HTML standard, and
 the string syntax of section 7 of RFC 8259.
 */
module Sse {
  import opened Common

  /** A command event: its name and the single member of its data object. */
  datatype Data = Text(key: string, text: string) | Number(key: string, value: int)

  datatype Event = Event(name: string, data: Data)

  // ----- json.dumps with separators (',', ':') and ASCII output -----

  function HexDigit(n: nat): (c: char)
    requires n < 16
  {
    if n < 10 then ('0' as int + n) as char else ('a' as int + n - 10) as char
  }

  function Hex4(n: nat): (s: string)
    requires n < 0x1_0000
    ensures |s| == 4
  {
    [HexDigit(n / 4096), HexDigit(n / 256 % 16), HexDigit(n / 16 % 16), HexDigit(n % 16)]
  }

  function UnicodeEscape(unit: nat): string
    requires unit < 0x1_0000
  {
    "\\u" + Hex4(unit)
  }

  /** A character beyond the first 65536 as a surrogate pair. */
  function PairEscape(v: nat): string
    requires v < 0x10_0000
  {
    UnicodeEscape(0xD800 + v / 1024) + UnicodeEscape(0xDC00 + v % 1024)
  }

  /** The escapes with a letter or the character itself after the reverse solidus. */
  function ShortCode(c: char): Option<char> {
    if c == '\"' || c == '\\' then Some(c)
    else if c == '\n' then Some('n')
    else if c == '\r' then Some('r')
    else if c == '\t' then Some('t')
    else if c as int == 0x0C then Some('f')
    else if c as int == 0x08 then Some('b')
    else None
  }

  function EscapeChar(c: char): string {
    if ShortCode(c).Some? then ['\\', ShortCode(c).value]
    else if 0x20 <= c as int <= 0x7E then [c]
    else if (c as int) < 0x1_0000 then UnicodeEscape(c as int)
    else PairEscape(c as int - 0x1_0000)
  }

  function Escape(s: string): string {
    if s == "" then "" else EscapeChar(s[0]) + Escape(s[1..])
  }

  function DumpString(s: string): string {
    "\"" + Escape(s) + "\""
  }

  function Digits(n: nat): (s: string)
    ensures s != ""
  {
    var last := ('0' as int + n % 10) as char;
    if n < 10 then [last] else Digits(n / 10) + [last]
  }

  function DumpInt(n: int): string {
    if n < 0 then "-" + Digits(-n) else Digits(n)
  }

  function DumpData(data: Data): string {
    match data
    case Text(key, text) => "{" + DumpString(key) + ":" + DumpString(text) + "}"
    case Number(key, value) => "{" + DumpString(key) + ":" + DumpInt(value) + "}"
  }

  // ----- The encoder -----

  function EncodeEvent(event: Event): string {
    "event: " + event.name + "\n" + "data: " + DumpData(event.data) + "\n" + "\n"
  }

  function EncodeStream(events: seq<Event>): string {
    ConcatMap(EncodeEvent, events)
  }

  lemma StreamExtends(events: seq<Event>, n: nat)
    requires n < |events|
    ensures EncodeStream(events[..n + 1]) == EncodeStream(events[..n]) + EncodeEvent(events[n])
  {
    assert events[..n + 1] == events[..n] + [events[n]];
    ConcatMapSnoc(EncodeEvent, events[..n], events[n]);
  }

  // ----- Event stream interpretation -----

  /** Lines ended by LF, CR or CR LF; an unterminated last line is still pending and dropped. */
  function Lines(s: string, current: string): seq<string>
    decreases |s|
  {
    if s == "" then []
    else if s[0] == '\n' then [current] + Lines(s[1..], "")
    else if s[0] == '\r' then
      [current] + Lines(if |s| > 1 && s[1] == '\n' then s[2..] else s[1..], "")
    else Lines(s[1..], current + [s[0]])
  }

  function IndexOf(s: string, c: char): (i: nat)
    ensures i <= |s|
    ensures i < |s| ==> s[i] == c
    ensures forall j :: 0 <= j < i ==> s[j] != c
  {
    if s == "" || s[0] == c then 0 else 1 + IndexOf(s[1..], c)
  }

  function Field(line: string): string {
    line[..IndexOf(line, ':')]
  }

  /** The text after the colon, without one leading blank. */
  function FieldValue(line: string): string {
    var i := IndexOf(line, ':');
    if i == |line| then ""
    else
      var value := line[i + 1..];
      if value != "" && value[0] == ' ' then value[1..] else value
  }

  datatype Message = Message(name: string, data: string)

  function Interpret(lines: seq<string>, name: string, data: string): seq<Message> {
    if lines == [] then []
    else
      var line, rest := lines[0], lines[1..];
      if line == "" then
        (if data == "" then [] else [Message(if name == "" then "message" else name, data[..|data| - 1])])
        + Interpret(rest, "", "")
      else if line[0] == ':' then Interpret(rest, name, data)
      else if Field(line) == "event" then Interpret(rest, FieldValue(line), data)
      else if Field(line) == "data" then Interpret(rest, name, data + FieldValue(line) + "\n")
      else Interpret(rest, name, data)
  }

  function ParseStream(s: string): seq<Message> {
    Interpret(Lines(if s != "" && s[0] as int == 0xFEFF then s[1..] else s, ""), "", "")
  }

  // ----- JSON strings, integers and one-member objects -----

  function HexValue(c: char): (r: Option<nat>)
    ensures r.Some? ==> r.value < 16
  {
    if '0' <= c <= '9' then Some(c as int - '0' as int)
    else if 'a' <= c <= 'f' then Some(c as int - 'a' as int + 10)
    else if 'A' <= c <= 'F' then Some(c as int - 'A' as int + 10)
    else None
  }

  function ReadHex4(s: string): (r: Option<nat>)
    ensures r.Some? ==> |s| >= 4 && r.value < 0x1_0000
  {
    if |s| < 4 || HexValue(s[0]).None? || HexValue(s[1]).None? || HexValue(s[2]).None? || HexValue(s[3]).None?
    then None
    else Some(HexValue(s[0]).value * 4096 + HexValue(s[1]).value * 256 + HexValue(s[2]).value * 16 + HexValue(s[3]).value)
  }

  /** One escape sequence after the reverse solidus: the character and the number of characters read. */
  function ReadEscape(s: string): (r: Option<(char, nat)>)
    ensures r.Some? ==> 0 < r.value.1 <= |s|
  {
    if s == "" then None
    else if s[0] == '\"' || s[0] == '\\' || s[0] == '/' then Some((s[0], 1))
    else if s[0] == 'b' then Some((0x08 as char, 1))
    else if s[0] == 'f' then Some((0x0C as char, 1))
    else if s[0] == 'n' then Some(('\n', 1))
    else if s[0] == 'r' then Some(('\r', 1))
    else if s[0] == 't' then Some(('\t', 1))
    else if s[0] == 'u' then
      match ReadHex4(s[1..])
      case None => None
      case Some(unit) =>
        if unit < 0xD800 || 0xE000 <= unit then Some((unit as char, 5))
        else if unit < 0xDC00 && |s| >= 11 && s[5] == '\\' && s[6] == 'u' then
          match ReadHex4(s[7..])
          case None => None
          case Some(low) =>
            if 0xDC00 <= low < 0xE000 then
              Some(((0x1_0000 + (unit - 0xD800) * 1024 + (low - 0xDC00)) as char, 11))
            else None
        else None
    else None
  }

  /** The characters up to the closing quotation mark, and what follows it. */
  function ReadString(s: string): (r: Option<(string, string)>)
    ensures r.Some? ==> |r.value.1| < |s|
    decreases |s|
  {
    if s == "" || (s[0] as int) < 0x20 then None
    else if s[0] == '\"' then Some(("", s[1..]))
    else if s[0] == '\\' then
      match ReadEscape(s[1..])
      case None => None
      case Some((c, n)) => Prepend(c, ReadString(s[1 + n..]))
    else Prepend(s[0], ReadString(s[1..]))
  }

  function Prepend(c: char, r: Option<(string, string)>): Option<(string, string)> {
    match r
    case None => None
    case Some((text, rest)) => Some(([c] + text, rest))
  }

  function ReadDigits(s: string, value: nat): (nat, string)
    decreases |s|
  {
    if s != "" && '0' <= s[0] <= '9' then ReadDigits(s[1..], value * 10 + (s[0] as int - '0' as int))
    else (value, s)
  }

  function ReadInt(s: string): Option<(int, string)> {
    var negative := s != "" && s[0] == '-';
    var digits := if negative then s[1..] else s;
    if digits == "" || !('0' <= digits[0] <= '9') then None
    else
      var (n, rest) := ReadDigits(digits, 0);
      var value: int := n;
      Some((if negative then -value else value, rest))
  }

  function ReadData(s: string): Option<Data> {
    if |s| < 2 || s[0] != '{' || s[1] != '\"' then None
    else
      match ReadString(s[2..])
      case None => None
      case Some((key, rest)) =>
        if |rest| < 2 || rest[0] != ':' then None
        else if rest[1] == '\"' then
          match ReadString(rest[2..])
          case Some((text, "}")) => Some(Text(key, text))
          case _ => None
        else
          match ReadInt(rest[1..])
          case Some((n, "}")) => Some(Number(key, n))
          case _ => None
  }

  function DecodeMessages(messages: seq<Message>): Option<seq<Event>> {
    if messages == [] then Some([])
    else
      match (ReadData(messages[0].data), DecodeMessages(messages[1..]))
      case (Some(data), Some(events)) => Some([Event(messages[0].name, data)] + events)
      case _ => None
  }

  // ----- Escapes round-trip -----

  lemma HexDigitRoundTrip(d: nat)
    requires d < 16
    ensures HexValue(HexDigit(d)) == Some(d)
  {
  }

  lemma FourDigits(n: nat)
    requires n < 0x1_0000
    ensures n / 4096 < 16
    ensures n / 4096 * 4096 + n / 256 % 16 * 256 + n / 16 % 16 * 16 + n % 16 == n
  {
    assert n / 256 == n / 4096 * 16 + n / 256 % 16;
    assert n / 16 == n / 256 * 16 + n / 16 % 16;
  }

  lemma Hex4RoundTrip(n: nat, tail: string)
    requires n < 0x1_0000
    ensures ReadHex4(Hex4(n) + tail) == Some(n)
  {
    FourDigits(n);
    HexDigitRoundTrip(n / 4096);
    HexDigitRoundTrip(n / 256 % 16);
    HexDigitRoundTrip(n / 16 % 16);
    HexDigitRoundTrip(n % 16);
  }

  lemma UnitSlices(h: string, tail: string)
    requires |h| == 4
    ensures var s := "\\u" + h + tail;
            |s| >= 6 && s[0] == '\\' && s[1] == 'u' && s[1..][1..] == h + tail && s[6..] == tail
  {
  }

  lemma UnitReads(h: string, unit: nat, tail: string)
    requires |h| == 4 && ReadHex4(h + tail) == Some(unit) && (unit < 0xD800 || 0xE000 <= unit)
    ensures ReadString("\\u" + h + tail) == Prepend(unit as char, ReadString(tail))
  {
    UnitSlices(h, tail);
    var s := "\\u" + h + tail;
    assert ReadEscape(s[1..]) == Some((unit as char, 5));
  }

  /** A single escaped code unit outside the surrogate range. */
  lemma UnitRoundTrip(unit: nat, tail: string)
    requires unit < 0xD800 || 0xE000 <= unit < 0x1_0000
    ensures ReadString(UnicodeEscape(unit) + tail) == Prepend(unit as char, ReadString(tail))
  {
    Hex4RoundTrip(unit, tail);
    UnitReads(Hex4(unit), unit, tail);
  }

  function Combined(high: nat, low: nat): char
    requires 0xD800 <= high < 0xDC00 <= low < 0xE000
  {
    (0x1_0000 + (high - 0xD800) * 1024 + (low - 0xDC00)) as char
  }

  lemma PairEscapeRead(e: string, high: nat, low: nat)
    requires |e| >= 11 && 0xD800 <= high < 0xDC00 <= low < 0xE000
    requires e[0] == 'u' && e[5] == '\\' && e[6] == 'u'
    requires ReadHex4(e[1..]) == Some(high) && ReadHex4(e[7..]) == Some(low)
    ensures ReadEscape(e) == Some((Combined(high, low), 11))
  {
  }

  /** Two escaped code units that form a surrogate pair, by position. */
  lemma PairReadsAt(s: string, high: nat, low: nat)
    requires |s| >= 12 && 0xD800 <= high < 0xDC00 <= low < 0xE000
    requires s[0] == '\\' && s[1] == 'u' && s[6] == '\\' && s[7] == 'u'
    requires ReadHex4(s[2..]) == Some(high) && ReadHex4(s[8..]) == Some(low)
    ensures ReadString(s) == Prepend(Combined(high, low), ReadString(s[12..]))
  {
    var e := s[1..];
    assert e[1..] == s[2..] && e[7..] == s[8..];
    PairEscapeRead(e, high, low);
  }

  lemma PairSlices(h: string, l: string, tail: string)
    requires |h| == 4 && |l| == 4
    ensures var s := ("\\u" + h) + ("\\u" + l) + tail;
            && |s| >= 12 && s[0] == '\\' && s[1] == 'u' && s[6] == '\\' && s[7] == 'u'
            && s[2..] == h + ("\\u" + l + tail) && s[8..] == l + tail && s[12..] == tail
  {
  }

  /** Two escaped code units that form a surrogate pair, whatever their digits look like. */
  lemma PairReads(h: string, l: string, high: nat, low: nat, tail: string)
    requires |h| == 4 && |l| == 4 && 0xD800 <= high < 0xDC00 <= low < 0xE000
    requires ReadHex4(h + ("\\u" + l + tail)) == Some(high) && ReadHex4(l + tail) == Some(low)
    ensures ReadString(("\\u" + h) + ("\\u" + l) + tail) == Prepend(Combined(high, low), ReadString(tail))
  {
    PairSlices(h, l, tail);
    PairReadsAt(("\\u" + h) + ("\\u" + l) + tail, high, low);
  }

  lemma PairCombines(v: nat)
    requires v < 0x10_0000
    ensures 0xD800 <= 0xD800 + v / 1024 < 0xDC00 <= 0xDC00 + v % 1024 < 0xE000
    ensures Combined(0xD800 + v / 1024, 0xDC00 + v % 1024) == (0x1_0000 + v) as char
  {
  }

  lemma HighLowRoundTrip(high: nat, low: nat, tail: string)
    requires 0xD800 <= high < 0xDC00 <= low < 0xE000
    ensures ReadString(UnicodeEscape(high) + UnicodeEscape(low) + tail) == Prepend(Combined(high, low), ReadString(tail))
  {
    Hex4RoundTrip(high, "\\u" + Hex4(low) + tail);
    Hex4RoundTrip(low, tail);
    PairReads(Hex4(high), Hex4(low), high, low, tail);
  }

  lemma PairSplits(v: nat, high: nat, low: nat)
    requires v < 0x10_0000 && high == 0xD800 + v / 1024 && low == 0xDC00 + v % 1024
    ensures 0xD800 <= high < 0xDC00 <= low < 0xE000
    ensures PairEscape(v) == UnicodeEscape(high) + UnicodeEscape(low) && Combined(high, low) == (0x1_0000 + v) as char
  {
    PairCombines(v);
  }

  /** A surrogate pair. */
  lemma PairRoundTrip(v: nat, escape: string, tail: string)
    requires v < 0x10_0000 && escape == PairEscape(v)
    ensures ReadString(escape + tail) == Prepend((0x1_0000 + v) as char, ReadString(tail))
  {
    var high, low := 0xD800 + v / 1024, 0xDC00 + v % 1024;
    PairSplits(v, high, low);
    HighLowRoundTrip(high, low, tail);
  }

  lemma ShortEscape(code: char, c: char, tail: string)
    requires ReadEscape([code] + tail) == Some((c, 1))
    ensures ReadString(['\\', code] + tail) == Prepend(c, ReadString(tail))
  {
    var s := ['\\', code] + tail;
    assert s[1..] == [code] + tail;
    assert s[2..] == tail;
  }

  lemma ShortCodeReads(c: char, tail: string)
    requires ShortCode(c).Some?
    ensures ReadEscape([ShortCode(c).value] + tail) == Some((c, 1))
  {
  }

  lemma ShortEscapeReads(c: char, tail: string)
    requires ShortCode(c).Some?
    ensures ReadString(EscapeChar(c) + tail) == Prepend(c, ReadString(tail))
  {
    ShortCodeReads(c, tail);
    ShortEscape(ShortCode(c).value, c, tail);
  }

  lemma PlainCharacterReads(c: char, tail: string)
    requires ShortCode(c).None? && 0x20 <= c as int <= 0x7E
    ensures ReadString(EscapeChar(c) + tail) == Prepend(c, ReadString(tail))
  {
    SplitAt([c], tail);
  }

  lemma UnitEscapeReads(c: char, tail: string)
    requires ShortCode(c).None? && !(0x20 <= c as int <= 0x7E) && (c as int) < 0x1_0000
    ensures ReadString(EscapeChar(c) + tail) == Prepend(c, ReadString(tail))
  {
    UnitRoundTrip(c as int, tail);
  }

  lemma PairEscapeReads(c: char, tail: string)
    requires ShortCode(c).None? && !(0x20 <= c as int <= 0x7E) && 0x1_0000 <= c as int
    ensures ReadString(EscapeChar(c) + tail) == Prepend(c, ReadString(tail))
  {
    var v := c as int - 0x1_0000;
    PairRoundTrip(v, EscapeChar(c), tail);
    assert (0x1_0000 + v) as char == c;
  }

  lemma EscapeIsOneCharacter(c: char, tail: string)
    ensures ReadString(EscapeChar(c) + tail) == Prepend(c, ReadString(tail))
  {
    if ShortCode(c).Some? {
      ShortEscapeReads(c, tail);
    } else if 0x20 <= c as int <= 0x7E {
      PlainCharacterReads(c, tail);
    } else if (c as int) < 0x1_0000 {
      UnitEscapeReads(c, tail);
    } else {
      PairEscapeReads(c, tail);
    }
  }

  lemma PrependNonEmpty(text: string, tail: string)
    requires text != ""
    ensures Prepend(text[0], Some((text[1..], tail))) == Some((text, tail))
  {
    assert [text[0]] + text[1..] == text;
  }

  lemma ClosingQuote(tail: string)
    ensures ReadString("\"" + tail) == Some(("", tail))
  {
    SplitAt("\"", tail);
  }

  /** A JSON string literal reads back as the text it was written from, for every text. */
  lemma {:induction false} StringRoundTrip(text: string, tail: string)
    ensures ReadString(Escape(text) + ("\"" + tail)) == Some((text, tail))
  {
    var close := "\"" + tail;
    if text == "" {
      ClosingQuote(tail);
      SplitAt("", close);
    } else {
      StringRoundTrip(text[1..], tail);
      var more := Escape(text[1..]);
      Assoc(EscapeChar(text[0]), more, close);
      EscapeIsOneCharacter(text[0], more + close);
      PrependNonEmpty(text, tail);
    }
  }

  lemma {:induction false} DigitsRoundTrip(n: nat, tail: string)
    ensures ReadDigits(Digits(n) + tail, 0) == ReadDigits(tail, n)
    ensures '0' <= Digits(n)[0] <= '9'
    decreases n
  {
    var last := ('0' as int + n % 10) as char;
    if n < 10 {
      assert ([last] + tail)[1..] == tail;
    } else {
      DigitsRoundTrip(n / 10, [last] + tail);
      assert Digits(n) + tail == Digits(n / 10) + ([last] + tail);
      assert ([last] + tail)[1..] == tail;
    }
  }

  lemma IntRoundTrip(n: int, tail: string)
    requires tail == "" || !('0' <= tail[0] <= '9')
    ensures ReadInt(DumpInt(n) + tail) == Some((n, tail))
    ensures DumpInt(n)[0] != '\"'
  {
    var magnitude := if n < 0 then -n else n;
    DigitsRoundTrip(magnitude, tail);
    if n < 0 {
      assert (DumpInt(n) + tail)[1..] == Digits(-n) + tail;
    }
  }

  lemma MemberSlice(escaped: string, rest: string)
    ensures var s := "{" + ("\"" + escaped + "\"") + rest;
            |s| >= 2 && s[0] == '{' && s[1] == '\"' && s[2..] == escaped + ("\"" + rest)
  {
  }

  /** The member name is read back and the value is what follows the colon. */
  lemma MemberRoundTrip(escaped: string, rest: string, key: string)
    requires ReadString(escaped + ("\"" + rest)) == Some((key, rest))
    ensures var s := "{" + ("\"" + escaped + "\"") + rest;
            |s| >= 2 && s[0] == '{' && s[1] == '\"' && ReadString(s[2..]) == Some((key, rest))
  {
    MemberSlice(escaped, rest);
  }

  lemma TextDataRoundTrip(key: string, text: string)
    ensures ReadData(DumpData(Text(key, text))) == Some(Text(key, text))
  {
    var rest := ":" + DumpString(text) + "}";
    StringRoundTrip(key, rest);
    MemberRoundTrip(Escape(key), rest, key);
    assert DumpData(Text(key, text)) == "{" + ("\"" + Escape(key) + "\"") + rest by {
      Assoc("{" + DumpString(key), ":", DumpString(text));
      Assoc("{" + DumpString(key), ":" + DumpString(text), "}");
    }
    StringRoundTrip(text, "}");
    ValueTail(Escape(text));
  }

  lemma ValueTail(escaped: string)
    ensures (":" + ("\"" + escaped + "\"") + "}")[2..] == escaped + ("\"" + "}")
    ensures (":" + ("\"" + escaped + "\"") + "}")[1] == '\"'
  {
  }

  lemma NumberDataRoundTrip(key: string, value: int)
    ensures ReadData(DumpData(Number(key, value))) == Some(Number(key, value))
  {
    var rest := ":" + DumpInt(value) + "}";
    StringRoundTrip(key, rest);
    MemberRoundTrip(Escape(key), rest, key);
    assert DumpData(Number(key, value)) == "{" + ("\"" + Escape(key) + "\"") + rest by {
      Assoc("{" + DumpString(key), ":", DumpInt(value));
      Assoc("{" + DumpString(key), ":" + DumpInt(value), "}");
    }
    IntRoundTrip(value, "}");
    Assoc(":", DumpInt(value), "}");
    SplitAt(":", DumpInt(value) + "}");
  }

  /** A data object reads back unchanged. */
  lemma DataRoundTrip(data: Data)
    ensures ReadData(DumpData(data)) == Some(data)
  {
    match data {
      case Text(key, text) => TextDataRoundTrip(key, text);
      case Number(key, value) => NumberDataRoundTrip(key, value);
    }
  }

  // ----- Line structure -----

  predicate OneLine(s: string) {
    forall i :: 0 <= i < |s| ==> s[i] != '\n' && s[i] != '\r'
  }

  lemma OneLineAppend(a: string, b: string)
    requires OneLine(a) && OneLine(b)
    ensures OneLine(a + b)
  {
  }

  /** Printable ASCII only. */
  predicate PlainAscii(s: string) {
    forall i :: 0 <= i < |s| ==> ' ' <= s[i] <= '~'
  }

  lemma PlainAppend(a: string, b: string)
    requires PlainAscii(a) && PlainAscii(b)
    ensures PlainAscii(a + b)
  {
  }

  lemma UnicodeEscapeIsPlain(unit: nat)
    requires unit < 0x1_0000
    ensures PlainAscii(UnicodeEscape(unit))
  {
  }

  lemma EscapeCharIsPlain(c: char)
    ensures PlainAscii(EscapeChar(c))
  {
    if ShortCode(c).None? && !(0x20 <= c as int <= 0x7E) {
      if (c as int) < 0x1_0000 {
        UnicodeEscapeIsPlain(c as int);
      } else {
        PairEscapeIsPlain(c as int - 0x1_0000);
      }
    }
  }

  lemma PairEscapeIsPlain(v: nat)
    requires v < 0x10_0000
    ensures PlainAscii(PairEscape(v))
  {
    var high, low := UnicodeEscape(0xD800 + v / 1024), UnicodeEscape(0xDC00 + v % 1024);
    UnicodeEscapeIsPlain(0xD800 + v / 1024);
    UnicodeEscapeIsPlain(0xDC00 + v % 1024);
    PlainAppend(high, low);
  }

  lemma {:induction false} EscapeIsPlain(s: string)
    ensures PlainAscii(Escape(s))
  {
    if s != "" {
      EscapeIsPlain(s[1..]);
      EscapeCharIsPlain(s[0]);
      PlainAppend(EscapeChar(s[0]), Escape(s[1..]));
    }
  }

  lemma {:induction false} DigitsArePlain(n: nat)
    ensures PlainAscii(Digits(n))
  {
    if n >= 10 {
      DigitsArePlain(n / 10);
    }
  }

  /** However many line breaks the text has and whatever characters, its data object is one line of printable ASCII. */
  lemma DataIsOneLine(data: Data)
    ensures PlainAscii(DumpData(data)) && OneLine(DumpData(data))
  {
    DumpedIsPlain(data.key);
    match data {
      case Text(key, text) =>
        DumpedIsPlain(text);
        MemberIsPlain(DumpString(key), DumpString(text));
      case Number(key, value) =>
        IntIsPlain(value);
        MemberIsPlain(DumpString(key), DumpInt(value));
    }
  }

  lemma DumpedIsPlain(s: string)
    ensures PlainAscii(DumpString(s))
  {
    EscapeIsPlain(s);
    PlainAppend("\"", Escape(s));
    PlainAppend("\"" + Escape(s), "\"");
  }

  lemma IntIsPlain(n: int)
    ensures PlainAscii(DumpInt(n))
  {
    DigitsArePlain(if n < 0 then -n else n);
  }

  lemma MemberIsPlain(key: string, value: string)
    requires PlainAscii(key) && PlainAscii(value)
    ensures PlainAscii("{" + key + ":" + value + "}") && OneLine("{" + key + ":" + value + "}")
  {
    PlainAppend("{", key);
    PlainAppend("{" + key, ":");
    PlainAppend("{" + key + ":", value);
    PlainAppend("{" + key + ":" + value, "}");
  }

  lemma {:induction false} LineThen(line: string, rest: string, current: string)
    requires OneLine(line)
    ensures Lines(line + ("\n" + rest), current) == [current + line] + Lines(rest, "")
    decreases |line|
  {
    if line == "" {
      assert line + ("\n" + rest) == "\n" + rest && current + line == current;
      assert ("\n" + rest)[1..] == rest;
    } else {
      LineThen(line[1..], rest, current + [line[0]]);
      assert (line + ("\n" + rest))[1..] == line[1..] + ("\n" + rest);
      assert current + [line[0]] + line[1..] == current + line;
    }
  }

  lemma IndexOfFirst(before: string, after: string)
    requires forall i :: 0 <= i < |before| ==> before[i] != ':'
    ensures IndexOf(before + (":" + after), ':') == |before|
  {
    var s := before + (":" + after);
    assert s[|before|] == ':';
    assert forall i :: 0 <= i < |before| ==> s[i] == before[i];
  }

  lemma FieldLine(name: string, value: string)
    requires forall i :: 0 <= i < |name| ==> name[i] != ':'
    ensures Field(name + (":" + (" " + value))) == name
    ensures FieldValue(name + (":" + (" " + value))) == value
  {
    IndexOfFirst(name, " " + value);
    var line := name + (":" + (" " + value));
    assert line[|name| + 1..] == " " + value;
    assert (" " + value)[1..] == value;
  }

  /** Names the encoder is given: not empty and on one line. */
  predicate Named(event: Event) {
    event.name != "" && OneLine(event.name)
  }

  /** Two lines and a blank line, for any line contents. */
  lemma ThreeLines(l1: string, l2: string, rest: string)
    requires OneLine(l1) && OneLine(l2)
    ensures Lines(l1 + ("\n" + (l2 + ("\n" + ("" + ("\n" + rest))))), "") == [l1] + ([l2] + ([""] + Lines(rest, "")))
  {
    LineThen("", rest, "");
    LineThen(l2, "" + ("\n" + rest), "");
    LineThen(l1, l2 + ("\n" + ("" + ("\n" + rest))), "");
    assert "" + l1 == l1 && "" + l2 == l2 && "" + "" == "";
  }

  lemma RegroupEvent(e: string, name: string, d: string, data: string, rest: string)
    ensures e + name + "\n" + d + data + "\n" + "\n" + rest
         == (e + name) + ("\n" + ((d + data) + ("\n" + ("" + ("\n" + rest)))))
  {
  }

  function EventLine(event: Event): string {
    "event: " + event.name
  }

  function DataLine(event: Event): string {
    "data: " + DumpData(event.data)
  }

  lemma EventLines(event: Event, rest: string)
    requires Named(event)
    ensures Lines(EncodeEvent(event) + rest, "") == [EventLine(event)] + ([DataLine(event)] + ([""] + Lines(rest, "")))
  {
    DataIsOneLine(event.data);
    OneLineAppend("event: ", event.name);
    OneLineAppend("data: ", DumpData(event.data));
    RegroupEvent("event: ", event.name, "data: ", DumpData(event.data), rest);
    ThreeLines(EventLine(event), DataLine(event), rest);
  }

  lemma InterpretThree(l1: string, l2: string, rest: seq<string>, name: string, data: string)
    requires l1 != "" && l1[0] != ':' && Field(l1) == "event" && FieldValue(l1) == name && name != ""
    requires l2 != "" && l2[0] != ':' && Field(l2) == "data" && FieldValue(l2) == data
    ensures Interpret([l1] + ([l2] + ([""] + rest)), "", "") == [Message(name, data)] + Interpret(rest, "", "")
  {
    SplitAt([l1], [l2] + ([""] + rest));
    SplitAt([l2], [""] + rest);
    SplitAt([""], rest);
    assert "" + data + "\n" == data + "\n";
    SplitAt(data, "\n");
    assert Interpret([""] + rest, name, data + "\n") == [Message(name, data)] + Interpret(rest, "", "");
    assert Interpret([l2] + ([""] + rest), name, "") == Interpret([""] + rest, name, data + "\n");
  }

  lemma EventField(name: string)
    ensures "event: " + name == "event" + (":" + (" " + name))
  {
  }

  lemma DataField(data: string)
    ensures "data: " + data == "data" + (":" + (" " + data))
  {
  }

  lemma EventInterpreted(event: Event, rest: seq<string>)
    requires Named(event)
    ensures Interpret([EventLine(event)] + ([DataLine(event)] + ([""] + rest)), "", "")
         == [Message(event.name, DumpData(event.data))] + Interpret(rest, "", "")
  {
    var data := DumpData(event.data);
    FieldLine("event", event.name);
    FieldLine("data", data);
    EventField(event.name);
    DataField(data);
    InterpretThree(EventLine(event), DataLine(event), rest, event.name, data);
  }

  function Messages(events: seq<Event>): seq<Message> {
    if events == [] then []
    else [Message(events[0].name, DumpData(events[0].data))] + Messages(events[1..])
  }

  /** One encoded event is one message, and interpretation starts afresh after it. */
  lemma EventThen(event: Event, tail: string)
    requires Named(event)
    ensures Interpret(Lines(EncodeEvent(event) + tail, ""), "", "")
         == [Message(event.name, DumpData(event.data))] + Interpret(Lines(tail, ""), "", "")
  {
    EventLines(event, tail);
    EventInterpreted(event, Lines(tail, ""));
  }

  /** Interpreting an encoded stream yields one message per event, in order, ready for what follows. */
  lemma {:induction false} StreamInterpreted(events: seq<Event>, rest: string)
    requires forall i :: 0 <= i < |events| ==> Named(events[i])
    ensures Interpret(Lines(EncodeStream(events) + rest, ""), "", "")
         == Messages(events) + Interpret(Lines(rest, ""), "", "")
  {
    if events == [] {
      SplitAt("", rest);
      SplitAt([], Interpret(Lines(rest, ""), "", ""));
    } else {
      var first, more := events[0], EncodeStream(events[1..]);
      StreamInterpreted(events[1..], rest);
      EventThen(first, more + rest);
      Assoc(EncodeEvent(first), more, rest);
      Assoc([Message(first.name, DumpData(first.data))], Messages(events[1..]), Interpret(Lines(rest, ""), "", ""));
    }
  }

  lemma {:induction false} MessagesDecode(events: seq<Event>)
    ensures DecodeMessages(Messages(events)) == Some(events)
  {
    if events != [] {
      MessagesDecode(events[1..]);
      DataRoundTrip(events[0].data);
      var head := Message(events[0].name, DumpData(events[0].data));
      SplitAt([head], Messages(events[1..]));
      assert [events[0]] + events[1..] == events;
    }
  }

  lemma StartsWithE(events: seq<Event>)
    ensures events != [] ==> EncodeStream(events) != "" && EncodeStream(events)[0] == 'e'
  {
  }

  /** An event stream parser and a JSON reader recover exactly the events sent. */
  lemma StreamRoundTrip(events: seq<Event>)
    requires forall i :: 0 <= i < |events| ==> Named(events[i])
    ensures DecodeMessages(ParseStream(EncodeStream(events))) == Some(events)
  {
    var s := EncodeStream(events);
    StreamInterpreted(events, "");
    SplitAt(s, "");
    assert s + "" == s;
    assert Messages(events) + Interpret(Lines("", ""), "", "") == Messages(events);
    MessagesDecode(events);
    StartsWithE(events);
  }
}
