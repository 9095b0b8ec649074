/**
 Shell quoting in `tools/xolis_image_builder.py`, checked against a word lexer written from
 sections 2.2.1 (backslash), 2.2.2 (single quotes) and 2.2.3 (double quotes) of the POSIX
 Shell Command Language.
 */
module ShellQuote {
  import opened Common

  // ----- The writer -----

  /** `value.replace("'", "'\"'\"'")`. */
  function ReplaceQuotes(value: string): string {
    if value == "" then ""
    else (if value[0] == '\'' then "'\"'\"'" else [value[0]]) + ReplaceQuotes(value[1..])
  }

  function Quote(value: string): string {
    "'" + ReplaceQuotes(value) + "'"
  }

  const CURL_FLAGS := ["curl", "--fail", "--silent", "--show-error", "--location"]

  const CURL_OUTPUT := ["--output", "/opt/xolis-source.tar.gz"]

  /** Words with one blank between them. */
  function Sentence(words: seq<string>): string {
    if words == [] then ""
    else if |words| == 1 then words[0]
    else Sentence(words[..|words| - 1]) + " " + words[|words| - 1]
  }

  /** The download command that embeds a quoted URL. */
  function DownloadCommand(url: string): string {
    Sentence(CURL_FLAGS) + " " + Quote(url) + " " + Sentence(CURL_OUTPUT)
  }

  // ----- The shell's reading of a command line -----

  datatype Mode = Unquoted | InSingle | InDouble

  predicate Blank(c: char) {
    c == ' ' || c == '\t'
  }

  /** Characters whose unquoted meaning goes beyond word splitting: operators, expansions, patterns. */
  predicate Active(c: char) {
    || c == '|' || c == '&' || c == ';' || c == '<' || c == '>' || c == '(' || c == ')' || c == '$' || c == '`'
    || c == '*' || c == '?' || c == '[' || c == '#' || c == '~' || c == '=' || c == '%' || c == '\n'
    || c == '{' || c == '}' || c == '!'
  }

  /** Reads one word from `s`, having already collected `word`; `None` when a quote is left open,
      when a character asks for more than quoting, or at a NUL, which no shell word can hold. */
  function LexWord(mode: Mode, s: string, word: string): (r: Option<(string, string)>)
    ensures r.Some? ==> |r.value.1| <= |s|
    ensures r.Some? && mode == Unquoted && s != "" && !Blank(s[0]) ==> |r.value.1| < |s|
    decreases |s|
  {
    if s == "" then
      if mode == Unquoted then Some((word, "")) else None
    else
      var c, tail := s[0], s[1..];
      if c == '\0' then None
      else
        match mode
        case Unquoted =>
          if Blank(c) then Some((word, s))
          else if c == '\'' then LexWord(InSingle, tail, word)
          else if c == '\"' then LexWord(InDouble, tail, word)
          else if c == '\\' then
            if tail == "" || tail[0] == '\0' then None
            else if tail[0] == '\n' then LexWord(Unquoted, tail[1..], word)
            else LexWord(Unquoted, tail[1..], word + [tail[0]])
          else if Active(c) then None
          else LexWord(Unquoted, tail, word + [c])
        case InSingle =>
          if c == '\'' then LexWord(Unquoted, tail, word) else LexWord(InSingle, tail, word + [c])
        case InDouble =>
          if c == '\"' then LexWord(Unquoted, tail, word)
          else if c == '$' || c == '`' then None
          else if c == '\\' && tail != "" && tail[0] in "$`\"\\" then
            LexWord(InDouble, tail[1..], word + [tail[0]])
          else if c == '\\' && tail != "" && tail[0] == '\n' then LexWord(InDouble, tail[1..], word)
          else LexWord(InDouble, tail, word + [c])
  }

  /** All words of a command line. */
  function Words(s: string): Option<seq<string>>
    decreases |s|
  {
    if s == "" then Some([])
    else if Blank(s[0]) then Words(s[1..])
    else
      match LexWord(Unquoted, s, "")
      case None => None
      case Some((word, rest)) =>
        match Words(rest)
        case None => None
        case Some(more) => Some([word] + more)
  }

  // ----- Quoting is exact -----

  /** Any other character stands for itself between single quotes; a NUL ends the reading. */
  lemma LexSingle(c: char, s: string, word: string)
    requires c != '\''
    ensures LexWord(InSingle, [c] + s, word) == if c == '\0' then None else LexWord(InSingle, s, word + [c])
  {
    assert ([c] + s)[1..] == s;
  }

  /** Inside the quotes, the replaced text contributes exactly `value`, or stops at its first NUL. */
  lemma {:induction false} LexReplaced(value: string, tail: string, word: string)
    ensures LexWord(InSingle, ReplaceQuotes(value) + ("'" + tail), word)
         == if '\0' in value then None else LexWord(Unquoted, tail, word + value)
  {
    if value == "" {
      assert ReplaceQuotes(value) + ("'" + tail) == "'" + tail;
      assert ("'" + tail)[1..] == tail;
      assert word + value == word;
    } else {
      var c, more := value[0], value[1..];
      LexReplacedFirst(c, ReplaceQuotes(more), "'" + tail, word);
      LexReplaced(more, tail, word + [c]);
      assert word + [c] + more == word + value;
    }
  }

  function Replaced(c: char): string {
    if c == '\'' then "'\"'\"'" else [c]
  }

  lemma LexReplacedFirst(c: char, replaced: string, tail: string, word: string)
    ensures LexWord(InSingle, Replaced(c) + replaced + tail, word)
         == if c == '\0' then None else LexWord(InSingle, replaced + tail, word + [c])
  {
    Assoc(Replaced(c), replaced, tail);
    if c == '\'' {
      LexSplice(replaced + tail, word);
    } else {
      LexSingle(c, replaced + tail, word);
    }
  }

  /** The five-character splice leaves single quotes, adds one quote character and re-enters them. */
  lemma LexSplice(s: string, word: string)
    ensures LexWord(InSingle, "'\"'\"'" + s, word) == LexWord(InSingle, s, word + "'")
  {
    assert ("'\"'\"'" + s)[1..] == "\"'\"'" + s;
    assert ("\"'\"'" + s)[1..] == "'\"'" + s;
    assert ("'\"'" + s)[1..] == "\"'" + s;
    assert ("\"'" + s)[1..] == "'" + s;
    assert ("'" + s)[1..] == s;
    assert LexWord(InSingle, "'" + s, word + "'") == LexWord(Unquoted, s, word + "'");
    calc {
      LexWord(InSingle, "'\"'\"'" + s, word);
      LexWord(Unquoted, "\"'\"'" + s, word);
      LexWord(InDouble, "'\"'" + s, word);
      LexWord(InDouble, "\"'" + s, word + "'");
      LexWord(Unquoted, "'" + s, word + "'");
      LexWord(InSingle, s, word + "'");
    }
  }

  lemma LexQuoted(value: string, tail: string)
    ensures LexWord(Unquoted, Quote(value) + tail, "")
         == if '\0' in value then None else LexWord(Unquoted, tail, value)
  {
    LexReplaced(value, tail, "");
    assert Quote(value) + tail == "'" + (ReplaceQuotes(value) + ("'" + tail));
    assert ("'" + (ReplaceQuotes(value) + ("'" + tail)))[1..] == ReplaceQuotes(value) + ("'" + tail);
    assert "" + value == value;
  }

  /** The shell reads a quoted value as exactly one word, equal to it, if and only if it has no NUL. */
  lemma QuoteRoundTrip(value: string)
    ensures Words(Quote(value)) == Some([value]) <==> '\0' !in value
  {
    LexQuoted(value, "");
    assert Quote(value) + "" == Quote(value);
    assert Quote(value)[0] == '\'';
    assert LexWord(Unquoted, "", value) == Some((value, ""));
    assert [value] + [] == [value];
  }

  /** Text after a following blank is read as if the quoted word were not there. */
  lemma QuotedThen(value: string, tail: string)
    requires '\0' !in value
    requires tail != "" && Blank(tail[0])
    ensures Words(Quote(value) + tail) == match Words(tail) case None => None case Some(more) => Some([value] + more)
  {
    LexQuoted(value, tail);
    assert (Quote(value) + tail)[0] == '\'';
  }

  predicate PlainChar(c: char) {
    !Blank(c) && !Active(c) && c != '\'' && c != '\"' && c != '\\' && c != '\0'
  }

  /** A word without any character special to the shell. */
  predicate Plain(word: string) {
    word != "" && forall i :: 0 <= i < |word| ==> PlainChar(word[i])
  }

  lemma {:induction false} LexPlain(plain: string, tail: string, word: string)
    requires plain == "" || Plain(plain)
    ensures LexWord(Unquoted, plain + tail, word) == LexWord(Unquoted, tail, word + plain)
  {
    if plain == "" {
      assert plain + tail == tail && word + plain == word;
    } else {
      assert PlainChar(plain[0]);
      LexPlain(plain[1..], tail, word + [plain[0]]);
      assert (plain + tail)[1..] == plain[1..] + tail;
      assert word + [plain[0]] + plain[1..] == word + plain;
    }
  }

  lemma PlainThen(plain: string, tail: string)
    requires Plain(plain)
    requires tail == "" || Blank(tail[0])
    ensures Words(plain + tail) == match Words(tail) case None => None case Some(more) => Some([plain] + more)
  {
    LexPlain(plain, tail, "");
    assert "" + plain == plain;
    assert (plain + tail)[0] == plain[0];
  }

  /** Plain words separated by blanks are read one by one, and then the rest of the line. */
  lemma {:induction false} SentenceThen(words: seq<string>, tail: string, more: seq<string>)
    requires words != [] && forall i :: 0 <= i < |words| ==> Plain(words[i])
    requires tail == "" || Blank(tail[0])
    requires Words(tail) == Some(more)
    ensures Words(Sentence(words) + tail) == Some(words + more)
  {
    var last := words[|words| - 1];
    PlainThen(last, tail);
    if |words| == 1 {
      assert words + more == [last] + more;
    } else {
      var init := words[..|words| - 1];
      var tail' := " " + (last + tail);
      assert tail'[1..] == last + tail;
      SentenceThen(init, tail', [last] + more);
      BlankAfter(Sentence(init), last, tail);
      assert words + more == init + ([last] + more);
    }
  }

  lemma BlankAfter(start: string, last: string, tail: string)
    ensures start + " " + last + tail == start + (" " + (last + tail))
  {
  }

  lemma FlagsArePlain()
    ensures forall i :: 0 <= i < |CURL_FLAGS| ==> Plain(CURL_FLAGS[i])
  {
    assert Plain("curl");
    assert Plain("--fail");
    assert Plain("--silent");
    assert Plain("--show-error");
    assert Plain("--location");
  }

  lemma OutputIsPlain()
    ensures forall i :: 0 <= i < |CURL_OUTPUT| ==> Plain(CURL_OUTPUT[i])
  {
    assert Plain("--output");
    assert Plain("/opt/xolis-source.tar.gz");
  }

  lemma Regroup(a: string, b: string, c: string, d: string, e: string)
    ensures a + b + c + d + e == a + (b + (c + (d + e)))
  {
  }

  lemma QuotedThenPlain(value: string, after: seq<string>)
    requires after != [] && '\0' !in value && forall i :: 0 <= i < |after| ==> Plain(after[i])
    ensures Words(" " + (Quote(value) + (" " + Sentence(after)))) == Some([value] + after)
  {
    var output := Sentence(after);
    SentenceThen(after, "", []);
    assert output + "" == output && after + [] == after;
    BlankFirst(output);
    QuotedThen(value, " " + output);
    BlankFirst(Quote(value) + (" " + output));
  }

  /** A quoted value between plain words is read as one word, unchanged. */
  lemma QuotedAmongPlain(before: seq<string>, value: string, after: seq<string>)
    requires before != [] && after != [] && '\0' !in value
    requires forall i :: 0 <= i < |before| ==> Plain(before[i])
    requires forall i :: 0 <= i < |after| ==> Plain(after[i])
    ensures Words(Sentence(before) + " " + Quote(value) + " " + Sentence(after)) == Some(before + [value] + after)
  {
    QuotedThenPlain(value, after);
    SentenceThen(before, " " + (Quote(value) + (" " + Sentence(after))), [value] + after);
    Regroup(Sentence(before), " ", Quote(value), " ", Sentence(after));
    Assoc(before, [value], after);
  }

  lemma BlankFirst(s: string)
    ensures Words(" " + s) == Words(s)
  {
    assert (" " + s)[1..] == s;
  }

  /** Whatever the URL contains, the download command passes it to `curl` as one unchanged argument. */
  lemma DownloadCommandArguments(url: string)
    requires '\0' !in url
    ensures Words(DownloadCommand(url))
         == Some(["curl", "--fail", "--silent", "--show-error", "--location", url, "--output", "/opt/xolis-source.tar.gz"])
  {
    FlagsArePlain();
    OutputIsPlain();
    QuotedAmongPlain(CURL_FLAGS, url, CURL_OUTPUT);
    assert CURL_FLAGS + [url] + CURL_OUTPUT
        == ["curl", "--fail", "--silent", "--show-error", "--location", url, "--output", "/opt/xolis-source.tar.gz"];
  }
}
