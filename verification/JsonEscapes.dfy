/** String literals with any of the escapes that the reader knows, closed or cut off by the end of
    the text. */
module JsonEscapes {
  import opened Decimal
  import opened Json
  import opened JsonRender

  /** A way to write each character. */
  type Writer = char -> string

  /** Each character is written as itself, or as a backslash and a character that stands for it. */
  ghost predicate Faithful(w: Writer) {
    forall c :: if |w(c)| == 2 then w(c)[0] == '\\' && Unescaped(w(c)[1]) == c
                else w(c) == [c] && c !in {'"', '\\'}
  }

  function Written(w: Writer, s: string): string {
    if s == [] then [] else w(s[0]) + Written(w, s[1..])
  }

  lemma CharIsRead(w: Writer, json: string, i: nat, c: char, str: string)
    requires Faithful(w) && At(json, i, w(c))
    ensures i + |w(c)| <= |json|
    ensures StringLoop(json, i, false, str) == StringLoop(json, i + |w(c)|, false, str + [c])
  {
    hide Unescaped;
    assert str + "" == str;
    AtFirst(json, i, w(c));
    if |w(c)| == 2 {
      assert w(c) == ['\\'] + [w(c)[1]];
      AtSplit(json, i, ['\\'], [w(c)[1]]);
      AtFirst(json, i + 1, [w(c)[1]]);
      assert StringLoop(json, i, false, str) == StringLoop(json, i + 1, true, str);
    }
  }

  lemma {:induction false} CharsAreRead(w: Writer, json: string, i: nat, s: string, str: string)
    requires Faithful(w) && At(json, i, Written(w, s))
    ensures i + |Written(w, s)| <= |json|
    ensures StringLoop(json, i, false, str) == StringLoop(json, i + |Written(w, s)|, false, str + s)
    decreases |s|
  {
    hide StringLoop, Faithful;
    if s == [] {
      assert str + s == str;
      AtFits(json, i, []);
    } else {
      AtSplit(json, i, w(s[0]), Written(w, s[1..]));
      CharIsRead(w, json, i, s[0], str);
      CharsAreRead(w, json, i + |w(s[0])|, s[1..], str + [s[0]]);
      assert str + [s[0]] + s[1..] == str + s;
    }
  }

  /** However it is written, a literal reads back as its string and is eaten whole. */
  lemma WrittenReadsBack(fits: DoubleRange, json: string, w: Writer, s: string)
    requires Faithful(w) && At(json, 0, "\"" + Written(w, s) + "\"")
    ensures Parse(fits, json) == Parsed(Str(s), |Written(w, s)| + 2)
  {
    hide *;
    var text := Written(w, s);
    AtSplit(json, 0, "\"" + text, "\"");
    AtFirst(json, 1 + |text|, "\"");
    TextIsRead(fits, json, w, s);
    LoopCloses(json, 1 + |text|, s);
  }

  lemma TextIsRead(fits: DoubleRange, json: string, w: Writer, s: string)
    requires Faithful(w) && At(json, 0, "\"" + Written(w, s))
    ensures 1 + |Written(w, s)| <= |json|
    ensures Parse(fits, json) == StringLoop(json, 1 + |Written(w, s)|, false, s)
  {
    hide *;
    AtSplit(json, 0, "\"", Written(w, s));
    AtFirst(json, 0, "\"");
    CharsAreRead(w, json, 1, s, []);
    assert [] + s == s;
    LiteralIsLoop(fits, json);
  }

  lemma LiteralIsLoop(fits: DoubleRange, json: string)
    requires json != [] && json[0] == '"'
    ensures Parse(fits, json) == StringLoop(json, 1, false, [])
  {
    assert Spaces(json) == 0;
  }

  lemma LoopCloses(json: string, i: nat, str: string)
    requires i < |json| && json[i] == '"'
    ensures StringLoop(json, i, false, str) == Parsed(Str(str), i + 1)
  {
  }

  /** A literal that the end of the text cuts off is read as far as it goes; a lone backslash at
      the end stands for nothing. */
  lemma CutOffReadsBack(fits: DoubleRange, w: Writer, s: string, last: string)
    requires Faithful(w) && last in {"", "\\"}
    ensures var json := "\"" + Written(w, s) + last; Parse(fits, json) == Parsed(Str(s), |json|)
  {
    hide *;
    var text := "\"" + Written(w, s);
    var json := text + last;
    AtStart(text, last);
    TextIsRead(fits, json, w, s);
    LoopEnds(json, |text|, s);
  }

  lemma AtStart(text: string, more: string)
    ensures At(text + more, 0, text)
  {
  }

  lemma LoopEnds(json: string, i: nat, str: string)
    requires i == |json| || (i + 1 == |json| && json[i] == '\\')
    ensures StringLoop(json, i, false, str) == Parsed(Str(str), |json|)
  {
    assert str + "" == str;
  }

  // ---------- The escapes ----------

  /** A writer that puts a letter for every control character that has one: newline, carriage
      return, NUL, tab, vertical tab, form feed, backspace and bell. */
  function WithLetters(c: char): string {
    if c == '\n' then "\\n"
    else if c == '\r' then "\\r"
    else if c == '\0' then "\\0"
    else if c == '\t' then "\\t"
    else if c as int == 11 then "\\v"
    else if c as int == 12 then "\\f"
    else if c as int == 8 then "\\b"
    else if c as int == 7 then "\\a"
    else if c == '"' then "\\\""
    else if c == '\\' then "\\\\"
    else [c]
  }

  /** A writer that puts a backslash before every character but these letters. */
  function WithBackslashes(c: char): string {
    if c in {'n', 'r', '0', 't', 'v', 'f', 'b', 'a'} then [c] else ['\\', c]
  }

  lemma EachLetter(fits: DoubleRange)
    ensures Parse(fits, "\"\\n\"") == Parsed(Str("\n"), 4) && Parse(fits, "\"\\r\"") == Parsed(Str("\r"), 4)
    ensures Parse(fits, "\"\\0\"") == Parsed(Str("\0"), 4) && Parse(fits, "\"\\t\"") == Parsed(Str("\t"), 4)
    ensures Parse(fits, "\"\\v\"") == Parsed(Str([11 as char]), 4)
    ensures Parse(fits, "\"\\f\"") == Parsed(Str([12 as char]), 4)
    ensures Parse(fits, "\"\\b\"") == Parsed(Str([8 as char]), 4)
    ensures Parse(fits, "\"\\a\"") == Parsed(Str([7 as char]), 4)
  {
    hide Parse, StringLoop, Unescaped;
    OneEscape(fits, 'n');
    OneEscape(fits, 'r');
    OneEscape(fits, '0');
    OneEscape(fits, 't');
    OneEscape(fits, 'v');
    OneEscape(fits, 'f');
    OneEscape(fits, 'b');
    OneEscape(fits, 'a');
    Letters();
  }

  lemma Letters()
    ensures Unescaped('n') == '\n' && Unescaped('r') == '\r' && Unescaped('0') == '\0' && Unescaped('t') == '\t'
    ensures Unescaped('v') == 11 as char && Unescaped('f') == 12 as char
    ensures Unescaped('b') == 8 as char && Unescaped('a') == 7 as char
  {
  }

  lemma OneEscape(fits: DoubleRange, c: char)
    ensures Parse(fits, ['"', '\\', c, '"']) == Parsed(Str([Unescaped(c)]), 4)
  {
    var json := ['"', '\\', c, '"'];
    LiteralIsLoop(fits, json);
    assert [] + "" == [] && [] + [Unescaped(c)] == [Unescaped(c)];
    assert StringLoop(json, 1, false, []) == StringLoop(json, 2, true, []);
    assert StringLoop(json, 2, true, []) == StringLoop(json, 3, false, [Unescaped(c)]);
    LoopCloses(json, 3, [Unescaped(c)]);
  }

  /** Control characters written as their letters are read back. */
  lemma LettersReadBack(fits: DoubleRange, json: string, s: string)
    requires At(json, 0, "\"" + Written(WithLetters, s) + "\"")
    ensures Parse(fits, json) == Parsed(Str(s), |Written(WithLetters, s)| + 2)
  {
    assert Faithful(WithLetters);
    WrittenReadsBack(fits, json, WithLetters, s);
  }

  /** Any other character after a backslash stands for itself. */
  lemma BackslashesReadBack(fits: DoubleRange, json: string, s: string)
    requires At(json, 0, "\"" + Written(WithBackslashes, s) + "\"")
    ensures Parse(fits, json) == Parsed(Str(s), |Written(WithBackslashes, s)| + 2)
  {
    assert Faithful(WithBackslashes);
    WrittenReadsBack(fits, json, WithBackslashes, s);
  }
}
