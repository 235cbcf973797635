/**
 String values: `StrString` escapes quotes and control characters but leaves backslashes
 alone, and `Append` drops NUL. Which texts come back as they were, exactly.
 */
module JsonStrings {
  import opened Common
  import opened JsonPrinter
  import opened JsonParser

  /** Behind a backslash the character is printed as it stands, and read as that pair. */
  predicate ReadsAsPrinted(c: char) {
    Escaped(c) == [c] && Unescaped(c) == ['\\', c]
  }

  /** No NUL, and, in pairs from the left, no backslash in front of a character that would be taken for an escape. */
  predicate CarriedText(value: string)
    decreases |value|
  {
    value == "" ||
    if value[0] == '\\' then |value| > 1 && ReadsAsPrinted(value[1]) && CarriedText(value[2..])
    else value[0] != '\0' && CarriedText(value[1..])
  }

  lemma LoadStringIsLoadChars(s: string)
    requires s != ""
    ensures LoadString(s) == LoadChars(s, false, "")
  {
    assert "" + [s[0]] == [s[0]];
  }

  /** Reading one printed character gives the character back. */
  lemma EscapeReadsBack(c: char, s: string, value: string)
    requires c != '\\' && c != '\0'
    ensures LoadChars(Escaped(c) + s, false, value) == LoadChars(s, false, value + [c])
  {
    var t := Escaped(c) + s;
    if |Escaped(c)| == 2 {
      assert t[0] == '\\' && t[1..][0] == Escaped(c)[1] && t[1..][1..] == s;
      assert Unescaped(Escaped(c)[1]) == [c];
    } else {
      assert t[0] == c && t[1..] == s;
    }
  }

  /** Reading a backslash and what stands behind it. */
  lemma BackslashReads(c: char, s: string, value: string)
    ensures LoadChars(['\\', c] + s, false, value) == LoadChars(s, false, value + Unescaped(c))
  {
    var t := ['\\', c] + s;
    assert t[0] == '\\' && t[1..][0] == c && t[1..][1..] == s;
  }

  lemma EscapedHead(text: string, s: string)
    requires text != ""
    ensures EscapedAll(text) + s == Escaped(text[0]) + (EscapedAll(text[1..]) + s)
  {
  }

  lemma EscapedCons(c: char, more: string, s: string)
    ensures EscapedAll([c] + more) + s == Escaped(c) + (EscapedAll(more) + s)
  {
    assert ([c] + more)[1..] == more;
    EscapedHead([c] + more, s);
  }

  lemma EscapedPair(c: char, more: string, s: string)
    ensures EscapedAll(['\\', c] + more) + s == ['\\'] + (Escaped(c) + (EscapedAll(more) + s))
  {
    SplitPair('\\', c, more);
    EscapedCons(c, more, s);
    EscapedCons('\\', [c] + more, s);
  }

  lemma SplitPair(a: char, b: char, more: string)
    ensures [a, b] + more == [a] + ([b] + more)
  {
  }

  lemma StartsWithPair(text: string)
    requires |text| > 1
    ensures [text[0], text[1]] + text[2..] == text
  {
  }

  /** The next character that is neither a backslash nor NUL. */
  lemma PlainReads(text: string, tail: string, value: string)
    requires text != "" && text[0] != '\\' && text[0] != '\0'
    ensures LoadChars(EscapedAll(text) + tail, false, value)
         == LoadChars(EscapedAll(text[1..]) + tail, false, value + text[..1])
  {
    EscapedHead(text, tail);
    EscapeReadsBack(text[0], EscapedAll(text[1..]) + tail, value);
    assert text[..1] == [text[0]];
  }

  lemma {:induction false} QuotedReadsBack(text: string, rest: string, value: string)
    requires CarriedText(text)
    ensures LoadChars(EscapedAll(text) + ("\"" + rest), false, value) == Lexed(value + text, rest)
    decreases |text|
  {
    var tail := "\"" + rest;
    if text == "" {
      assert EscapedAll(text) + tail == tail && tail[1..] == rest;
      assert value + text == value;
    } else if text[0] == '\\' {
      PairReads(text, tail, value);
      QuotedReadsBack(text[2..], rest, value + text[..2]);
      assert (value + text[..2]) + text[2..] == value + text;
    } else {
      PlainReads(text, tail, value);
      QuotedReadsBack(text[1..], rest, value + text[..1]);
      assert (value + text[..1]) + text[1..] == value + text;
    }
  }

  lemma PairReads(text: string, tail: string, value: string)
    requires |text| > 1 && text[0] == '\\' && ReadsAsPrinted(text[1])
    ensures LoadChars(EscapedAll(text) + tail, false, value)
            == LoadChars(EscapedAll(text[2..]) + tail, false, value + text[..2])
  {
    var more := EscapedAll(text[2..]) + tail;
    StartsWithPair(text);
    EscapedPair(text[1], text[2..], tail);
    assert ['\\'] + ([text[1]] + more) == ['\\', text[1]] + more;
    BackslashReads(text[1], more, value);
    assert text[..2] == ['\\', text[1]];
  }

  // ---------- and nothing else ----------

  lemma {:induction false} LoadCharsKeeps(s: string, escaping: bool, value: string)
    ensures var r := LoadChars(s, escaping, value); r == Lexed("", "") || value <= r.text
    decreases |s|
  {
    if s != "" {
      if escaping {
        LoadCharsKeeps(s[1..], false, value + Unescaped(s[0]));
      } else if s[0] == '\\' {
        LoadCharsKeeps(s[1..], true, value);
      } else if s[0] != '"' {
        LoadCharsKeeps(s[1..], false, value + [s[0]]);
      }
    }
  }

  /** What is read never takes back what has been read: one wrong character is enough. */
  lemma WrongCharacterStays(s: string, value: string, read: string, text: string, k: nat)
    requires k < |read| && k < |text| && read[k] != text[k]
    ensures LoadChars(s, false, value + read).text != value + text
  {
    LoadCharsKeeps(s, false, value + read);
    assert (value + read)[|value| + k] == read[k] && (value + text)[|value| + k] == text[k];
  }

  lemma {:induction false} PrintsNoNul(text: string)
    ensures forall i :: 0 <= i < |EscapedAll(text)| ==> EscapedAll(text)[i] != '\0'
    decreases |text|
  {
    if text != "" {
      PrintsNoNul(text[1..]);
    }
  }

  lemma QuotedFirst(text: string, rest: string)
    ensures var s := EscapedAll(text) + ("\"" + rest); s != "" && s[0] != '\0'
  {
    PrintsNoNul(text);
    var s := EscapedAll(text) + ("\"" + rest);
    assert s[0] == if EscapedAll(text) == "" then '"' else EscapedAll(text)[0];
  }

  /** A NUL is not printed, and nothing that is printed reads as one. */
  lemma NulLost(text: string, rest: string, value: string)
    requires text != "" && text[0] == '\0'
    ensures LoadChars(EscapedAll(text) + ("\"" + rest), false, value).text != value + text
  {
    var s := EscapedAll(text[1..]) + ("\"" + rest);
    EscapedHead(text, "\"" + rest);
    assert "" + s == s;
    QuotedFirst(text[1..], rest);
    ReadsNoNul(s, text, value);
  }

  lemma ReadsNoNul(s: string, text: string, value: string)
    requires s != "" && s[0] != '\0' && text != "" && text[0] == '\0'
    ensures LoadChars(s, false, value).text != value + text
  {
    if s[0] == '\\' {
      if s[1..] != "" {
        StartsWithPair(s);
        BackslashReads(s[1], s[2..], value);
        WrongCharacterStays(s[2..], value, Unescaped(s[1]), text, 0);
      }
    } else if s[0] != '"' {
      WrongCharacterStays(s[1..], value, [s[0]], text, 0);
    }
  }

  /** At the end of the text a backslash takes the closing quote with it. */
  lemma LastBackslashLost(rest: string, value: string)
    ensures LoadChars(EscapedAll("\\") + ("\"" + rest), false, value).text != value + "\\"
  {
    assert EscapedAll("\\") + ("\"" + rest) == ['\\', '"'] + rest by {
      assert EscapedAll("\\") == Escaped('\\') + EscapedAll("") == "\\";
    }
    BackslashReads('"', rest, value);
    WrongCharacterStays(rest, value, ['"'], "\\", 0);
  }

  /** A NUL behind it is not printed, and the backslash meets what follows. */
  lemma PairWithNulLost(text: string, rest: string, value: string)
    requires |text| > 1 && text[0] == '\\' && text[1] == '\0'
    ensures LoadChars(EscapedAll(text) + ("\"" + rest), false, value).text != value + text
  {
    var more := EscapedAll(text[2..]) + ("\"" + rest);
    NulIsNotPrinted(text, "\"" + rest);
    QuotedFirst(text[2..], rest);
    StartsWithFirst(more);
    ReadsPairWrong(['\\'] + more, more[0], more[1..], text, value);
  }

  lemma NulIsNotPrinted(text: string, s: string)
    requires |text| > 1 && text[0] == '\\' && text[1] == '\0'
    ensures EscapedAll(text) + s == ['\\'] + (EscapedAll(text[2..]) + s)
  {
    StartsWithPair(text);
    EscapedPair(text[1], text[2..], s);
    assert "" + (EscapedAll(text[2..]) + s) == EscapedAll(text[2..]) + s;
  }

  lemma StartsWithFirst(s: string)
    requires s != ""
    ensures ['\\'] + s == ['\\', s[0]] + s[1..]
  {
  }

  lemma ReadsPairWrong(s: string, c: char, more: string, text: string, value: string)
    requires s == ['\\', c] + more && |text| > 1 && text[0] == '\\' && Unescaped(c) != ['\\', text[1]]
    ensures LoadChars(s, false, value).text != value + text
  {
    BackslashReads(c, more, value);
    WrongCharacterStays(more, value, Unescaped(c), text, if |Unescaped(c)| == 1 then 0 else 1);
  }

  lemma PairLost(text: string, rest: string, value: string)
    requires |text| > 1 && text[0] == '\\' && !ReadsAsPrinted(text[1])
    ensures LoadChars(EscapedAll(text) + ("\"" + rest), false, value).text != value + text
  {
    if text[1] == '\0' {
      PairWithNulLost(text, rest, value);
    } else {
      var c, more := Escaped(text[1]), EscapedAll(text[2..]) + ("\"" + rest);
      StartsWithPair(text);
      EscapedPair(text[1], text[2..], "\"" + rest);
      assert ['\\'] + (c + more) == ['\\', c[0]] + (c[1..] + more);
      ReadsPairWrong(['\\'] + (c + more), c[0], c[1..] + more, text, value);
    }
  }

  lemma SplitText(value: string, text: string, k: nat)
    requires k <= |text|
    ensures (value + text[..k]) + text[k..] == value + text
  {
  }

  lemma {:induction false} QuotedLost(text: string, rest: string, value: string)
    requires !CarriedText(text)
    ensures LoadChars(EscapedAll(text) + ("\"" + rest), false, value).text != value + text
    decreases |text|
  {
    var tail := "\"" + rest;
    if text[0] == '\0' {
      NulLost(text, rest, value);
    } else if text[0] != '\\' {
      PlainReads(text, tail, value);
      QuotedLost(text[1..], rest, value + text[..1]);
      SplitText(value, text, 1);
    } else if |text| == 1 {
      assert text == "\\";
      LastBackslashLost(rest, value);
    } else if ReadsAsPrinted(text[1]) {
      PairReads(text, tail, value);
      QuotedLost(text[2..], rest, value + text[..2]);
      SplitText(value, text, 2);
    } else {
      PairLost(text, rest, value);
    }
  }

  /** A printed string is read back, from behind its opening quote, exactly when its text is carried. */
  lemma TextReadsBackExactly(text: string, rest: string)
    ensures LoadString(EscapedAll(text) + ("\"" + rest)) == Lexed(text, rest) <==> CarriedText(text)
    ensures !CarriedText(text) ==>
              var l := LoadString(EscapedAll(text) + ("\"" + rest)); l.Lexed? ==> l.text != text
  {
    LoadStringIsLoadChars(EscapedAll(text) + ("\"" + rest));
    assert "" + text == text;
    if CarriedText(text) {
      QuotedReadsBack(text, rest, "");
    } else {
      QuotedLost(text, rest, "");
    }
  }

  /** A backslash before `n` comes back as a line feed. */
  lemma BackslashNLost(rest: string)
    ensures LoadString(EscapedAll("\\n") + ("\"" + rest)) == Lexed("\n", rest)
  {
    var tail := "\"" + rest;
    var s := ['\\', 'n'] + tail;
    EscapedPair('n', "", tail);
    assert ['\\', 'n'] + "" == "\\n" && EscapedAll("") + tail == tail;
    SplitPair('\\', 'n', tail);
    LoadStringIsLoadChars(s);
    BackslashReads('n', tail, "");
    assert tail[1..] == rest;
  }

  /** Before `d` it survives. */
  lemma BackslashDSurvives()
    ensures CarriedText("\\d")
  {
    assert "\\d"[1] == 'd' && "\\d"[2..] == "";
  }

  // ---------- names, which are printed as they stand ----------

  /** No quote, and, in pairs from the left, no backslash in front of a character that makes an escape with it. */
  predicate RawText(name: string)
    decreases |name|
  {
    name == "" ||
    if name[0] == '\\' then |name| > 1 && Unescaped(name[1]) == ['\\', name[1]] && RawText(name[2..])
    else name[0] != '"' && RawText(name[1..])
  }

  lemma RawPairReads(name: string, tail: string, value: string)
    requires |name| > 1 && name[0] == '\\'
    ensures LoadChars(name + tail, false, value) == LoadChars(name[2..] + tail, false, value + Unescaped(name[1]))
  {
    StartsWithPair(name);
    RawPair(name[1], name[2..], tail);
    BackslashReads(name[1], name[2..] + tail, value);
  }

  lemma RawPair(c: char, more: string, tail: string)
    ensures (['\\', c] + more) + tail == ['\\', c] + (more + tail)
  {
  }

  lemma RawCharReads(name: string, tail: string, value: string)
    requires name != "" && name[0] != '\\' && name[0] != '"'
    ensures LoadChars(name + tail, false, value) == LoadChars(name[1..] + tail, false, value + name[..1])
  {
    var s := name + tail;
    assert s[0] == name[0] && s[1..] == name[1..] + tail && name[..1] == [name[0]];
  }

  lemma {:induction false} NameReadsBack(name: string, rest: string, value: string)
    requires RawText(name)
    ensures LoadChars(name + ("\"" + rest), false, value) == Lexed(value + name, rest)
    decreases |name|
  {
    var tail := "\"" + rest;
    if name == "" {
      assert name + tail == tail && tail[1..] == rest;
      assert value + name == value;
    } else if name[0] == '\\' {
      RawPairReads(name, tail, value);
      assert name[..2] == ['\\', name[1]];
      NameReadsBack(name[2..], rest, value + name[..2]);
      SplitText(value, name, 2);
    } else {
      RawCharReads(name, tail, value);
      NameReadsBack(name[1..], rest, value + name[..1]);
      SplitText(value, name, 1);
    }
  }

  /** After a wrong character what is read does not even start with the text. */
  lemma WrongStartStays(s: string, value: string, read: string, text: string)
    requires read != [] && text != "" && read[0] != text[0]
    ensures !(value + text <= LoadChars(s, false, value + read).text)
  {
    LoadCharsKeeps(s, false, value + read);
    assert (value + read)[|value|] == read[0] && (value + text)[|value|] == text[0];
  }

  /** A name that is not carried raw is not even the start of the key that is read. */
  lemma {:induction false} NameLost(name: string, rest: string, value: string)
    requires !RawText(name)
    ensures !(value + name <= LoadChars(name + ("\"" + rest), false, value).text)
    decreases |name|
  {
    var tail := "\"" + rest;
    if name[0] == '"' {
      assert (name + tail)[0] == '"';
    } else if name[0] != '\\' {
      RawCharReads(name, tail, value);
      NameLost(name[1..], rest, value + name[..1]);
      SplitText(value, name, 1);
    } else if |name| == 1 {
      assert name + tail == ['\\', '"'] + rest;
      BackslashReads('"', rest, value);
      WrongStartStays(rest, value, ['"'], name);
    } else {
      RawPairReads(name, tail, value);
      if Unescaped(name[1]) == ['\\', name[1]] {
        assert name[..2] == ['\\', name[1]];
        NameLost(name[2..], rest, value + name[..2]);
        SplitText(value, name, 2);
      } else {
        WrongStartStays(name[2..] + tail, value, Unescaped(name[1]), name);
      }
    }
  }

  /**
   A printed name is read back as the key it was exactly when it is carried raw; otherwise the
   key does not even start with it.
   */
  lemma NameReadsBackExactly(name: string, rest: string)
    ensures LoadString(name + ("\"" + rest)) == Lexed(name, rest) <==> RawText(name)
    ensures !RawText(name) ==> var l := LoadString(name + ("\"" + rest)); l.Lexed? ==> !(name <= l.text)
  {
    LoadStringIsLoadChars(name + ("\"" + rest));
    assert "" + name == name;
    if RawText(name) {
      NameReadsBack(name, rest, "");
    } else {
      NameLost(name, rest, "");
    }
  }

  /** Two names with a quote or an escape in them are lost, one with a harmless backslash is not. */
  lemma NameExamples()
    ensures !RawText("a\"b") && !RawText("\\n") && RawText("\\d")
  {
    assert "a\"b"[1..][0] == '"' && "\\d"[2..] == "";
  }
}
