/**
 Scalars in arrays: `LoadNode` consumes the character it looked at before it calls
 `LoadValue`, so a scalar element loses its first character and is never read as it was.
 */
module JsonArrays {
  import opened Common
  import opened DpNode
  import opened Numerals
  import opened JsonPrinter
  import opened JsonParser
  import opened JsonStrings
  import opened JsonRoundTrip

  /** What stands behind an element: possibly blanks, then a comma or the closing bracket. */
  predicate BehindElement(r: string) {
    r != "" && EndsBare(r[0]) && Current(SkipBlanks(r)) in ",]"
  }

  /** The printed text is blank. */
  predicate PrintsBlank(value: string) {
    forall i :: 0 <= i < |value| ==> value[i] == ' ' || value[i] == '\0'
  }

  predicate HasStop(text: string) {
    exists i :: 0 <= i < |text| && text[i] in ",]"
  }

  /** The string read from behind an element's closing quote holds the comma or the bracket that stands there. */
  lemma {:induction false} LoadBehindElement(r: string, value: string)
    requires r != "" && Current(SkipBlanks(r)) in ",]"
    ensures var t := LoadChars(r, false, value); t.rest != "" ==> HasStop(t.text)
    decreases |r|
  {
    if IsWhitespace(r[0]) {
      LoadBehindElement(r[1..], value + [r[0]]);
    } else {
      LoadCharsKeeps(r[1..], false, value + [r[0]]);
      var t := LoadChars(r, false, value);
      assert (value + [r[0]])[|value|] == r[0];
      assert t.rest != "" ==> t.text[|value|] == r[0];
    }
  }

  lemma {:induction false} SkipBlankText(value: string, s: string)
    requires PrintsBlank(value)
    ensures SkipBlanks(EscapedAll(value) + s) == SkipBlanks(s)
    decreases |value|
  {
    if value == "" {
      assert EscapedAll(value) + s == s;
    } else {
      EscapedHead(value, s);
      SkipBlankText(value[1..], s);
      SkipOneBlank(Escaped(value[0]), EscapedAll(value[1..]) + s);
    }
  }

  lemma SkipOneBlank(blank: string, s: string)
    requires blank == "" || blank == " "
    ensures SkipBlanks(blank + s) == SkipBlanks(s)
  {
    if blank == "" {
      assert blank + s == s;
    } else {
      assert (blank + s)[1..] == s;
    }
  }

  /** The printed text from its first non-blank on. */
  lemma {:induction false} SkipIntoText(value: string, s: string)
    requires !PrintsBlank(value)
    ensures var next := SkipBlanks(EscapedAll(value) + s);
            && next != "" && next[0] != '"'
            && (value[0] != ' ' && value[0] != '\0' ==> next == EscapedAll(value) + s)
    decreases |value|
  {
    EscapedHead(value, s);
    if value[0] == ' ' || value[0] == '\0' {
      PrintsBlankTail(value);
      SkipIntoText(value[1..], s);
      SkipOneBlank(Escaped(value[0]), EscapedAll(value[1..]) + s);
    } else {
      TextStarts(value[0], EscapedAll(value[1..]) + s);
    }
  }

  lemma PrintsBlankTail(value: string)
    requires value != "" && (value[0] == ' ' || value[0] == '\0') && !PrintsBlank(value)
    ensures !PrintsBlank(value[1..])
  {
    var i :| 0 <= i < |value| && value[i] != ' ' && value[i] != '\0';
    assert value[1..][i - 1] == value[i];
  }

  lemma TextStarts(c: char, s: string)
    requires c != ' ' && c != '\0'
    ensures var text := Escaped(c) + s; text != "" && text[0] != '"' && SkipBlanks(text) == text
  {
    var text := Escaped(c) + s;
    assert text[0] == Escaped(c)[0];
  }

  lemma {:induction false} EscapedPlain(value: string)
    requires forall i :: 0 <= i < |value| ==> Escaped(value[i]) == [value[i]]
    ensures EscapedAll(value) == value
    decreases |value|
  {
    if value != "" {
      EscapedPlain(value[1..]);
    }
  }

  lemma NumeralIsPlain(c: char)
    requires NumeralChar(c)
    ensures Escaped(c) == [c]
  {
  }

  lemma PlainWhenBare(value: string)
    requires IsNumerical(value) || IsBoolean(value)
    ensures EscapedAll(value) == value
  {
    if IsNumerical(value) {
      NumeralChars(value);
      forall i | 0 <= i < |value|
        ensures Escaped(value[i]) == [value[i]]
      {
        NumeralIsPlain(value[i]);
      }
    }
    EscapedPlain(value);
  }

  /** A quoted element is read from behind its opening quote, and never as the string it was. */
  lemma QuotedElementLost(value: string, r: string)
    requires BehindElement(r)
    ensures var l := LoadValue(SkipBlanks(EscapedAll(value) + ("\"" + r)), "");
            l.Loaded? ==> l.node.isNull || l.node.value != value
  {
    if PrintsBlank(value) {
      BlankElementLost(value, r);
    } else {
      TextElementLost(value, r);
    }
  }

  lemma BlankElementLost(value: string, r: string)
    requires PrintsBlank(value) && BehindElement(r)
    ensures var l := LoadValue(SkipBlanks(EscapedAll(value) + ("\"" + r)), "");
            l.Loaded? ==> l.node.value != value
  {
    var behind := "\"" + r;
    SkipBlankText(value, behind);
    assert behind[1..] == r && SkipBlanks(behind) == behind;
    LoadStringIsLoadChars(r);
    LoadBehindElement(r, "");
    assert !HasStop(value);
  }

  lemma TextElementLost(value: string, r: string)
    requires !PrintsBlank(value)
    ensures var l := LoadValue(SkipBlanks(EscapedAll(value) + ("\"" + r)), "");
            l.Loaded? ==> l.node.isNull || l.node.value != value
  {
    var behind := "\"" + r;
    SkipIntoText(value, behind);
    var next := SkipBlanks(EscapedAll(value) + behind);
    if IsNumerical(value) || IsBoolean(value) {
      BareIsBeforeQuote(value, r);
    }
  }

  lemma BareIsBeforeQuote(value: string, r: string)
    requires IsNumerical(value) || IsBoolean(value)
    ensures var next := SkipBlanks(EscapedAll(value) + ("\"" + r)); next[..BareEnd(next)] != value
  {
    var behind := "\"" + r;
    BareChars(value);
    PlainWhenBare(value);
    var next := value + behind;
    assert next[0] == value[0] && !IsWhitespace(value[0]);
    assert next[|value|] == '"';
    assert BareEnd(next) != |value|;
  }

  /** An unquoted element is read without its first character. */
  lemma BareElementLost(value: string, r: string)
    requires (IsNumerical(value) || IsBoolean(value)) && BehindElement(r)
    ensures var l := LoadValue(SkipBlanks(value[1..] + r), "");
            l.Loaded? ==> l.node.isNull || l.node.value != value
  {
    BareChars(value);
    if value[1..] == "" {
      assert value[1..] + r == r;
      assert BareEnd(SkipBlanks(r)) == 0;
    } else {
      var s := value[1..] + r;
      assert s[0] == value[1] && !EndsBare(value[1]);
      BareEndIs(s, |value| - 1);
      SecondChar(value);
    }
  }

  lemma SecondChar(value: string)
    requires (IsNumerical(value) || IsBoolean(value)) && |value| > 1
    ensures value[1] != '"' && value[1] != 'n'
  {
    if IsNumerical(value) {
      NumeralChars(value);
      assert NumeralChar(value[1]);
    }
  }

  lemma ElementFallsThrough(first: char, s: string)
    requires first !in ":{["
    ensures LoadNode([first] + s, "") == LoadValue(SkipBlanks(s), "")
  {
    assert ([first] + s)[1..] == s;
  }

  lemma NotNumerical(s: string)
    requires s != "" && !NumeralChar(s[0])
    ensures !IsNumerical(s)
  {
    if IsNumerical(s) {
      NumeralChars(s);
    }
  }

  /** An unquoted text that is neither a number nor a boolean is refused. */
  lemma BareRefused(text: string, r: string)
    requires text != "" && NumeralChar(text[0]) == false && text[0] != '"' && text[0] != 'n' && !IsBoolean(text)
    requires (forall i :: 0 <= i < |text| ==> !EndsBare(text[i])) && r != "" && EndsBare(r[0])
    ensures LoadValue(text + r, "") == Rejected
  {
    var s := text + r;
    assert s[0] == text[0];
    BareEndIs(s, |text|);
    assert s[..|text|] == text;
    NotNumerical(text);
  }

  lemma NullElementLost(r: string)
    requires BehindElement(r)
    ensures LoadNode("null" + r, "") == Rejected
  {
    var text := ['u', 'l', 'l'];
    assert "null" + r == ['n'] + (text + r);
    ElementFallsThrough('n', text + r);
    assert SkipBlanks(text + r) == text + r;
    BareRefused(text, r);
  }

  /** The two nodes differ in what a scalar is. */
  predicate Differs(u: Node, n: Node) {
    u.isNull != n.isNull || u.value != n.value
  }

  lemma QuotedScalarLost(c: Node, r: string)
    requires !c.isNull && PrintsQuoted(c) && BehindElement(r)
    ensures var l := LoadNode(ValueText(c) + r, "");
            l.Loaded? ==> Differs(l.node, c)
  {
    var s := EscapedAll(c.value) + ("\"" + r);
    assert ValueText(c) + r == ['"'] + s;
    ElementFallsThrough('"', s);
    QuotedElementLost(c.value, r);
  }

  lemma BareScalarLost(c: Node, r: string)
    requires !c.isNull && !PrintsQuoted(c) && PrintableValue(c) && BehindElement(r)
    ensures var l := LoadNode(ValueText(c) + r, "");
            l.Loaded? ==> Differs(l.node, c)
  {
    BareChars(c.value);
    FirstChar(c.value);
    assert ValueText(c) + r == [c.value[0]] + (c.value[1..] + r);
    ElementFallsThrough(c.value[0], c.value[1..] + r);
    BareElementLost(c.value, r);
  }

  /** No scalar element, whatever its text, is read as the node it was printed from. */
  lemma ScalarElementLost(c: Node, r: string)
    requires PrintableValue(c) && BehindElement(r)
    ensures var l := LoadNode(ValueText(c) + r, "");
            l.Loaded? ==> Differs(l.node, c)
  {
    if c.isNull {
      NullElementLost(r);
    } else if PrintsQuoted(c) {
      QuotedScalarLost(c, r);
    } else {
      BareScalarLost(c, r);
    }
  }

  lemma FirstChar(value: string)
    requires IsNumerical(value) || IsBoolean(value)
    ensures value != "" && value[0] !in ":{["
  {
    if IsNumerical(value) {
      NumeralChars(value);
      assert NumeralChar(value[0]);
    }
  }

  /** A printed value does not start like a closing bracket. */
  lemma NotABracket(c: Node, r: string)
    requires PrintableValue(c)
    ensures var text := ValueText(c) + r; text != "" && text[0] != ']'
  {
    if !c.isNull && !PrintsQuoted(c) {
      FirstChar(c.value);
      BareChars(c.value);
    }
  }
}
