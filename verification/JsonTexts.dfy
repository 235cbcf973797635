/**
 The pieces of a text, whoever wrote it: what each character of a string means, which blanks
 are skipped, which words load as numbers and booleans, and how values are printed.
 */
module JsonTexts {
  import opened Common
  import opened DpNode
  import opened Numerals
  import opened JsonPrinter
  import opened JsonParser
  import opened JsonStrings
  import opened JsonRoundTrip

  // ---------- characters ----------

  /** The letters of the escapes, and the codes they stand for. */
  const LETTERS := "abfnrtv"
  const CODES := [7, 8, 12, 10, 13, 9, 11]

  /** In a string a character stands for itself or follows a backslash. */
  datatype Sign = Itself(c: char) | Behind(c: char)

  predicate IsSign(sign: Sign) {
    sign.Itself? ==> sign.c != '"' && sign.c != '\\'
  }

  /** A backslash the reader does not know stays. */
  function Meaning(sign: Sign): string {
    match sign
    case Itself(c) => [c]
    case Behind(c) =>
      if c == '"' then "\""
      else if c == LETTERS[0] then [CODES[0] as char]
      else if c == LETTERS[1] then [CODES[1] as char]
      else if c == LETTERS[2] then [CODES[2] as char]
      else if c == LETTERS[3] then [CODES[3] as char]
      else if c == LETTERS[4] then [CODES[4] as char]
      else if c == LETTERS[5] then [CODES[5] as char]
      else if c == LETTERS[6] then [CODES[6] as char]
      else ['\\', c]
  }

  function Meanings(signs: seq<Sign>): string {
    if signs == [] then "" else Meaning(signs[0]) + Meanings(signs[1..])
  }

  /** The signs, then `more`. */
  function SpelledOn(signs: seq<Sign>, more: string): string {
    if signs == [] then more
    else match signs[0]
         case Itself(c) => [c] + SpelledOn(signs[1..], more)
         case Behind(c) => ['\\', c] + SpelledOn(signs[1..], more)
  }

  lemma UnescapedMeans(c: char)
    ensures Unescaped(c) == Meaning(Behind(c))
  {
  }

  lemma {:induction false} SignsRead(signs: seq<Sign>, rest: string, value: string)
    requires forall i :: 0 <= i < |signs| ==> IsSign(signs[i])
    ensures LoadChars(SpelledOn(signs, "\"" + rest), false, value) == Lexed(value + Meanings(signs), rest)
    decreases |signs|
  {
    if signs == [] {
      assert ("\"" + rest)[1..] == rest && value + Meanings(signs) == value;
    } else {
      var s, more := SpelledOn(signs, "\"" + rest), SpelledOn(signs[1..], "\"" + rest);
      var meaning := Meaning(signs[0]);
      SignsRead(signs[1..], rest, value + meaning);
      assert (value + meaning) + Meanings(signs[1..]) == value + Meanings(signs);
      match signs[0] {
        case Itself(c) => assert s[0] == c && s[1..] == more;
        case Behind(c) =>
          BackslashReads(c, more, value);
          UnescapedMeans(c);
      }
    }
  }

  /** Every spelling of a string is read, from behind its opening quote, as what it says. */
  lemma StringReads(signs: seq<Sign>, rest: string)
    requires forall i :: 0 <= i < |signs| ==> IsSign(signs[i])
    ensures LoadString(SpelledOn(signs, "\"" + rest)) == Lexed(Meanings(signs), rest)
  {
    SpelledIsNotEmpty(signs, rest);
    LoadStringIsLoadChars(SpelledOn(signs, "\"" + rest));
    SignsRead(signs, rest, "");
    assert "" + Meanings(signs) == Meanings(signs);
  }

  lemma SpelledIsNotEmpty(signs: seq<Sign>, rest: string)
    ensures SpelledOn(signs, "\"" + rest) != ""
  {
  }

  /**
   What the printer writes for a character of a text: a quote and the control characters with a
   letter are escaped, NUL goes.
   */
  lemma PrintedCharacter(c: char)
    ensures Escaped('"') == ['\\', '"'] && Escaped('\0') == ""
    ensures forall i :: 0 <= i < |LETTERS| ==> Escaped(CODES[i] as char) == ['\\', LETTERS[i]]
    ensures c != '"' && c != '\0' && c as int !in CODES ==> Escaped(c) == [c]
  {
  }

  // ---------- blanks ----------

  predicate IsBlanks(s: string) {
    forall i :: 0 <= i < |s| ==> s[i] == ' ' || s[i] == '\t' || s[i] == '\n'
  }

  /** Blanks, tabs and line feeds are skipped, and nothing else. */
  lemma {:induction false} BlanksAreSkipped(blanks: string, s: string)
    requires IsBlanks(blanks) && (s == "" || (s[0] != ' ' && s[0] != '\t' && s[0] != '\n'))
    ensures SkipBlanks(blanks + s) == s
    decreases |blanks|
  {
    if blanks == "" {
      assert blanks + s == s;
    } else {
      assert (blanks + s)[1..] == blanks[1..] + s;
      BlanksAreSkipped(blanks[1..], s);
    }
  }

  // ---------- values ----------

  predicate Stops(rest: string) {
    rest != "" && rest[0] in " \t\n,]}"
  }

  /** An unquoted value: a boolean, or what the regular expression of numbers matches. */
  ghost predicate IsBare(word: string) {
    word == "true" || word == "false" || MatchesPattern(word)
  }

  lemma BareIs(word: string)
    ensures IsBare(word) <==> IsNumerical(word) || IsBoolean(word)
  {
    NumericalIsThePattern(word);
  }

  /**
   A text without stop characters, quote or `n` in front loads exactly when it is a boolean or a
   number, marked so.
   */
  lemma BareLoadsExactly(word: string, rest: string, name: string)
    requires word != "" && word[0] != '"' && word[0] != 'n' && Stops(rest)
    requires forall i :: 0 <= i < |word| ==> word[i] !in " \t\n,]}"
    ensures LoadValue(word + rest, name)
            == if IsBare(word) then Loaded(Named(name).(value := word, isNotAString := true), rest) else Rejected
  {
    var s := word + rest;
    BareIs(word);
    assert forall i :: 0 <= i < |word| ==> s[i] == word[i];
    BareEndIs(s, |word|);
    assert s[..|word|] == word && s[|word|..] == rest;
  }

  lemma BareHasNoStops(word: string)
    requires IsBare(word)
    ensures word != "" && word[0] != '"' && word[0] != 'n' && word[0] != '{' && word[0] != '['
    ensures forall i :: 0 <= i < |word| ==> word[i] !in " \t\n,]}"
  {
    BareIs(word);
    BareChars(word);
    if IsNumerical(word) {
      NumeralChars(word);
      assert NumeralChar(word[0]);
    }
  }

  /** In particular the two booleans, in any place. */
  lemma BooleansLoad(rest: string, name: string)
    requires Stops(rest)
    ensures LoadValue("true" + rest, name) == Loaded(Named(name).(value := "true", isNotAString := true), rest)
    ensures LoadValue("false" + rest, name) == Loaded(Named(name).(value := "false", isNotAString := true), rest)
  {
    TrueLoads(rest, name);
    FalseLoads(rest, name);
  }

  lemma TrueLoads(rest: string, name: string)
    requires Stops(rest)
    ensures LoadValue("true" + rest, name) == Loaded(Named(name).(value := "true", isNotAString := true), rest)
  {
    BareLoadsExactly("true", rest, name);
  }

  lemma FalseLoads(rest: string, name: string)
    requires Stops(rest)
    ensures LoadValue("false" + rest, name) == Loaded(Named(name).(value := "false", isNotAString := true), rest)
  {
    BareLoadsExactly("false", rest, name);
  }

  /**
   What the printer writes for a value: `null`; a text in quotes when it is marked a string,
   or when it has no mark and is neither a boolean nor a number; else the bare word.
   */
  lemma ValuePrints(n: Node)
    ensures n.isNull ==> ValueText(n) == "null"
    ensures !n.isNull && !n.isString && (n.isNotAString || IsBare(n.value)) ==> ValueText(n) == n.value
    ensures !n.isNull && (n.isString || (!n.isNotAString && !IsBare(n.value))) ==>
              ValueText(n) == "\"" + EscapedAll(n.value) + "\""
  {
    BareIs(n.value);
  }
}
