/**
 The client's `SplitCommand`: a line becomes arguments, with quotes and backslash
 escapes. Quoting every argument is its inverse.
 */
module CommandLine {
  import opened Common

  /** What an escaped character stands for. */
  function Unescaped(c: char): char {
    match c
    case 'a' => '\U{07}'
    case 'b' => '\U{08}'
    case 't' => '\t'
    case 'n' => '\n'
    case 'v' => '\U{0B}'
    case 'f' => '\U{0C}'
    case 'r' => '\r'
    case _ => c
  }

  /** The text being collected becomes an argument, unless it is empty. */
  function Flush(args: seq<string>, buffer: string): seq<string> {
    if buffer == "" then args else args + [buffer]
  }

  function SplitFrom(line: string, args: seq<string>, buffer: string, inQuote: bool, isEscaped: bool): seq<string>
    decreases |line|
  {
    if line == "" then Flush(args, buffer)
    else
      var c, rest := line[0], line[1..];
      if isEscaped then SplitFrom(rest, args, buffer + [Unescaped(c)], inQuote, false)
      else if c == '\\' then SplitFrom(rest, args, buffer, inQuote, true)
      else if c == '"' then
        if inQuote then SplitFrom(rest, Flush(args, buffer), "", false, false)
        else SplitFrom(rest, args, buffer, true, false)
      else if c == ' ' && !inQuote then SplitFrom(rest, Flush(args, buffer), "", inQuote, false)
      else SplitFrom(rest, args, buffer + [c], inQuote, false)
  }

  function Split(line: string): seq<string> {
    SplitFrom(line, [], "", false, false)
  }

  /** `SplitCommand`. */
  method SplitCommand(line: string) returns (args: seq<string>)
    ensures args == Split(line)
  {
    args := [];
    var buffer := "";
    var inQuote, isEscaped := false, false;
    assert line[0..] == line;
    for k := 0 to |line|
      invariant SplitFrom(line[k..], args, buffer, inQuote, isEscaped) == Split(line)
    {
      var c := line[k];
      assert line[k..][0] == c && line[k..][1..] == line[k + 1..];
      if isEscaped {
        match c {
          case 'a' => buffer := buffer + ['\U{07}'];
          case 'b' => buffer := buffer + ['\U{08}'];
          case 't' => buffer := buffer + ['\t'];
          case 'n' => buffer := buffer + ['\n'];
          case 'v' => buffer := buffer + ['\U{0B}'];
          case 'f' => buffer := buffer + ['\U{0C}'];
          case 'r' => buffer := buffer + ['\r'];
          case '"' => buffer := buffer + ['"'];
          case '\\' => buffer := buffer + ['\\'];
          case _ => buffer := buffer + [c];
        }
        isEscaped := false;
      } else if c == '\\' {
        isEscaped := true;
      } else if c == '"' {
        inQuote := !inQuote;
        if !inQuote {
          if buffer != "" {
            args := args + [buffer];
          }
          buffer := "";
        }
      } else if c == ' ' && !inQuote {
        if buffer != "" {
          args := args + [buffer];
        }
        buffer := "";
      } else {
        buffer := buffer + [c];
      }
    }
    if buffer != "" {
      args := args + [buffer];
    }
  }

  // ---------- quoting ----------

  function Shown(c: char): string {
    if c == '"' || c == '\\' then ['\\', c] else [c]
  }

  function Escaped(arg: string): string {
    if arg == "" then ""
    else Shown(arg[0]) + Escaped(arg[1..])
  }

  function Quoted(arg: string): string {
    "\"" + Escaped(arg) + "\""
  }

  /** The arguments, each in quotes, with a blank between them. */
  function CommandLine(args: seq<string>): string {
    if args == [] then "" else if |args| == 1 then Quoted(args[0]) else Quoted(args[0]) + " " + CommandLine(args[1..])
  }

  function NonEmpty(args: seq<string>): seq<string> {
    if args == [] then [] else (if args[0] == "" then [] else [args[0]]) + NonEmpty(args[1..])
  }

  lemma EscapedCharReadsBack(c: char, rest: string, args: seq<string>, buffer: string)
    ensures SplitFrom(Shown(c) + rest, args, buffer, true, false) == SplitFrom(rest, args, buffer + [c], true, false)
  {
    var line := Shown(c) + rest;
    if |Shown(c)| == 2 {
      assert line[0] == '\\' && line[1..][0] == c && line[1..][1..] == rest;
      assert SplitFrom(line, args, buffer, true, false) == SplitFrom(line[1..], args, buffer, true, true);
    } else {
      assert line[0] == c && line[1..] == rest;
    }
  }

  lemma {:induction false} EscapedReadsBack(arg: string, rest: string, args: seq<string>, buffer: string)
    ensures SplitFrom(Escaped(arg) + rest, args, buffer, true, false)
            == SplitFrom(rest, args, buffer + arg, true, false)
    decreases |arg|
  {
    if arg == "" {
      assert Escaped(arg) + rest == rest && buffer + arg == buffer;
    } else {
      EscapedHead(arg, rest);
      EscapedCharReadsBack(arg[0], Escaped(arg[1..]) + rest, args, buffer);
      EscapedReadsBack(arg[1..], rest, args, buffer + [arg[0]]);
      SplitHead(buffer, arg);
    }
  }

  lemma EscapedHead(arg: string, rest: string)
    requires arg != ""
    ensures Escaped(arg) + rest == Shown(arg[0]) + (Escaped(arg[1..]) + rest)
  {
  }

  lemma SplitHead(buffer: string, arg: string)
    requires arg != ""
    ensures (buffer + [arg[0]]) + arg[1..] == buffer + arg
  {
  }

  /** A quoted argument is read whole. */
  lemma QuotedReadsBack(arg: string, rest: string, args: seq<string>)
    ensures SplitFrom(Quoted(arg) + rest, args, "", false, false) == SplitFrom(rest, Flush(args, arg), "", false, false)
  {
    var line := Quoted(arg) + rest;
    assert line[0] == '"' && line[1..] == Escaped(arg) + ("\"" + rest);
    EscapedReadsBack(arg, "\"" + rest, args, "");
    assert "" + arg == arg;
    assert ("\"" + rest)[1..] == rest;
  }

  lemma FirstThenRest(list: seq<string>, args: seq<string>)
    requires list != []
    ensures Flush(args, list[0]) + NonEmpty(list[1..]) == args + NonEmpty(list)
  {
  }

  lemma BlankIsSkipped(line: string, args: seq<string>)
    ensures SplitFrom(" " + line, args, "", false, false) == SplitFrom(line, args, "", false, false)
  {
    assert (" " + line)[1..] == line;
  }

  lemma {:induction false} LineReadsBack(list: seq<string>, args: seq<string>)
    ensures SplitFrom(CommandLine(list), args, "", false, false) == args + NonEmpty(list)
    decreases |list|
  {
    if list == [] {
      assert args + [] == args;
    } else {
      var args' := Flush(args, list[0]);
      FirstThenRest(list, args);
      if |list| == 1 {
        assert Quoted(list[0]) + "" == Quoted(list[0]);
        QuotedReadsBack(list[0], "", args);
        assert list[1..] == [];
      } else {
        var more := CommandLine(list[1..]);
        assert CommandLine(list) == Quoted(list[0]) + (" " + more);
        QuotedReadsBack(list[0], " " + more, args);
        BlankIsSkipped(more, args');
        LineReadsBack(list[1..], args');
      }
    }
  }

  lemma {:induction false} NonEmptyLength(list: seq<string>)
    ensures |NonEmpty(list)| <= |list|
    ensures NonEmpty(list) == list <==> forall i :: 0 <= i < |list| ==> list[i] != ""
    decreases |list|
  {
    if list != [] {
      NonEmptyLength(list[1..]);
      if list[0] != "" {
        assert list == [list[0]] + list[1..];
        assert NonEmpty(list)[1..] == NonEmpty(list[1..]);
        assert forall i :: 0 <= i < |list| - 1 ==> list[1..][i] == list[i + 1];
      }
    }
  }

  /** Quoting and splitting loses the empty arguments and nothing else. */
  lemma SplitAfterQuoting(list: seq<string>)
    ensures Split(CommandLine(list)) == NonEmpty(list)
  {
    LineReadsBack(list, []);
  }

  /** So it is the identity exactly on the lists without an empty argument. */
  lemma SplitInvertsQuotingExactly(list: seq<string>)
    ensures Split(CommandLine(list)) == list <==> forall i :: 0 <= i < |list| ==> list[i] != ""
  {
    SplitAfterQuoting(list);
    NonEmptyLength(list);
  }

  // ---------- every spelling of every argument ----------

  /** How a character is written: as it stands, or as a backslash and a letter. */
  datatype Sign = Itself(c: char) | Escape(letter: char)

  /** The letters that stand for control characters, and the codes of these. */
  const LETTERS := "abtnvfr"
  const CODES := [7, 8, 9, 10, 11, 12, 13]

  function Spelling(sign: Sign): string {
    match sign
    case Itself(c) => [c]
    case Escape(letter) => ['\\', letter]
  }

  /** Behind a backslash any other letter stands for itself. */
  function Meaning(sign: Sign): char {
    match sign
    case Itself(c) => c
    case Escape(letter) =>
      if letter == LETTERS[0] then CODES[0] as char
      else if letter == LETTERS[1] then CODES[1] as char
      else if letter == LETTERS[2] then CODES[2] as char
      else if letter == LETTERS[3] then CODES[3] as char
      else if letter == LETTERS[4] then CODES[4] as char
      else if letter == LETTERS[5] then CODES[5] as char
      else if letter == LETTERS[6] then CODES[6] as char
      else letter
  }

  /** A quote or a backslash has to be escaped, and outside quotes a blank. */
  predicate Fits(sign: Sign, inQuote: bool) {
    sign.Escape? || (sign.c != '"' && sign.c != '\\' && (inQuote || sign.c != ' '))
  }

  predicate AllFit(signs: seq<Sign>, inQuote: bool) {
    forall i :: 0 <= i < |signs| ==> Fits(signs[i], inQuote)
  }

  function Spellings(signs: seq<Sign>): string {
    if signs == [] then "" else Spelling(signs[0]) + Spellings(signs[1..])
  }

  function Meanings(signs: seq<Sign>): string {
    if signs == [] then "" else [Meaning(signs[0])] + Meanings(signs[1..])
  }

  /** An argument: signs outside quotes, then possibly some inside, which end it; then blanks. */
  datatype Item = Item(plain: seq<Sign>, quoted: Option<seq<Sign>>, blanks: nat)

  predicate IsItem(item: Item) {
    AllFit(item.plain, false) && (item.quoted.Some? ==> AllFit(item.quoted.value, true))
  }

  /** The closing quote ends an argument; otherwise a blank has to. */
  predicate Ends(item: Item) {
    item.quoted.Some? || item.blanks > 0
  }

  function Blanks(k: nat): string {
    if k == 0 then "" else " " + Blanks(k - 1)
  }

  function QuotedPart(item: Item): string {
    if item.quoted.Some? then "\"" + (Spellings(item.quoted.value) + "\"") else ""
  }

  function Written(item: Item): string {
    Spellings(item.plain) + (QuotedPart(item) + Blanks(item.blanks))
  }

  function TextOf(item: Item): string {
    Meanings(item.plain) + if item.quoted.Some? then Meanings(item.quoted.value) else ""
  }

  function Line(items: seq<Item>): string {
    if items == [] then "" else Written(items[0]) + Line(items[1..])
  }

  function Texts(items: seq<Item>): seq<string> {
    if items == [] then [] else [TextOf(items[0])] + Texts(items[1..])
  }

  lemma SignReads(sign: Sign, rest: string, args: seq<string>, buffer: string, inQuote: bool)
    requires Fits(sign, inQuote)
    ensures SplitFrom(Spelling(sign) + rest, args, buffer, inQuote, false)
            == SplitFrom(rest, args, buffer + [Meaning(sign)], inQuote, false)
  {
    var line := Spelling(sign) + rest;
    if sign.Escape? {
      assert line[0] == '\\' && line[1..][0] == sign.letter && line[1..][1..] == rest;
      assert SplitFrom(line, args, buffer, inQuote, false) == SplitFrom(line[1..], args, buffer, inQuote, true);
      EscapeMeans(sign.letter);
    } else {
      assert line[0] == sign.c && line[1..] == rest;
    }
  }

  lemma EscapeMeans(letter: char)
    ensures Unescaped(letter) == Meaning(Escape(letter))
  {
  }

  lemma {:induction false} SignsRead(signs: seq<Sign>, rest: string, args: seq<string>, buffer: string, inQuote: bool)
    requires AllFit(signs, inQuote)
    ensures SplitFrom(Spellings(signs) + rest, args, buffer, inQuote, false)
            == SplitFrom(rest, args, buffer + Meanings(signs), inQuote, false)
    decreases |signs|
  {
    if signs == [] {
      assert Spellings(signs) + rest == rest && buffer + Meanings(signs) == buffer;
    } else {
      var c := Meaning(signs[0]);
      Regroup(Spelling(signs[0]), Spellings(signs[1..]), rest);
      SignReads(signs[0], Spellings(signs[1..]) + rest, args, buffer, inQuote);
      SignsRead(signs[1..], rest, args, buffer + [c], inQuote);
      Regroup(buffer, [c], Meanings(signs[1..]));
    }
  }

  lemma Regroup(a: string, b: string, c: string)
    ensures (a + b) + c == a + (b + c)
  {
  }

  lemma {:induction false} BlanksRead(k: nat, rest: string, args: seq<string>, buffer: string)
    ensures SplitFrom(Blanks(k) + rest, args, buffer, false, false)
            == if k == 0 then SplitFrom(rest, args, buffer, false, false)
               else SplitFrom(rest, Flush(args, buffer), "", false, false)
  {
    if k == 0 {
      assert Blanks(k) + rest == rest;
    } else {
      var more := Blanks(k - 1) + rest;
      Regroup(" ", Blanks(k - 1), rest);
      assert (" " + more)[1..] == more;
      BlanksRead(k - 1, rest, Flush(args, buffer), "");
    }
  }

  lemma QuotedPartReads(signs: seq<Sign>, rest: string, args: seq<string>, buffer: string)
    requires AllFit(signs, true)
    ensures SplitFrom("\"" + (Spellings(signs) + ("\"" + rest)), args, buffer, false, false)
            == SplitFrom(rest, Flush(args, buffer + Meanings(signs)), "", false, false)
  {
    var inner := Spellings(signs) + ("\"" + rest);
    assert ("\"" + inner)[1..] == inner && ("\"" + rest)[1..] == rest;
    SignsRead(signs, "\"" + rest, args, buffer, true);
  }

  /** What is collected when an item has been read; nothing behind it when nothing ends it. */
  lemma ItemReads(item: Item, rest: string, args: seq<string>)
    requires IsItem(item) && (Ends(item) || rest == "")
    ensures SplitFrom(Written(item) + rest, args, "", false, false)
            == SplitFrom(rest, Flush(args, TextOf(item)), "", false, false)
  {
    var plain := Meanings(item.plain);
    var behind := Blanks(item.blanks) + rest;
    Regroup(Spellings(item.plain), QuotedPart(item) + Blanks(item.blanks), rest);
    Regroup(QuotedPart(item), Blanks(item.blanks), rest);
    SignsRead(item.plain, QuotedPart(item) + behind, args, "", false);
    assert "" + plain == plain;
    if item.quoted.Some? {
      QuotedPartRegroup(item, behind);
      QuotedPartReads(item.quoted.value, behind, args, plain);
      BlanksRead(item.blanks, rest, Flush(args, TextOf(item)), "");
    } else {
      assert QuotedPart(item) + behind == behind && plain + "" == plain;
      BlanksRead(item.blanks, rest, args, plain);
    }
  }

  lemma QuotedPartRegroup(item: Item, behind: string)
    requires item.quoted.Some?
    ensures QuotedPart(item) + behind == "\"" + (Spellings(item.quoted.value) + ("\"" + behind))
  {
    var inner := Spellings(item.quoted.value);
    Regroup("\"", inner + "\"", behind);
    Regroup(inner, "\"", behind);
  }

  lemma {:induction false} ItemsRead(items: seq<Item>, args: seq<string>)
    requires forall i :: 0 <= i < |items| ==> IsItem(items[i])
    requires forall i :: 0 <= i < |items| - 1 ==> Ends(items[i])
    ensures SplitFrom(Line(items), args, "", false, false) == args + NonEmpty(Texts(items))
    decreases |items|
  {
    if items == [] {
      assert args + [] == args;
    } else {
      assert |items| > 1 ==> Ends(items[0]);
      ItemReads(items[0], Line(items[1..]), args);
      ItemsRead(items[1..], Flush(args, TextOf(items[0])));
      FirstThenRest(Texts(items), args);
    }
  }

  /**
   Whatever the arguments are and however they are spelled, with quotes, without or only
   partly, escaped or not, with any blanks between and around them: splitting gives them
   back, without the empty ones.
   */
  lemma EverySpellingIsRead(items: seq<Item>)
    requires forall i :: 0 <= i < |items| ==> IsItem(items[i])
    requires forall i :: 0 <= i < |items| - 1 ==> Ends(items[i])
    ensures Split(Line(items)) == NonEmpty(Texts(items))
  {
    ItemsRead(items, []);
  }

  /** In particular plain words with one blank between them. */
  function Spaced(words: seq<string>): string {
    if words == [] then "" else if |words| == 1 then words[0] else words[0] + (" " + Spaced(words[1..]))
  }

  predicate IsPlainWord(word: string) {
    word != "" && forall i :: 0 <= i < |word| ==> word[i] != ' ' && word[i] != '"' && word[i] != '\\'
  }

  function AsSigns(word: string): seq<Sign> {
    if word == "" then [] else [Itself(word[0])] + AsSigns(word[1..])
  }

  lemma {:induction false} SignsOfWord(word: string)
    requires forall i :: 0 <= i < |word| ==> word[i] != ' ' && word[i] != '"' && word[i] != '\\'
    ensures AllFit(AsSigns(word), false) && Spellings(AsSigns(word)) == word && Meanings(AsSigns(word)) == word
    decreases |word|
  {
    if word != "" {
      SignsOfWord(word[1..]);
      assert AsSigns(word)[1..] == AsSigns(word[1..]);
      assert word == [word[0]] + word[1..];
    }
  }

  lemma WordReads(word: string, rest: string, args: seq<string>, blanks: nat)
    requires IsPlainWord(word) && (blanks > 0 || rest == "")
    ensures SplitFrom(word + (Blanks(blanks) + rest), args, "", false, false)
            == SplitFrom(rest, args + [word], "", false, false)
  {
    var item := Item(AsSigns(word), None, blanks);
    SignsOfWord(word);
    ItemReads(item, rest, args);
    assert Written(item) == word + Blanks(blanks) && TextOf(item) == word;
    Regroup(word, Blanks(blanks), rest);
  }

  lemma {:induction false} WordsRead(words: seq<string>, args: seq<string>)
    requires forall i :: 0 <= i < |words| ==> IsPlainWord(words[i])
    ensures SplitFrom(Spaced(words), args, "", false, false) == args + words
    decreases |words|
  {
    if words == [] {
      assert args + words == args;
    } else if |words| == 1 {
      WordReads(words[0], "", args, 0);
      assert words[0] + (Blanks(0) + "") == words[0] && words == [words[0]];
    } else {
      WordReads(words[0], Spaced(words[1..]), args, 1);
      assert Blanks(1) == " " by {
        assert Blanks(0) == "";
      }
      WordsRead(words[1..], args + [words[0]]);
      assert words == [words[0]] + words[1..];
      assert (args + [words[0]]) + words[1..] == args + words;
    }
  }

  /** Unquoted words come apart at the blanks. */
  lemma PlainWordsComeApart(words: seq<string>)
    requires forall i :: 0 <= i < |words| ==> IsPlainWord(words[i])
    ensures Split(Spaced(words)) == words
  {
    WordsRead(words, []);
    assert [] + words == words;
  }

  // ---------- every line ----------

  /** The end of a line: an argument that nothing ends, perhaps in a quote nobody closes, perhaps a lone backslash. */
  datatype Tail = Tail(plain: seq<Sign>, quoted: Option<seq<Sign>>, backslash: bool)

  predicate IsTail(tail: Tail) {
    AllFit(tail.plain, false) && (tail.quoted.Some? ==> AllFit(tail.quoted.value, true))
  }

  predicate AreEnded(items: seq<Item>) {
    forall i :: 0 <= i < |items| ==> IsItem(items[i]) && Ends(items[i])
  }

  function TailText(tail: Tail): string {
    Meanings(tail.plain) + if tail.quoted.Some? then Meanings(tail.quoted.value) else ""
  }

  function OpenPart(tail: Tail): string {
    if tail.quoted.Some? then "\"" + Spellings(tail.quoted.value) else ""
  }

  function WrittenTail(tail: Tail): string {
    Spellings(tail.plain) + OpenPart(tail) + if tail.backslash then "\\" else ""
  }

  lemma BackslashReads(backslash: bool, args: seq<string>, buffer: string, inQuote: bool)
    ensures SplitFrom(if backslash then "\\" else "", args, buffer, inQuote, false) == Flush(args, buffer)
  {
    if backslash {
      assert SplitFrom("\\", args, buffer, inQuote, false) == SplitFrom("", args, buffer, inQuote, true);
    }
  }

  lemma TailReads(tail: Tail, args: seq<string>)
    requires IsTail(tail)
    ensures SplitFrom(WrittenTail(tail), args, "", false, false) == Flush(args, TailText(tail))
  {
    var end := if tail.backslash then "\\" else "";
    var plain := Meanings(tail.plain);
    Regroup(Spellings(tail.plain), OpenPart(tail), end);
    SignsRead(tail.plain, OpenPart(tail) + end, args, "", false);
    assert "" + plain == plain;
    if tail.quoted.Some? {
      var quoted := tail.quoted.value;
      assert (OpenPart(tail) + end)[1..] == Spellings(quoted) + end;
      SignsRead(quoted, end, args, plain, true);
      BackslashReads(tail.backslash, args, TailText(tail), true);
    } else {
      assert OpenPart(tail) + end == end && plain + "" == plain;
      BackslashReads(tail.backslash, args, plain, false);
    }
  }

  lemma {:induction false} EndedItemsRead(items: seq<Item>, rest: string, args: seq<string>)
    requires AreEnded(items)
    ensures SplitFrom(Line(items) + rest, args, "", false, false)
            == SplitFrom(rest, args + NonEmpty(Texts(items)), "", false, false)
    decreases |items|
  {
    if items == [] {
      assert Line(items) + rest == rest && args + [] == args;
    } else {
      Regroup(Written(items[0]), Line(items[1..]), rest);
      ItemReads(items[0], Line(items[1..]) + rest, args);
      EndedItemsRead(items[1..], rest, Flush(args, TextOf(items[0])));
      FirstThenRest(Texts(items), args);
    }
  }

  /** Where nothing ends the last argument, the end of the line does; a lone backslash is dropped. */
  lemma EveryLineIsRead(items: seq<Item>, tail: Tail)
    requires AreEnded(items) && IsTail(tail)
    ensures Split(Line(items) + WrittenTail(tail)) == Flush(NonEmpty(Texts(items)), TailText(tail))
  {
    EndedItemsRead(items, WrittenTail(tail), []);
    assert [] + NonEmpty(Texts(items)) == NonEmpty(Texts(items));
    TailReads(tail, NonEmpty(Texts(items)));
  }

  lemma {:induction false} SpellingsOneMore(signs: seq<Sign>, sign: Sign)
    ensures Spellings(signs + [sign]) == Spellings(signs) + Spelling(sign)
    decreases |signs|
  {
    if signs == [] {
      assert [sign][1..] == [] && Spellings([]) == "";
      assert Spelling(sign) + "" == Spelling(sign);
    } else {
      assert (signs + [sign])[1..] == signs[1..] + [sign];
      SpellingsOneMore(signs[1..], sign);
      Regroup(Spelling(signs[0]), Spellings(signs[1..]), Spelling(sign));
    }
  }

  lemma {:induction false} LineOneMore(items: seq<Item>, item: Item)
    ensures Line(items + [item]) == Line(items) + Written(item)
    decreases |items|
  {
    if items == [] {
      assert [item][1..] == [] && Line([]) == "";
      assert Written(item) + "" == Written(item);
    } else {
      assert (items + [item])[1..] == items[1..] + [item];
      LineOneMore(items[1..], item);
      Regroup(Written(items[0]), Line(items[1..]), Written(item));
    }
  }

  /** The tail with one more sign at its end. */
  function WithSign(tail: Tail, sign: Sign): Tail {
    if tail.quoted.Some? then Tail(tail.plain, Some(tail.quoted.value + [sign]), false)
    else Tail(tail.plain + [sign], None, false)
  }

  lemma WithSignIs(tail: Tail, sign: Sign)
    requires IsTail(tail) && Fits(sign, tail.quoted.Some?)
    ensures IsTail(WithSign(tail, sign))
    ensures WrittenTail(WithSign(tail, sign)) == WrittenTail(tail.(backslash := false)) + Spelling(sign)
  {
    if tail.quoted.Some? {
      SpellingsOneMore(tail.quoted.value, sign);
    } else {
      SpellingsOneMore(tail.plain, sign);
    }
  }

  /** A closing quote, or a blank outside quotes, ends the tail and makes it an item. */
  lemma TailEnds(tail: Tail, c: char)
    requires IsTail(tail) && !tail.backslash && (if tail.quoted.Some? then c == '"' else c == ' ')
    ensures var item := Item(tail.plain, tail.quoted, if tail.quoted.Some? then 0 else 1);
            IsItem(item) && Ends(item) && Written(item) == WrittenTail(tail) + [c]
  {
    assert Blanks(0) == "" && Blanks(1) == " " + Blanks(0);
  }

  lemma EscapeCompleted(tail: Tail, c: char)
    requires IsTail(tail) && tail.backslash
    ensures IsTail(WithSign(tail, Escape(c))) && WrittenTail(WithSign(tail, Escape(c))) == WrittenTail(tail) + [c]
  {
    WithSignIs(tail, Escape(c));
  }

  lemma QuoteOpens(tail: Tail)
    requires IsTail(tail) && !tail.backslash && tail.quoted.None?
    ensures IsTail(tail.(quoted := Some([]))) && WrittenTail(tail.(quoted := Some([]))) == WrittenTail(tail) + "\""
  {
  }

  lemma ItemEnds(items: seq<Item>, item: Item)
    requires AreEnded(items) && IsItem(item) && Ends(item)
    ensures AreEnded(items + [item])
    ensures Line(items + [item]) + WrittenTail(Tail([], None, false)) == Line(items) + Written(item)
  {
    LineOneMore(items, item);
    assert WrittenTail(Tail([], None, false)) == "";
  }

  /** The tail goes on. */
  lemma TailGoesOn(tail: Tail, c: char) returns (tail': Tail)
    requires IsTail(tail)
    requires tail.backslash || (c == '"' && tail.quoted.None?) || (c != '"' && (c != ' ' || tail.quoted.Some?))
    ensures IsTail(tail') && WrittenTail(tail') == WrittenTail(tail) + [c]
  {
    if tail.backslash {
      tail' := WithSign(tail, Escape(c));
      EscapeCompleted(tail, c);
    } else if c == '\\' {
      tail' := tail.(backslash := true);
    } else if c == '"' {
      tail' := tail.(quoted := Some([]));
      QuoteOpens(tail);
    } else {
      tail' := WithSign(tail, Itself(c));
      WithSignIs(tail, Itself(c));
    }
  }

  lemma OneMoreCharacter(items: seq<Item>, tail: Tail, c: char) returns (items': seq<Item>, tail': Tail)
    requires AreEnded(items) && IsTail(tail)
    ensures AreEnded(items') && IsTail(tail')
    ensures Line(items') + WrittenTail(tail') == Line(items) + (WrittenTail(tail) + [c])
  {
    if tail.backslash || (c == '"' && tail.quoted.None?) || (c != '"' && (c != ' ' || tail.quoted.Some?)) {
      items' := items;
      tail' := TailGoesOn(tail, c);
    } else {
      var item := Item(tail.plain, tail.quoted, if tail.quoted.Some? then 0 else 1);
      TailEnds(tail, c);
      ItemEnds(items, item);
      items', tail' := items + [item], Tail([], None, false);
    }
  }

  /** And every line there is consists of ended arguments and a tail. */
  lemma {:induction false} EveryLineIsSpelled(line: string) returns (items: seq<Item>, tail: Tail)
    ensures AreEnded(items) && IsTail(tail) && line == Line(items) + WrittenTail(tail)
    decreases |line|
  {
    if line == "" {
      items, tail := [], Tail([], None, false);
    } else {
      var front := line[..|line| - 1];
      var c := line[|line| - 1];
      var before, open := EveryLineIsSpelled(front);
      items, tail := OneMoreCharacter(before, open, c);
      Regroup(Line(before), WrittenTail(open), [c]);
      assert line == front + [c];
    }
  }

  // ---------- no empty argument ----------

  lemma {:induction false} SplitFromGivesNoEmpty(
      line: string, args: seq<string>, buffer: string, inQuote: bool, isEscaped: bool)
    requires "" !in args
    ensures "" !in SplitFrom(line, args, buffer, inQuote, isEscaped)
    decreases |line|
  {
    if line != "" {
      var c, rest := line[0], line[1..];
      if isEscaped {
        SplitFromGivesNoEmpty(rest, args, buffer + [Unescaped(c)], inQuote, false);
      } else if c == '\\' {
        SplitFromGivesNoEmpty(rest, args, buffer, inQuote, true);
      } else if c == '"' && !inQuote {
        SplitFromGivesNoEmpty(rest, args, buffer, true, false);
      } else if c == '"' || (c == ' ' && !inQuote) {
        SplitFromGivesNoEmpty(rest, Flush(args, buffer), "", false, false);
      } else {
        SplitFromGivesNoEmpty(rest, args, buffer + [c], inQuote, false);
      }
    }
  }

  /** No line yields an empty argument. */
  lemma SplitGivesNoEmptyArgument(line: string)
    ensures "" !in Split(line)
  {
    SplitFromGivesNoEmpty(line, [], "", false, false);
  }
}
