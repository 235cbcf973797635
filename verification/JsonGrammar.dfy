/**
 What the reader makes of a text, whoever wrote it: a grammar of documents, with everything
 the reader lets pass, and the node each document says. A text loads exactly when it is
 written by the grammar, and as what that says.
 */
module JsonGrammar {
  import opened Common
  import opened DpNode
  import opened NodePaths
  import opened JsonPrinter
  import opened JsonParser
  import opened JsonStrings
  import opened JsonRoundTrip
  import opened JsonTexts

  /** A text of the format, with the blanks it may have. */
  datatype Doc =
    | Null
    | Text(signs: seq<Sign>)
    | Bare(word: string)
    | Obj(open: string, members: seq<Member>, close: string)
    | Arr(open: string, elements: seq<Element>, close: string)

  /** The comma is only there when another member follows. */
  datatype Member = Member(
    key: seq<Sign>, beforeColon: string, colon: bool, afterColon: string,
    value: Doc, beforeComma: string, afterComma: string)

  /** `lead` is the character the reader drops in front of an element. */
  datatype Element = Element(lead: string, afterLead: string, value: Doc, beforeComma: string, afterComma: string)

  predicate IsBracket(doc: Doc) {
    doc.Obj? || doc.Arr?
  }

  /** Blanks behind a closing bracket go with it, except behind an empty object. */
  predicate SkipsBehind(doc: Doc) {
    doc.Arr? || (doc.Obj? && doc.members != [])
  }

  predicate AreSigns(signs: seq<Sign>) {
    forall i :: 0 <= i < |signs| ==> IsSign(signs[i])
  }

  // ---------- the grammar ----------

  /** An object may be empty, an array may not. */
  ghost predicate IsDoc(doc: Doc)
    decreases doc, 2
  {
    match doc
    case Null => true
    case Text(signs) => AreSigns(signs)
    case Bare(word) => IsBare(word)
    case Obj(open, members, close) => IsBlanks(open) && IsBlanks(close) && AreMembers(members)
    case Arr(open, elements, close) => IsBlanks(open) && IsBlanks(close) && elements != [] && AreElements(elements)
  }

  /** The colon may be missing before a bracket; blanks may stand before a comma only where the bracket takes them. */
  ghost predicate IsMember(m: Member)
    decreases m, 1
  {
    && AreSigns(m.key) && Meanings(m.key) != "" && IndexFree(Meanings(m.key))
    && IsBlanks(m.beforeColon) && IsBlanks(m.afterColon) && (m.colon || IsBracket(m.value))
    && IsDoc(m.value)
    && IsBlanks(m.beforeComma) && IsBlanks(m.afterComma) && (m.beforeComma == "" || SkipsBehind(m.value))
  }

  ghost predicate AreMembers(ms: seq<Member>)
    decreases ms, 0
  {
    ms == [] || (IsMember(ms[0]) && AreMembers(ms[1..]))
  }

  /**
   In front of a bracket there may be a colon. In front of any other element there must be
   some character, and it is lost.
   */
  ghost predicate IsElement(e: Element)
    decreases e, 1
  {
    && IsDoc(e.value)
    && IsBlanks(e.afterLead)
    && (if IsBracket(e.value) then e.lead == ":" || (e.lead == "" && e.afterLead == "")
        else |e.lead| == 1 && e.lead[0] !in " \t\n:{[]")
    && IsBlanks(e.beforeComma) && IsBlanks(e.afterComma) && (e.beforeComma == "" || SkipsBehind(e.value))
  }

  ghost predicate AreElements(es: seq<Element>)
    decreases es, 0
  {
    es == [] || (IsElement(es[0]) && AreElements(es[1..]))
  }

  /** The text of the document, then `rest`. */
  function WrittenOn(doc: Doc, rest: string): string
    decreases doc, 2
  {
    match doc
    case Null => "null" + rest
    case Text(signs) => "\"" + SpelledOn(signs, "\"" + rest)
    case Bare(word) => word + rest
    case Obj(open, members, close) => "{" + (open + MembersOn(members, close + ("}" + rest)))
    case Arr(open, elements, close) => "[" + (open + ElementsOn(elements, close + ("]" + rest)))
  }

  function CommaOn(beforeComma: string, afterComma: string, next: string): string {
    beforeComma + ("," + (afterComma + next))
  }

  function ColonOn(m: Member, value: string): string {
    if m.colon then ":" + (m.afterColon + value) else value
  }

  /** The member, then `more`. */
  function MemberOn(m: Member, more: string): string
    decreases m, 1
  {
    "\"" + SpelledOn(m.key, "\"" + (m.beforeColon + ColonOn(m, WrittenOn(m.value, more))))
  }

  function MembersOn(ms: seq<Member>, end: string): string
    decreases ms, 0
  {
    if ms == [] then end
    else if |ms| == 1 then MemberOn(ms[0], end)
    else MemberOn(ms[0], CommaOn(ms[0].beforeComma, ms[0].afterComma, MembersOn(ms[1..], end)))
  }

  function ElementOn(e: Element, more: string): string
    decreases e, 1
  {
    e.lead + (e.afterLead + WrittenOn(e.value, more))
  }

  function ElementsOn(es: seq<Element>, end: string): string
    decreases es, 0
  {
    if es == [] then end
    else if |es| == 1 then ElementOn(es[0], end)
    else ElementOn(es[0], CommaOn(es[0].beforeComma, es[0].afterComma, ElementsOn(es[1..], end)))
  }

  // ---------- what it says ----------

  /** The node a document says. */
  function Said(doc: Doc, name: string): (n: Node)
    ensures n.name == name
    decreases doc, 2
  {
    match doc
    case Null => Named(name).(isNull := true)
    case Text(signs) => Named(name).(value := Meanings(signs), isString := true)
    case Bare(word) => Named(name).(value := word, isNotAString := true)
    case Obj(_, members, _) => AddedMembers(Named(name), members)
    case Arr(_, elements, _) => AddedElements(Named(name), elements)
  }

  function SaidByMember(m: Member): (n: Node)
    ensures n.name == Meanings(m.key)
    decreases m, 1
  {
    Said(m.value, Meanings(m.key))
  }

  /** Each member is added at its key, a dotted path from the object. */
  function AddedMembers(ret: Node, ms: seq<Member>): (n: Node)
    ensures n.name == ret.name
    decreases ms, 0
  {
    if ms == [] then ret
    else
      AddKeepsName(ret, SaidByMember(ms[0]));
      AddedMembers(AddedMember(ret, SaidByMember(ms[0])), ms[1..])
  }

  function AddedMember(ret: Node, v: Node): Node {
    if IndexFree(v.name) then InternalAdd(ret, v.name, v) else ret
  }

  lemma AddKeepsName(ret: Node, v: Node)
    ensures AddedMember(ret, v).name == ret.name
  {
    if IndexFree(v.name) {
      InternalAddKeepsIdentity(ret, v.name, v);
    }
  }

  /** Each element is the next child. */
  function AddedElements(ret: Node, es: seq<Element>): (n: Node)
    ensures n.name == ret.name
    decreases es, 0
  {
    if es == [] then ret else AddedElements(ret.Emplace(Said(es[0].value, "")), es[1..])
  }

  /** What is left behind a document. */
  function Left(doc: Doc, rest: string): string {
    if SkipsBehind(doc) then SkipBlanks(rest) else rest
  }

  // ---------- what is written loads ----------

  lemma DocStarts(doc: Doc, rest: string)
    requires IsDoc(doc)
    ensures var s := WrittenOn(doc, rest);
            && s != "" && s[0] != ' ' && s[0] != '\t' && s[0] != '\n' && s[0] != ']'
            && (doc.Obj? <==> s[0] == '{') && (doc.Arr? <==> s[0] == '[')
  {
    if doc.Bare? {
      BareHasNoStops(doc.word);
      assert (doc.word + rest)[0] == doc.word[0];
    }
  }

  lemma ScalarReads(doc: Doc, rest: string, name: string)
    requires IsDoc(doc) && !IsBracket(doc) && Stops(rest)
    ensures LoadValue(WrittenOn(doc, rest), name) == Loaded(Said(doc, name), rest)
  {
    match doc {
      case Null => NullReadsBack(name, rest);
      case Text(signs) =>
        var inner := SpelledOn(signs, "\"" + rest);
        assert ("\"" + inner)[1..] == inner;
        StringReads(signs, rest);
      case Bare(word) =>
        BareHasNoStops(word);
        BareLoadsExactly(word, rest, name);
    }
  }

  /** Behind a leading colon: blanks, then the value. */
  lemma ColonReads(s: string, blanks: string, name: string)
    requires s != "" && s[0] != ' ' && s[0] != '\t' && s[0] != '\n' && IsBlanks(blanks)
    requires name != "" || s[0] == '{' || s[0] == '['
    ensures LoadNode(":" + (blanks + s), name)
            == if s[0] == '{' || s[0] == '[' then LoadNode(s, name) else LoadValue(s, name)
  {
    assert (":" + (blanks + s))[1..] == blanks + s;
    BlanksAreSkipped(blanks, s);
  }

  /** Any other character in front of an unnamed scalar is dropped, and the blanks behind it. */
  lemma LeadReads(s: string, lead: char, blanks: string)
    requires s != "" && s[0] != ' ' && s[0] != '\t' && s[0] != '\n' && IsBlanks(blanks)
    requires lead !in ":{["
    ensures LoadNode([lead] + (blanks + s), "") == LoadValue(s, "")
  {
    assert ([lead] + (blanks + s))[1..] == blanks + s;
    BlanksAreSkipped(blanks, s);
  }

  lemma {:induction false} ValueReads(m: Member, rest: string)
    requires IsMember(m) && Stops(rest)
    ensures LoadNode(ColonOn(m, WrittenOn(m.value, rest)), Meanings(m.key))
            == Loaded(SaidByMember(m), Left(m.value, rest))
    decreases m, 1
  {
    var name := Meanings(m.key);
    DocStarts(m.value, rest);
    if m.colon {
      ColonReads(WrittenOn(m.value, rest), m.afterColon, name);
    }
    if IsBracket(m.value) {
      BracketReads(m.value, rest, name);
    } else {
      ScalarReads(m.value, rest, name);
    }
  }

  lemma {:induction false} ElementReads(e: Element, rest: string)
    requires IsElement(e) && Stops(rest)
    ensures LoadNode(ElementOn(e, rest), "") == Loaded(Said(e.value, ""), Left(e.value, rest))
    decreases e, 1
  {
    var s := WrittenOn(e.value, rest);
    DocStarts(e.value, rest);
    if IsBracket(e.value) {
      BracketReads(e.value, rest, "");
      if e.lead == ":" {
        ColonReads(s, e.afterLead, "");
      } else {
        assert "" + ("" + s) == s;
      }
    } else {
      ScalarReads(e.value, rest, "");
      assert e.lead == [e.lead[0]];
      LeadReads(s, e.lead[0], e.afterLead);
    }
  }

  lemma {:induction false} BracketReads(doc: Doc, rest: string, name: string)
    requires IsDoc(doc) && IsBracket(doc)
    ensures LoadNode(WrittenOn(doc, rest), name) == Loaded(Said(doc, name), Left(doc, rest))
    decreases doc, 2
  {
    if doc.Obj? {
      ObjectReads(doc, rest, name);
    } else {
      ArrayReads(doc, rest, name);
    }
  }

  lemma {:induction false} ObjectReads(doc: Doc, rest: string, name: string)
    requires IsDoc(doc) && doc.Obj?
    ensures LoadNode(WrittenOn(doc, rest), name) == Loaded(Said(doc, name), Left(doc, rest))
    decreases doc, 1
  {
    var end := doc.close + ("}" + rest);
    var inner := MembersOn(doc.members, end);
    assert ("{" + (doc.open + inner))[1..] == doc.open + inner;
    if doc.members == [] {
      EmptyObjectReads(doc.open, doc.close, rest);
    } else {
      MembersStart(doc.members, end);
      BlanksAreSkipped(doc.open, inner);
      MembersRead(doc.members, Named(name), doc.close, rest);
    }
  }

  lemma EmptyObjectReads(open: string, close: string, rest: string)
    requires IsBlanks(open) && IsBlanks(close)
    ensures SkipBlanks(open + (close + ("}" + rest))) == "}" + rest && ("}" + rest)[1..] == rest
  {
    assert open + (close + ("}" + rest)) == (open + close) + ("}" + rest);
    BlanksAreSkipped(open + close, "}" + rest);
  }

  lemma MembersStart(ms: seq<Member>, end: string)
    requires ms != []
    ensures var s := MembersOn(ms, end); s != "" && s[0] == '"'
  {
  }

  lemma {:induction false} ArrayReads(doc: Doc, rest: string, name: string)
    requires IsDoc(doc) && doc.Arr?
    ensures LoadNode(WrittenOn(doc, rest), name) == Loaded(Said(doc, name), Left(doc, rest))
    decreases doc, 1
  {
    var end := doc.close + ("]" + rest);
    var inner := ElementsOn(doc.elements, end);
    assert ("[" + (doc.open + inner))[1..] == doc.open + inner;
    ElementsStart(doc.elements, end);
    BlanksAreSkipped(doc.open, inner);
    ElementsRead(doc.elements, Named(name), doc.close, rest);
  }

  lemma ElementStarts(e: Element, more: string)
    requires IsElement(e)
    ensures var s := ElementOn(e, more); s != "" && s[0] != ' ' && s[0] != '\t' && s[0] != '\n' && s[0] != ']'
  {
    if e.lead == "" {
      DocStarts(e.value, more);
      assert "" + ("" + WrittenOn(e.value, more)) == WrittenOn(e.value, more);
    } else {
      assert ElementOn(e, more)[0] == e.lead[0];
    }
  }

  lemma ElementsStart(es: seq<Element>, end: string)
    requires es != [] && AreElements(es)
    ensures var s := ElementsOn(es, end); s != "" && s[0] != ' ' && s[0] != '\t' && s[0] != '\n' && s[0] != ']'
  {
    ElementStarts(es[0], end);
    if |es| > 1 {
      ElementStarts(es[0], CommaOn(es[0].beforeComma, es[0].afterComma, ElementsOn(es[1..], end)));
    }
  }

  /** Behind the last value: the closing bracket, once the blanks are skipped. */
  lemma CloseReads(doc: Doc, close: string, bracket: char, rest: string)
    requires IsBlanks(close) && bracket in "}]"
    ensures var r := close + ([bracket] + rest);
            Stops(r) && Current(Left(doc, r)) != ',' && SkipBlanks(Left(doc, r)) == [bracket] + rest
  {
    var r := close + ([bracket] + rest);
    BlanksAreSkipped(close, [bracket] + rest);
    assert SkipBlanks([bracket] + rest) == [bracket] + rest;
    assert r[0] == if close == "" then bracket else close[0];
  }

  /** Behind any other: the comma. */
  lemma CommaReads(doc: Doc, beforeComma: string, afterComma: string, next: string)
    requires IsBlanks(beforeComma) && IsBlanks(afterComma) && (beforeComma == "" || SkipsBehind(doc))
    requires next != "" && next[0] != ' ' && next[0] != '\t' && next[0] != '\n'
    ensures var r := CommaOn(beforeComma, afterComma, next);
            Stops(r) && Current(Left(doc, r)) == ',' && SkipBlanks(Left(doc, r)[1..]) == next
  {
    var r, behind := CommaOn(beforeComma, afterComma, next), "," + (afterComma + next);
    BlanksAreSkipped(beforeComma, behind);
    assert r[0] == if beforeComma == "" then ',' else beforeComma[0];
    assert beforeComma == "" ==> r == behind;
    assert behind[1..] == afterComma + next;
    BlanksAreSkipped(afterComma, next);
  }

  /** One member: its key, its value, and the step to what follows. */
  lemma MemberReads(m: Member, ret: Node, more: string)
    requires IsMember(m)
    requires LoadNode(ColonOn(m, WrittenOn(m.value, more)), Meanings(m.key))
             == Loaded(SaidByMember(m), Left(m.value, more))
    ensures var ret', left := AddedMember(ret, SaidByMember(m)), Left(m.value, more);
            LoadMembers(MemberOn(m, more), ret, true)
            == if Current(left) == ',' then LoadMembers(SkipBlanks(left[1..]), ret', true)
               else LoadMembers(SkipBlanks(left), ret', false)
  {
    var value := ColonOn(m, WrittenOn(m.value, more));
    var behindKey := m.beforeColon + value;
    var inner := SpelledOn(m.key, "\"" + behindKey);
    assert ("\"" + inner)[1..] == inner;
    StringReads(m.key, behindKey);
    DocStarts(m.value, more);
    BlanksAreSkipped(m.beforeColon, value);
    MemberUnfolds("\"" + inner, ret, Meanings(m.key), behindKey, SaidByMember(m), Left(m.value, more));
  }

  lemma {:induction false} MembersRead(ms: seq<Member>, ret: Node, close: string, rest: string)
    requires ms != [] && AreMembers(ms) && IsBlanks(close)
    ensures LoadMembers(MembersOn(ms, close + ("}" + rest)), ret, true)
            == Loaded(AddedMembers(ret, ms), SkipBlanks(rest))
    decreases ms, 0
  {
    var m, end := ms[0], close + ("}" + rest);
    var ret' := AddedMember(ret, SaidByMember(m));
    if |ms| == 1 {
      CloseReads(m.value, close, '}', rest);
      ValueReads(m, end);
      MemberReads(m, ret, end);
      ClosingBrace(ret', rest);
      assert ms[1..] == [];
    } else {
      var next := MembersOn(ms[1..], end);
      MembersStart(ms[1..], end);
      CommaReads(m.value, m.beforeComma, m.afterComma, next);
      ValueReads(m, CommaOn(m.beforeComma, m.afterComma, next));
      MemberReads(m, ret, CommaOn(m.beforeComma, m.afterComma, next));
      MembersRead(ms[1..], ret', close, rest);
    }
  }

  lemma {:induction false} ElementsRead(es: seq<Element>, ret: Node, close: string, rest: string)
    requires es != [] && AreElements(es) && IsBlanks(close)
    ensures LoadElements(ElementsOn(es, close + ("]" + rest)), ret, true)
            == Loaded(AddedElements(ret, es), SkipBlanks(rest))
    decreases es, 0
  {
    var e, end := es[0], close + ("]" + rest);
    var v := Said(e.value, "");
    if |es| == 1 {
      CloseReads(e.value, close, ']', rest);
      ElementReads(e, end);
      ElementStarts(e, end);
      ElementUnfolds(ElementOn(e, end), ret, v, Left(e.value, end));
      ClosingBrace(ret.Emplace(v), rest);
      assert es[1..] == [];
    } else {
      var next := ElementsOn(es[1..], end);
      var more := CommaOn(e.beforeComma, e.afterComma, next);
      ElementsStart(es[1..], end);
      CommaReads(e.value, e.beforeComma, e.afterComma, next);
      ElementReads(e, more);
      ElementStarts(e, more);
      ElementUnfolds(ElementOn(e, more), ret, v, Left(e.value, more));
      ElementsRead(es[1..], ret.Emplace(v), close, rest);
    }
  }

  /**
   Every document of the grammar that is an object loads as what it says, whatever its
   blanks, its spelling and the text behind it.
   */
  lemma EveryDocumentLoads(blanks: string, doc: Doc, rest: string)
    requires IsBlanks(blanks) && IsDoc(doc) && doc.Obj?
    ensures LoadFromContent(blanks + WrittenOn(doc, rest)) == Loaded(Said(doc, ""), Left(doc, rest))
  {
    DocStarts(doc, rest);
    BlanksAreSkipped(blanks, WrittenOn(doc, rest));
    BracketReads(doc, rest, "");
  }

  // ---------- what loads is written ----------

  lemma InFront(s: string, more: string, rest: string)
    requires s != "" && s[1..] == more + rest
    ensures s == ([s[0]] + more) + rest
  {
  }

  lemma {:induction false} BlanksBefore(s: string) returns (blanks: string)
    ensures IsBlanks(blanks) && s == blanks + SkipBlanks(s)
  {
    blanks := "";
    if s != "" && IsWhitespace(s[0]) {
      var more := BlanksBefore(s[1..]);
      blanks := [s[0]] + more;
      InFront(s, more, SkipBlanks(s[1..]));
    }
  }

  lemma {:induction false} SignsBefore(s: string, value: string) returns (signs: seq<Sign>)
    requires LoadChars(s, false, value).rest != ""
    ensures var r := LoadChars(s, false, value);
            AreSigns(signs) && s == SpelledOn(signs, "\"" + r.rest) && r.text == value + Meanings(signs)
    decreases |s|
  {
    if s[0] == '"' {
      signs := [];
      assert value + "" == value;
    } else if s[0] == '\\' {
      var c := s[1];
      assert s == ['\\', c] + s[2..];
      BackslashReads(c, s[2..], value);
      var more := SignsBefore(s[2..], value + Unescaped(c));
      signs := [Behind(c)] + more;
      UnescapedMeans(c);
      SaidInFront(value, Behind(c), more);
    } else {
      var more := SignsBefore(s[1..], value + [s[0]]);
      signs := [Itself(s[0])] + more;
      SaidInFront(value, Itself(s[0]), more);
    }
  }

  lemma SaidInFront(value: string, sign: Sign, more: seq<Sign>)
    ensures (value + Meaning(sign)) + Meanings(more) == value + Meanings([sign] + more)
  {
    assert ([sign] + more)[1..] == more;
  }

  lemma StringIsSpelled(s: string) returns (signs: seq<Sign>)
    requires LoadString(s).Lexed? && LoadString(s).rest != ""
    ensures AreSigns(signs) && s == SpelledOn(signs, "\"" + LoadString(s).rest) && LoadString(s).text == Meanings(signs)
  {
    LoadStringIsLoadChars(s);
    signs := SignsBefore(s, "");
    assert "" + Meanings(signs) == Meanings(signs);
  }

  lemma ScalarIsWritten(s: string, name: string) returns (doc: Doc, rest: string)
    requires LoadValue(s, name).Loaded?
    ensures IsDoc(doc) && !IsBracket(doc) && s == WrittenOn(doc, rest)
    ensures LoadValue(s, name) == Loaded(Said(doc, name), rest)
  {
    rest := LoadValue(s, name).rest;
    if s[0] == '"' {
      var signs := StringIsSpelled(s[1..]);
      doc := Text(signs);
    } else if s[0] == 'n' {
      doc := Null;
      assert s == "null" + rest;
    } else {
      var word := s[..BareEnd(s)];
      BareIs(word);
      doc := Bare(word);
    }
  }

  lemma CommaBehind(doc: Doc, rest: string) returns (before: string, after: string)
    requires Current(Left(doc, rest)) == ','
    ensures IsBlanks(before) && IsBlanks(after) && (before == "" || SkipsBehind(doc))
    ensures rest == CommaOn(before, after, SkipBlanks(Left(doc, rest)[1..]))
  {
    before := "";
    if SkipsBehind(doc) {
      before := BlanksBefore(rest);
    }
    var left := Left(doc, rest);
    after := BlanksBefore(left[1..]);
    assert left == "," + left[1..];
  }

  lemma CloseBehind(doc: Doc, rest: string, bracket: char) returns (close: string, end: string)
    requires SkipBlanks(Left(doc, rest)) != "" && SkipBlanks(Left(doc, rest))[0] == bracket
    ensures IsBlanks(close) && rest == close + ([bracket] + end) && end == SkipBlanks(Left(doc, rest))[1..]
  {
    close := BlanksBefore(rest);
    end := SkipBlanks(rest)[1..];
    assert SkipBlanks(SkipBlanks(rest)) == SkipBlanks(rest);
  }

  /** Behind a key. */
  lemma {:induction false} ValueIsWritten(s: string, name: string)
      returns (colon: bool, afterColon: string, doc: Doc, rest: string)
    requires name != "" && LoadNode(s, name).Loaded?
    ensures IsDoc(doc) && IsBlanks(afterColon) && (colon || IsBracket(doc))
    ensures s == if colon then ":" + (afterColon + WrittenOn(doc, rest)) else WrittenOn(doc, rest)
    ensures LoadNode(s, name) == Loaded(Said(doc, name), Left(doc, rest))
    decreases |s|, 1
  {
    colon, afterColon := s[0] == ':', "";
    if colon {
      afterColon := BlanksBefore(s[1..]);
      var next := SkipBlanks(s[1..]);
      assert s == ":" + s[1..];
      if Current(next) == '{' || Current(next) == '[' {
        doc, rest := BracketIsWritten(next, name);
      } else {
        doc, rest := ScalarIsWritten(next, name);
      }
    } else {
      doc, rest := BracketIsWritten(s, name);
    }
  }

  lemma {:induction false} ElementIsWritten(s: string) returns (lead: string, afterLead: string, doc: Doc, rest: string)
    requires s != "" && s[0] != ' ' && s[0] != '\t' && s[0] != '\n' && s[0] != ']' && LoadNode(s, "").Loaded?
    ensures IsDoc(doc) && IsBlanks(afterLead)
    ensures if IsBracket(doc) then lead == ":" || (lead == "" && afterLead == "")
            else |lead| == 1 && lead[0] !in " \t\n:{[]"
    ensures s == lead + (afterLead + WrittenOn(doc, rest))
    ensures LoadNode(s, "") == Loaded(Said(doc, ""), Left(doc, rest))
    decreases |s|, 1
  {
    if s[0] == '{' || s[0] == '[' {
      lead, afterLead := "", "";
      doc, rest := BracketIsWritten(s, "");
      assert "" + ("" + s) == s;
    } else {
      lead := [s[0]];
      afterLead := BlanksBefore(s[1..]);
      assert s == lead + s[1..];
      var next := SkipBlanks(s[1..]);
      if s[0] == ':' {
        doc, rest := BracketIsWritten(next, "");
      } else {
        doc, rest := ScalarIsWritten(next, "");
      }
    }
  }

  lemma {:induction false} BracketIsWritten(s: string, name: string) returns (doc: Doc, rest: string)
    requires s != "" && (s[0] == '{' || s[0] == '[') && LoadNode(s, name).Loaded?
    ensures IsDoc(doc) && IsBracket(doc) && (doc.Obj? <==> s[0] == '{') && s == WrittenOn(doc, rest)
    ensures LoadNode(s, name) == Loaded(Said(doc, name), Left(doc, rest))
    decreases |s|, 0
  {
    var open := BlanksBefore(s[1..]);
    var next := SkipBlanks(s[1..]);
    assert s == [s[0]] + s[1..];
    if s[0] == '[' {
      var es, close, end := ElementsAreWritten(next, Named(name));
      doc, rest := Arr(open, es, close), end;
    } else if next[0] == '}' {
      doc, rest := Obj(open, [], ""), next[1..];
      assert next == "" + ("}" + rest);
    } else {
      var ms, close, end := MembersAreWritten(next, Named(name));
      doc, rest := Obj(open, ms, close), end;
    }
  }

  lemma {:induction false} MembersAreWritten(s: string, ret: Node)
      returns (ms: seq<Member>, close: string, rest: string)
    requires LoadMembers(s, ret, true).Loaded?
    ensures ms != [] && AreMembers(ms) && IsBlanks(close) && s == MembersOn(ms, close + ("}" + rest))
    ensures LoadMembers(s, ret, true) == Loaded(AddedMembers(ret, ms), SkipBlanks(rest))
    decreases |s|, 2
  {
    var m, more := MemberIsWritten(s, ret);
    var ret', left := AddedMember(ret, SaidByMember(m)), Left(m.value, more);
    if Current(left) == ',' {
      var next := SkipBlanks(left[1..]);
      var before, after := CommaBehind(m.value, more);
      var others, close', rest' := MembersAreWritten(next, ret');
      close, rest := close', rest';
      var first := m.(beforeComma := before, afterComma := after);
      ms := [first] + others;
      SameMember(m, first, more);
      MembersInFront(first, others, ret, close + ("}" + rest));
    } else {
      close, rest := CloseBehind(m.value, more, '}');
      ms := [m];
      OneMember(m, ret, more);
    }
  }

  /** One member of a text that loads, without the comma. */
  lemma {:induction false} MemberIsWritten(s: string, ret: Node) returns (m: Member, more: string)
    requires LoadMembers(s, ret, true).Loaded?
    ensures IsMember(m) && m.beforeComma == "" && m.afterComma == "" && s == MemberOn(m, more)
    ensures |Left(m.value, more)| < |s|
    ensures var ret', left := AddedMember(ret, SaidByMember(m)), Left(m.value, more);
            LoadMembers(s, ret, true)
            == if Current(left) == ',' then LoadMembers(SkipBlanks(left[1..]), ret', true)
               else LoadMembers(SkipBlanks(left), ret', false)
    decreases |s|, 1
  {
    var r := LoadString(s[1..]);
    assert s == "\"" + s[1..];
    var key := StringIsSpelled(s[1..]);
    var beforeColon := BlanksBefore(r.rest);
    var value := SkipBlanks(r.rest);
    var colon, afterColon, doc, rest := ValueIsWritten(value, r.text);
    m, more := Member(key, beforeColon, colon, afterColon, doc, "", ""), rest;
    MemberUnfolds(s, ret, r.text, r.rest, SaidByMember(m), Left(doc, rest));
  }

  lemma SameMember(m: Member, m': Member, more: string)
    requires m' == m.(beforeComma := m'.beforeComma, afterComma := m'.afterComma)
    ensures MemberOn(m', more) == MemberOn(m, more) && SaidByMember(m') == SaidByMember(m)
  {
  }

  lemma OneMember(m: Member, ret: Node, end: string)
    requires IsMember(m)
    ensures AreMembers([m]) && MembersOn([m], end) == MemberOn(m, end)
    ensures AddedMembers(ret, [m]) == AddedMember(ret, SaidByMember(m))
  {
    assert [m][1..] == [];
  }

  lemma MembersInFront(m: Member, ms: seq<Member>, ret: Node, end: string)
    requires ms != []
    ensures AreMembers([m] + ms) <==> IsMember(m) && AreMembers(ms)
    ensures MembersOn([m] + ms, end) == MemberOn(m, CommaOn(m.beforeComma, m.afterComma, MembersOn(ms, end)))
    ensures AddedMembers(ret, [m] + ms) == AddedMembers(AddedMember(ret, SaidByMember(m)), ms)
  {
    assert ([m] + ms)[1..] == ms;
  }

  lemma {:induction false} ElementsAreWritten(s: string, ret: Node)
      returns (es: seq<Element>, close: string, rest: string)
    requires !IsWhitespace(Current(s)) && LoadElements(s, ret, true).Loaded?
    ensures es != [] && AreElements(es) && IsBlanks(close) && s == ElementsOn(es, close + ("]" + rest))
    ensures LoadElements(s, ret, true) == Loaded(AddedElements(ret, es), SkipBlanks(rest))
    decreases |s|, 2
  {
    var lead, afterLead, doc, more := ElementIsWritten(s);
    var e := Element(lead, afterLead, doc, "", "");
    var ret', left := ret.Emplace(Said(doc, "")), Left(doc, more);
    ElementUnfolds(s, ret, Said(doc, ""), left);
    if Current(left) == ',' {
      var next := SkipBlanks(left[1..]);
      var before, after := CommaBehind(doc, more);
      var others, close', rest' := ElementsAreWritten(next, ret');
      close, rest := close', rest';
      var first := e.(beforeComma := before, afterComma := after);
      es := [first] + others;
      SameElement(e, first, more);
      ElementsInFront(first, others, ret, close + ("]" + rest));
    } else {
      close, rest := CloseBehind(doc, more, ']');
      es := [e];
      OneElement(e, ret, more);
    }
  }

  lemma SameElement(e: Element, e': Element, more: string)
    requires e' == e.(beforeComma := e'.beforeComma, afterComma := e'.afterComma)
    ensures ElementOn(e', more) == ElementOn(e, more)
  {
  }

  lemma OneElement(e: Element, ret: Node, end: string)
    requires IsElement(e)
    ensures AreElements([e]) && ElementsOn([e], end) == ElementOn(e, end)
    ensures AddedElements(ret, [e]) == ret.Emplace(Said(e.value, ""))
  {
    assert [e][1..] == [];
  }

  lemma ElementsInFront(e: Element, es: seq<Element>, ret: Node, end: string)
    requires es != []
    ensures AreElements([e] + es) <==> IsElement(e) && AreElements(es)
    ensures ElementsOn([e] + es, end) == ElementOn(e, CommaOn(e.beforeComma, e.afterComma, ElementsOn(es, end)))
    ensures AddedElements(ret, [e] + es) == AddedElements(ret.Emplace(Said(e.value, "")), es)
  {
    assert ([e] + es)[1..] == es;
  }

  // ---------- both ways ----------

  /** The text is these blanks, this object, which says `n`, and `rest`, which leaves `left`. */
  ghost predicate IsWrittenAs(s: string, n: Node, left: string, blanks: string, doc: Doc, rest: string) {
    && IsBlanks(blanks) && IsDoc(doc) && doc.Obj? && s == blanks + WrittenOn(doc, rest)
    && n == Said(doc, "") && left == Left(doc, rest)
  }

  ghost predicate Writes(s: string, n: Node, left: string) {
    exists blanks, doc, rest :: IsWrittenAs(s, n, left, blanks, doc, rest)
  }

  lemma LoadedIsWritten(s: string) returns (blanks: string, doc: Doc, rest: string)
    requires LoadFromContent(s).Loaded?
    ensures var r := LoadFromContent(s); IsWrittenAs(s, r.node, r.rest, blanks, doc, rest)
  {
    blanks := BlanksBefore(s);
    doc, rest := BracketIsWritten(SkipBlanks(s), "");
  }

  /** A text loads exactly when the grammar writes it, and as what the grammar says. */
  lemma LoadsExactly(s: string, n: Node, left: string)
    ensures LoadFromContent(s) == Loaded(n, left) <==> Writes(s, n, left)
  {
    if LoadFromContent(s) == Loaded(n, left) {
      var blanks, doc, rest := LoadedIsWritten(s);
    }
    if Writes(s, n, left) {
      var blanks, doc, rest :| IsWrittenAs(s, n, left, blanks, doc, rest);
      EveryDocumentLoads(blanks, doc, rest);
    }
  }

  // ---------- ordinary keys ----------

  /** Keys without a dot, none of which is used or comes again. */
  predicate AreFreshKeys(ms: seq<Member>, used: set<string>) {
    ms == []
    || (&& FindChar(Meanings(ms[0].key), '.').None? && Meanings(ms[0].key) !in used
        && AreFreshKeys(ms[1..], used + {Meanings(ms[0].key)}))
  }

  predicate HaveKeys(ms: seq<Member>) {
    forall i :: 0 <= i < |ms| ==> IndexFree(Meanings(ms[i].key))
  }

  predicate NamesAreIn(cs: seq<Node>, used: set<string>) {
    forall i :: 0 <= i < |cs| ==> cs[i].name in used
  }

  function SaidByMembers(ms: seq<Member>): seq<Node> {
    if ms == [] then [] else [SaidByMember(ms[0])] + SaidByMembers(ms[1..])
  }

  lemma FreshMemberIsLast(ret: Node, used: set<string>, v: Node)
    requires IndexFree(v.name) && FindChar(v.name, '.').None? && v.name !in used && NamesAreIn(ret.children, used)
    ensures AddedMember(ret, v) == ret.Emplace(v) && NamesAreIn(ret.Emplace(v).children, used + {v.name})
  {
    var i := FirstNamed(ret.children, v.name);
  }

  lemma FirstThenOthers(ret: Node, v: Node, vs: seq<Node>)
    ensures ret.Emplace(v).(children := ret.Emplace(v).children + vs) == ret.(children := ret.children + ([v] + vs))
  {
    assert (ret.children + [v]) + vs == ret.children + ([v] + vs);
  }

  lemma NothingBehind(ret: Node)
    ensures ret.(children := ret.children + []) == ret
  {
    assert ret.children + [] == ret.children;
  }

  /** Members under keys of their own are the children of the object, in order. */
  lemma {:induction false} MembersStandInOrder(ret: Node, used: set<string>, ms: seq<Member>)
    requires HaveKeys(ms) && AreFreshKeys(ms, used) && NamesAreIn(ret.children, used)
    ensures AddedMembers(ret, ms) == ret.(children := ret.children + SaidByMembers(ms))
    decreases |ms|
  {
    if ms == [] {
      NothingBehind(ret);
    } else {
      var v := SaidByMember(ms[0]);
      FreshMemberIsLast(ret, used, v);
      MembersStandInOrder(ret.Emplace(v), used + {v.name}, ms[1..]);
      FirstThenOthers(ret, v, SaidByMembers(ms[1..]));
    }
  }

  /** So are the elements of an array. */
  function SaidByElements(es: seq<Element>): seq<Node> {
    if es == [] then [] else [Said(es[0].value, "")] + SaidByElements(es[1..])
  }

  lemma {:induction false} ElementsStandInOrder(ret: Node, es: seq<Element>)
    ensures AddedElements(ret, es) == ret.(children := ret.children + SaidByElements(es))
    decreases |es|
  {
    if es == [] {
      NothingBehind(ret);
    } else {
      var v := Said(es[0].value, "");
      ElementsStandInOrder(ret.Emplace(v), es[1..]);
      FirstThenOthers(ret, v, SaidByElements(es[1..]));
    }
  }
}
