/**
 Reading back what the printer wrote: for the trees the format can carry, whatever
 the indentation, the loaded tree equals the printed one and no read leaves the text.
 */
module JsonRoundTrip {
  import opened Common
  import opened DpNode
  import opened Numerals
  import opened JsonPrinter
  import opened JsonParser
  import opened JsonStrings

  // ---------- the trees the format carries ----------

  /** A member name that survives: it is printed as it stands and read as a key of one segment. */
  predicate CarriedName(name: string) {
    && name != ""
    && RawText(name)
    && FindChar(name, '.').None?
    && PlainSegment(name)
  }

  predicate DistinctNames(cs: seq<Node>) {
    forall i, j :: 0 <= i < j < |cs| ==> cs[i].name != cs[j].name
  }

  /** A tree below the root, as a named member of an object or as an unnamed element of an array. */
  predicate Carried(n: Node, named: bool)
    decreases n, 1
  {
    && !n.isNullNode
    && (if named then CarriedName(n.name) else n.name == "")
    && if IsBlock(n) then CarriedBlock(n) else CarriedValue(n)
  }

  predicate CarriedValue(n: Node) {
    if n.isNull then n.value == ""
    else if PrintsQuoted(n) then CarriedText(n.value)
    else IsNumerical(n.value) || IsBoolean(n.value)
  }

  /** Arrays hold only blocks: `LoadNode` eats the first character of anything else in an array. */
  predicate CarriedBlock(n: Node)
    decreases n, 0
  {
    && n.children != [] && n.value == "" && !n.isNull
    && (forall i :: 0 <= i < |n.children| ==> Carried(n.children[i], !n.isArray))
    && (if n.isArray then forall i :: 0 <= i < |n.children| ==> IsBlock(n.children[i]) else DistinctNames(n.children))
  }

  /** The tree the loaders build from the text of a carried tree; arrays lose their mark. */
  function Reload(n: Node): (r: Node)
    ensures r.name == n.name
    decreases n
  {
    if IsBlock(n) then Named(n.name).(children := ReloadAll(n.children))
    else if n.isNull then Named(n.name).(isNull := true)
    else if PrintsQuoted(n) then Named(n.name).(value := n.value, isString := true)
    else Named(n.name).(value := n.value, isNotAString := true)
  }

  function ReloadAll(cs: seq<Node>): (r: seq<Node>)
    ensures |r| == |cs|
    ensures forall i :: 0 <= i < |cs| ==> r[i] == Reload(cs[i])
    decreases cs
  {
    if cs == [] then [] else [Reload(cs[0])] + ReloadAll(cs[1..])
  }

  lemma {:induction false} ReloadIsEqual(n: Node, named: bool)
    requires Carried(n, named)
    ensures Equal(Reload(n), n)
    decreases n
  {
    if IsBlock(n) {
      forall i | 0 <= i < |n.children|
        ensures Equal(Reload(n).children[i], n.children[i])
      {
        ReloadIsEqual(n.children[i], !n.isArray);
      }
    }
  }

  // ---------- blanks ----------

  lemma {:induction false} SkipSpaces(k: nat, s: string)
    ensures SkipBlanks(Spaces(k) + s) == SkipBlanks(s)
  {
    if k == 0 {
      assert Spaces(0) + s == s;
    } else {
      assert (Spaces(k) + s)[1..] == Spaces(k - 1) + s;
      SkipSpaces(k - 1, s);
    }
  }

  lemma SkipBreak(fmt: Format, s: string)
    ensures SkipBlanks(BreakText(fmt) + s) == SkipBlanks(s)
  {
    if fmt.breakLine {
      assert ("\n" + s)[1..] == s;
    } else {
      assert "" + s == s;
    }
  }

  // ---------- bare values ----------

  predicate NumeralChar(c: char) {
    IsDigit(c) || c in "+-.eE"
  }

  lemma NumeralChars(s: string)
    requires IsNumerical(s)
    ensures s != ""
    ensures forall i :: 0 <= i < |s| ==> NumeralChar(s[i])
  {
    var whole := SignEnd(s, 0);
    var point := DigitsEnd(s, whole);
    var fraction := if point < |s| && s[point] == '.' then point + 1 else point;
    var mantissa := DigitsEnd(s, fraction);
    assert forall i :: 0 <= i < mantissa ==> NumeralChar(s[i]);
    if mantissa < |s| {
      var digits := SignEnd(s, mantissa + 1);
      assert forall i :: digits <= i < DigitsEnd(s, digits) ==> IsDigit(s[i]);
    }
  }

  lemma BooleanChars(s: string)
    requires IsBoolean(s)
    ensures s != "" && s[0] != '"' && s[0] != 'n'
    ensures forall i :: 0 <= i < |s| ==> !EndsBare(s[i])
  {
  }

  lemma NumeralCharsGoOn(s: string)
    requires IsNumerical(s)
    ensures s != "" && s[0] != '"' && s[0] != 'n'
    ensures forall i :: 0 <= i < |s| ==> !EndsBare(s[i])
  {
    NumeralChars(s);
    assert NumeralChar(s[0]);
  }

  lemma BareChars(s: string)
    requires IsNumerical(s) || IsBoolean(s)
    ensures s != "" && s[0] != '"' && s[0] != 'n'
    ensures forall i :: 0 <= i < |s| ==> !EndsBare(s[i])
  {
    if IsNumerical(s) {
      NumeralCharsGoOn(s);
    } else {
      BooleanChars(s);
    }
  }

  lemma BareReadsBack(value: string, rest: string, name: string)
    requires IsNumerical(value) || IsBoolean(value)
    requires rest != "" && EndsBare(rest[0])
    ensures LoadValue(value + rest, name) == Loaded(Named(name).(value := value, isNotAString := true), rest)
  {
    var s := value + rest;
    BareChars(value);
    BareEndIs(s, |value|);
    assert s[..|value|] == value && s[|value|..] == rest && s[0] == value[0];
  }

  // ---------- values ----------

  lemma NullReadsBack(name: string, rest: string)
    ensures LoadValue("null" + rest, name) == Loaded(Named(name).(isNull := true), rest)
  {
    var s := "null" + rest;
    assert s[0] == 'n' && s[1] == 'u' && s[2] == 'l' && s[3] == 'l' && s[4..] == rest;
  }

  /** Behind its opening quote a quoted value is its escaped text, the closing quote, and the rest. */
  lemma QuotedOpens(value: string, rest: string)
    ensures var s := QuotedText(value) + rest;
            s != "" && s[0] == '"' && s[1..] == EscapedAll(value) + ("\"" + rest)
  {
  }

  lemma StringReadsBack(value: string, name: string, rest: string)
    requires CarriedText(value) && rest != ""
    ensures LoadValue(QuotedText(value) + rest, name) == Loaded(Named(name).(value := value, isString := true), rest)
  {
    QuotedOpens(value, rest);
    TextReadsBackExactly(value, rest);
  }

  lemma ValueReadsBack(n: Node, rest: string)
    requires CarriedValue(n) && !IsBlock(n)
    requires rest != "" && EndsBare(rest[0])
    ensures LoadValue(ValueText(n) + rest, n.name) == Loaded(Reload(n), rest)
  {
    if n.isNull {
      NullReadsBack(n.name, rest);
    } else if PrintsQuoted(n) {
      StringReadsBack(n.value, n.name, rest);
    } else {
      BareReadsBack(n.value, rest, n.name);
    }
  }

  // ---------- blocks ----------

  /** The text behind the last element: blanks, then the bracket. */
  predicate Closes(tail: string, close: char, after: string) {
    && tail != "" && (IsWhitespace(tail[0]) || tail[0] == close)
    && SkipBlanks(tail) == [close] + after
  }

  function AfterNode(n: Node, rest: string): string {
    if IsBlock(n) then SkipBlanks(rest) else rest
  }

  lemma ItemsSplit(cs: seq<Node>, names: bool, fmt: Format, d: uint32, tail: string)
    requires cs != []
    ensures var more := cs[1..];
            var r := (if more == [] then ""
                else SeparatorText(fmt) + ItemsText(more, true, names, fmt, DepthAfter(cs[0], d))) + tail;
            ItemsText(cs, true, names, fmt, d) + tail
            == IndentText(fmt, d) + (NameText(cs[0], names) + (BodyText(cs[0], fmt, d) + r))
  {
    var more, d' := cs[1..], DepthAfter(cs[0], d);
    var r := ItemsText(more, false, names, fmt, d');
    SeparatorFirst(more, names, fmt, d');
    assert ItemsText(cs, true, names, fmt, d) == "" + NodeText(cs[0], names, fmt, d) + r;
    Reassociate(IndentText(fmt, d), NameText(cs[0], names), BodyText(cs[0], fmt, d), r, tail);
  }

  lemma SeparatorFirst(cs: seq<Node>, names: bool, fmt: Format, d: uint32)
    ensures ItemsText(cs, false, names, fmt, d)
            == if cs == [] then "" else SeparatorText(fmt) + ItemsText(cs, true, names, fmt, d)
  {
    if cs != [] {
      Regroup(SeparatorText(fmt), NodeText(cs[0], names, fmt, d),
          ItemsText(cs[1..], false, names, fmt, DepthAfter(cs[0], d)));
    }
  }

  lemma Regroup(a: string, b: string, c: string)
    ensures a + b + c == a + ("" + b + c)
  {
  }

  lemma Reassociate(a: string, b: string, c: string, r: string, tail: string)
    ensures "" + (a + b + c) + r + tail == a + (b + (c + (r + tail)))
  {
  }

  /** Where the loop over the elements stands after an element whose remaining text is `r`. */
  lemma AfterElement(
      n: Node, more: seq<Node>, names: bool, fmt: Format, d: uint32, tail: string, close: char, after: string)
    requires Closes(tail, close, after) && close in "]}"
    ensures var r := (if more == [] then "" else SeparatorText(fmt) + ItemsText(more, true, names, fmt, d)) + tail;
            && r != "" && EndsBare(r[0])
            && (more != [] ==>
                 && Current(AfterNode(n, r)) == ','
                 && SkipBlanks(AfterNode(n, r)[1..]) == SkipBlanks(ItemsText(more, true, names, fmt, d) + tail))
            && (more == [] ==>
                 && Current(AfterNode(n, r)) != ','
                 && SkipBlanks(AfterNode(n, r)) == [close] + after)
  {
    if more == [] {
      assert "" + tail == tail;
    } else {
      var items := ItemsText(more, true, names, fmt, d);
      var r := SeparatorText(fmt) + items + tail;
      assert r[0] == ',';
      assert r[1..] == (if fmt.breakLine then "\n" else " ") + (items + tail);
      assert r[1..][1..] == items + tail;
      assert SkipBlanks(r) == r;
    }
  }

  ghost predicate LoadsMembers(cs: seq<Node>, ret: Node, fmt: Format, d: uint32, tail: string, after: string) {
    LoadMembers(SkipBlanks(ItemsText(cs, true, true, fmt, d) + tail), ret, true)
    == Loaded(ret.(children := ret.children + ReloadAll(cs)), SkipBlanks(after))
  }

  ghost predicate LoadsElements(cs: seq<Node>, ret: Node, fmt: Format, d: uint32, tail: string, after: string) {
    LoadElements(SkipBlanks(ItemsText(cs, true, false, fmt, d) + tail), ret, true)
    == Loaded(ret.(children := ret.children + ReloadAll(cs)), SkipBlanks(after))
  }

  /** A member with a name not yet used becomes the last child. */
  lemma AddNewName(ret: Node, v: Node)
    requires CarriedName(v.name)
    requires forall i :: 0 <= i < |ret.children| ==> ret.children[i].name != v.name
    ensures IndexFree(v.name) && InternalAdd(ret, v.name, v) == ret.Emplace(v)
  {
    var i := FirstNamed(ret.children, v.name);
  }

  /** One member: its key, its value, and the step to what follows. */
  lemma MemberReadsBack(n: Node, ret: Node, body: string, r: string)
    requires CarriedName(n.name)
    requires forall i :: 0 <= i < |ret.children| ==> ret.children[i].name != n.name
    requires LoadNode(": " + (body + r), n.name) == Loaded(Reload(n), AfterNode(n, r))
    ensures var s := NameText(n, true) + (body + r);
            && SkipBlanks(s) == s
            && LoadMembers(s, ret, true)
               == var left := AfterNode(n, r);
                  if Current(left) == ',' then LoadMembers(SkipBlanks(left[1..]), ret.Emplace(Reload(n)), true)
                  else LoadMembers(SkipBlanks(left), ret.Emplace(Reload(n)), false)
  {
    MemberText(n, body + r);
    AddNewName(ret, Reload(n));
    MemberUnfolds(NameText(n, true) + (body + r), ret, n.name, ": " + (body + r), Reload(n), AfterNode(n, r));
  }

  /** A member's text: the quoted key, then the colon. */
  lemma MemberText(n: Node, body: string)
    requires CarriedName(n.name)
    ensures var s, value := NameText(n, true) + body, ": " + body;
            && s != "" && s[0] == '"' && SkipBlanks(s) == s
            && LoadString(s[1..]) == Lexed(n.name, value) && SkipBlanks(value) == value
  {
    NameSplit(n.name, body);
    NameReadsBackExactly(n.name, ": " + body);
  }

  lemma NameSplit(name: string, rest: string)
    requires name != ""
    ensures var s := "\"" + name + "\": " + rest;
            s[0] == '"' && s[1..] == name + ("\"" + (": " + rest))
  {
  }

  /** The loop of `LoadObject`, one round unrolled. */
  lemma MemberUnfolds(s: string, ret: Node, key: string, afterKey: string, value: Node, left: string)
    requires s != "" && s[0] == '"' && key != "" && afterKey != ""
    requires LoadString(s[1..]) == Lexed(key, afterKey)
    requires LoadNode(SkipBlanks(afterKey), key) == Loaded(value, left)
    requires IndexFree(value.name)
    ensures LoadMembers(s, ret, true)
            == if Current(left) == ','
               then LoadMembers(SkipBlanks(left[1..]), InternalAdd(ret, value.name, value), true)
               else LoadMembers(SkipBlanks(left), InternalAdd(ret, value.name, value), false)
  {
  }

  /** The loop of `LoadArray`, one round unrolled. */
  lemma ElementUnfolds(s: string, ret: Node, value: Node, left: string)
    requires s != "" && s[0] != ']'
    requires LoadNode(s, "") == Loaded(value, left)
    ensures LoadElements(s, ret, true)
            == if Current(left) == ',' then LoadElements(SkipBlanks(left[1..]), ret.Emplace(value), true)
               else LoadElements(SkipBlanks(left), ret.Emplace(value), false)
  {
  }

  lemma EmplaceThenRest(ret: Node, cs: seq<Node>)
    requires cs != []
    ensures var more := ret.Emplace(Reload(cs[0]));
            more.(children := more.children + ReloadAll(cs[1..])) == ret.(children := ret.children + ReloadAll(cs))
  {
    var v, vs := Reload(cs[0]), ReloadAll(cs[1..]);
    assert ReloadAll(cs) == [v] + vs;
    AppendOneThenRest(ret.children, v, vs);
  }

  lemma AppendOneThenRest(us: seq<Node>, v: Node, vs: seq<Node>)
    ensures (us + [v]) + vs == us + ([v] + vs)
  {
  }

  /** What follows the first of the elements `cs`. */
  function Following(cs: seq<Node>, names: bool, fmt: Format, d: uint32, tail: string): string
    requires cs != []
  {
    var more := cs[1..];
    (if more == [] then "" else SeparatorText(fmt) + ItemsText(more, true, names, fmt, DepthAfter(cs[0], d))) + tail
  }

  /** One round of the loop of `LoadObject` over printed text. */
  lemma MemberRound(cs: seq<Node>, ret: Node, fmt: Format, d: uint32, tail: string, after: string)
    requires cs != [] && Closes(tail, '}', after) && CarriedName(cs[0].name)
    requires forall i :: 0 <= i < |ret.children| ==> ret.children[i].name != cs[0].name
    requires var r := Following(cs, true, fmt, d, tail);
             LoadNode(": " + (BodyText(cs[0], fmt, d) + r), cs[0].name) == Loaded(Reload(cs[0]), AfterNode(cs[0], r))
    ensures LoadMembers(SkipBlanks(ItemsText(cs, true, true, fmt, d) + tail), ret, true)
            == if cs[1..] == [] then Loaded(ret.Emplace(Reload(cs[0])), SkipBlanks(after))
               else LoadMembers(SkipBlanks(ItemsText(cs[1..], true, true, fmt, DepthAfter(cs[0], d)) + tail),
                   ret.Emplace(Reload(cs[0])), true)
  {
    var n, r := cs[0], Following(cs, true, fmt, d, tail);
    AfterElement(n, cs[1..], true, fmt, DepthAfter(n, d), tail, '}', after);
    MemberReadsBack(n, ret, BodyText(n, fmt, d), r);
    ItemsSplit(cs, true, fmt, d, tail);
    SkipSpaces(d * fmt.indentation, NameText(n, true) + (BodyText(n, fmt, d) + r));
    ClosingBrace(ret.Emplace(Reload(n)), after);
  }

  predicate NamesApart(us: seq<Node>, vs: seq<Node>) {
    forall i, j :: 0 <= i < |us| && 0 <= j < |vs| ==> us[i].name != vs[j].name
  }

  lemma NamesStayApart(us: seq<Node>, vs: seq<Node>)
    requires vs != [] && NamesApart(us, vs) && DistinctNames(vs)
    ensures NamesApart(us + [Reload(vs[0])], vs[1..]) && DistinctNames(vs[1..])
  {
  }

  /** The members of an object, from one of them to the closing brace. */
  lemma {:induction false} MembersReadBack(
      cs: seq<Node>, ret: Node, fmt: Format, d: uint32, tail: string, after: string)
    requires cs != [] && DistinctNames(cs) && Closes(tail, '}', after)
    requires forall i :: 0 <= i < |cs| ==> Carried(cs[i], true)
    requires NamesApart(ret.children, cs)
    ensures LoadsMembers(cs, ret, fmt, d, tail, after)
    decreases cs, 0
  {
    var n, r := cs[0], Following(cs, true, fmt, d, tail);
    AfterElement(n, cs[1..], true, fmt, DepthAfter(n, d), tail, '}', after);
    NamedReadsBack(n, fmt, d, r);
    MemberRound(cs, ret, fmt, d, tail, after);
    EmplaceThenRest(ret, cs);
    if cs[1..] == [] {
      LastElement(ret, cs);
    } else {
      NamesStayApart(ret.children, cs);
      MembersReadBack(cs[1..], ret.Emplace(Reload(n)), fmt, DepthAfter(n, d), tail, after);
    }
  }

  lemma LastElement(ret: Node, cs: seq<Node>)
    requires cs != [] && cs[1..] == []
    ensures ret.Emplace(Reload(cs[0])) == ret.(children := ret.children + ReloadAll(cs))
  {
    assert ReloadAll(cs[1..]) == [];
    assert ReloadAll(cs) == [Reload(cs[0])];
  }

  lemma ClosingBrace(ret: Node, after: string)
    ensures LoadMembers("}" + after, ret, false) == Loaded(ret, SkipBlanks(after))
    ensures LoadElements("]" + after, ret, false) == Loaded(ret, SkipBlanks(after))
  {
    assert ("}" + after)[1..] == after && ("]" + after)[1..] == after;
  }

  /** One round of the loop of `LoadArray` over printed text. */
  lemma ElementRound(cs: seq<Node>, ret: Node, fmt: Format, d: uint32, tail: string, after: string)
    requires cs != [] && Closes(tail, ']', after) && IsBlock(cs[0])
    requires var r := Following(cs, false, fmt, d, tail);
             LoadNode(BodyText(cs[0], fmt, d) + r, "") == Loaded(Reload(cs[0]), AfterNode(cs[0], r))
    ensures LoadElements(SkipBlanks(ItemsText(cs, true, false, fmt, d) + tail), ret, true)
            == if cs[1..] == [] then Loaded(ret.Emplace(Reload(cs[0])), SkipBlanks(after))
               else LoadElements(SkipBlanks(ItemsText(cs[1..], true, false, fmt, DepthAfter(cs[0], d)) + tail),
                   ret.Emplace(Reload(cs[0])), true)
  {
    var n, r := cs[0], Following(cs, false, fmt, d, tail);
    AfterElement(n, cs[1..], false, fmt, DepthAfter(n, d), tail, ']', after);
    ItemsSplit(cs, false, fmt, d, tail);
    assert NameText(n, false) + (BodyText(n, fmt, d) + r) == BodyText(n, fmt, d) + r;
    SkipSpaces(d * fmt.indentation, BodyText(n, fmt, d) + r);
    BlockOpens(n, fmt, d, r);
    ElementUnfolds(BodyText(n, fmt, d) + r, ret, Reload(n), AfterNode(n, r));
    ClosingBrace(ret.Emplace(Reload(n)), after);
  }

  /** The elements of an array, from one of them to the closing bracket. */
  lemma {:induction false} ElementsReadBack(
      cs: seq<Node>, ret: Node, fmt: Format, d: uint32, tail: string, after: string)
    requires cs != [] && Closes(tail, ']', after)
    requires forall i :: 0 <= i < |cs| ==> Carried(cs[i], false) && IsBlock(cs[i])
    ensures LoadsElements(cs, ret, fmt, d, tail, after)
    decreases cs, 0
  {
    var n, r := cs[0], Following(cs, false, fmt, d, tail);
    BlockReadsBack(n, fmt, d, r);
    ElementRound(cs, ret, fmt, d, tail, after);
    EmplaceThenRest(ret, cs);
    if cs[1..] == [] {
      LastElement(ret, cs);
    } else {
      ElementsReadBack(cs[1..], ret.Emplace(Reload(n)), fmt, DepthAfter(n, d), tail, after);
    }
  }

  /** The text of a block starts with its bracket. */
  lemma BlockOpens(n: Node, fmt: Format, d: uint32, rest: string)
    requires IsBlock(n)
    ensures var s := BodyText(n, fmt, d) + rest;
            && s != "" && s[0] == BracketsOf(n).open && SkipBlanks(s) == s
            && var tail := BreakText(fmt) + (IndentText(fmt, DepthAfter(n, d)) + ([BracketsOf(n).close] + rest));
               s[1..] == BreakText(fmt) + (ItemsText(n.children, true, BracketsOf(n).names, fmt, Deeper(d)) + tail)
  {
    var b := BracketsOf(n);
    BodyOfBlock(n, fmt, d);
    Unbracket(b.open, BreakText(fmt), ItemsText(n.children, true, b.names, fmt, Deeper(d)),
              IndentText(fmt, DepthAfter(n, d)), b.close, rest);
  }

  lemma BodyOfBlock(n: Node, fmt: Format, d: uint32)
    requires IsBlock(n)
    ensures var b := BracketsOf(n);
            BodyText(n, fmt, d) == [b.open] + BreakText(fmt) + ItemsText(n.children, true, b.names, fmt, Deeper(d))
                                   + BreakText(fmt) + IndentText(fmt, DepthAfter(n, d)) + [b.close]
  {
  }

  lemma Unbracket(open: char, br: string, items: string, indent: string, close: char, rest: string)
    ensures var s := [open] + br + items + br + indent + [close] + rest;
            s[0] == open && s[1..] == br + (items + (br + (indent + ([close] + rest))))
  {
  }

  lemma BlockCloses(fmt: Format, d: uint32, close: char, rest: string)
    requires close in "]}"
    ensures Closes(BreakText(fmt) + (IndentText(fmt, d) + ([close] + rest)), close, rest)
  {
    var inner := [close] + rest;
    SkipBreak(fmt, IndentText(fmt, d) + inner);
    SkipSpaces(d * fmt.indentation, inner);
    assert SkipBlanks(inner) == inner;
    if !fmt.breakLine && d * fmt.indentation == 0 {
      assert "" + (Spaces(0) + inner) == inner;
    }
  }

  /** A whole block, read where its bracket stands. */
  lemma {:induction false} BlockReadsBack(n: Node, fmt: Format, d: uint32, rest: string)
    requires IsBlock(n) && CarriedBlock(n)
    ensures LoadNode(BodyText(n, fmt, d) + rest, n.name) == Loaded(Reload(n), SkipBlanks(rest))
    decreases n, 0
  {
    var b := BracketsOf(n);
    var tail := BreakText(fmt) + (IndentText(fmt, DepthAfter(n, d)) + ([b.close] + rest));
    var items := ItemsText(n.children, true, b.names, fmt, Deeper(d));
    BlockOpens(n, fmt, d, rest);
    BlockCloses(fmt, DepthAfter(n, d), b.close, rest);
    SkipBreak(fmt, items + tail);
    assert Named(n.name).(children := [] + ReloadAll(n.children)) == Reload(n) by {
      assert [] + ReloadAll(n.children) == ReloadAll(n.children);
    }
    if n.isArray {
      ElementsReadBack(n.children, Named(n.name), fmt, Deeper(d), tail, rest);
    } else {
      MembersReadBack(n.children, Named(n.name), fmt, Deeper(d), tail, rest);
      FirstMemberQuoted(n.children, fmt, Deeper(d), tail);
    }
  }

  lemma FirstMemberQuoted(cs: seq<Node>, fmt: Format, d: uint32, tail: string)
    requires cs != [] && cs[0].name != ""
    ensures Current(SkipBlanks(ItemsText(cs, true, true, fmt, d) + tail)) == '"'
  {
    var more := cs[1..];
    var r := (if more == [] then "" else SeparatorText(fmt) + ItemsText(more, true, true, fmt, DepthAfter(cs[0], d)))
        + tail;
    ItemsSplit(cs, true, fmt, d, tail);
    SkipSpaces(d * fmt.indentation, NameText(cs[0], true) + (BodyText(cs[0], fmt, d) + r));
  }

  /** A member's value, read where the colon stands. */
  lemma {:induction false} NamedReadsBack(n: Node, fmt: Format, d: uint32, rest: string)
    requires Carried(n, true) && rest != "" && EndsBare(rest[0])
    ensures LoadNode(": " + (BodyText(n, fmt, d) + rest), n.name) == Loaded(Reload(n), AfterNode(n, rest))
    decreases n, 1
  {
    var s := BodyText(n, fmt, d) + rest;
    assert (": " + s)[1..] == " " + s && (" " + s)[1..] == s;
    if IsBlock(n) {
      BlockOpens(n, fmt, d, rest);
      BlockReadsBack(n, fmt, d, rest);
    } else {
      ValueReadsBack(n, rest);
      ValueStarts(n, rest);
    }
  }

  /** A value whose mark "not a string" is true of it. */
  predicate PrintableValue(n: Node) {
    n.isNull || PrintsQuoted(n) || IsNumerical(n.value) || IsBoolean(n.value)
  }

  lemma ValueStarts(n: Node, rest: string)
    requires PrintableValue(n)
    ensures var s := ValueText(n) + rest; s != "" && SkipBlanks(s) == s && s[0] != '{' && s[0] != '['
  {
    if !n.isNull && !PrintsQuoted(n) {
      BareChars(n.value);
      if IsNumerical(n.value) {
        NumeralChars(n.value);
        assert NumeralChar(n.value[0]);
      }
    }
  }

  // ---------- the round trip ----------

  /**
   What the root may be: the file format is an object, so only an unnamed
   object comes back as itself.
   */
  predicate CarriedRoot(n: Node) {
    !n.isArray && IsBlock(n) && Carried(n, false)
  }

  lemma RootText(n: Node, fmt: Format)
    requires n.name == "" && !n.isNullNode
    ensures Str(n, fmt) == IndentText(fmt, fmt.startDepth) + BodyText(n, fmt, fmt.startDepth)
  {
    assert IndentText(fmt, fmt.startDepth) + "" == IndentText(fmt, fmt.startDepth);
  }

  /** The round trip. */
  lemma RoundTrip(n: Node, fmt: Format)
    requires CarriedRoot(n)
    ensures LoadFromContent(Str(n, fmt)) == Loaded(Reload(n), "")
    ensures Equal(Reload(n), n)
  {
    var body := BodyText(n, fmt, fmt.startDepth);
    RootText(n, fmt);
    SkipSpaces(fmt.startDepth * fmt.indentation, body);
    BlockOpens(n, fmt, fmt.startDepth, "");
    BlockReadsBack(n, fmt, fmt.startDepth, "");
    assert body + "" == body;
    ReloadIsEqual(n, false);
  }

  /** The text of a node loads as an equal node. */
  predicate Survives(n: Node, fmt: Format) {
    match LoadFromContent(Str(n, fmt))
    case Loaded(m, _) => Equal(m, n)
    case _ => false
  }

  /** A named root printed at depth 0 comes back inside an unnamed object. */
  lemma NamedRootIsWrapped(n: Node, fmt: Format)
    requires Carried(n, true) && fmt.startDepth == 0
    ensures LoadFromContent(Str(n, fmt)) == Loaded(Named("").Emplace(Reload(n)), "")
  {
    var root := Named("").Emplace(n);
    assert root.children[0] == n && root.children[1..] == [];
    assert Str(n, fmt) == NodeText(root, false, fmt, 0);
    assert NodeText(root, false, fmt, 0) == NodeText(root, true, fmt, 0);
    assert Str(root, fmt) == NodeText(root, true, fmt, 0);
    RoundTrip(root, fmt);
    assert ReloadAll(root.children) == [Reload(n)];
  }
}
