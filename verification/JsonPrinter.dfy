/**
 The JSON printer: `Dp::Result`, the text buffer that carries the indentation
 state, and the recursive `Str` functions that append to it.
 */
module JsonPrinter {
  import opened Common
  import opened DpNode
  import opened Numerals

  /** The source's `unsigned int`. */
  type uint32 = x: int | 0 <= x < 0x1_0000_0000

  datatype Format = Format(indentation: uint32, startDepth: uint32, breakLine: bool)

  // ---------- indentation state ----------

  /** `++m_CurrentDepth`, which wraps. */
  function Deeper(d: uint32): uint32 {
    (d + 1) % 0x1_0000_0000
  }

  /** `DecreaseDepth` stops at zero. */
  function Shallower(d: uint32): uint32 {
    if d > 0 then d - 1 else d
  }

  function Spaces(n: nat): (r: string)
    ensures |r| == n
    ensures forall i :: 0 <= i < n ==> r[i] == ' '
  {
    seq(n, _ => ' ')
  }

  function IndentText(fmt: Format, d: uint32): string {
    Spaces(d * fmt.indentation)
  }

  function BreakText(fmt: Format): string {
    if fmt.breakLine then "\n" else ""
  }

  /** Between two elements: a comma, then a line break or a blank. */
  function SeparatorText(fmt: Format): string {
    if fmt.breakLine then ",\n" else ", "
  }

  // ---------- what each node prints ----------

  predicate IsBoolean(s: string) {
    s == "true" || s == "false"
  }

  /** The escapes `StrString` knows; every other character stands for itself, and NUL is not appended at all. */
  function Escaped(c: char): string {
    match c
    case '\U{07}' => "\\a"
    case '\U{08}' => "\\b"
    case '\U{0C}' => "\\f"
    case '\n' => "\\n"
    case '\r' => "\\r"
    case '\t' => "\\t"
    case '\U{0B}' => "\\v"
    case '"' => "\\\""
    case '\0' => ""
    case _ => [c]
  }

  function EscapedAll(value: string): string {
    if value == "" then "" else Escaped(value[0]) + EscapedAll(value[1..])
  }

  function QuotedText(value: string): string {
    "\"" + EscapedAll(value) + "\""
  }

  predicate PrintsQuoted(n: Node) {
    n.isString || (!n.isNotAString && !IsBoolean(n.value) && !IsNumerical(n.value))
  }

  function ValueText(n: Node): string {
    if n.isNull then "null"
    else if PrintsQuoted(n) then QuotedText(n.value)
    else n.value
  }

  function NameText(n: Node, addName: bool): string {
    if addName && n.name != "" then "\"" + n.name + "\": " else ""
  }

  datatype Brackets = Brackets(open: char, close: char, names: bool)

  const ARRAY := Brackets('[', ']', false)
  const OBJECT := Brackets('{', '}', true)

  predicate IsBlock(n: Node) {
    n.isArray || n.children != []
  }

  function BracketsOf(n: Node): Brackets {
    if n.isArray then ARRAY else OBJECT
  }

  function NodeText(n: Node, addName: bool, fmt: Format, d: uint32): string
    decreases n, 2
  {
    IndentText(fmt, d) + NameText(n, addName) + BodyText(n, fmt, d)
  }

  function BodyText(n: Node, fmt: Format, d: uint32): string
    decreases n, 1
  {
    if IsBlock(n) then
      var b := BracketsOf(n);
      [b.open] + BreakText(fmt)
      + ItemsText(n.children, true, b.names, fmt, Deeper(d))
      + BreakText(fmt) + IndentText(fmt, DepthAfter(n, d)) + [b.close]
    else
      ValueText(n)
  }

  /** The elements of a block from some point on; the first of the block has no separator in front. */
  function ItemsText(cs: seq<Node>, first: bool, names: bool, fmt: Format, d: uint32): string
    decreases cs, 0
  {
    if cs == [] then ""
    else
      (if first then "" else SeparatorText(fmt))
      + NodeText(cs[0], names, fmt, d)
      + ItemsText(cs[1..], false, names, fmt, DepthAfter(cs[0], d))
  }

  /** The depth `Result` is left at, which differs from `d` only where the counter wrapped. */
  function DepthAfter(n: Node, d: uint32): uint32
    decreases n, 1
  {
    if IsBlock(n) then Shallower(DepthAfterItems(n.children, Deeper(d))) else d
  }

  function DepthAfterItems(cs: seq<Node>, d: uint32): uint32
    decreases cs, 0
  {
    if cs == [] then d else DepthAfterItems(cs[1..], DepthAfter(cs[0], d))
  }

  /** `Json::Str`: a named root at depth 0 is printed as the only child of an unnamed one. */
  function Str(n: Node, fmt: Format): string {
    if n.isNullNode then "(null)"
    else if n.name != "" && fmt.startDepth == 0 then
      NodeText(Named("").Emplace(n), false, fmt, fmt.startDepth)
    else
      NodeText(n, true, fmt, fmt.startDepth)
  }

  // ---------- the printer ----------

  /** `Dp::Result`. */
  class Result {
    var buffer: string
    var currentDepth: uint32
    var indentString: string
    const format: Format

    ghost predicate Valid()
      reads this
    {
      indentString == IndentText(format, currentDepth)
    }

    constructor (fmt: Format)
      ensures Valid() && buffer == "" && currentDepth == fmt.startDepth && format == fmt
    {
      buffer := "";
      currentDepth := fmt.startDepth;
      indentString := Spaces(fmt.startDepth * fmt.indentation);
      format := fmt;
    }

    method AppendChar(c: char)
      modifies this`buffer
      ensures buffer == old(buffer) + if c == '\0' then "" else [c]
    {
      if c != '\0' {
        buffer := buffer + [c];
      }
    }

    method Append(text: string)
      modifies this`buffer
      ensures buffer == old(buffer) + text
    {
      if text != "" {
        buffer := buffer + text;
      }
    }

    method Indent()
      requires Valid()
      modifies this`buffer
      ensures buffer == old(buffer) + IndentText(format, currentDepth)
    {
      Append(indentString);
    }

    method LineBreak()
      modifies this`buffer
      ensures buffer == old(buffer) + BreakText(format)
    {
      if format.breakLine {
        buffer := buffer + "\n";
      }
    }

    method ForceLineBreak()
      modifies this`buffer
      ensures buffer == old(buffer) + "\n"
    {
      buffer := buffer + "\n";
    }

    method IncreaseDepth()
      modifies this`currentDepth, this`indentString
      ensures Valid() && currentDepth == Deeper(old(currentDepth))
    {
      currentDepth := (currentDepth + 1) % 0x1_0000_0000;
      indentString := Spaces(currentDepth * format.indentation);
    }

    method DecreaseDepth()
      requires Valid()
      modifies this`currentDepth, this`indentString
      ensures Valid() && currentDepth == Shallower(old(currentDepth))
    {
      if currentDepth > 0 {
        currentDepth := currentDepth - 1;
        indentString := Spaces(currentDepth * format.indentation);
      }
    }
  }

  method StrString(result: Result, value: string)
    modifies result`buffer
    ensures result.buffer == old(result.buffer) + QuotedText(value)
  {
    ghost var before := result.buffer;
    result.AppendChar('"');
    ghost var start := result.buffer;
    for k := 0 to |value|
      invariant result.buffer + EscapedAll(value[k..]) == start + EscapedAll(value)
    {
      EscapedStep(result.buffer, value, k);
      StrChar(result, value[k]);
    }
    result.AppendChar('"');
    QuotesAround(before, EscapedAll(value));
  }

  /** One character of `StrString`. */
  method StrChar(result: Result, c: char)
    modifies result`buffer
    ensures result.buffer == old(result.buffer) + Escaped(c)
  {
    match c {
      case '\U{07}' => result.Append("\\a");
      case '\U{08}' => result.Append("\\b");
      case '\U{0C}' => result.Append("\\f");
      case '\n' => result.Append("\\n");
      case '\r' => result.Append("\\r");
      case '\t' => result.Append("\\t");
      case '\U{0B}' => result.Append("\\v");
      case '"' => result.Append("\\\"");
      case _ => result.AppendChar(c);
    }
  }

  lemma EscapedStep(before: string, value: string, k: nat)
    requires k < |value|
    ensures before + EscapedAll(value[k..]) == (before + Escaped(value[k])) + EscapedAll(value[k + 1..])
  {
    assert value[k..][0] == value[k] && value[k..][1..] == value[k + 1..];
  }

  lemma QuotesAround(before: string, text: string)
    ensures ((before + ['"']) + text) + ['"'] == before + ("\"" + text + "\"")
  {
  }

  method StrValue(n: Node, result: Result)
    modifies result`buffer
    ensures result.buffer == old(result.buffer) + ValueText(n)
  {
    if n.isNull {
      result.Append("null");
    } else if n.isString || (!n.isNotAString && !IsBoolean(n.value) && !IsNumerical(n.value)) {
      StrString(result, n.value);
    } else {
      result.Append(n.value);
    }
  }

  /** `StrObject`: the brackets and what is between them. */
  method StrObject(n: Node, result: Result, b: Brackets)
    requires result.Valid() && IsBlock(n) && b == BracketsOf(n)
    modifies result
    ensures result.Valid()
    ensures result.buffer == old(result.buffer) + BodyText(n, result.format, old(result.currentDepth))
    ensures result.currentDepth == DepthAfter(n, old(result.currentDepth))
    decreases n, 1
  {
    ghost var start, d := result.buffer, result.currentDepth;
    result.AppendChar(b.open);
    result.LineBreak();
    result.IncreaseDepth();
    StrElements(n, result, b.names);
    result.DecreaseDepth();
    result.LineBreak();
    result.Indent();
    result.AppendChar(b.close);
    BlockAssembled(start, n, result.format, d);
  }

  /** The loop of `StrObject` over the elements. */
  method StrElements(n: Node, result: Result, names: bool)
    requires result.Valid()
    modifies result
    ensures result.Valid()
    ensures result.buffer
            == old(result.buffer) + ItemsText(n.children, true, names, result.format, old(result.currentDepth))
    ensures result.currentDepth == DepthAfterItems(n.children, old(result.currentDepth))
    decreases n, 0
  {
    ghost var start, d := result.buffer, result.currentDepth;
    for k := 0 to |n.children|
      invariant result.Valid()
      invariant result.buffer + ItemsText(n.children[k..], k == 0, names, result.format, result.currentDepth)
                == start + ItemsText(n.children, true, names, result.format, d)
      invariant DepthAfterItems(n.children[k..], result.currentDepth) == DepthAfterItems(n.children, d)
    {
      ItemsStep(result.buffer, n.children, k, names, result.format, result.currentDepth);
      if k != 0 {
        result.AppendChar(',');
        if result.format.breakLine {
          result.ForceLineBreak();
        } else {
          result.AppendChar(' ');
        }
      }
      StrNode(n.children[k], result, names);
    }
  }

  lemma ItemsStep(before: string, cs: seq<Node>, k: nat, names: bool, fmt: Format, d: uint32)
    requires k < |cs|
    ensures var separated := if k == 0 then before
                             else if fmt.breakLine then before + [','] + "\n"
                             else before + [','] + [' '];
            separated + NodeText(cs[k], names, fmt, d) + ItemsText(cs[k + 1..], false, names, fmt, DepthAfter(cs[k], d))
            == before + ItemsText(cs[k..], k == 0, names, fmt, d)
    ensures DepthAfterItems(cs[k..], d) == DepthAfterItems(cs[k + 1..], DepthAfter(cs[k], d))
  {
    var node := NodeText(cs[k], names, fmt, d);
    var more := ItemsText(cs[k + 1..], false, names, fmt, DepthAfter(cs[k], d));
    SplitAt(cs, k);
    if k == 0 {
      NothingBetween(before, node, more);
    } else {
      SeparatorBetween(before, fmt, node, more);
    }
  }

  lemma SplitAt(cs: seq<Node>, k: nat)
    requires k < |cs|
    ensures cs[k..] != [] && cs[k..][0] == cs[k] && cs[k..][1..] == cs[k + 1..]
  {
  }

  lemma NothingBetween(before: string, node: string, more: string)
    ensures before + node + more == before + ("" + node + more)
  {
  }

  lemma SeparatorBetween(before: string, fmt: Format, node: string, more: string)
    ensures (if fmt.breakLine then before + [','] + "\n" else before + [','] + [' ']) + node + more
         == before + (SeparatorText(fmt) + node + more)
  {
  }

  lemma BlockAssembled(start: string, n: Node, fmt: Format, d: uint32)
    requires IsBlock(n)
    ensures var b := BracketsOf(n);
            start + [b.open] + BreakText(fmt) + ItemsText(n.children, true, b.names, fmt, Deeper(d))
            + BreakText(fmt) + IndentText(fmt, DepthAfter(n, d)) + [b.close]
            == start + BodyText(n, fmt, d)
  {
  }

  /** `Str(node, result, addName)`. */
  method StrNode(n: Node, result: Result, addName: bool)
    requires result.Valid()
    modifies result
    ensures result.Valid()
    ensures result.buffer == old(result.buffer) + NodeText(n, addName, result.format, old(result.currentDepth))
    ensures result.currentDepth == DepthAfter(n, old(result.currentDepth))
    decreases n, 2
  {
    ghost var start, d := result.buffer, result.currentDepth;
    result.Indent();
    if addName {
      if n.name != "" {
        result.AppendChar('"');
        result.Append(n.name);
        result.Append("\": ");
      }
    }
    if n.isArray {
      StrObject(n, result, ARRAY);
    } else if n.children == [] {
      ValueIsBody(n, result.format, d);
      StrValue(n, result);
    } else {
      StrObject(n, result, OBJECT);
    }
    NodeAssembled(start, n, addName, result.format, d);
  }

  lemma ValueIsBody(n: Node, fmt: Format, d: uint32)
    requires !IsBlock(n)
    ensures BodyText(n, fmt, d) == ValueText(n) && DepthAfter(n, d) == d
  {
  }

  lemma NodeAssembled(start: string, n: Node, addName: bool, fmt: Format, d: uint32)
    ensures var indented := start + IndentText(fmt, d);
            (if addName && n.name != "" then indented + ['"'] + n.name + "\": " else indented) + BodyText(n, fmt, d)
            == start + NodeText(n, addName, fmt, d)
  {
    HeadAssembled(start, IndentText(fmt, d), n.name, addName, BodyText(n, fmt, d));
    assert NodeText(n, addName, fmt, d) == IndentText(fmt, d) + NameText(n, addName) + BodyText(n, fmt, d);
  }

  lemma HeadAssembled(start: string, indent: string, name: string, addName: bool, body: string)
    ensures (if addName && name != "" then start + indent + ['"'] + name + "\": " else start + indent) + body
            == start + (indent + (if addName && name != "" then "\"" + name + "\": " else "") + body)
  {
  }

  /** `Json::Str(node, format)`. */
  method JsonStr(n: Node, fmt: Format) returns (text: string)
    ensures text == Str(n, fmt)
  {
    if n.isNullNode {
      return "(null)";
    }
    var result := new Result(fmt);
    if n.name != "" && result.currentDepth == 0 {
      var root := Named("").Emplace(n);
      StrNode(root, result, false);
    } else {
      StrNode(n, result, true);
    }
    text := result.buffer;
  }

  // ---------- the depth after printing ----------

  /** How many brackets are nested in the text of a node. */
  function Height(n: Node): nat
    decreases n, 1
  {
    if IsBlock(n) then 1 + HeightOfAll(n.children) else 0
  }

  function HeightOfAll(cs: seq<Node>): nat
    decreases cs, 0
  {
    if cs == [] then 0 else Max(Height(cs[0]), HeightOfAll(cs[1..]))
  }

  /** Printing a node leaves the depth as it was, unless the counter wrapped inside: then it is left at 0. */
  lemma {:induction false} DepthIsRestored(n: Node, d: uint32)
    ensures DepthAfter(n, d) == if d + Height(n) < 0x1_0000_0000 then d else 0
    decreases n, 1
  {
    if IsBlock(n) {
      DepthIsRestoredAfterAll(n.children, Deeper(d));
    }
  }

  lemma {:induction false} DepthIsRestoredAfterAll(cs: seq<Node>, d: uint32)
    ensures DepthAfterItems(cs, d) == if d + HeightOfAll(cs) < 0x1_0000_0000 then d else 0
    decreases cs, 0
  {
    if cs != [] {
      DepthIsRestored(cs[0], d);
      DepthIsRestoredAfterAll(cs[1..], DepthAfter(cs[0], d));
    }
  }
}
