/**
 The layout of printed text, without the printer's counter: every element of a block at
 depth `d` stands at `d + 1`, behind as many blanks as that makes, and the closing bracket
 at `d`. As long as the 32-bit counter does not wrap the printer lays out exactly this.
 */
module JsonLayout {
  import opened Common
  import opened DpNode
  import opened JsonPrinter
  import opened JsonRoundTrip

  function Gap(blanks: nat): string {
    if blanks == 0 then "" else " " + Gap(blanks - 1)
  }

  function NewLine(fmt: Format): string {
    if fmt.breakLine then "\n" else ""
  }

  /** An array in square brackets, its elements without names; an object in braces, its members with theirs. */
  function Laid(n: Node, fmt: Format, d: nat): string
    decreases n, 1
  {
    if n.isArray then
      "[" + NewLine(fmt) + LaidItems(n.children, false, fmt, d + 1) + NewLine(fmt) + Gap(d * fmt.indentation) + "]"
    else if n.children != [] then
      "{" + NewLine(fmt) + LaidItems(n.children, true, fmt, d + 1) + NewLine(fmt) + Gap(d * fmt.indentation) + "}"
    else ValueText(n)
  }

  function LaidItems(cs: seq<Node>, named: bool, fmt: Format, d: nat): string
    decreases cs, 0
  {
    if cs == [] then ""
    else if |cs| == 1 then LaidItem(cs[0], named, fmt, d)
    else
      LaidItem(cs[0], named, fmt, d)
      + ("," + (if fmt.breakLine then "\n" else " ") + LaidItems(cs[1..], named, fmt, d))
  }

  function LaidItem(n: Node, named: bool, fmt: Format, d: nat): string
    decreases n, 2
  {
    Gap(d * fmt.indentation) + (if named && n.name != "" then "\"" + n.name + "\": " else "") + Laid(n, fmt, d)
  }

  lemma {:induction false} GapIsSpaces(k: nat)
    ensures Gap(k) == Spaces(k)
  {
    if k > 0 {
      GapIsSpaces(k - 1);
      assert Spaces(k) == " " + Spaces(k - 1);
    }
  }

  lemma {:induction false} ItemsAreLaidOut(cs: seq<Node>, named: bool, fmt: Format, d: uint32)
    requires d + HeightOfAll(cs) < 0x1_0000_0000
    ensures ItemsText(cs, true, named, fmt, d) == LaidItems(cs, named, fmt, d)
    decreases cs, 0
  {
    if cs != [] {
      BodyIsLaidOut(cs[0], fmt, d);
      DepthIsRestored(cs[0], d);
      ItemsAreLaidOut(cs[1..], named, fmt, d);
      ItemsUnfold(cs, named, fmt, d);
      LaidItemsUnfold(cs, named, fmt, d);
    }
  }

  lemma ItemsUnfold(cs: seq<Node>, named: bool, fmt: Format, d: uint32)
    requires cs != [] && DepthAfter(cs[0], d) == d
    ensures ItemsText(cs, true, named, fmt, d)
         == NodeText(cs[0], named, fmt, d)
            + if cs[1..] == [] then "" else SeparatorText(fmt) + ItemsText(cs[1..], true, named, fmt, d)
  {
    SeparatorFirst(cs[1..], named, fmt, d);
    assert "" + NodeText(cs[0], named, fmt, d) == NodeText(cs[0], named, fmt, d);
  }

  lemma LaidItemsUnfold(cs: seq<Node>, named: bool, fmt: Format, d: uint32)
    requires cs != [] && BodyText(cs[0], fmt, d) == Laid(cs[0], fmt, d)
    ensures LaidItems(cs, named, fmt, d)
         == NodeText(cs[0], named, fmt, d)
            + if cs[1..] == [] then "" else SeparatorText(fmt) + LaidItems(cs[1..], named, fmt, d)
  {
    LaidItemIs(cs[0], named, fmt, d);
    SeparatorIs(fmt);
    if |cs| == 1 {
      assert cs[1..] == [];
      assert NodeText(cs[0], named, fmt, d) + "" == NodeText(cs[0], named, fmt, d);
    }
  }

  lemma LaidItemIs(n: Node, named: bool, fmt: Format, d: uint32)
    requires BodyText(n, fmt, d) == Laid(n, fmt, d)
    ensures LaidItem(n, named, fmt, d) == NodeText(n, named, fmt, d)
  {
    GapIsSpaces(d * fmt.indentation);
  }

  lemma SeparatorIs(fmt: Format)
    ensures SeparatorText(fmt) == "," + if fmt.breakLine then "\n" else " "
  {
  }

  lemma LaidBlock(n: Node, fmt: Format, d: uint32)
    requires IsBlock(n)
    ensures var b := BracketsOf(n);
            Laid(n, fmt, d)
            == [b.open] + BreakText(fmt) + LaidItems(n.children, b.names, fmt, d + 1)
               + BreakText(fmt) + IndentText(fmt, d) + [b.close]
  {
    GapIsSpaces(d * fmt.indentation);
  }

  /** What is printed for a node is its layout. */
  lemma {:induction false} BodyIsLaidOut(n: Node, fmt: Format, d: uint32)
    requires d + Height(n) < 0x1_0000_0000
    ensures BodyText(n, fmt, d) == Laid(n, fmt, d)
    decreases n, 1
  {
    if IsBlock(n) {
      ElementsFit(n, d);
      ItemsAreLaidOut(n.children, BracketsOf(n).names, fmt, d + 1);
      BlockIsLaidOut(n, fmt, d);
    } else {
      ScalarIsLaidOut(n, fmt, d);
    }
  }

  lemma ElementsFit(n: Node, d: uint32)
    requires IsBlock(n) && d + Height(n) < 0x1_0000_0000
    ensures d + 1 + HeightOfAll(n.children) < 0x1_0000_0000 && Deeper(d) == d + 1 && DepthAfter(n, d) == d
  {
    DepthIsRestored(n, d);
  }

  lemma BlockIsLaidOut(n: Node, fmt: Format, d: uint32)
    requires IsBlock(n) && Deeper(d) == d + 1 && DepthAfter(n, d) == d
    requires var b := BracketsOf(n);
             ItemsText(n.children, true, b.names, fmt, Deeper(d)) == LaidItems(n.children, b.names, fmt, d + 1)
    ensures BodyText(n, fmt, d) == Laid(n, fmt, d)
  {
    BodyOfBlock(n, fmt, d);
    LaidBlock(n, fmt, d);
  }

  lemma ScalarIsLaidOut(n: Node, fmt: Format, d: uint32)
    requires !IsBlock(n)
    ensures BodyText(n, fmt, d) == Laid(n, fmt, d)
  {
  }

  /** An unnamed root, at the starting depth. */
  lemma UnnamedIsLaidOut(n: Node, fmt: Format)
    requires !n.isNullNode && n.name == "" && fmt.startDepth + Height(n) < 0x1_0000_0000
    ensures Str(n, fmt) == Gap(fmt.startDepth * fmt.indentation) + Laid(n, fmt, fmt.startDepth)
  {
    GapIsSpaces(fmt.startDepth * fmt.indentation);
    BodyIsLaidOut(n, fmt, fmt.startDepth);
    RootText(n, fmt);
  }

  /** A named root below depth 0 is printed behind its name. */
  lemma NamedIsLaidOut(n: Node, fmt: Format)
    requires !n.isNullNode && n.name != "" && 0 < fmt.startDepth && fmt.startDepth + Height(n) < 0x1_0000_0000
    ensures Str(n, fmt)
            == Gap(fmt.startDepth * fmt.indentation) + ("\"" + n.name + "\": ") + Laid(n, fmt, fmt.startDepth)
  {
    GapIsSpaces(fmt.startDepth * fmt.indentation);
    BodyIsLaidOut(n, fmt, fmt.startDepth);
  }

  /** A named root at depth 0 is printed inside an unnamed object. */
  lemma WrappedIsLaidOut(n: Node, fmt: Format)
    requires !n.isNullNode && n.name != "" && fmt.startDepth == 0 && Height(n) + 1 < 0x1_0000_0000
    ensures Str(n, fmt) == Laid(Named("").Emplace(n), fmt, 0)
  {
    var root := Named("").Emplace(n);
    HeightOfOne(n);
    BodyIsLaidOut(root, fmt, 0);
    GapIsSpaces(0);
    assert "" + "" + BodyText(root, fmt, 0) == BodyText(root, fmt, 0);
  }

  lemma HeightOfOne(n: Node)
    ensures Height(Named("").Emplace(n)) <= Height(n) + 1
  {
    var root := Named("").Emplace(n);
    assert root.children == [n] && [n][1..] == [];
    assert HeightOfAll([]) == 0;
    assert HeightOfAll([n]) == Max(Height([n][0]), HeightOfAll([n][1..]));
  }
}
