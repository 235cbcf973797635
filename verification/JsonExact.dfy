/**
 Which trees come back, exactly. A tree that the format does not carry either does not
 load, or differs somewhere in a way that nothing read later can mend: the loaders only
 ever add children below the nodes they have.
 */
module JsonExact {
  import opened Common
  import opened DpNode
  import opened Numerals
  import opened JsonPrinter
  import opened JsonParser
  import opened JsonStrings
  import opened JsonRoundTrip
  import opened JsonArrays

  // ---------- differences that stay ----------

  /** Somewhere in the part both trees have, a null mark or a value differs. */
  predicate Clash(u: Node, n: Node)
    decreases n
  {
    || Differs(u, n)
    || exists i :: 0 <= i < |n.children| && i < |u.children| && Clash(u.children[i], n.children[i])
  }

  /** `b` is `a` with children added behind those of some of its nodes. */
  predicate Grows(a: Node, b: Node)
    decreases a
  {
    && a.name == b.name && a.isNull == b.isNull && a.value == b.value
    && |a.children| <= |b.children|
    && forall i :: 0 <= i < |a.children| ==> Grows(a.children[i], b.children[i])
  }

  lemma {:induction false} GrowsFrom(n: Node)
    ensures Grows(n, n)
    decreases n
  {
    forall i | 0 <= i < |n.children|
      ensures Grows(n.children[i], n.children[i])
    {
      GrowsFrom(n.children[i]);
    }
  }

  lemma {:induction false} GrowsOn(a: Node, b: Node, c: Node)
    requires Grows(a, b) && Grows(b, c)
    ensures Grows(a, c)
    decreases a
  {
    forall i | 0 <= i < |a.children|
      ensures Grows(a.children[i], c.children[i])
    {
      GrowsOn(a.children[i], b.children[i], c.children[i]);
    }
  }

  lemma {:induction false} ClashStays(u: Node, u': Node, n: Node)
    requires Clash(u, n) && Grows(u, u')
    ensures Clash(u', n)
    decreases n
  {
    if !Differs(u, n) {
      var i :| 0 <= i < |n.children| && i < |u.children| && Clash(u.children[i], n.children[i]);
      ClashStays(u.children[i], u'.children[i], n.children[i]);
    }
  }

  lemma EmplaceGrows(n: Node, c: Node)
    ensures Grows(n, n.Emplace(c))
  {
    GrowsFrom(n);
  }

  /** Children replaced by grown ones. */
  lemma ChildGrows(n: Node, i: nat, c: Node)
    requires i < |n.children| && Grows(n.children[i], c)
    ensures Grows(n, n.(children := n.children[i := c]))
  {
    GrowsFrom(n);
  }

  lemma MergeGrows(n: Node, more: seq<Node>)
    ensures Grows(n, n.(children := n.children + more))
  {
    GrowsFrom(n);
  }

  lemma {:induction false} InternalAddGrows(n: Node, key: string, v: Node)
    requires IndexFree(key)
    ensures Grows(n, InternalAdd(n, key, v))
    decreases |key|
  {
    match FindChar(key, '.') {
      case Some(p) =>
        var i := FirstNamed(n.children, key[..p]);
        if i < |n.children| {
          InternalAddGrows(n.children[i], key[p + 1..], v);
          ChildGrows(n, i, InternalAdd(n.children[i], key[p + 1..], v));
        } else {
          EmplaceGrows(n, InternalAdd(Named(key[..p]), key[p + 1..], v));
        }
      case None =>
        var i := FirstNamed(n.children, key);
        if i < |n.children| {
          MergeGrows(n.children[i], v.children);
          ChildGrows(n, i, n.children[i].(children := n.children[i].children + v.children));
        } else {
          EmplaceGrows(n, v.(name := key));
        }
    }
  }

  // ---------- the loaders only add ----------

  lemma {:induction false} ElementsGrow(s: string, ret: Node, needMore: bool)
    ensures var l := LoadElements(s, ret, needMore); l.Loaded? ==> Grows(ret, l.node)
    decreases |s|
  {
    GrowsFrom(ret);
    if s != "" && s[0] != ']' && needMore {
      match LoadNode(s, "") {
        case Loaded(value, rest) =>
          ElementUnfolds(s, ret, value, rest);
          EmplaceGrows(ret, value);
          ElementsGrowOn(s, ret, ret.Emplace(value), rest);
        case _ =>
      }
    }
  }

  lemma {:induction false} ElementsGrowOn(s: string, ret: Node, more: Node, rest: string)
    requires |rest| < |s| && Grows(ret, more)
    ensures var l := if Current(rest) == ',' then LoadElements(SkipBlanks(rest[1..]), more, true)
                     else LoadElements(SkipBlanks(rest), more, false);
            l.Loaded? ==> Grows(ret, l.node)
    decreases |rest| + 1
  {
    var next := if Current(rest) == ',' then SkipBlanks(rest[1..]) else SkipBlanks(rest);
    var l := LoadElements(next, more, Current(rest) == ',');
    ElementsGrow(next, more, Current(rest) == ',');
    if l.Loaded? {
      GrowsOn(ret, more, l.node);
    }
  }

  lemma {:induction false} MembersGrow(s: string, ret: Node, needMore: bool)
    ensures var l := LoadMembers(s, ret, needMore); l.Loaded? ==> Grows(ret, l.node)
    decreases |s|
  {
    GrowsFrom(ret);
    if s != "" && s[0] == '"' && needMore {
      match LoadString(s[1..]) {
        case Overrun =>
        case Lexed(key, afterKey) =>
          if afterKey != "" && key != "" {
            match LoadNode(SkipBlanks(afterKey), key) {
              case Loaded(value, rest) =>
                if IndexFree(value.name) {
                  MemberUnfolds(s, ret, key, afterKey, value, rest);
                  InternalAddGrows(ret, value.name, value);
                  MembersGrowOn(s, ret, InternalAdd(ret, value.name, value), rest);
                }
              case _ =>
            }
          }
      }
    }
  }

  lemma {:induction false} MembersGrowOn(s: string, ret: Node, more: Node, rest: string)
    requires |rest| < |s| && Grows(ret, more)
    ensures var l := if Current(rest) == ',' then LoadMembers(SkipBlanks(rest[1..]), more, true)
                     else LoadMembers(SkipBlanks(rest), more, false);
            l.Loaded? ==> Grows(ret, l.node)
    decreases |rest| + 1
  {
    var next := if Current(rest) == ',' then SkipBlanks(rest[1..]) else SkipBlanks(rest);
    var l := LoadMembers(next, more, Current(rest) == ',');
    MembersGrow(next, more, Current(rest) == ',');
    if l.Loaded? {
      GrowsOn(ret, more, l.node);
    }
  }

  /** What loads from a bracket starts as an empty node of the given name. */
  lemma BlockLoadsGrown(s: string, name: string)
    requires s != "" && (s[0] == '{' || s[0] == '[')
    ensures var l := LoadNode(s, name); l.Loaded? ==> Grows(Named(name), l.node)
  {
    var next := SkipBlanks(s[1..]);
    GrowsFrom(Named(name));
    if s[0] == '{' {
      MembersGrow(next, Named(name), true);
    } else {
      ElementsGrow(next, Named(name), true);
    }
  }

  // ---------- the trees that print as what they are ----------

  /** A tree below the root whose names the format carries; its values and elements may be any. */
  predicate Printable(n: Node, named: bool)
    decreases n, 1
  {
    && !n.isNullNode
    && (if named then CarriedName(n.name) else n.name == "")
    && if IsBlock(n) then PrintableBlock(n) else PrintableValue(n)
  }

  predicate PrintableBlock(n: Node)
    decreases n, 0
  {
    && (forall i :: 0 <= i < |n.children| ==> Printable(n.children[i], !n.isArray))
    && (!n.isArray ==> DistinctNames(n.children))
  }

  lemma {:induction false} ClashIsUnequal(u: Node, n: Node)
    requires Clash(u, n) && !n.isNullNode && (IsBlock(n) ==> PrintableBlock(n))
    ensures !Equal(u, n)
    decreases n
  {
    if !Differs(u, n) {
      var i :| 0 <= i < |n.children| && i < |u.children| && Clash(u.children[i], n.children[i]);
      assert Printable(n.children[i], !n.isArray);
      ClashIsUnequal(u.children[i], n.children[i]);
    }
  }

  // ---------- one that is not carried is lost ----------

  /** Behind the first `k` children some loaded node clashes with the one of `cs` it stands for. */
  predicate Lost(l: Loaded, k: nat, cs: seq<Node>) {
    l.Loaded? ==> exists i :: 0 <= i < |cs| && k + i < |l.node.children| && Clash(l.node.children[k + i], cs[i])
  }

  lemma LostLater(l: Loaded, k: nat, cs: seq<Node>)
    requires cs != [] && Lost(l, k + 1, cs[1..])
    ensures Lost(l, k, cs)
  {
    if l.Loaded? {
      var more := cs[1..];
      var i :| 0 <= i < |more| && k + 1 + i < |l.node.children| && Clash(l.node.children[k + 1 + i], more[i]);
      assert Clash(l.node.children[k + (i + 1)], cs[i + 1]);
    }
  }

  lemma LostFirst(l: Loaded, ret: Node, v: Node, cs: seq<Node>)
    requires cs != [] && Clash(v, cs[0])
    requires l.Loaded? ==> Grows(ret.Emplace(v), l.node)
    ensures Lost(l, |ret.children|, cs)
  {
    if l.Loaded? {
      var k := |ret.children|;
      assert ret.Emplace(v).children[k] == v;
      ClashStays(v, l.node.children[k], cs[0]);
      assert Clash(l.node.children[k + 0], cs[0]);
    }
  }

  lemma ElementLost(s: string, ret: Node, cs: seq<Node>)
    requires s != "" && s[0] != ']' && cs != []
    requires var e := LoadNode(s, ""); e.Loaded? ==> Clash(e.node, cs[0])
    ensures Lost(LoadElements(s, ret, true), |ret.children|, cs)
  {
    match LoadNode(s, "") {
      case Loaded(value, rest) =>
        ElementUnfolds(s, ret, value, rest);
        GrowsFrom(ret.Emplace(value));
        ElementsGrowOn(s, ret.Emplace(value), ret.Emplace(value), rest);
        LostFirst(LoadElements(s, ret, true), ret, value, cs);
      case _ =>
    }
  }

  /** What the loop of `LoadArray` sees of the printed elements. */
  lemma ElementInFront(cs: seq<Node>, fmt: Format, d: uint32, tail: string)
    requires cs != [] && (!IsBlock(cs[0]) ==> PrintableValue(cs[0]))
    ensures var text := BodyText(cs[0], fmt, d) + Following(cs, false, fmt, d, tail);
            SkipBlanks(ItemsText(cs, true, false, fmt, d) + tail) == text && text != "" && text[0] != ']'
  {
    var r := Following(cs, false, fmt, d, tail);
    FirstItemText(cs, fmt, d, tail);
    SkipSpaces(d * fmt.indentation, BodyText(cs[0], fmt, d) + r);
    if IsBlock(cs[0]) {
      BlockOpens(cs[0], fmt, d, r);
    } else {
      ValueStarts(cs[0], r);
      NotABracket(cs[0], r);
    }
  }

  lemma FirstItemText(cs: seq<Node>, fmt: Format, d: uint32, tail: string)
    requires cs != []
    ensures ItemsText(cs, true, false, fmt, d) + tail
         == IndentText(fmt, d) + (BodyText(cs[0], fmt, d) + Following(cs, false, fmt, d, tail))
  {
    ItemsSplit(cs, false, fmt, d, tail);
    NoName(BodyText(cs[0], fmt, d) + Following(cs, false, fmt, d, tail));
  }

  lemma NoName(s: string)
    ensures "" + s == s
  {
  }

  lemma BehindFollowing(cs: seq<Node>, fmt: Format, d: uint32, tail: string, after: string)
    requires cs != [] && Closes(tail, ']', after)
    ensures BehindElement(Following(cs, false, fmt, d, tail))
  {
    AfterElement(cs[0], cs[1..], false, fmt, DepthAfter(cs[0], d), tail, ']', after);
    var r := Following(cs, false, fmt, d, tail);
    if cs[1..] == [] {
      assert r == tail;
    } else {
      assert r[0] == ',' && SkipBlanks(r) == r;
    }
  }

  /** An element the format carries: an array or object of carried parts. */
  predicate CarriedElement(n: Node) {
    IsBlock(n) && CarriedBlock(n)
  }

  /** Going through the elements, one that is not carried is met. */
  predicate MeetsBadElement(cs: seq<Node>)
    decreases |cs|
  {
    cs != [] && Printable(cs[0], false) && (CarriedElement(cs[0]) ==> MeetsBadElement(cs[1..]))
  }

  lemma {:induction false} BadElementIsMet(cs: seq<Node>, k: nat)
    requires k < |cs| && !CarriedElement(cs[k])
    requires forall i :: 0 <= i < |cs| ==> Printable(cs[i], false)
    ensures MeetsBadElement(cs)
    decreases |cs|
  {
    if CarriedElement(cs[0]) {
      BadElementIsMet(cs[1..], k - 1);
    }
  }

  /** A carried element is read as it was, and the rest of the loop is what loses one. */
  lemma CarriedElementFirst(cs: seq<Node>, ret: Node, fmt: Format, d: uint32, tail: string, after: string)
    requires |cs| > 1 && Closes(tail, ']', after) && CarriedElement(cs[0]) && cs[0].name == ""
    ensures ElementsLoad(cs, ret, fmt, d, tail)
         == ElementsLoad(cs[1..], ret.Emplace(Reload(cs[0])), fmt, DepthAfter(cs[0], d), tail)
  {
    BlockReadsBack(cs[0], fmt, d, Following(cs, false, fmt, d, tail));
    ElementRound(cs, ret, fmt, d, tail, after);
  }

  /** The loop of `LoadArray` over printed elements. */
  function ElementsLoad(cs: seq<Node>, ret: Node, fmt: Format, d: uint32, tail: string): Loaded {
    LoadElements(SkipBlanks(ItemsText(cs, true, false, fmt, d) + tail), ret, true)
  }

  lemma BadElementFirst(cs: seq<Node>, ret: Node, fmt: Format, d: uint32, tail: string)
    requires cs != [] && (!IsBlock(cs[0]) ==> PrintableValue(cs[0]))
    requires var l := LoadNode(BodyText(cs[0], fmt, d) + Following(cs, false, fmt, d, tail), "");
             l.Loaded? ==> Clash(l.node, cs[0])
    ensures Lost(ElementsLoad(cs, ret, fmt, d, tail), |ret.children|, cs)
  {
    ElementInFront(cs, fmt, d, tail);
    ElementLost(BodyText(cs[0], fmt, d) + Following(cs, false, fmt, d, tail), ret, cs);
  }

  lemma LostBehindCarriedElement(cs: seq<Node>, ret: Node, fmt: Format, d: uint32, tail: string, after: string)
    requires |cs| > 1 && Closes(tail, ']', after) && CarriedElement(cs[0]) && cs[0].name == ""
    requires Lost(ElementsLoad(cs[1..], ret.Emplace(Reload(cs[0])), fmt, DepthAfter(cs[0], d), tail),
                  |ret.children| + 1, cs[1..])
    ensures Lost(ElementsLoad(cs, ret, fmt, d, tail), |ret.children|, cs)
  {
    CarriedElementFirst(cs, ret, fmt, d, tail, after);
    LostLater(ElementsLoad(cs, ret, fmt, d, tail), |ret.children|, cs);
  }

  lemma {:induction false} LostAtBadElement(
      cs: seq<Node>, ret: Node, fmt: Format, d: uint32, tail: string, after: string)
    requires cs != [] && Closes(tail, ']', after) && Printable(cs[0], false) && !CarriedElement(cs[0])
    ensures Lost(ElementsLoad(cs, ret, fmt, d, tail), |ret.children|, cs)
    decreases cs, 0
  {
    if IsBlock(cs[0]) {
      BlockLost(cs[0], fmt, d, Following(cs, false, fmt, d, tail));
    } else {
      BehindFollowing(cs, fmt, d, tail, after);
      ScalarElementLost(cs[0], Following(cs, false, fmt, d, tail));
    }
    BadElementFirst(cs, ret, fmt, d, tail);
  }

  lemma {:induction false} ElementsLost(cs: seq<Node>, ret: Node, fmt: Format, d: uint32, tail: string, after: string)
    requires MeetsBadElement(cs) && Closes(tail, ']', after)
    ensures Lost(ElementsLoad(cs, ret, fmt, d, tail), |ret.children|, cs)
    decreases cs, 1
  {
    if CarriedElement(cs[0]) {
      ElementsLost(cs[1..], ret.Emplace(Reload(cs[0])), fmt, DepthAfter(cs[0], d), tail, after);
      LostBehindCarriedElement(cs, ret, fmt, d, tail, after);
    } else {
      LostAtBadElement(cs, ret, fmt, d, tail, after);
    }
  }

  // ---------- members ----------

  lemma ValueLost(n: Node, rest: string)
    requires PrintableValue(n) && !CarriedValue(n)
    ensures var l := LoadValue(ValueText(n) + rest, n.name); l.Loaded? ==> l.node.name == n.name && Differs(l.node, n)
  {
    if n.isNull {
      NullReadsBack(n.name, rest);
    } else {
      QuotedOpens(n.value, rest);
      TextReadsBackExactly(n.value, rest);
    }
  }

  /** Behind the colon and its blank `LoadNode` looks at the value. */
  lemma ColonPasses(s: string, name: string)
    requires s != "" && SkipBlanks(s) == s && name != ""
    ensures LoadNode(": " + s, name) == if s[0] == '{' || s[0] == '[' then LoadNode(s, name) else LoadValue(s, name)
  {
    assert (": " + s)[1..] == " " + s && (" " + s)[1..] == s;
  }

  lemma {:induction false} MemberValueLost(n: Node, fmt: Format, d: uint32, rest: string)
    requires Printable(n, true) && !Carried(n, true)
    ensures var l := LoadNode(": " + (BodyText(n, fmt, d) + rest), n.name);
            l.Loaded? ==> l.node.name == n.name && Clash(l.node, n)
    decreases n, 1
  {
    if IsBlock(n) {
      BlockOpens(n, fmt, d, rest);
      ColonPasses(BodyText(n, fmt, d) + rest, n.name);
      BlockLost(n, fmt, d, rest);
    } else {
      ValueStarts(n, rest);
      ColonPasses(ValueText(n) + rest, n.name);
      ValueLost(n, rest);
    }
  }

  lemma MemberFails(s: string, ret: Node, key: string, afterKey: string)
    requires s != "" && s[0] == '"' && key != "" && afterKey != ""
    requires LoadString(s[1..]) == Lexed(key, afterKey) && !LoadNode(SkipBlanks(afterKey), key).Loaded?
    ensures !LoadMembers(s, ret, true).Loaded?
  {
  }

  lemma MemberLost(ret: Node, body: string, cs: seq<Node>)
    requires cs != [] && CarriedName(cs[0].name)
    requires forall i :: 0 <= i < |ret.children| ==> ret.children[i].name != cs[0].name
    requires var l := LoadNode(": " + body, cs[0].name); l.Loaded? ==> l.node.name == cs[0].name && Clash(l.node, cs[0])
    ensures var s := NameText(cs[0], true) + body;
            SkipBlanks(s) == s && Lost(LoadMembers(s, ret, true), |ret.children|, cs)
  {
    var name, value := cs[0].name, ": " + body;
    var s := NameText(cs[0], true) + body;
    MemberText(cs[0], body);
    match LoadNode(value, name) {
      case Loaded(v, left) =>
        AddNewName(ret, v);
        MemberUnfolds(s, ret, name, value, v, left);
        GrowsFrom(ret.Emplace(v));
        MembersGrowOn(value, ret.Emplace(v), ret.Emplace(v), left);
        LostFirst(LoadMembers(s, ret, true), ret, v, cs);
      case _ => MemberFails(s, ret, name, value);
    }
  }

  lemma MemberInFront(cs: seq<Node>, fmt: Format, d: uint32, tail: string)
    requires cs != [] && cs[0].name != ""
    ensures SkipBlanks(ItemsText(cs, true, true, fmt, d) + tail)
         == NameText(cs[0], true) + (BodyText(cs[0], fmt, d) + Following(cs, true, fmt, d, tail))
  {
    var body := BodyText(cs[0], fmt, d) + Following(cs, true, fmt, d, tail);
    ItemsSplit(cs, true, fmt, d, tail);
    SkipSpaces(d * fmt.indentation, NameText(cs[0], true) + body);
    NameSplit(cs[0].name, body);
  }

  /** Going through the members, one that is not carried is met; `us` are read before, under other names. */
  predicate MeetsBadMember(cs: seq<Node>, us: seq<Node>)
    decreases |cs|
  {
    && cs != []
    && Printable(cs[0], true)
    && (forall i :: 0 <= i < |us| ==> us[i].name != cs[0].name)
    && (Carried(cs[0], true) ==> MeetsBadMember(cs[1..], us + [Reload(cs[0])]))
  }

  lemma {:induction false} BadMemberIsMet(cs: seq<Node>, us: seq<Node>, k: nat)
    requires DistinctNames(cs) && NamesApart(us, cs) && k < |cs| && !Carried(cs[k], true)
    requires forall i :: 0 <= i < |cs| ==> Printable(cs[i], true)
    ensures MeetsBadMember(cs, us)
    decreases |cs|
  {
    if Carried(cs[0], true) {
      NamesStayApart(us, cs);
      BadMemberIsMet(cs[1..], us + [Reload(cs[0])], k - 1);
    }
  }

  /** A carried member is read as it was, and the rest of the loop is what loses one. */
  lemma CarriedMemberFirst(cs: seq<Node>, ret: Node, fmt: Format, d: uint32, tail: string, after: string)
    requires |cs| > 1 && Closes(tail, '}', after) && Carried(cs[0], true)
    requires forall i :: 0 <= i < |ret.children| ==> ret.children[i].name != cs[0].name
    ensures MembersLoad(cs, ret, fmt, d, tail)
         == MembersLoad(cs[1..], ret.Emplace(Reload(cs[0])), fmt, DepthAfter(cs[0], d), tail)
  {
    var r := Following(cs, true, fmt, d, tail);
    AfterElement(cs[0], cs[1..], true, fmt, DepthAfter(cs[0], d), tail, '}', after);
    NamedReadsBack(cs[0], fmt, d, r);
    MemberRound(cs, ret, fmt, d, tail, after);
  }

  /** The loop of `LoadObject` over printed members. */
  function MembersLoad(cs: seq<Node>, ret: Node, fmt: Format, d: uint32, tail: string): Loaded {
    LoadMembers(SkipBlanks(ItemsText(cs, true, true, fmt, d) + tail), ret, true)
  }

  lemma BadMemberFirst(cs: seq<Node>, ret: Node, fmt: Format, d: uint32, tail: string)
    requires cs != [] && CarriedName(cs[0].name)
    requires forall i :: 0 <= i < |ret.children| ==> ret.children[i].name != cs[0].name
    requires var l := LoadNode(": " + (BodyText(cs[0], fmt, d) + Following(cs, true, fmt, d, tail)), cs[0].name);
             l.Loaded? ==> l.node.name == cs[0].name && Clash(l.node, cs[0])
    ensures Lost(MembersLoad(cs, ret, fmt, d, tail), |ret.children|, cs)
  {
    MemberInFront(cs, fmt, d, tail);
    MemberLost(ret, BodyText(cs[0], fmt, d) + Following(cs, true, fmt, d, tail), cs);
  }

  lemma LostBehindCarriedMember(cs: seq<Node>, ret: Node, fmt: Format, d: uint32, tail: string, after: string)
    requires |cs| > 1 && Closes(tail, '}', after) && Carried(cs[0], true)
    requires forall i :: 0 <= i < |ret.children| ==> ret.children[i].name != cs[0].name
    requires Lost(MembersLoad(cs[1..], ret.Emplace(Reload(cs[0])), fmt, DepthAfter(cs[0], d), tail),
                  |ret.children| + 1, cs[1..])
    ensures Lost(MembersLoad(cs, ret, fmt, d, tail), |ret.children|, cs)
  {
    CarriedMemberFirst(cs, ret, fmt, d, tail, after);
    LostLater(MembersLoad(cs, ret, fmt, d, tail), |ret.children|, cs);
  }

  lemma {:induction false} LostAtBadMember(cs: seq<Node>, ret: Node, fmt: Format, d: uint32, tail: string)
    requires cs != [] && Printable(cs[0], true) && !Carried(cs[0], true)
    requires forall i :: 0 <= i < |ret.children| ==> ret.children[i].name != cs[0].name
    ensures Lost(MembersLoad(cs, ret, fmt, d, tail), |ret.children|, cs)
    decreases cs, 0
  {
    MemberValueLost(cs[0], fmt, d, Following(cs, true, fmt, d, tail));
    BadMemberFirst(cs, ret, fmt, d, tail);
  }

  lemma {:induction false} LostLaterMember(
      cs: seq<Node>, ret: Node, fmt: Format, d: uint32, tail: string, after: string)
    requires MeetsBadMember(cs, ret.children) && Carried(cs[0], true) && Closes(tail, '}', after)
    ensures Lost(MembersLoad(cs, ret, fmt, d, tail), |ret.children|, cs)
    decreases cs, 1
  {
    MembersLost(cs[1..], ret.Emplace(Reload(cs[0])), fmt, DepthAfter(cs[0], d), tail, after);
    LostBehindCarriedMember(cs, ret, fmt, d, tail, after);
  }

  lemma {:induction false} MembersLost(cs: seq<Node>, ret: Node, fmt: Format, d: uint32, tail: string, after: string)
    requires MeetsBadMember(cs, ret.children) && Closes(tail, '}', after)
    ensures Lost(MembersLoad(cs, ret, fmt, d, tail), |ret.children|, cs)
    decreases cs, 2
  {
    if Carried(cs[0], true) {
      LostLaterMember(cs, ret, fmt, d, tail, after);
    } else {
      LostAtBadMember(cs, ret, fmt, d, tail);
    }
  }

  // ---------- blocks ----------

  /** The text behind the elements of a block. */
  function TailOf(n: Node, fmt: Format, d: uint32, rest: string): string {
    BreakText(fmt) + (IndentText(fmt, DepthAfter(n, d)) + ([BracketsOf(n).close] + rest))
  }

  /** An array's text is read by the loop over its elements. */
  lemma ArrayText(n: Node, fmt: Format, d: uint32, rest: string)
    requires n.isArray
    ensures Closes(TailOf(n, fmt, d, rest), ']', rest)
    ensures LoadNode(BodyText(n, fmt, d) + rest, n.name)
            == LoadElements(SkipBlanks(ItemsText(n.children, true, false, fmt, Deeper(d)) + TailOf(n, fmt, d, rest)),
                            Named(n.name), true)
  {
    BlockOpens(n, fmt, d, rest);
    BlockCloses(fmt, DepthAfter(n, d), ']', rest);
    SkipBreak(fmt, ItemsText(n.children, true, false, fmt, Deeper(d)) + TailOf(n, fmt, d, rest));
  }

  /** An object's text by the loop over its members. */
  lemma ObjectText(n: Node, fmt: Format, d: uint32, rest: string)
    requires IsBlock(n) && !n.isArray && n.children[0].name != ""
    ensures Closes(TailOf(n, fmt, d, rest), '}', rest)
    ensures LoadNode(BodyText(n, fmt, d) + rest, n.name)
            == LoadMembers(SkipBlanks(ItemsText(n.children, true, true, fmt, Deeper(d)) + TailOf(n, fmt, d, rest)),
                           Named(n.name), true)
  {
    BlockOpens(n, fmt, d, rest);
    BlockCloses(fmt, DepthAfter(n, d), '}', rest);
    SkipBreak(fmt, ItemsText(n.children, true, true, fmt, Deeper(d)) + TailOf(n, fmt, d, rest));
    FirstMemberQuoted(n.children, fmt, Deeper(d), TailOf(n, fmt, d, rest));
  }

  lemma EmptyArrayRefused(n: Node, fmt: Format, d: uint32, rest: string)
    requires n.isArray && n.children == []
    ensures !LoadNode(BodyText(n, fmt, d) + rest, n.name).Loaded?
  {
    ArrayText(n, fmt, d, rest);
    NoName(TailOf(n, fmt, d, rest));
  }

  lemma LostIsClash(l: Loaded, n: Node)
    requires Lost(l, 0, n.children)
    ensures l.Loaded? ==> Clash(l.node, n)
  {
    if l.Loaded? {
      var i :| 0 <= i < |n.children| && 0 + i < |l.node.children| && Clash(l.node.children[0 + i], n.children[i]);
    }
  }

  /** A block that is not carried does not load, or clashes with what does, whatever follows it. */
  lemma {:induction false} BlockLost(n: Node, fmt: Format, d: uint32, rest: string)
    requires IsBlock(n) && PrintableBlock(n) && !CarriedBlock(n)
    ensures var l := LoadNode(BodyText(n, fmt, d) + rest, n.name);
            l.Loaded? ==> l.node.name == n.name && Clash(l.node, n)
    decreases n, 0
  {
    var l := LoadNode(BodyText(n, fmt, d) + rest, n.name);
    BlockOpens(n, fmt, d, rest);
    BlockLoadsGrown(BodyText(n, fmt, d) + rest, n.name);
    if n.value == "" && !n.isNull {
      if n.children == [] {
        EmptyArrayRefused(n, fmt, d, rest);
      } else if n.isArray {
        ArrayText(n, fmt, d, rest);
        var k :| 0 <= k < |n.children| && !CarriedElement(n.children[k]);
        BadElementIsMet(n.children, k);
        ElementsLost(n.children, Named(n.name), fmt, Deeper(d), TailOf(n, fmt, d, rest), rest);
        LostIsClash(l, n);
      } else {
        ObjectText(n, fmt, d, rest);
        var k :| 0 <= k < |n.children| && !Carried(n.children[k], true);
        BadMemberIsMet(n.children, [], k);
        MembersLost(n.children, Named(n.name), fmt, Deeper(d), TailOf(n, fmt, d, rest), rest);
        LostIsClash(l, n);
      }
    }
  }

  lemma CarriedBlockIsEqual(n: Node)
    requires IsBlock(n) && CarriedBlock(n)
    ensures Equal(Reload(n), n)
  {
    forall i | 0 <= i < |n.children|
      ensures Equal(Reload(n).children[i], n.children[i])
    {
      ReloadIsEqual(n.children[i], !n.isArray);
    }
  }

  /** A printed block, at any depth and before any text, loads as an equal node exactly when it is carried. */
  lemma BlockReadsBackExactly(n: Node, fmt: Format, d: uint32, rest: string)
    requires IsBlock(n) && PrintableBlock(n) && !n.isNullNode
    ensures var l := LoadNode(BodyText(n, fmt, d) + rest, n.name); (l.Loaded? && Equal(l.node, n)) <==> CarriedBlock(n)
  {
    if CarriedBlock(n) {
      BlockReadsBack(n, fmt, d, rest);
      CarriedBlockIsEqual(n);
    } else {
      BlockLost(n, fmt, d, rest);
      var l := LoadNode(BodyText(n, fmt, d) + rest, n.name);
      if l.Loaded? {
        ClashIsUnequal(l.node, n);
      }
    }
  }

  /** In particular an array does exactly when it has elements and each is a carried array or object. */
  lemma ArrayReadsBackExactly(n: Node, fmt: Format, d: uint32, rest: string)
    requires n.isArray && PrintableBlock(n) && !n.isNullNode && n.value == "" && !n.isNull
    ensures var l := LoadNode(BodyText(n, fmt, d) + rest, n.name);
            (l.Loaded? && Equal(l.node, n))
            <==> n.children != [] && forall i :: 0 <= i < |n.children| ==> CarriedElement(n.children[i])
  {
    BlockReadsBackExactly(n, fmt, d, rest);
    assert forall i :: 0 <= i < |n.children| ==> Printable(n.children[i], false);
  }

  // ---------- names ----------

  lemma {:induction false} LoadedName(s: string, name: string)
    ensures var l := LoadNode(s, name); l.Loaded? ==> l.node.name == name
    decreases |s|
  {
    if s != "" {
      if s[0] == '{' || s[0] == '[' {
        BlockLoadsGrown(s, name);
      } else if s[0] == ':' {
        LoadedName(SkipBlanks(s[1..]), name);
      }
    }
  }

  /** The first child that `Add` gives an empty node is called by the first segment of the key. */
  lemma FirstAdded(name: string, key: string, v: Node)
    requires IndexFree(key)
    ensures var r := InternalAdd(Named(name), key, v); r.children != [] && r.children[0].name <= key
  {
    if FindChar(key, '.').Some? {
      var at := FindChar(key, '.').value;
      InternalAddGrows(Named(key[..at]), key[at + 1..], v);
    }
  }

  lemma FirstKeyLost(ret: Node, name: string, body: string)
    requires name != "" && !RawText(name) && ret.children == []
    ensures var l := LoadMembers("\"" + name + "\": " + body, ret, true);
            l.Loaded? ==> l.node.children != [] && l.node.children[0].name != name
  {
    var s := "\"" + name + "\": " + body;
    NameSplit(name, body);
    NameReadsBackExactly(name, ": " + body);
    match LoadString(s[1..]) {
      case Overrun =>
      case Lexed(key, afterKey) =>
        if key != "" && afterKey != "" {
          KeyLost(s, ret, name, key, afterKey);
        }
    }
  }

  lemma KeyLost(s: string, ret: Node, name: string, key: string, afterKey: string)
    requires s != "" && s[0] == '"' && key != "" && afterKey != "" && LoadString(s[1..]) == Lexed(key, afterKey)
    requires ret.children == [] && !(name <= key)
    ensures var l := LoadMembers(s, ret, true); l.Loaded? ==> l.node.children != [] && l.node.children[0].name != name
  {
    LoadedName(SkipBlanks(afterKey), key);
    match LoadNode(SkipBlanks(afterKey), key) {
      case Loaded(v, left) =>
        if IndexFree(key) {
          var more := InternalAdd(ret, key, v);
          MemberUnfolds(s, ret, key, afterKey, v, left);
          FirstAddedTo(ret, key, v);
          GrowsFrom(more);
          MembersGrowOn(afterKey, more, more, left);
        }
      case _ => MemberFails(s, ret, key, afterKey);
    }
  }

  lemma FirstAddedTo(ret: Node, key: string, v: Node)
    requires IndexFree(key) && ret.children == []
    ensures var r := InternalAdd(ret, key, v); r.children != [] && r.children[0].name <= key
  {
    FirstAdded(ret.name, key, v);
    assert InternalAdd(ret, key, v).children == InternalAdd(Named(ret.name), key, v).children;
  }

  /** An object whose first member's name is not carried raw is lost, whatever else is in it or behind it. */
  lemma FirstNameLost(n: Node, fmt: Format, d: uint32, rest: string)
    requires IsBlock(n) && !n.isArray && !n.isNullNode && !n.children[0].isNullNode
    requires n.children[0].name != "" && !RawText(n.children[0].name)
    ensures var l := LoadNode(BodyText(n, fmt, d) + rest, n.name); l.Loaded? ==> !Equal(l.node, n)
  {
    ObjectText(n, fmt, d, rest);
    FirstMemberLost(n.children, Named(n.name), fmt, Deeper(d), TailOf(n, fmt, d, rest));
    NamedOtherwise(LoadNode(BodyText(n, fmt, d) + rest, n.name), n);
  }

  lemma FirstMemberLost(cs: seq<Node>, ret: Node, fmt: Format, d: uint32, tail: string)
    requires cs != [] && cs[0].name != "" && !RawText(cs[0].name) && ret.children == []
    ensures var l := MembersLoad(cs, ret, fmt, d, tail);
            l.Loaded? ==> l.node.children != [] && l.node.children[0].name != cs[0].name
  {
    MemberInFront(cs, fmt, d, tail);
    FirstKeyLost(ret, cs[0].name, BodyText(cs[0], fmt, d) + Following(cs, true, fmt, d, tail));
  }

  lemma NamedOtherwise(l: Loaded, n: Node)
    requires n.children != [] && !n.isNullNode && !n.children[0].isNullNode
    requires l.Loaded? ==> l.node.children != [] && l.node.children[0].name != n.children[0].name
    ensures l.Loaded? ==> !Equal(l.node, n)
  {
    if l.Loaded? {
      assert !Equal(l.node.children[0], n.children[0]);
    }
  }

  // ---------- the whole file ----------

  lemma LoadedRootIsUnnamed(content: string)
    ensures var l := LoadFromContent(content); l.Loaded? ==> l.node.name == ""
  {
    if content != "" && Current(SkipBlanks(content)) == '{' {
      BlockLoadsGrown(SkipBlanks(content), "");
    }
  }

  lemma RootLoads(n: Node, fmt: Format)
    requires n.name == "" && !n.isNullNode && IsBlock(n) && !n.isArray
    ensures LoadFromContent(Str(n, fmt)) == LoadNode(BodyText(n, fmt, fmt.startDepth) + "", "")
  {
    var body := BodyText(n, fmt, fmt.startDepth);
    RootText(n, fmt);
    SkipSpaces(fmt.startDepth * fmt.indentation, body);
    BlockOpens(n, fmt, fmt.startDepth, "");
    assert body + "" == body;
  }

  /** A named root printed below depth 0 starts with its name, and is not loaded at all. */
  lemma NamedRootRefused(n: Node, fmt: Format)
    requires n.name != "" && !n.isNullNode && fmt.startDepth > 0
    ensures !LoadFromContent(Str(n, fmt)).Loaded?
  {
    var body := BodyText(n, fmt, fmt.startDepth);
    NamedText(IndentText(fmt, fmt.startDepth), NameText(n, true), body);
    NameSplit(n.name, body);
    SkipSpaces(fmt.startDepth * fmt.indentation, NameText(n, true) + body);
  }

  lemma NamedText(indent: string, name: string, body: string)
    ensures indent + name + body == indent + (name + body)
  {
  }

  /** Another unnamed root does not start with a brace. */
  lemma OtherRootRefused(n: Node, fmt: Format)
    requires Printable(n, false) && (n.isArray || !IsBlock(n))
    ensures !LoadFromContent(Str(n, fmt)).Loaded?
  {
    var body := BodyText(n, fmt, fmt.startDepth);
    RootText(n, fmt);
    SkipSpaces(fmt.startDepth * fmt.indentation, body);
    assert body + "" == body;
    if IsBlock(n) {
      BlockOpens(n, fmt, fmt.startDepth, "");
    } else {
      ValueStarts(n, "");
    }
  }

  /**
   Of the trees with carried names, whatever their texts and elements, exactly those come
   back that are an unnamed object of carried parts.
   */
  lemma SurvivesExactly(n: Node, named: bool, fmt: Format)
    requires Printable(n, named)
    ensures Survives(n, fmt) <==> CarriedRoot(n)
  {
    if named {
      LoadedRootIsUnnamed(Str(n, fmt));
    } else if n.isArray || !IsBlock(n) {
      OtherRootRefused(n, fmt);
    } else {
      RootLoads(n, fmt);
      BlockReadsBackExactly(n, fmt, fmt.startDepth, "");
    }
  }
}
