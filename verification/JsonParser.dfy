/**
 The JSON reader: a cursor `pos` over the text, advanced by loaders that call
 each other. The specification works on what is left of the text, `content[pos..]`.

 `content[content.length()]` is NUL, so a cursor may stand at the end; moving past
 it is undefined in the source and is the outcome `PastEnd` here. `ret.Add(value)`
 with a name that carries an index is the outcome `Indexed`, which is not modelled further.
 */
module JsonParser {
  import opened Common
  import opened DpNode
  import opened Numerals
  import opened JsonPrinter

  datatype Loaded =
    | Loaded(node: Node, rest: string)
    | Rejected
    | PastEnd
    | Indexed

  /** `content[pos]`. */
  function Current(s: string): char {
    if s == "" then '\0' else s[0]
  }

  predicate IsWhitespace(c: char) {
    c == ' ' || c == '\t' || c == '\n'
  }

  /** `ByPassTrailing`. */
  function SkipBlanks(s: string): (r: string)
    ensures |r| <= |s|
    ensures !IsWhitespace(Current(r))
  {
    if s != "" && IsWhitespace(s[0]) then SkipBlanks(s[1..]) else s
  }

  // ---------- strings ----------

  datatype Lexed = Lexed(text: string, rest: string) | Overrun

  function Unescaped(c: char): string {
    match c
    case 'a' => ['\U{07}']
    case 'b' => ['\U{08}']
    case 'f' => ['\U{0C}']
    case 'n' => ['\n']
    case 'r' => ['\r']
    case 't' => ['\t']
    case 'v' => ['\U{0B}']
    case '"' => ['"']
    case _ => ['\\', c]
  }

  /** `LoadString`, the cursor behind the opening quote. At the end of the text it answers the empty string. */
  function LoadString(s: string): (r: Lexed)
    ensures r.Lexed? ==> |r.rest| < |s|
  {
    if s == "" then Overrun
    else if s[0] == '"' then Lexed("", s[1..])
    else if s[0] == '\\' then LoadChars(s[1..], true, "")
    else LoadChars(s[1..], false, [s[0]])
  }

  function LoadChars(s: string, escaping: bool, value: string): (r: Lexed)
    ensures r.Lexed? && |r.rest| <= |s|
  {
    if s == "" then Lexed("", "")
    else if escaping then LoadChars(s[1..], false, value + Unescaped(s[0]))
    else if s[0] == '"' then Lexed(value, s[1..])
    else if s[0] == '\\' then LoadChars(s[1..], true, value)
    else LoadChars(s[1..], false, value + [s[0]])
  }

  // ---------- values ----------

  predicate EndsBare(c: char) {
    IsWhitespace(c) || c == ',' || c == ']' || c == '}'
  }

  /** The length of an unquoted value. */
  function BareEnd(s: string): (k: nat)
    ensures k <= |s|
    ensures forall i :: 0 <= i < k ==> !EndsBare(s[i])
    ensures k < |s| ==> EndsBare(s[k])
  {
    if s == "" || EndsBare(s[0]) then 0 else 1 + BareEnd(s[1..])
  }

  function LoadValue(s: string, name: string): (r: Loaded)
    ensures r.Loaded? ==> |r.rest| < |s|
  {
    if Current(s) == '"' then
      match LoadString(s[1..])
      case Overrun => PastEnd
      case Lexed(text, rest) =>
        if rest == "" then Rejected else Loaded(Named(name).(value := text, isString := true), rest)
    else if Current(s) == 'n' then
      if |s| > 3 && s[1] == 'u' && s[2] == 'l' && s[3] == 'l' then Loaded(Named(name).(isNull := true), s[4..])
      else Rejected
    else
      var k := BareEnd(s);
      if k == |s| || k == 0 then Rejected
      else if !IsNumerical(s[..k]) && !IsBoolean(s[..k]) then Rejected
      else Loaded(Named(name).(value := s[..k], isNotAString := true), s[k..])
  }

  // ---------- arrays, objects, nodes ----------

  function LoadArray(s: string, name: string): (r: Loaded)
    ensures r.Loaded? ==> |r.rest| < |s|
    decreases |s|, 2
  {
    LoadElements(s, Named(name), true)
  }

  function LoadElements(s: string, ret: Node, needMore: bool): (r: Loaded)
    ensures r.Loaded? ==> |r.rest| < |s|
    decreases |s|, 1
  {
    if s == "" then Rejected
    else if s[0] == ']' then
      if needMore then Rejected else Loaded(ret, SkipBlanks(s[1..]))
    else if !needMore then Rejected
    else match LoadNode(s, "")
      case Loaded(value, rest) =>
        if Current(rest) == ',' then LoadElements(SkipBlanks(rest[1..]), ret.Emplace(value), true)
        else LoadElements(SkipBlanks(rest), ret.Emplace(value), false)
      case failure => failure
  }

  function LoadObject(s: string, name: string): (r: Loaded)
    ensures r.Loaded? ==> |r.rest| < |s|
    decreases |s|, 2
  {
    if Current(s) == '}' then Loaded(Named(name), s[1..])
    else if Current(s) == '"' then LoadMembers(s, Named(name), true)
    else Rejected
  }

  function LoadMembers(s: string, ret: Node, needMore: bool): (r: Loaded)
    ensures r.Loaded? ==> |r.rest| < |s|
    decreases |s|, 1
  {
    if s == "" then Rejected
    else if s[0] == '}' then
      if needMore then Rejected else Loaded(ret, SkipBlanks(s[1..]))
    else if !needMore || s[0] != '"' then Rejected
    else match LoadString(s[1..])
      case Overrun => PastEnd
      case Lexed(key, afterKey) =>
        if afterKey == "" || key == "" then Rejected
        else match LoadNode(SkipBlanks(afterKey), key)
          case Loaded(value, rest) =>
            if !IndexFree(value.name) then Indexed
            else
              var ret' := InternalAdd(ret, value.name, value);
              if Current(rest) == ',' then LoadMembers(SkipBlanks(rest[1..]), ret', true)
              else LoadMembers(SkipBlanks(rest), ret', false)
          case failure => failure
  }

  function LoadNode(s: string, name: string): (r: Loaded)
    ensures r.Loaded? ==> |r.rest| < |s|
    decreases |s|, 0
  {
    if s == "" then PastEnd
    else
      var next := SkipBlanks(s[1..]);
      if s[0] == ':' then
        if Current(next) == '{' || Current(next) == '[' then LoadNode(next, name)
        else if name != "" then LoadValue(next, name)
        else Rejected
      else if s[0] == '{' then LoadObject(next, name)
      else if s[0] == '[' then LoadArray(next, name)
      else if name == "" then LoadValue(next, name)
      else Rejected
  }

  /** `Json::LoadFromContent`: the node, or why there is none. */
  function LoadFromContent(content: string): Loaded {
    if content == "" then Rejected
    else if Current(SkipBlanks(content)) != '{' then Rejected
    else LoadNode(SkipBlanks(content), "")
  }

  // ---------- the cursor ----------

  datatype Status = Good | NullNode | Beyond | WithIndex

  /** What a loader run at a cursor reports, against its specification on the rest of the text. */
  ghost predicate Reports(content: string, spec: Loaded, status: Status, node: Node, pos: nat) {
    match spec
    case Loaded(n, rest) => status == Good && node == n && pos <= |content| && content[pos..] == rest
    case Rejected => status == NullNode
    case PastEnd => status == Beyond
    case Indexed => status == WithIndex
  }

  function CharAt(content: string, pos: nat): char
    requires pos <= |content|
  {
    if pos < |content| then content[pos] else '\0'
  }

  method ByPassTrailing(content: string, start: nat) returns (pos: nat)
    requires start <= |content|
    ensures start <= pos <= |content|
    ensures content[pos..] == SkipBlanks(content[start..])
  {
    pos := start;
    var current := CharAt(content, pos);
    while IsWhitespace(current)
      invariant start <= pos <= |content| && current == CharAt(content, pos)
      invariant SkipBlanks(content[pos..]) == SkipBlanks(content[start..])
      decreases |content| - pos
    {
      assert content[pos..][1..] == content[pos + 1..];
      pos := pos + 1;
      current := CharAt(content, pos);
    }
  }

  /** The outcome of `LoadString`; `ok` is false when the cursor would leave the text. */
  method LoadStringAt(content: string, start: nat) returns (value: string, pos: nat, ok: bool)
    requires start <= |content|
    ensures match LoadString(content[start..])
            case Overrun => !ok
            case Lexed(text, rest) => ok && value == text && start < pos <= |content| && content[pos..] == rest
  {
    pos := start;
    value := "";
    var current := CharAt(content, pos);
    if current == '"' {
      assert content[start..][1..] == content[start + 1..];
      return "", pos + 1, true;
    }
    var escaping := false;
    if current == '\\' {
      escaping := true;
    } else {
      value := [current];
    }
    pos := pos + 1;
    if pos > |content| {
      return "", pos, false;
    }
    assert content[start..][1..] == content[pos..];
    current := CharAt(content, pos);
    while (current != '"' || escaping) && pos != |content|
      invariant start < pos <= |content| && current == CharAt(content, pos)
      invariant LoadChars(content[pos..], escaping, value) == LoadString(content[start..])
      decreases |content| - pos
    {
      assert content[pos..][1..] == content[pos + 1..];
      if escaping {
        match current {
          case 'a' => value := value + ['\U{07}'];
          case 'b' => value := value + ['\U{08}'];
          case 'f' => value := value + ['\U{0C}'];
          case 'n' => value := value + ['\n'];
          case 'r' => value := value + ['\r'];
          case 't' => value := value + ['\t'];
          case 'v' => value := value + ['\U{0B}'];
          case '"' => value := value + ['"'];
          case _ => value := value + ['\\', current];
        }
        escaping := false;
      } else if current == '\\' {
        escaping := true;
      } else {
        value := value + [current];
      }
      pos := pos + 1;
      current := CharAt(content, pos);
    }
    if pos == |content| {
      return "", pos, true;
    }
    assert content[pos..][1..] == content[pos + 1..];
    pos := pos + 1;
    ok := true;
  }

  method LoadValueAt(content: string, start: nat, name: string) returns (node: Node, pos: nat, status: Status)
    requires start <= |content|
    ensures Reports(content, LoadValue(content[start..], name), status, node, pos)
  {
    node := Named(name);
    pos := start;
    var current := CharAt(content, pos);
    if current == '"' {
      pos := pos + 1;
      assert content[start..][1..] == content[pos..];
      var value, pos', ok := LoadStringAt(content, pos);
      pos := pos';
      if !ok {
        return NULL_NODE, pos, Beyond;
      }
      if pos == |content| {
        return NULL_NODE, pos, NullNode;
      }
      return node.(value := value, isString := true), pos, Good;
    } else if current == 'n' {
      if pos + 3 < |content| && content[pos + 1] == 'u' && content[pos + 2] == 'l' && content[pos + 3] == 'l' {
        assert content[start..][4..] == content[start + 4..];
        return node.(isNull := true), pos + 4, Good;
      }
      return NULL_NODE, pos, NullNode;
    } else {
      node, pos, status := LoadBareAt(content, start, name);
    }
  }

  /** The unquoted branch of `LoadValue`. */
  method LoadBareAt(content: string, start: nat, name: string) returns (node: Node, pos: nat, status: Status)
    requires start <= |content| && CharAt(content, start) != '"' && CharAt(content, start) != 'n'
    ensures Reports(content, LoadValue(content[start..], name), status, node, pos)
  {
    node := Named(name);
    pos := start;
    var current := CharAt(content, pos);
    var haveChar := false;
    var value := "";
    while !IsWhitespace(current) && current != ',' && current != ']' && current != '}' && pos != |content|
      invariant start <= pos <= |content| && current == CharAt(content, pos)
      invariant value == content[start..pos] && haveChar == (pos > start)
      invariant forall i :: start <= i < pos ==> !EndsBare(content[i])
      decreases |content| - pos
    {
      value := value + [current];
      pos := pos + 1;
      current := CharAt(content, pos);
      haveChar := true;
    }
    BareLoads(content, start, pos, name);
    if pos == |content| || !haveChar {
      return NULL_NODE, pos, NullNode;
    }
    node := node.(value := value);
    if !IsNumerical(node.value) && !IsBoolean(node.value) {
      return NULL_NODE, pos, NullNode;
    }
    node := node.(isNotAString := true);
    status := Good;
  }

  /** The unquoted value that ends at `pos`, and what `LoadValue` makes of it. */
  lemma BareLoads(content: string, start: nat, pos: nat, name: string)
    requires start <= pos <= |content| && CharAt(content, start) != '"' && CharAt(content, start) != 'n'
    requires forall i :: start <= i < pos ==> !EndsBare(content[i])
    requires pos < |content| ==> EndsBare(content[pos])
    ensures var value := content[start..pos];
            LoadValue(content[start..], name)
            == if pos == |content| || pos == start || (!IsNumerical(value) && !IsBoolean(value)) then Rejected
               else Loaded(Named(name).(value := value, isNotAString := true), content[pos..])
  {
    BareEndIs(content[start..], pos - start);
    assert content[start..][..pos - start] == content[start..pos] && content[start..][pos - start..] == content[pos..];
  }

  lemma {:induction false} BareEndIs(s: string, k: nat)
    requires k <= |s| && (forall i :: 0 <= i < k ==> !EndsBare(s[i])) && (k < |s| ==> EndsBare(s[k]))
    ensures BareEnd(s) == k
  {
    var j := BareEnd(s);
    assert j < |s| ==> EndsBare(s[j]);
  }

  method LoadArrayAt(content: string, start: nat, name: string) returns (node: Node, pos: nat, status: Status)
    requires start <= |content|
    ensures Reports(content, LoadArray(content[start..], name), status, node, pos)
    decreases |content| - start, 2
  {
    node := Named(name);
    pos := start;
    var needMore := true;
    var current := CharAt(content, pos);
    while current != ']' && pos != |content|
      invariant start <= pos <= |content| && current == CharAt(content, pos)
      invariant LoadElements(content[pos..], node, needMore) == LoadArray(content[start..], name)
      decreases |content| - pos
    {
      if !needMore {
        ElementRefused(content[pos..], node);
        return NULL_NODE, pos, NullNode;
      }
      var ret, next, more, outcome := LoadElementAt(content, pos, node);
      if outcome != Good {
        return ret, next, outcome;
      }
      node, pos, needMore := ret, next, more;
      current := CharAt(content, pos);
    }
    ElementsEnd(content, pos, node, needMore);
    if pos == |content| || needMore {
      return NULL_NODE, pos, NullNode;
    }
    pos := ByPassTrailing(content, pos + 1);
    status := Good;
  }

  /** One round of the loop of `LoadArray`: an element, and the comma behind it if there is one. */
  method LoadElementAt(content: string, start: nat, ret: Node)
      returns (node: Node, pos: nat, needMore: bool, status: Status)
    requires start < |content| && content[start] != ']'
    ensures status != Good ==> Reports(content, LoadElements(content[start..], ret, true), status, node, pos)
    ensures status == Good ==>
              && start < pos <= |content|
              && LoadElements(content[start..], ret, true) == LoadElements(content[pos..], node, needMore)
    decreases |content| - start, 1
  {
    needMore := false;
    node, pos, status := LoadNodeAt(content, start, "");
    ElementStep(content, start, ret, status, node, pos);
    if status != Good {
      return;
    }
    node := ret.Emplace(node);
    if CharAt(content, pos) == ',' {
      needMore := true;
      pos := pos + 1;
    }
    pos := ByPassTrailing(content, pos);
  }

  lemma ElementRefused(s: string, ret: Node)
    requires s != "" && s[0] != ']'
    ensures LoadElements(s, ret, false) == Rejected
  {
  }

  lemma MemberRefused(s: string, ret: Node, needMore: bool)
    requires s != "" && s[0] != '}' && (!needMore || s[0] != '"')
    ensures LoadMembers(s, ret, needMore) == Rejected
  {
  }

  lemma ElementsEnd(content: string, pos: nat, ret: Node, needMore: bool)
    requires pos <= |content| && (pos == |content| || content[pos] == ']')
    ensures LoadElements(content[pos..], ret, needMore)
            == if pos == |content| || needMore then Rejected else Loaded(ret, SkipBlanks(content[pos + 1..]))
  {
    if pos < |content| {
      assert content[pos..][1..] == content[pos + 1..];
    }
  }

  lemma MembersEnd(content: string, pos: nat, ret: Node, needMore: bool)
    requires pos <= |content| && (pos == |content| || content[pos] == '}')
    ensures LoadMembers(content[pos..], ret, needMore)
            == if pos == |content| || needMore then Rejected else Loaded(ret, SkipBlanks(content[pos + 1..]))
  {
    if pos < |content| {
      assert content[pos..][1..] == content[pos + 1..];
    }
  }

  /** One round of the loop of `LoadArray`. */
  lemma ElementStep(content: string, pos: nat, ret: Node, outcome: Status, value: Node, next: nat)
    requires pos < |content| && content[pos] != ']'
    requires Reports(content, LoadNode(content[pos..], ""), outcome, value, next)
    ensures outcome != Good ==> Reports(content, LoadElements(content[pos..], ret, true), outcome, value, next)
    ensures outcome == Good ==>
              && pos < next <= |content|
              && var comma := CharAt(content, next) == ',';
                 LoadElements(content[pos..], ret, true)
                 == LoadElements(SkipBlanks(content[if comma then next + 1 else next..]), ret.Emplace(value), comma)
  {
    if outcome == Good && next < |content| {
      assert content[next..][1..] == content[next + 1..];
    }
  }

  method LoadObjectAt(content: string, start: nat, name: string) returns (node: Node, pos: nat, status: Status)
    requires start <= |content|
    ensures Reports(content, LoadObject(content[start..], name), status, node, pos)
    decreases |content| - start, 2
  {
    node := Named(name);
    pos := start;
    var needMore := true;
    var current := CharAt(content, pos);
    if current == '}' {
      assert content[start..][1..] == content[start + 1..];
      return node, pos + 1, Good;
    } else if current != '"' {
      return NULL_NODE, pos, NullNode;
    }
    while current != '}' && pos != |content|
      invariant start <= pos <= |content| && current == CharAt(content, pos)
      invariant LoadMembers(content[pos..], node, needMore) == LoadObject(content[start..], name)
      decreases |content| - pos
    {
      if !needMore || current != '"' {
        MemberRefused(content[pos..], node, needMore);
        return NULL_NODE, pos, NullNode;
      }
      var ret, next, more, outcome := LoadMemberAt(content, pos, node);
      if outcome != Good {
        return ret, next, outcome;
      }
      node, pos, needMore := ret, next, more;
      current := CharAt(content, pos);
    }
    MembersEnd(content, pos, node, needMore);
    if pos == |content| || needMore {
      return NULL_NODE, pos, NullNode;
    }
    pos := ByPassTrailing(content, pos + 1);
    status := Good;
  }

  /** One round of the loop of `LoadObject`: a key, its value, and the comma behind it if there is one. */
  method LoadMemberAt(content: string, start: nat, ret: Node)
      returns (node: Node, pos: nat, needMore: bool, status: Status)
    requires start < |content| && content[start] == '"'
    ensures status != Good ==> Reports(content, LoadMembers(content[start..], ret, true), status, node, pos)
    ensures status == Good ==>
              && start < pos <= |content|
              && LoadMembers(content[start..], ret, true) == LoadMembers(content[pos..], node, needMore)
    decreases |content| - start, 1
  {
    needMore := false;
    var key, afterKey, ok := LoadStringAt(content, start + 1);
    KeyStep(content, start, ret, key, afterKey, ok);
    if !ok {
      return NULL_NODE, start, needMore, Beyond;
    }
    if afterKey == |content| || key == "" {
      return NULL_NODE, start, needMore, NullNode;
    }
    var at := ByPassTrailing(content, afterKey);
    node, pos, needMore, status := LoadKeyedAt(content, start, ret, key, at);
  }

  /** The round once its key is read. */
  method LoadKeyedAt(content: string, ghost start: nat, ret: Node, key: string, at: nat)
    returns (node: Node, pos: nat, needMore: bool, status: Status)
    requires start < |content| && content[start] == '"' && start < at <= |content| && key != ""
    requires var lexed := LoadString(content[start + 1..]);
             lexed.Lexed? && lexed.text == key && lexed.rest != "" && content[at..] == SkipBlanks(lexed.rest)
    ensures status != Good ==> Reports(content, LoadMembers(content[start..], ret, true), status, node, pos)
    ensures status == Good ==>
              && start < pos <= |content|
              && LoadMembers(content[start..], ret, true) == LoadMembers(content[pos..], node, needMore)
    decreases |content| - at, 1
  {
    needMore := false;
    node, pos, status := LoadNodeAt(content, at, key);
    MemberStep(content, start, ret, key, at, status, node, pos);
    if status != Good {
      return NULL_NODE, pos, needMore, status;
    }
    if !IndexFree(node.name) {
      return NULL_NODE, pos, needMore, WithIndex;
    }
    node := InternalAddAt(ret, node.name, node);
    if CharAt(content, pos) == ',' {
      needMore := true;
      pos := pos + 1;
    }
    pos := ByPassTrailing(content, pos);
  }

  /** The member's key: refused keys end the loop of `LoadObject`. */
  lemma KeyStep(content: string, pos: nat, ret: Node, key: string, afterKey: nat, ok: bool)
    requires pos < |content| && content[pos] == '"'
    requires match LoadString(content[pos + 1..])
             case Overrun => !ok
             case Lexed(text, rest) =>
               ok && key == text && pos + 1 < afterKey <= |content| && content[afterKey..] == rest
    ensures !ok ==> LoadMembers(content[pos..], ret, true) == PastEnd
    ensures ok && (afterKey == |content| || key == "") ==> LoadMembers(content[pos..], ret, true) == Rejected
  {
    assert content[pos..][1..] == content[pos + 1..];
  }

  /** The member's value, once its key is read: one round of the loop of `LoadObject`. */
  lemma MemberStep(content: string, pos: nat, ret: Node, key: string, at: nat, outcome: Status, value: Node, next: nat)
    requires pos < |content| && content[pos] == '"' && pos < at <= |content| && key != ""
    requires var lexed := LoadString(content[pos + 1..]);
             lexed.Lexed? && lexed.text == key && lexed.rest != "" && content[at..] == SkipBlanks(lexed.rest)
    requires Reports(content, LoadNode(content[at..], key), outcome, value, next)
    ensures outcome != Good ==> Reports(content, LoadMembers(content[pos..], ret, true), outcome, value, next)
    ensures outcome == Good ==> pos < next <= |content|
    ensures outcome == Good && !IndexFree(value.name) ==> LoadMembers(content[pos..], ret, true) == Indexed
    ensures outcome == Good && IndexFree(value.name) ==>
              var comma := CharAt(content, next) == ',';
              LoadMembers(content[pos..], ret, true)
              == LoadMembers(SkipBlanks(content[if comma then next + 1 else next..]),
                 InternalAdd(ret, value.name, value), comma)
  {
    assert content[pos..][1..] == content[pos + 1..];
    if outcome == Good && next < |content| {
      assert content[next..][1..] == content[next + 1..];
    }
  }

  method LoadNodeAt(content: string, start: nat, name: string) returns (node: Node, pos: nat, status: Status)
    requires start <= |content|
    ensures Reports(content, LoadNode(content[start..], name), status, node, pos)
    decreases |content| - start, 0
  {
    var current := CharAt(content, start);
    if start == |content| {
      return NULL_NODE, start, Beyond;
    }
    assert content[start..][1..] == content[start + 1..];
    pos := ByPassTrailing(content, start + 1);
    match current {
      case ':' =>
        if CharAt(content, pos) == '{' || CharAt(content, pos) == '[' {
          node, pos, status := LoadNodeAt(content, pos, name);
        } else if name != "" {
          node, pos, status := LoadValueAt(content, pos, name);
        } else {
          node, status := NULL_NODE, NullNode;
        }
      case '{' =>
        node, pos, status := LoadObjectAt(content, pos, name);
      case '[' =>
        node, pos, status := LoadArrayAt(content, pos, name);
      case _ =>
        if name == "" {
          node, pos, status := LoadValueAt(content, pos, name);
        } else {
          node, status := NULL_NODE, NullNode;
        }
    }
  }

  method LoadFromContentAt(content: string) returns (node: Node, status: Status)
    ensures match LoadFromContent(content)
            case Loaded(n, _) => status == Good && node == n
            case Rejected => status == NullNode
            case PastEnd => status == Beyond
            case Indexed => status == WithIndex
  {
    if content == "" {
      return NULL_NODE, NullNode;
    }
    assert content[0..] == content;
    var pos := ByPassTrailing(content, 0);
    if CharAt(content, pos) != '{' {
      return NULL_NODE, NullNode;
    }
    node, pos, status := LoadNodeAt(content, pos, "");
  }
}
