/**
 The data tree `Dp::Node`. A C++ node owns its children by value and copying a
 node copies the tree under it, so the model is a value; the two member
 functions that write into the tree return the new tree.
 */
module DpNode {
  import opened Common

  datatype Node = Node(
    isNullNode: bool,
    isNull: bool,
    isString: bool,
    isNotAString: bool,
    isArray: bool,
    name: string,
    value: string,
    children: seq<Node>)
  {
    /** `Node::Emplace`: a copy of `child` becomes the last child, under its own name. */
    function Emplace(child: Node): Node {
      this.(children := children + [child])
    }
  }

  const NULL_NODE := Node(true, false, false, false, false, "", "", [])

  /** The constructor taking a name. */
  function Named(name: string): Node {
    Node(false, false, false, false, false, name, "", [])
  }

  /** `Node::operator==`: of the flags, only the two null marks take part. */
  predicate Equal(a: Node, b: Node)
    decreases a
  {
    (a.isNullNode && b.isNullNode) ||
    (&& a.name == b.name
     && a.isNull == b.isNull
     && a.value == b.value
     && |a.children| == |b.children|
     && forall i :: 0 <= i < |a.children| ==> Equal(a.children[i], b.children[i]))
  }

  // ---------- keys ----------

  /** `Dp::StringUtils::Find`: the first `c` before the end or the first NUL. */
  function FindChar(str: string, c: char): (r: Option<nat>)
    ensures r.Some? ==> r.value < |str| && str[r.value] == c
  {
    if str == "" || str[0] == '\0' then None
    else if str[0] == c then Some(0)
    else match FindChar(str[1..], c)
         case Some(p) => Some(p + 1)
         case None => None
  }

  /** A segment `ExtractPos` leaves alone, answering -1: it does not carry both brackets of an index. */
  predicate PlainSegment(name: string) {
    FindChar(name, '(').None? || FindChar(name, ')').None?
  }

  /** The names a dotted key walks through, outermost first. */
  function Segments(key: string): (r: seq<string>)
    ensures |r| > 0
    decreases |key|
  {
    match FindChar(key, '.')
    case Some(p) => [key[..p]] + Segments(key[p + 1..])
    case None => [key]
  }

  predicate IndexFree(key: string)
    decreases |key|
  {
    match FindChar(key, '.')
    case Some(p) => PlainSegment(key[..p]) && IndexFree(key[p + 1..])
    case None => PlainSegment(key)
  }

  /** The position of the first child called `name`, or the number of children. */
  function FirstNamed(cs: seq<Node>, name: string): (i: nat)
    ensures i <= |cs|
    ensures i < |cs| ==> cs[i].name == name
    ensures forall k :: 0 <= k < i ==> cs[k].name != name
  {
    if cs == [] || cs[0].name == name then 0 else 1 + FirstNamed(cs[1..], name)
  }

  // ---------- Node::InternalAdd, ADD and MERGE ----------

  /**
   `InternalAdd` for a key without indices. A dotted key descends into the first
   child with the right name, creating it when there is none; at the last segment
   an existing child only receives the children of `v`.
   */
  function InternalAdd(n: Node, key: string, v: Node): Node
    requires IndexFree(key)
    decreases |key|
  {
    match FindChar(key, '.')
    case Some(p) =>
      var i := FirstNamed(n.children, key[..p]);
      if i < |n.children| then
        n.(children := n.children[i := InternalAdd(n.children[i], key[p + 1..], v)])
      else
        n.Emplace(InternalAdd(Named(key[..p]), key[p + 1..], v))
    case None =>
      var i := FirstNamed(n.children, key);
      if i < |n.children| then
        n.(children := n.children[i := n.children[i].(children := n.children[i].children + v.children)])
      else
        n.Emplace(v.(name := key))
  }

  /** The loop that merges: copies of `cs` become the last children. */
  method EmplaceAll(n: Node, cs: seq<Node>) returns (r: Node)
    ensures r == n.(children := n.children + cs)
  {
    r := n;
    for j := 0 to |cs|
      invariant r == n.(children := n.children + cs[..j])
    {
      assert cs[..j + 1] == cs[..j] + [cs[j]];
      r := r.Emplace(cs[j]);
    }
    assert cs[..|cs|] == cs;
  }

  /** The loop over the children as the source runs it, with `nb` as `ExtractPos` returned it. */
  method InternalAddAt(n: Node, key: string, v: Node) returns (r: Node)
    requires IndexFree(key)
    ensures r == InternalAdd(n, key, v)
    decreases |key|
  {
    var nb := -1;
    var k := 0;
    match FindChar(key, '.') {
      case Some(p) =>
        var name, newKey := key[..p], key[p + 1..];
        while k < |n.children|
          invariant k <= |n.children| && nb == -1
          invariant forall j :: 0 <= j < k ==> n.children[j].name != name
        {
          if n.children[k].name == name {
            if nb >= -1 {
              nb := nb - 1;
            }
            if nb < 0 {
              var child := InternalAddAt(n.children[k], newKey, v);
              return n.(children := n.children[k := child]);
            }
          }
          k := k + 1;
        }
        if nb > 0 {
          return n;
        }
        var created := InternalAddAt(Named(name), newKey, v);
        r := n.Emplace(created);
      case None =>
        while k < |n.children|
          invariant k <= |n.children| && nb == -1
          invariant forall j :: 0 <= j < k ==> n.children[j].name != key
        {
          if n.children[k].name == key {
            if nb <= 0 {
              var child := EmplaceAll(n.children[k], v.children);
              return n.(children := n.children[k := child]);
            }
            nb := nb - 1;
          }
          k := k + 1;
        }
        r := n.Emplace(v.(name := key));
    }
  }

  // ---------- Node::GetNode ----------

  /**
   `GetNode` for a key without indices: a dotted key tries every child with the
   right name in order, and the first one that holds the rest of the key wins.
   */
  function GetNode(n: Node, key: string): Node
    requires IndexFree(key)
    decreases |key|, 1
  {
    match FindChar(key, '.')
    case Some(p) => GetAmong(n.children, key[..p], key[p + 1..])
    case None =>
      var i := FirstNamed(n.children, key);
      if i < |n.children| then n.children[i] else NULL_NODE
  }

  function GetAmong(cs: seq<Node>, name: string, rest: string): Node
    requires IndexFree(rest)
    decreases |rest|, 2, |cs|
  {
    if cs == [] then NULL_NODE
    else if cs[0].name == name && !GetNode(cs[0], rest).isNullNode then GetNode(cs[0], rest)
    else GetAmong(cs[1..], name, rest)
  }

  /** `Node::GetNode` with its counter. */
  method GetNodeAt(n: Node, key: string) returns (r: Node)
    requires IndexFree(key)
    ensures r == GetNode(n, key)
    decreases |key|
  {
    var nb := -1;
    var k := 0;
    match FindChar(key, '.') {
      case Some(p) =>
        var name, newKey := key[..p], key[p + 1..];
        while k < |n.children|
          invariant k <= |n.children| && nb <= -1
          invariant GetNode(n, key) == GetAmong(n.children[k..], name, newKey)
        {
          if n.children[k].name == name {
            if nb >= -2 {
              nb := nb - 1;
            }
            if nb < 0 {
              var ret := GetNodeAt(n.children[k], newKey);
              if !ret.isNullNode {
                return ret;
              } else if nb == -1 {
                return NULL_NODE;
              }
            }
          }
          k := k + 1;
        }
        r := NULL_NODE;
      case None =>
        while k < |n.children|
          invariant k <= |n.children| && nb == -1
          invariant forall j :: 0 <= j < k ==> n.children[j].name != key
        {
          if n.children[k].name == key {
            if nb >= -2 {
              nb := nb - 1;
            }
            if nb < 0 {
              return n.children[k];
            }
            if nb == -1 {
              return NULL_NODE;
            }
          }
          k := k + 1;
        }
        r := NULL_NODE;
    }
  }

  /** `Node::Find`. */
  predicate Find(n: Node, key: string)
    requires IndexFree(key)
  {
    !GetNode(n, key).isNullNode
  }
}
