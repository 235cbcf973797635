/**
 What `GetNode` finds, said of the tree alone: it tries the children with the right name
 in order at every segment but the last, so it finds the leftmost chain of children that
 leads all the way, and nothing only where there is no such chain.
 */
module NodeSearch {
  import opened Common
  import opened DpNode

  // ---------- keys ----------

  /** `StringUtils::Find` finds the first `c`, unless a NUL stands before it. */
  lemma {:induction false} FindCharIs(str: string, c: char)
    requires c != '\0'
    ensures match FindChar(str, c)
            case Some(p) => forall i :: 0 <= i < p ==> str[i] != c && str[i] != '\0'
            case None => forall i :: 0 <= i < |str| && str[i] == c ==> exists j :: 0 <= j < i && str[j] == '\0'
    decreases |str|
  {
    if str != "" && str[0] != '\0' && str[0] != c {
      FindCharIs(str[1..], c);
      match FindChar(str[1..], c) {
        case Some(p) =>
        case None =>
          forall i | 0 <= i < |str| && str[i] == c
            ensures exists j :: 0 <= j < i && str[j] == '\0'
          {
            assert str[1..][i - 1] == c;
            var j :| 0 <= j < i - 1 && str[1..][j] == '\0';
            assert str[j + 1] == '\0';
          }
      }
    }
  }

  /** A segment that can be written in a dotted key. */
  predicate IsSegment(name: string) {
    forall i :: 0 <= i < |name| ==> name[i] != '.' && name[i] != '\0'
  }

  function Dotted(path: seq<string>): string
    requires path != []
  {
    if |path| == 1 then path[0] else path[0] + ("." + Dotted(path[1..]))
  }

  lemma {:induction false} FirstDot(name: string, rest: string)
    requires IsSegment(name)
    ensures FindChar(name + ("." + rest), '.') == Some(|name|)
    ensures FindChar(name, '.') == None
    decreases |name|
  {
    var key := name + ("." + rest);
    if name == "" {
      assert key == "." + rest;
    } else {
      assert key[0] == name[0] && key[1..] == name[1..] + ("." + rest);
      FirstDot(name[1..], rest);
    }
  }

  /** The segments of a key are the names between its dots. */
  lemma {:induction false} SegmentsOfDotted(path: seq<string>)
    requires path != [] && forall i :: 0 <= i < |path| ==> IsSegment(path[i])
    ensures Segments(Dotted(path)) == path
    decreases |path|
  {
    if |path| == 1 {
      FirstDot(path[0], "");
      assert path == [path[0]];
    } else {
      var rest := Dotted(path[1..]);
      var key := path[0] + ("." + rest);
      FirstDot(path[0], rest);
      SegmentsOfDotted(path[1..]);
      assert key[..|path[0]|] == path[0] && key[|path[0]| + 1..] == rest;
      assert path == [path[0]] + path[1..];
    }
  }

  // ---------- chains ----------

  /** The positions lead from child to child along the names; the last is the first of its name, and a node. */
  predicate IsChain(n: Node, path: seq<string>, at: seq<nat>)
    decreases |path|
  {
    && path != [] && |at| == |path|
    && at[0] < |n.children| && n.children[at[0]].name == path[0]
    && if |path| == 1 then
         !n.children[at[0]].isNullNode && forall i :: 0 <= i < at[0] ==> n.children[i].name != path[0]
       else IsChain(n.children[at[0]], path[1..], at[1..])
  }

  ghost predicate HasChain(n: Node, path: seq<string>) {
    exists at: seq<nat> :: IsChain(n, path, at)
  }

  /** The node a chain leads to. */
  function NodeAt(n: Node, path: seq<string>, at: seq<nat>): Node
    requires IsChain(n, path, at)
    decreases |path|
  {
    if |path| == 1 then n.children[at[0]] else NodeAt(n.children[at[0]], path[1..], at[1..])
  }

  /** In the order of reading. */
  predicate NotLeftOf(at: seq<nat>, other: seq<nat>)
    requires |at| == |other|
    decreases |at|
  {
    at == [] || other[0] < at[0] || (other[0] == at[0] && NotLeftOf(at[1..], other[1..]))
  }

  /** The search finds this chain: it leads to the answer, and no chain is left of it. */
  ghost predicate IsFound(n: Node, path: seq<string>, at: seq<nat>, answer: Node) {
    && IsChain(n, path, at) && NodeAt(n, path, at) == answer
    && forall other: seq<nat> :: IsChain(n, path, other) ==> NotLeftOf(other, at)
  }

  lemma RestIsChain(n: Node, path: seq<string>, at: seq<nat>)
    requires IsChain(n, path, at) && |path| > 1
    ensures IsChain(n.children[at[0]], path[1..], at[1..])
  {
  }

  /** What the search among the children from `k` on answers, with the chains that go through these. */
  lemma {:induction false} AmongIsLeftmost(n: Node, key: string, k: nat) returns (at: seq<nat>)
    requires IndexFree(key) && FindChar(key, '.').Some? && k <= |n.children|
    ensures var p, path := FindChar(key, '.').value, Segments(key);
            var answer := GetAmong(n.children[k..], key[..p], key[p + 1..]);
            if answer.isNullNode then forall other: seq<nat> :: IsChain(n, path, other) ==> other[0] < k
            else
              && IsChain(n, path, at) && at[0] >= k && NodeAt(n, path, at) == answer
              && forall other: seq<nat> :: IsChain(n, path, other) && other[0] >= k ==> NotLeftOf(other, at)
    decreases |key|, 0, |n.children| - k
  {
    var p, path := FindChar(key, '.').value, Segments(key);
    var name, rest := key[..p], key[p + 1..];
    at := [];
    assert path[0] == name && path[1..] == Segments(rest);
    if k < |n.children| {
      var cs := n.children[k..];
      assert cs[0] == n.children[k] && cs[1..] == n.children[k + 1..];
      var below := ChildIsLeftmost(n.children[k], rest);
      if n.children[k].name == name && !GetNode(n.children[k], rest).isNullNode {
        at := [k] + below;
        assert at[1..] == below;
        forall other: seq<nat> | IsChain(n, path, other) && other[0] >= k
          ensures NotLeftOf(other, at)
        {
          RestIsChain(n, path, other);
        }
      } else {
        at := AmongIsLeftmost(n, key, k + 1);
        forall other: seq<nat> | IsChain(n, path, other)
          ensures other[0] != k
        {
          RestIsChain(n, path, other);
        }
      }
    }
  }

  lemma {:induction false} ChildIsLeftmost(n: Node, key: string) returns (at: seq<nat>)
    requires IndexFree(key)
    ensures if GetNode(n, key).isNullNode then forall other: seq<nat> :: !IsChain(n, Segments(key), other)
            else IsFound(n, Segments(key), at, GetNode(n, key))
    decreases |key|, 1
  {
    match FindChar(key, '.') {
      case Some(p) =>
        at := AmongIsLeftmost(n, key, 0);
        assert n.children[0..] == n.children;
      case None =>
        var i := FirstNamed(n.children, key);
        at := [i];
        forall other: seq<nat> | IsChain(n, Segments(key), other)
          ensures i < |n.children| && other == [i] && !n.children[i].isNullNode
        {
          assert other[0] == i;
        }
    }
  }

  /**
   `GetNode` finds something exactly when some chain of children leads along the key, and then
   the leftmost chain's node.
   */
  lemma GetNodeFindsTheLeftmost(n: Node, key: string)
    requires IndexFree(key)
    ensures !GetNode(n, key).isNullNode <==> HasChain(n, Segments(key))
    ensures !GetNode(n, key).isNullNode ==> exists at: seq<nat> :: IsFound(n, Segments(key), at, GetNode(n, key))
  {
    var at := ChildIsLeftmost(n, key);
    if !GetNode(n, key).isNullNode {
      assert IsFound(n, Segments(key), at, GetNode(n, key));
    }
  }
}
