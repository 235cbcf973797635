/**
 What `Add` and `GetNode` promise each other: a write is read back at its own
 key and is invisible at every key that neither contains it nor is contained in it.
 */
module NodePaths {
  import opened Common
  import opened DpNode

  /** No node below `n` is the null node, so a lookup that ends on a child has found something. */
  predicate NoNullBelow(n: Node)
    decreases n
  {
    forall i :: 0 <= i < |n.children| ==> !n.children[i].isNullNode && NoNullBelow(n.children[i])
  }

  /** The node reached by following, at each segment, the first child with that name. */
  function FirstMatch(n: Node, path: seq<string>): Option<Node>
    decreases |path|
  {
    if path == [] then Some(n)
    else
      var i := FirstNamed(n.children, path[0]);
      if i < |n.children| then FirstMatch(n.children[i], path[1..]) else None
  }

  /** Neither path leads through the node of the other. */
  predicate Unrelated(p: seq<string>, q: seq<string>) {
    !(p <= q) && !(q <= p)
  }

  // ---------- segments ----------

  lemma UnrelatedStep(p: seq<string>, q: seq<string>)
    requires |p| > 0 && |q| > 0 && Unrelated(p, q) && p[0] == q[0]
    ensures |p| > 1 && |q| > 1 && Unrelated(p[1..], q[1..])
  {
    assert p == [p[0]] + p[1..] && q == [q[0]] + q[1..];
    assert p[1..] <= q[1..] ==> p <= q;
    assert q[1..] <= p[1..] ==> q <= p;
  }

  // ---------- one level ----------

  lemma InternalAddKeepsIdentity(n: Node, key: string, v: Node)
    requires IndexFree(key)
    ensures InternalAdd(n, key, v).name == n.name
    ensures InternalAdd(n, key, v).isNullNode == n.isNullNode
  {
  }

  lemma {:induction false} FirstNamedIs(cs: seq<Node>, name: string, i: nat)
    requires i < |cs| && cs[i].name == name
    requires forall k :: 0 <= k < i ==> cs[k].name != name
    ensures FirstNamed(cs, name) == i
  {
    var j := FirstNamed(cs, name);
    assert j < |cs| ==> cs[j].name == name;
  }

  /** `Add` at the last segment of a key touches one child, the first of that name. */
  lemma {:induction false} AddedLastSegment(n: Node, p: string, v: Node)
    requires IndexFree(p) && FindChar(p, '.').None?
    ensures var i := FirstNamed(n.children, p);
            InternalAdd(n, p, v).children ==
            if i < |n.children| then n.children[i := n.children[i].(children := n.children[i].children + v.children)]
            else n.children + [v.(name := p)]
  {
  }

  /** `Add` under a longer key touches one child, the first of the head's name. */
  lemma {:induction false} AddedBelow(n: Node, p: string, v: Node)
    requires IndexFree(p) && FindChar(p, '.').Some?
    ensures var at := FindChar(p, '.').value;
            var i := FirstNamed(n.children, p[..at]);
            var c := if i < |n.children| then n.children[i] else Named(p[..at]);
            InternalAdd(n, p, v).children ==
            if i < |n.children| then n.children[i := InternalAdd(c, p[at + 1..], v)]
            else n.children + [InternalAdd(c, p[at + 1..], v)]
  {
  }

  /** The search among same-named siblings stops at the first when that one holds the rest of the key. */
  lemma {:induction false} GetAmongFirst(cs: seq<Node>, name: string, rest: string)
    requires IndexFree(rest)
    requires var i := FirstNamed(cs, name); i < |cs| && !GetNode(cs[i], rest).isNullNode
    ensures GetAmong(cs, name, rest) == GetNode(cs[FirstNamed(cs, name)], rest)
    decreases |cs|
  {
    if cs[0].name != name {
      GetAmongFirst(cs[1..], name, rest);
    }
  }

  /** Two siblings that answer alike: with the same node, or both with none. */
  predicate AnswersAlike(a: Node, b: Node, key: string)
    requires IndexFree(key)
  {
    GetNode(a, key) == GetNode(b, key) || (GetNode(a, key).isNullNode && GetNode(b, key).isNullNode)
  }

  /** Siblings that answer alike, name by name, are searched with the same result. */
  lemma {:induction false} GetAmongCongruent(cs: seq<Node>, ds: seq<Node>, name: string, rest: string)
    requires IndexFree(rest) && |cs| == |ds|
    requires forall i :: 0 <= i < |cs| ==> (cs[i].name == name <==> ds[i].name == name)
    requires forall i :: 0 <= i < |cs| && cs[i].name == name ==> AnswersAlike(cs[i], ds[i], rest)
    ensures GetAmong(cs, name, rest) == GetAmong(ds, name, rest)
    decreases |cs|
  {
    if cs != [] {
      assert AnswersAlike(cs[0], ds[0], rest) || cs[0].name != name;
      GetAmongCongruent(cs[1..], ds[1..], name, rest);
    }
  }

  lemma {:induction false} GetAmongAppendSilent(cs: seq<Node>, c: Node, name: string, rest: string)
    requires IndexFree(rest)
    requires c.name != name || GetNode(c, rest).isNullNode
    ensures GetAmong(cs + [c], name, rest) == GetAmong(cs, name, rest)
    decreases |cs|
  {
    if cs == [] {
      assert [] + [c] == [c] && [c][1..] == [];
    } else {
      assert (cs + [c])[1..] == cs[1..] + [c];
      GetAmongAppendSilent(cs[1..], c, name, rest);
    }
  }

  lemma {:induction false} GetFromFreshNode(name: string, key: string)
    requires IndexFree(key)
    ensures GetNode(Named(name), key) == NULL_NODE
  {
  }

  // ---------- the walk of a write ----------

  /** What `Add(p, v)` leaves at the end of the first-match walk along `path`. */
  function Landed(n: Node, path: seq<string>, v: Node): Node
    requires |path| > 0
  {
    match FirstMatch(n, path)
    case Some(found) => found.(children := found.children + v.children)
    case None => v.(name := path[|path| - 1])
  }

  /** The node the first-match walk ends at, or the one `Add` creates there. */
  function Reached(n: Node, path: seq<string>): Node
    requires path != []
  {
    match FirstMatch(n, path)
    case Some(found) => found
    case None => Named(path[|path| - 1])
  }

  /** The key `p` without its first `k` segments. */
  function Without(p: string, k: nat): (r: string)
    requires k < |Segments(p)|
    ensures IndexFree(p) ==> IndexFree(r)
    ensures Segments(r) == Segments(p)[k..]
    decreases k
  {
    if k == 0 then p
    else
      var rest := p[FindChar(p, '.').value + 1..];
      assert Segments(p)[1..] == Segments(rest);
      Without(rest, k - 1)
  }

  function Head(p: string): string {
    match FindChar(p, '.')
    case Some(at) => p[..at]
    case None => p
  }

  function Tail(p: string): (r: string)
    requires FindChar(p, '.').Some?
    ensures |r| < |p|
    ensures IndexFree(p) ==> IndexFree(r)
    ensures Segments(p) == [Head(p)] + Segments(r)
  {
    p[FindChar(p, '.').value + 1..]
  }

  lemma {:induction false} ReachedStep(n: Node, name: string, path: seq<string>)
    requires path != []
    ensures var i := FirstNamed(n.children, name);
            Reached(n, [name] + path) == Reached(if i < |n.children| then n.children[i] else Named(name), path)
  {
    var whole := [name] + path;
    assert whole[0] == name && whole[1..] == path;
    assert FirstMatch(Named(name), path).None?;
  }

  lemma {:induction false} ReachedLast(n: Node, name: string)
    ensures var i := FirstNamed(n.children, name);
            Reached(n, [name]) == if i < |n.children| then n.children[i] else Named(name)
  {
    var i := FirstNamed(n.children, name);
    assert [name][0] == name && [name][1..] == [];
    if i < |n.children| {
      assert FirstMatch(n, [name]) == FirstMatch(n.children[i], []) == Some(n.children[i]);
    } else {
      assert FirstMatch(n, [name]).None?;
    }
  }

  lemma {:induction false} LandedStep(n: Node, name: string, path: seq<string>, v: Node)
    requires |path| > 0
    ensures var i := FirstNamed(n.children, name);
            Landed(n, [name] + path, v) == Landed(if i < |n.children| then n.children[i] else Named(name), path, v)
  {
    var whole := [name] + path;
    assert whole[0] == name && whole[1..] == path;
    assert FirstMatch(Named(name), path).None?;
  }

  lemma {:induction false} LandedLast(n: Node, p: string, v: Node)
    requires IndexFree(p) && FindChar(p, '.').None?
    ensures var r := InternalAdd(n, p, v);
            var i := FirstNamed(r.children, p);
            i < |r.children| && r.children[i] == Landed(n, [p], v)
  {
    var i := FirstNamed(n.children, p);
    AddedLastSegment(n, p, v);
    FirstNamedIs(InternalAdd(n, p, v).children, p, i);
    assert [p][0] == p && [p][1..] == [];
    if i < |n.children| {
      assert FirstMatch(n, [p]) == FirstMatch(n.children[i], []) == Some(n.children[i]);
    } else {
      assert FirstMatch(n, [p]).None?;
    }
  }

  /** The child a write below `name` goes through, read by a key of one segment. */
  lemma {:induction false} ReadChildAfterAdd(n: Node, p: string, v: Node)
    requires IndexFree(p) && FindChar(p, '.').Some?
    ensures var at := FindChar(p, '.').value;
            var i := FirstNamed(n.children, p[..at]);
            var c := if i < |n.children| then n.children[i] else Named(p[..at]);
            var r := InternalAdd(n, p, v);
            FirstNamed(r.children, p[..at]) == i && i < |r.children| && r.children[i] == InternalAdd(c, p[at + 1..], v)
  {
    var at := FindChar(p, '.').value;
    var i := FirstNamed(n.children, p[..at]);
    var c := if i < |n.children| then n.children[i] else Named(p[..at]);
    AddedBelow(n, p, v);
    InternalAddKeepsIdentity(c, p[at + 1..], v);
    FirstNamedIs(InternalAdd(n, p, v).children, p[..at], i);
  }

  /** A search that starts at the child a write went through stays with it when it finds something there. */
  lemma {:induction false} ReadThroughChild(n: Node, p: string, v: Node, q: string)
    requires IndexFree(p) && FindChar(p, '.').Some? && IndexFree(q) && FindChar(q, '.').Some?
    requires p[..FindChar(p, '.').value] == q[..FindChar(q, '.').value]
    requires !GetNode(InternalAdd(Reached(n, [Head(p)]), Tail(p), v), Tail(q)).isNullNode
    ensures GetNode(InternalAdd(n, p, v), q) == GetNode(InternalAdd(Reached(n, [Head(p)]), Tail(p), v), Tail(q))
  {
    ReachedLast(n, Head(p));
    ReadChildAfterAdd(n, p, v);
    GetAmongFirst(InternalAdd(n, p, v).children, Head(p), Tail(q));
  }

  lemma PrefixOfTail(a: seq<string>, b: seq<string>, head: string)
    requires [head] + a < [head] + b
    ensures a < b
  {
    assert ([head] + a)[1..] == a && ([head] + b)[1..] == b;
  }

  lemma SamePathHead(q: string, p: string)
    requires Segments(q) < Segments(p)
    ensures Head(q) == Head(p) && FindChar(p, '.').Some?
    ensures FindChar(q, '.').Some? ==> Segments(Tail(q)) < Segments(Tail(p))
    ensures FindChar(q, '.').None? ==> Segments(q) == [Head(p)]
  {
    assert Segments(q)[0] == Segments(p)[0];
    if FindChar(q, '.').Some? {
      PrefixOfTail(Segments(Tail(q)), Segments(Tail(p)), Head(p));
    }
  }

  lemma WithoutStep(p: string, k: nat)
    requires FindChar(p, '.').Some? && 0 < k < |Segments(p)|
    ensures k - 1 < |Segments(Tail(p))| && Without(p, k) == Without(Tail(p), k - 1)
  {
  }

  // ---------- the laws ----------

  /**
   Read back: after `Add(p, v)` the key `p` holds `v` under the last segment's name if
   the first-match walk along `p` found nothing, and otherwise what that walk found,
   with the children of `v` appended.
   */
  lemma {:induction false} GetAfterAdd(n: Node, p: string, v: Node)
    requires IndexFree(p) && NoNullBelow(n) && !v.isNullNode
    ensures GetNode(InternalAdd(n, p, v), p) == Landed(n, Segments(p), v)
    ensures !Landed(n, Segments(p), v).isNullNode
    decreases |p|
  {
    if FindChar(p, '.').Some? {
      var c := Reached(n, [Head(p)]);
      ReachedLast(n, Head(p));
      GetAfterAdd(c, Tail(p), v);
      ReadThroughChild(n, p, v, p);
      LandedStep(n, Head(p), Segments(Tail(p)), v);
    } else {
      LandedLast(n, p, v);
      ReachedLast(n, p);
    }
  }

  lemma {:induction false} GetAboveLast(n: Node, p: string, v: Node, q: string)
    requires IndexFree(p) && NoNullBelow(n) && FindChar(p, '.').Some?
    requires q == Head(p) && FindChar(q, '.').None?
    ensures GetNode(InternalAdd(n, p, v), q) == InternalAdd(Reached(n, [q]), Tail(p), v)
    ensures !GetNode(InternalAdd(n, p, v), q).isNullNode
  {
    var c := Reached(n, [Head(p)]);
    ReachedLast(n, Head(p));
    ReadChildAfterAdd(n, p, v);
    InternalAddKeepsIdentity(c, Tail(p), v);
  }

  /** Above: a key on the way to `p` holds the node the walk reached there, with the rest of `p` added to it. */
  lemma {:induction false} GetAboveAfterAdd(n: Node, p: string, v: Node, q: string)
    requires IndexFree(p) && IndexFree(q) && NoNullBelow(n)
    requires Segments(q) < Segments(p)
    ensures GetNode(InternalAdd(n, p, v), q) == InternalAdd(Reached(n, Segments(q)), Without(p, |Segments(q)|), v)
    ensures !GetNode(InternalAdd(n, p, v), q).isNullNode
    decreases |q|
  {
    SamePathHead(q, p);
    WithoutStep(p, |Segments(q)|);
    if FindChar(q, '.').Some? {
      var c := Reached(n, [Head(p)]);
      ReachedLast(n, Head(p));
      GetAboveAfterAdd(c, Tail(p), v, Tail(q));
      ReadThroughChild(n, p, v, q);
      ReachedStep(n, Head(p), Segments(Tail(q)));
    } else {
      GetAboveLast(n, p, v, q);
      assert Without(Tail(p), 0) == Tail(p);
    }
  }

  lemma UnrelatedTails(p: string, q: string)
    requires Unrelated(Segments(p), Segments(q)) && Segments(p)[0] == Segments(q)[0]
    ensures FindChar(p, '.').Some? && FindChar(q, '.').Some? && Head(p) == Head(q)
    ensures Unrelated(Segments(Tail(p)), Segments(Tail(q)))
  {
    UnrelatedStep(Segments(p), Segments(q));
    assert Segments(p)[1..] == Segments(Tail(p)) && Segments(q)[1..] == Segments(Tail(q));
  }

  /** What the child answers for the rest of the key is what the parent answers for the key. */
  lemma {:induction false} SameBelowChild(n: Node, p: string, v: Node, q: string)
    requires IndexFree(p) && IndexFree(q) && FindChar(p, '.').Some? && FindChar(q, '.').Some? && Head(p) == Head(q)
    requires var i := FirstNamed(n.children, Head(p));
             var c := if i < |n.children| then n.children[i] else Named(Head(p));
             GetNode(InternalAdd(c, Tail(p), v), Tail(q)) == GetNode(c, Tail(q))
    ensures GetNode(InternalAdd(n, p, v), q) == GetNode(n, q)
  {
    var name := Head(p);
    var i := FirstNamed(n.children, name);
    AddedBelow(n, p, v);
    if i < |n.children| {
      InternalAddKeepsIdentity(n.children[i], Tail(p), v);
      GetAmongCongruent(n.children, InternalAdd(n, p, v).children, name, Tail(q));
    } else {
      GetFromFreshNode(name, Tail(q));
      GetAmongAppendSilent(n.children, InternalAdd(Named(name), Tail(p), v), name, Tail(q));
    }
  }

  /** More children behind those of a node cannot make it lose what it holds. */
  lemma {:induction false} SilentWithout(cs: seq<Node>, more: seq<Node>, name: string, rest: string)
    requires IndexFree(rest) && GetAmong(cs + more, name, rest).isNullNode
    ensures GetAmong(cs, name, rest).isNullNode
    decreases |cs|
  {
    if cs != [] {
      assert (cs + more)[1..] == cs[1..] + more;
      SilentWithout(cs[1..], more, name, rest);
    }
  }

  lemma {:induction false} FirstNamedAppend(cs: seq<Node>, more: seq<Node>, name: string)
    ensures FirstNamed(cs, name) < |cs| ==> FirstNamed(cs + more, name) == FirstNamed(cs, name)
  {
    var i := FirstNamed(cs, name);
    if i < |cs| {
      FirstNamedIs(cs + more, name, i);
    }
  }

  lemma {:induction false} SilentBefore(n: Node, more: seq<Node>, key: string)
    requires IndexFree(key) && GetNode(n.(children := n.children + more), key).isNullNode
    ensures GetNode(n, key).isNullNode
  {
    if FindChar(key, '.').Some? {
      SilentWithout(n.children, more, Head(key), Tail(key));
    } else {
      FirstNamedAppend(n.children, more, key);
    }
  }

  /** Nothing under the rest of the key where the last segment of `p` was written: the siblings answer, as before. */
  lemma {:induction false} SilentAtLast(n: Node, p: string, v: Node, q: string)
    requires IndexFree(p) && IndexFree(q) && FindChar(p, '.').None? && FindChar(q, '.').Some? && Head(q) == p
    requires GetNode(Landed(n, [p], v), Tail(q)).isNullNode
    ensures GetNode(InternalAdd(n, p, v), q) == GetNode(n, q)
  {
    var i := FirstNamed(n.children, p);
    AddedLastSegment(n, p, v);
    LandedLast(n, p, v);
    if i < |n.children| {
      FirstNamedIs(InternalAdd(n, p, v).children, p, i);
      SilentBefore(n.children[i], v.children, Tail(q));
      GetAmongCongruent(n.children, InternalAdd(n, p, v).children, p, Tail(q));
    } else {
      FirstNamedIs(InternalAdd(n, p, v).children, p, i);
      GetAmongAppendSilent(n.children, v.(name := p), p, Tail(q));
    }
  }

  /**
   Below: a key that continues `p` finds, in what `Add` left at `p`, whatever that holds
   under the rest of the key; when that holds nothing, the key answers as it did before.
   */
  lemma {:induction false} GetBelowAfterAdd(n: Node, p: string, v: Node, q: string)
    requires IndexFree(p) && IndexFree(q)
    requires Segments(p) < Segments(q)
    ensures var below := GetNode(Landed(n, Segments(p), v), Without(q, |Segments(p)|));
            GetNode(InternalAdd(n, p, v), q) == if below.isNullNode then GetNode(n, q) else below
    decreases |p|
  {
    SamePathHead(p, q);
    WithoutStep(q, |Segments(p)|);
    if FindChar(p, '.').Some? {
      var i := FirstNamed(n.children, Head(p));
      var c := if i < |n.children| then n.children[i] else Named(Head(p));
      GetBelowAfterAdd(c, Tail(p), v, Tail(q));
      LandedStep(n, Head(p), Segments(Tail(p)), v);
      GetBelowStep(n, p, v, q, GetNode(Landed(n, Segments(p), v), Without(q, |Segments(p)|)));
    } else {
      WithoutNothing(Tail(q));
      GetBelowLast(n, p, v, q);
    }
  }

  lemma WithoutNothing(p: string)
    ensures Without(p, 0) == p
  {
  }

  lemma {:induction false} GetBelowLast(n: Node, p: string, v: Node, q: string)
    requires IndexFree(p) && IndexFree(q) && FindChar(p, '.').None? && FindChar(q, '.').Some? && Head(q) == p
    ensures var below := GetNode(Landed(n, [p], v), Tail(q));
            GetNode(InternalAdd(n, p, v), q) == if below.isNullNode then GetNode(n, q) else below
  {
    if GetNode(Landed(n, [p], v), Tail(q)).isNullNode {
      SilentAtLast(n, p, v, q);
    } else {
      LandedLast(n, p, v);
      GetAmongFirst(InternalAdd(n, p, v).children, p, Tail(q));
    }
  }

  lemma {:induction false} GetBelowStep(n: Node, p: string, v: Node, q: string, below: Node)
    requires IndexFree(p) && IndexFree(q) && FindChar(p, '.').Some? && FindChar(q, '.').Some? && Head(p) == Head(q)
    requires var i := FirstNamed(n.children, Head(p));
             var c := if i < |n.children| then n.children[i] else Named(Head(p));
             GetNode(InternalAdd(c, Tail(p), v), Tail(q)) == if below.isNullNode then GetNode(c, Tail(q)) else below
    ensures GetNode(InternalAdd(n, p, v), q) == if below.isNullNode then GetNode(n, q) else below
  {
    if below.isNullNode {
      SameBelowChild(n, p, v, q);
    } else {
      ReachedLast(n, Head(p));
      ReadThroughChild(n, p, v, q);
    }
  }

  /** Frame: a key unrelated to `p` answers after `Add(p, v)` exactly what it answered before. */
  lemma {:induction false} GetElsewhereAfterAdd(n: Node, p: string, v: Node, q: string)
    requires IndexFree(p) && IndexFree(q)
    requires Unrelated(Segments(p), Segments(q))
    ensures GetNode(InternalAdd(n, p, v), q) == GetNode(n, q)
    decreases |p|
  {
    if Segments(p)[0] == Segments(q)[0] {
      UnrelatedTails(p, q);
      var i := FirstNamed(n.children, Head(p));
      GetElsewhereAfterAdd(if i < |n.children| then n.children[i] else Named(Head(p)), Tail(p), v, Tail(q));
      SameBelowChild(n, p, v, q);
    } else {
      ChangedChildrenElsewhere(n, p, v, Segments(q)[0]);
      OtherHeadUnchanged(n, InternalAdd(n, p, v), q);
    }
  }

  /**
   `b` has the children of `a`, except that those not called `name` may differ, and extra ones
   not called `name` may follow.
   */
  predicate SameUnder(a: Node, b: Node, name: string) {
    && |a.children| <= |b.children|
    && (forall i :: 0 <= i < |a.children| ==>
         (a.children[i].name == name <==> b.children[i].name == name) &&
         (a.children[i].name == name ==> a.children[i] == b.children[i]))
    && (forall i :: |a.children| <= i < |b.children| ==> b.children[i].name != name)
  }

  lemma {:induction false} ChangedBelowElsewhere(n: Node, p: string, v: Node, name: string)
    requires IndexFree(p) && FindChar(p, '.').Some? && Head(p) != name
    ensures SameUnder(n, InternalAdd(n, p, v), name)
  {
    var i := FirstNamed(n.children, Head(p));
    var c := if i < |n.children| then n.children[i] else Named(Head(p));
    AddedBelow(n, p, v);
    InternalAddKeepsIdentity(c, Tail(p), v);
  }

  lemma {:induction false} ChangedChildrenElsewhere(n: Node, p: string, v: Node, name: string)
    requires IndexFree(p) && Segments(p)[0] != name
    ensures SameUnder(n, InternalAdd(n, p, v), name)
  {
    if FindChar(p, '.').Some? {
      ChangedBelowElsewhere(n, p, v, name);
    } else {
      AddedLastSegment(n, p, v);
    }
  }

  lemma {:induction false} OtherHeadUnchanged(a: Node, b: Node, q: string)
    requires IndexFree(q) && SameUnder(a, b, Segments(q)[0])
    ensures GetNode(b, q) == GetNode(a, q)
  {
    var name := Segments(q)[0];
    match FindChar(q, '.') {
      case Some(at) =>
        var rest := q[at + 1..];
        var front := b.children[..|a.children|];
        GetAmongCongruent(a.children, front, name, rest);
        GetAmongSilentTail(front, b.children[|a.children|..], name, rest);
        assert front + b.children[|a.children|..] == b.children;
      case None =>
        var i, j := FirstNamed(a.children, name), FirstNamed(b.children, name);
        if i < |a.children| {
          assert b.children[i].name == name;
        }
        if j < |a.children| {
          assert a.children[j].name == name;
        }
    }
  }

  lemma {:induction false} GetAmongSilentTail(cs: seq<Node>, ds: seq<Node>, name: string, rest: string)
    requires IndexFree(rest)
    requires forall i :: 0 <= i < |ds| ==> ds[i].name != name
    ensures GetAmong(cs + ds, name, rest) == GetAmong(cs, name, rest)
    decreases |ds|
  {
    if ds == [] {
      assert cs + ds == cs;
    } else {
      assert cs + ds == (cs + [ds[0]]) + ds[1..];
      GetAmongSilentTail(cs + [ds[0]], ds[1..], name, rest);
      GetAmongAppendSilent(cs, ds[0], name, rest);
    }
  }
}
