/**
 `UIDSet`: two parallel vectors kept sorted by id. An element is a pointer whose
 `GetID()` does not change while it is in the set; the model keeps the id beside it.
 */
module UidSet {
  import opened Common

  datatype Entry<T> = Entry(id: uint16, element: T)

  // ---------- the vectors as a map ----------

  predicate SortedById<T>(s: seq<Entry<T>>) {
    forall i, j :: 0 <= i < j < |s| ==> s[i].id < s[j].id
  }

  predicate HasId<T>(s: seq<Entry<T>>, id: uint16) {
    exists i :: 0 <= i < |s| && s[i].id == id
  }

  function ToMap<T>(s: seq<Entry<T>>): (m: map<uint16, T>)
    ensures forall id :: id in m <==> HasId(s, id)
  {
    if s == [] then map[]
    else
      var m := ToMap(s[1..]);
      assert forall id :: HasId(s, id) <==> id == s[0].id || HasId(s[1..], id) by {
        assert forall i :: 0 < i < |s| ==> s[i] == s[1..][i - 1];
        assert forall i :: 0 <= i < |s| - 1 ==> s[1..][i] == s[i + 1];
      }
      m[s[0].id := s[0].element]
  }

  lemma {:induction false} ToMapAt<T>(s: seq<Entry<T>>, i: nat)
    requires SortedById(s) && i < |s|
    ensures s[i].id in ToMap(s) && ToMap(s)[s[i].id] == s[i].element
  {
    if i > 0 {
      ToMapAt(s[1..], i - 1);
      assert s[1..][i - 1] == s[i] && s[0].id < s[i].id;
    }
  }

  lemma NonEmptyMap<T>(s: seq<Entry<T>>)
    requires s != []
    ensures ToMap(s) != map[]
  {
    assert HasId(s, s[0].id);
  }

  lemma HeadIsSmallest<T>(s: seq<Entry<T>>, id: uint16)
    requires SortedById(s) && HasId(s, id)
    ensures s != [] && s[0].id <= id
  {
  }

  lemma SameHead<T>(s: seq<Entry<T>>, t: seq<Entry<T>>)
    requires s != [] && SortedById(s) && SortedById(t) && ToMap(s) == ToMap(t)
    ensures t != [] && s[0] == t[0]
  {
    ToMapAt(s, 0);
    HeadIsSmallest(t, s[0].id);
    ToMapAt(t, 0);
    HeadIsSmallest(s, t[0].id);
  }

  /** A sorted vector is determined by its map: the refinement loses nothing. */
  lemma {:induction false} MapDetermines<T>(s: seq<Entry<T>>, t: seq<Entry<T>>)
    requires SortedById(s) && SortedById(t) && ToMap(s) == ToMap(t)
    ensures s == t
    decreases |s|
  {
    if s == [] {
      if t != [] {
        NonEmptyMap(t);
      }
    } else {
      SameHead(s, t);
      ToMapTail(s);
      ToMapTail(t);
      MapDetermines(s[1..], t[1..]);
      assert s == [s[0]] + s[1..] && t == [t[0]] + t[1..];
    }
  }

  lemma HeadIdIsFirst<T>(s: seq<Entry<T>>)
    requires s != [] && SortedById(s)
    ensures SortedById(s[1..]) && !HasId(s[1..], s[0].id)
  {
    assert forall i :: 0 <= i < |s[1..]| ==> s[1..][i] == s[i + 1];
  }

  lemma PutAndTake<T>(m: map<uint16, T>, id: uint16, x: T)
    requires id !in m
    ensures m[id := x] - {id} == m
  {
  }

  lemma {:induction false} ToMapTail<T>(s: seq<Entry<T>>)
    requires s != [] && SortedById(s)
    ensures ToMap(s[1..]) == ToMap(s) - {s[0].id}
  {
    HeadIdIsFirst(s);
    PutAndTake(ToMap(s[1..]), s[0].id, s[0].element);
  }

  /** The vectors with `e` put where a search for its id ended. */
  lemma InsertUnderHead<T>(s: seq<Entry<T>>, at: nat, e: Entry<T>)
    requires 0 < at <= |s|
    ensures var r := s[..at] + [e] + s[at..];
            r != [] && r[0] == s[0] && r[1..] == s[1..][..at - 1] + [e] + s[1..][at - 1..]
  {
  }

  lemma InsertKeepsSorted<T>(s: seq<Entry<T>>, at: nat, e: Entry<T>)
    requires SortedById(s) && at <= |s|
    requires forall i :: 0 <= i < at ==> s[i].id < e.id
    requires forall i :: at <= i < |s| ==> e.id < s[i].id
    ensures SortedById(s[..at] + [e] + s[at..])
  {
  }

  lemma TailKeepsGap<T>(s: seq<Entry<T>>, at: nat, e: Entry<T>)
    requires SortedById(s) && 0 < at <= |s|
    requires forall i :: 0 <= i < at ==> s[i].id < e.id
    requires forall i :: at <= i < |s| ==> e.id < s[i].id
    ensures SortedById(s[1..])
    ensures forall i :: 0 <= i < at - 1 ==> s[1..][i].id < e.id
    ensures forall i :: at - 1 <= i < |s[1..]| ==> e.id < s[1..][i].id
  {
  }

  lemma {:induction false} InsertIsUpdate<T>(s: seq<Entry<T>>, at: nat, e: Entry<T>)
    requires SortedById(s) && at <= |s|
    requires forall i :: 0 <= i < at ==> s[i].id < e.id
    requires forall i :: at <= i < |s| ==> e.id < s[i].id
    ensures SortedById(s[..at] + [e] + s[at..])
    ensures ToMap(s[..at] + [e] + s[at..]) == ToMap(s)[e.id := e.element]
    decreases |s|
  {
    InsertKeepsSorted(s, at, e);
    if at == 0 {
      var r := s[..at] + [e] + s[at..];
      assert r == [e] + s && r[1..] == s;
    } else {
      InsertUnderHead(s, at, e);
      TailKeepsGap(s, at, e);
      InsertIsUpdate(s[1..], at - 1, e);
    }
  }

  lemma EraseKeepsSorted<T>(s: seq<Entry<T>>, at: nat)
    requires SortedById(s) && at < |s|
    ensures SortedById(s[..at] + s[at + 1..])
  {
  }

  lemma {:induction false} EraseIsRemoval<T>(s: seq<Entry<T>>, at: nat)
    requires SortedById(s) && at < |s|
    ensures ToMap(s[..at] + s[at + 1..]) == ToMap(s) - {s[at].id}
    decreases |s|
  {
    if at == 0 {
      assert s[..at] + s[at + 1..] == s[1..];
      ToMapTail(s);
    } else {
      var t := s[1..];
      HeadIdIsFirst(s);
      EraseIsRemoval(t, at - 1);
      RemoveBelow(ToMap(t), s[0].id, s[0].element, s[at].id);
      EraseUnderHead(s, at);
    }
  }

  lemma EraseUnderHead<T>(s: seq<Entry<T>>, at: nat)
    requires 0 < at < |s|
    ensures var r := s[..at] + s[at + 1..]; r != [] && r[0] == s[0] && r[1..] == s[1..][..at - 1] + s[1..][at..]
    ensures s[1..][at - 1] == s[at]
  {
  }

  lemma RemoveBelow<T>(m: map<uint16, T>, id: uint16, x: T, gone: uint16)
    requires id != gone
    ensures (m - {gone})[id := x] == m[id := x] - {gone}
  {
  }

  // ---------- the probe ----------

  /** `left + ((right - left) * ((id - idOnLeft) / (idOnRight - idOnLeft)))`, with the source's integer quotient. */
  function WrittenProbe(left: nat, right: nat, id: int, idOnLeft: int, idOnRight: int): int
    requires idOnLeft < id < idOnRight
  {
    left + (right - left) * ((id - idOnLeft) / (idOnRight - idOnLeft))
  }

  /** The quotient of a proper fraction is zero: the search looks at `left`, so it is a scan. */
  lemma WrittenProbeIsLeft(left: nat, right: nat, id: int, idOnLeft: int, idOnRight: int)
    requires idOnLeft < id < idOnRight
    ensures WrittenProbe(left, right, id, idOnLeft, idOnRight) == left
  {
    assert (id - idOnLeft) / (idOnRight - idOnLeft) == 0;
  }

  /** Interpolation as the class comment announces it: multiply before dividing. */
  function InterpolationProbe(left: nat, right: nat, id: int, idOnLeft: int, idOnRight: int): int
    requires idOnLeft < id < idOnRight
  {
    left + ((right - left) * (id - idOnLeft)) / (idOnRight - idOnLeft)
  }

  lemma InterpolationStaysInside(left: nat, right: nat, id: int, idOnLeft: int, idOnRight: int)
    requires left <= right && idOnLeft < id < idOnRight
    ensures left <= InterpolationProbe(left, right, id, idOnLeft, idOnRight) <= right
  {
    var a, b, d := right - left, id - idOnLeft, idOnRight - idOnLeft;
    assert 0 <= a * b <= a * d by {
      assert a * (d - b) >= 0;
    }
    QuotientBound(a * b, a, d);
  }

  lemma QuotientBound(x: int, a: int, d: int)
    requires d > 0 && 0 <= x <= a * d
    ensures 0 <= x / d <= a
  {
    var q := x / d;
    assert x == d * q + x % d;
    assert q > a ==> d * q >= d * (a + 1);
  }

  type Probe = (nat, nat, int, int, int) --> int

  /** A probe the search may use: defined between two ids, and answering inside the range. */
  ghost predicate StaysInside(probe: Probe) {
    forall left: nat, right: nat, id, l, r :: left <= right && l < id < r ==>
      probe.requires(left, right, id, l, r) && left <= probe(left, right, id, l, r) <= right
  }

  /** Both readings of the formula are probes, so `Search` is correct under either. */
  lemma BothProbesStayInside()
    ensures StaysInside(WrittenProbe) && StaysInside(InterpolationProbe)
  {
    forall left: nat, right: nat, id, l, r | left <= right && l < id < r
      ensures WrittenProbe(left, right, id, l, r) == left
      ensures left <= InterpolationProbe(left, right, id, l, r) <= right
    {
      WrittenProbeIsLeft(left, right, id, l, r);
      InterpolationStaysInside(left, right, id, l, r);
    }
  }

  class UIDSet<T(==)> {
    var elements: seq<Entry<T>>
    var ptrElements: seq<T>

    /** Sorted by id, and the two vectors aligned. */
    ghost predicate Valid()
      reads this
    {
      && SortedById(elements)
      && |ptrElements| == |elements|
      && forall i :: 0 <= i < |elements| ==> ptrElements[i] == elements[i].element
    }

    function Model(): map<uint16, T>
      reads this
    {
      ToMap(elements)
    }

    constructor ()
      ensures Valid() && Model() == map[]
    {
      elements := [];
      ptrElements := [];
    }

    /**
     `Search`, for any probe that stays inside the range. A found id is at the returned
     position; otherwise the answer is the size plus one and `left` and `right` bracket
     the place where the id belongs.
     */
    method Search(id: uint16, probe: Probe) returns (pos: nat, left: nat, right: nat)
      requires Valid() && elements != [] && StaysInside(probe)
      ensures left < |elements| && right < |elements|
      ensures pos < |elements| || pos == |elements| + 1
      ensures pos < |elements| ==> elements[pos].id == id
      ensures pos == |elements| + 1 ==>
                && !HasId(elements, id)
                && (id < elements[left].id || id > elements[right].id)
                && (id < elements[left].id ==> forall i :: 0 <= i < left ==> elements[i].id < id)
                && (id > elements[right].id ==> forall i :: right < i < |elements| ==> id < elements[i].id)
    {
      left := 0;
      right := |elements| - 1;
      var idOnLeft, idOnRight := elements[left].id, elements[right].id;
      while idOnLeft != idOnRight && id > idOnLeft && id < idOnRight
        invariant 0 <= left <= right < |elements|
        invariant idOnLeft == elements[left].id && idOnRight == elements[right].id
        invariant forall i :: 0 <= i < left ==> elements[i].id < id
        invariant forall i :: right < i < |elements| ==> id < elements[i].id
        decreases right - left
      {
        var at := probe(left, right, id, idOnLeft, idOnRight);
        if elements[at].id < id {
          assert at < right;
          left := at + 1;
          idOnLeft := elements[left].id;
        } else if elements[at].id > id {
          assert at > left;
          right := at - 1;
          idOnRight := elements[right].id;
        } else {
          return at, left, right;
        }
      }
      if id == idOnLeft {
        return left, left, right;
      } else if id == idOnRight {
        return right, left, right;
      }
      pos := |elements| + 1;
    }

    /** The search the other members run. */
    method SearchAsWritten(id: uint16) returns (pos: nat, left: nat, right: nat)
      requires Valid() && elements != []
      ensures left < |elements| && right < |elements|
      ensures pos < |elements| || pos == |elements| + 1
      ensures pos < |elements| ==> elements[pos].id == id
      ensures pos == |elements| + 1 ==>
                && !HasId(elements, id)
                && (id < elements[left].id || id > elements[right].id)
                && (id < elements[left].id ==> forall i :: 0 <= i < left ==> elements[i].id < id)
                && (id > elements[right].id ==> forall i :: right < i < |elements| ==> id < elements[i].id)
    {
      BothProbesStayInside();
      pos, left, right := Search(id, WrittenProbe);
    }

    /** The two `insert` calls of `Add`. */
    method InsertAt(at: nat, e: Entry<T>)
      requires Valid() && at <= |elements|
      requires forall i :: 0 <= i < at ==> elements[i].id < e.id
      requires forall i :: at <= i < |elements| ==> e.id < elements[i].id
      modifies this
      ensures Valid() && Model() == old(Model())[e.id := e.element]
    {
      InsertIsUpdate(elements, at, e);
      elements := elements[..at] + [e] + elements[at..];
      ptrElements := ptrElements[..at] + [e.element] + ptrElements[at..];
    }

    /** `Add`; the null pointer is `None`. */
    method Add(element: Option<Entry<T>>) returns (added: bool)
      requires Valid()
      modifies this
      ensures Valid()
      ensures added <==> element.Some? && element.value.id !in old(Model())
      ensures Model() == if added then old(Model())[element.value.id := element.value.element] else old(Model())
    {
      if element.None? {
        return false;
      }
      var e := element.value;
      if elements == [] {
        InsertAt(0, e);
        return true;
      }
      var pos, left, right := SearchAsWritten(e.id);
      if pos == |elements| + 1 {
        if e.id < elements[left].id {
          InsertAt(left, e);
          return true;
        } else if e.id > elements[right].id {
          InsertAt(right + 1, e);
          return true;
        }
      }
      added := false;
    }

    method Find(id: uint16) returns (found: bool)
      requires Valid()
      ensures found <==> id in Model()
    {
      if elements == [] {
        return false;
      }
      var pos, left, right := SearchAsWritten(id);
      if pos != |elements| + 1 {
        return id == elements[pos].id;
      }
      found := false;
    }

    /** `Get`: the pointer, or the null one. */
    method Get(id: uint16) returns (element: Option<T>)
      requires Valid()
      ensures element == if id in Model() then Some(Model()[id]) else None
    {
      if elements == [] {
        return None;
      }
      var pos, left, right := SearchAsWritten(id);
      if pos != |elements| + 1 && id == elements[pos].id {
        ToMapAt(elements, pos);
        return Some(ptrElements[pos]);
      }
      element := None;
    }

    /** `RemoveAt`. */
    method RemoveAt(pos: nat)
      requires Valid() && pos < |elements|
      modifies this
      ensures Valid() && Model() == old(Model()) - {old(elements)[pos].id}
    {
      EraseKeepsSorted(elements, pos);
      EraseIsRemoval(elements, pos);
      elements := elements[..pos] + elements[pos + 1..];
      ptrElements := ptrElements[..pos] + ptrElements[pos + 1..];
    }

    method Remove(id: uint16) returns (removed: bool)
      requires Valid()
      modifies this
      ensures Valid()
      ensures removed <==> id in old(Model())
      ensures Model() == old(Model()) - {id}
    {
      if elements == [] {
        return false;
      }
      var pos, left, right := SearchAsWritten(id);
      if pos != |elements| + 1 && id == elements[pos].id {
        ToMapAt(elements, pos);
        RemoveAt(pos);
        return true;
      }
      removed := false;
    }

    method Clear()
      modifies this
      ensures Valid() && Model() == map[]
    {
      ptrElements := [];
      elements := [];
    }
  }
}
