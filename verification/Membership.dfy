/**
 The canal indices of `CanalManager` as values, the step each of its operations
 takes, and the agreement between the indices that every step keeps.
 */
module Membership {
  import opened Common
  import opened IdGenerator

  datatype CanalData = CanalData(name: string, password: string, limit: int, users: set<uint16>, marked: bool)
  {
    /** `IsFull`: the limit is compared as `size_t`, so a negative one is never reached. */
    predicate IsFull() {
      limit != -1 && |users| == limit
    }
  }

  /** The four members that have to agree: the id generator, name to id, id to canal, user to canals. */
  datatype Indices = Indices(
    ids: Ids,
    dictionary: map<string, uint16>,
    canals: map<uint16, CanalData>,
    links: map<uint16, set<uint16>>)

  const NO_CANALS := Indices(Ids(0, []), map[], map[], map[])

  // ---------- steps ----------

  /** `CreateCanal(name, password, limit, id)`. */
  function Create(s: Indices, name: string, password: string, limit: int): Indices {
    if name in s.dictionary then s
    else
      var (ids, id) := Generate(s.ids);
      s.(ids := ids,
         dictionary := s.dictionary[name := id],
         canals := s.canals[id := CanalData(name, password, limit, {}, false)])
  }

  /** `DeleteCanal(canalID)`: out of every link set, the dictionary and the canals, and the id is freed. */
  function Erase(s: Indices, c: uint16): Indices {
    if c !in s.canals then s
    else
      Indices(Free(s.ids, c),
              s.dictionary - {s.canals[c].name},
              s.canals - {c},
              map u | u in s.links :: s.links[u] - {c})
  }

  /** `DeleteCanal(userId, canalId)`. */
  function Delete(s: Indices, c: uint16): Indices {
    if c !in s.canals then s
    else if s.canals[c].users == {} then Erase(s, c)
    else s.(canals := s.canals[c := s.canals[c].(marked := true)])
  }

  function LinksOf(s: Indices, u: uint16): set<uint16> {
    if u in s.links then s.links[u] else {}
  }

  predicate CanJoin(s: Indices, c: uint16, password: string) {
    c in s.canals && s.canals[c].password == password && !s.canals[c].IsFull()
  }

  function Join(s: Indices, u: uint16, c: uint16, password: string): Indices {
    if !CanJoin(s, c, password) then s
    else
      s.(canals := s.canals[c := s.canals[c].(users := s.canals[c].users + {u})],
         links := s.links[u := LinksOf(s, u) + {c}])
  }

  /** The canal loses the user, and is erased when it was only waiting for that. */
  function Dismiss(s: Indices, u: uint16, c: uint16): Indices {
    if c !in s.canals then s
    else
      var left := s.(canals := s.canals[c := s.canals[c].(users := s.canals[c].users - {u})]);
      if left.canals[c].marked && left.canals[c].users == {} then Erase(left, c) else left
  }

  /** `LeaveCanal`: looking up the links of a user that has none creates an empty entry. */
  function Leave(s: Indices, u: uint16, c: uint16): Indices {
    if c !in s.canals then s
    else if c !in LinksOf(s, u) then s.(links := s.links[u := LinksOf(s, u)])
    else Dismiss(s.(links := s.links[u := LinksOf(s, u) - {c}]), u, c)
  }

  function DismissEach(s: Indices, u: uint16, order: seq<uint16>): Indices
    decreases |order|
  {
    if order == [] then s else DismissEach(Dismiss(s, u, order[0]), u, order[1..])
  }

  /** `order` lists the members of `s`, each once. */
  ghost predicate Enumerates(order: seq<uint16>, s: set<uint16>) {
    Distinct(order) && forall x: uint16 :: x in order <==> x in s
  }

  /** `LeaveAllCanal`, over a snapshot of the links in the order the hash set yields them. */
  function LeaveAll(s: Indices, u: uint16, order: seq<uint16>): Indices {
    if u !in s.links then s
    else
      var gone := DismissEach(s, u, order);
      gone.(links := gone.links - {u})
  }

  // ---------- agreement ----------

  predicate NamesAgree(s: Indices) {
    && (forall n :: n in s.dictionary ==> s.dictionary[n] in s.canals && s.canals[s.dictionary[n]].name == n)
    && (forall c :: c in s.canals ==> s.canals[c].name in s.dictionary && s.dictionary[s.canals[c].name] == c)
  }

  predicate IsMember(s: Indices, u: uint16, c: uint16) {
    c in s.canals && u in s.canals[c].users
  }

  predicate IsLinked(s: Indices, u: uint16, c: uint16) {
    u in s.links && c in s.links[u]
  }

  /** The canals' user sets and the users' link sets are one relation. */
  ghost predicate LinksMirror(s: Indices) {
    forall u: uint16, c: uint16 :: IsMember(s, u, c) <==> IsLinked(s, u, c)
  }

  predicate NoneMarkedAndEmpty(s: Indices) {
    forall c :: c in s.canals ==> !(s.canals[c].marked && s.canals[c].users == {})
  }

  predicate WithinLimits(s: Indices) {
    forall c :: c in s.canals && s.canals[c].limit >= 0 ==> |s.canals[c].users| <= s.canals[c].limit
  }

  ghost predicate Agree(s: Indices) {
    && Consistent(0, s.ids, s.canals.Keys)
    && NamesAgree(s)
    && LinksMirror(s)
    && NoneMarkedAndEmpty(s)
    && WithinLimits(s)
  }

  // ---------- agreement while one user is leaving ----------

  /**
   Inside `LeaveAllCanal`: for the leaving user `u` the canals still to be visited are the
   ones that list it; everybody else's links mirror the canals.
   */
  ghost predicate AgreeExcept(s: Indices, u: uint16, todo: set<uint16>) {
    && Consistent(0, s.ids, s.canals.Keys)
    && NamesAgree(s)
    && NoneMarkedAndEmpty(s)
    && WithinLimits(s)
    && (forall v: uint16, c: uint16 :: v != u ==> (IsMember(s, v, c) <==> IsLinked(s, v, c)))
    && (forall c: uint16 :: IsMember(s, u, c) <==> c in todo)
  }

  /** Removing one canal whose users are gone keeps ids and names together. */
  lemma EraseKeepsNames(s: Indices, c: uint16)
    requires c in s.canals && Consistent(0, s.ids, s.canals.Keys) && NamesAgree(s)
    ensures Consistent(0, Erase(s, c).ids, Erase(s, c).canals.Keys)
    ensures NamesAgree(Erase(s, c))
  {
    FreeKeepsConsistent(0, s.ids, s.canals.Keys, c);
    assert Erase(s, c).canals.Keys == s.canals.Keys - {c};
  }

  /** After `Dismiss` the canal is gone exactly when it was marked and held nobody else. */
  lemma DismissStep(s: Indices, u: uint16, c: uint16)
    requires c in s.canals
    ensures var t := Dismiss(s, u, c);
            var gone := s.canals[c].marked && s.canals[c].users - {u} == {};
            && (c in t.canals <==> !gone)
            && (c in t.canals ==> t.canals[c] == s.canals[c].(users := s.canals[c].users - {u}))
            && (forall d :: d != c ==> (d in t.canals <==> d in s.canals))
            && (forall d :: d != c && d in s.canals ==> t.canals[d] == s.canals[d])
            && t.links.Keys == s.links.Keys
            && (forall v :: v in s.links ==> t.links[v] == if gone then s.links[v] - {c} else s.links[v])
  {
  }

  lemma DismissKeepsNames(s: Indices, u: uint16, c: uint16)
    requires c in s.canals && Consistent(0, s.ids, s.canals.Keys) && NamesAgree(s)
    ensures Consistent(0, Dismiss(s, u, c).ids, Dismiss(s, u, c).canals.Keys)
    ensures NamesAgree(Dismiss(s, u, c))
  {
    var left := s.(canals := s.canals[c := s.canals[c].(users := s.canals[c].users - {u})]);
    assert left.canals.Keys == s.canals.Keys;
    if left.canals[c].marked && left.canals[c].users == {} {
      EraseKeepsNames(left, c);
    }
  }

  lemma SmallerWithout(users: set<uint16>, u: uint16)
    ensures |users - {u}| <= |users|
  {
    if u in users {
      assert users == (users - {u}) + {u};
    } else {
      assert users - {u} == users;
    }
  }

  /** One round of the loop of `LeaveAllCanal`. */
  lemma DismissKeepsAgreeExcept(s: Indices, u: uint16, todo: set<uint16>, c: uint16)
    requires AgreeExcept(s, u, todo) && c in todo
    ensures AgreeExcept(Dismiss(s, u, c), u, todo - {c})
  {
    var t := Dismiss(s, u, c);
    assert IsMember(s, u, c);
    DismissStep(s, u, c);
    DismissKeepsNames(s, u, c);
    SmallerWithout(s.canals[c].users, u);
    forall v: uint16, d: uint16 | v != u
      ensures IsMember(t, v, d) <==> IsLinked(t, v, d)
    {
      assert IsMember(s, v, d) <==> IsLinked(s, v, d);
    }
    forall d: uint16
      ensures IsMember(t, u, d) <==> d in todo - {c}
    {
      assert IsMember(s, u, d) <==> d in todo;
    }
  }

  /** `DeleteCanal`'s loop over the links, run from `Dismiss`, can only find the user that is leaving. */
  lemma OnlyTheLeavingUserIsLinked(s: Indices, u: uint16, todo: set<uint16>, c: uint16)
    requires AgreeExcept(s, u, todo) && c in todo && s.canals[c].users - {u} == {}
    ensures forall v: uint16 :: IsLinked(s, v, c) ==> v == u
  {
    forall v: uint16 | IsLinked(s, v, c)
      ensures v == u
    {
      assert v != u ==> IsMember(s, v, c);
      assert v in s.canals[c].users ==> v !in s.canals[c].users - {u};
    }
  }

  lemma {:induction false} DismissEachKeepsAgreeExcept(s: Indices, u: uint16, todo: set<uint16>, order: seq<uint16>)
    requires AgreeExcept(s, u, todo) && Enumerates(order, todo)
    ensures AgreeExcept(DismissEach(s, u, order), u, {})
    decreases |order|
  {
    if order == [] {
      assert todo == {};
    } else {
      assert order[0] in order;
      DismissKeepsAgreeExcept(s, u, todo, order[0]);
      EnumeratesRest(order, todo);
      DismissEachKeepsAgreeExcept(Dismiss(s, u, order[0]), u, todo - {order[0]}, order[1..]);
    }
  }

  lemma EnumeratesRest(order: seq<uint16>, todo: set<uint16>)
    requires order != [] && Enumerates(order, todo)
    ensures Enumerates(order[1..], todo - {order[0]})
  {
    forall x
      ensures x in order[1..] <==> x in todo - {order[0]}
    {
      assert x in order <==> x == order[0] || x in order[1..];
    }
  }

  // ---------- every operation keeps the agreement ----------

  lemma NewIdIsFree(s: Indices)
    requires Agree(s)
    ensures Generate(s.ids).1 !in s.canals <==> |s.canals| < 0x1_0000
  {
    assert |s.canals.Keys| == |s.canals|;
    GenerateIsFresh(0, s.ids, s.canals.Keys);
  }

  lemma NewIdIsUnlinked(s: Indices)
    requires Agree(s) && |s.canals| < 0x1_0000
    ensures var id := Generate(s.ids).1; id !in s.canals && forall u :: u in s.links ==> id !in s.links[u]
  {
    var id := Generate(s.ids).1;
    NewIdIsFree(s);
    forall u | u in s.links
      ensures id !in s.links[u]
    {
      assert IsMember(s, u, id) <==> IsLinked(s, u, id);
    }
  }

  lemma CreateKeepsMirror(s: Indices, name: string, password: string, limit: int)
    requires LinksMirror(s) && name !in s.dictionary
    requires var id := Generate(s.ids).1; id !in s.canals && forall u :: u in s.links ==> id !in s.links[u]
    ensures LinksMirror(Create(s, name, password, limit))
  {
    var t := Create(s, name, password, limit);
    forall u: uint16, c: uint16
      ensures IsMember(t, u, c) <==> IsLinked(t, u, c)
    {
      assert IsMember(s, u, c) <==> IsLinked(s, u, c);
    }
  }

  lemma CreateKeepsNames(s: Indices, name: string, password: string, limit: int)
    requires NamesAgree(s) && name !in s.dictionary && Generate(s.ids).1 !in s.canals
    ensures NamesAgree(Create(s, name, password, limit))
  {
  }

  lemma CreateKeepsRooms(s: Indices, name: string, password: string, limit: int)
    requires NoneMarkedAndEmpty(s) && WithinLimits(s) && name !in s.dictionary
    ensures var t := Create(s, name, password, limit); NoneMarkedAndEmpty(t) && WithinLimits(t)
  {
  }

  lemma CreateKeepsIds(s: Indices, name: string, password: string, limit: int)
    requires Agree(s) && name !in s.dictionary
    ensures var t := Create(s, name, password, limit); Consistent(0, t.ids, t.canals.Keys) <==> |s.canals| < 0x1_0000
  {
    assert |s.canals.Keys| == |s.canals|;
    GenerateIsFresh(0, s.ids, s.canals.Keys);
    assert Create(s, name, password, limit).canals.Keys == s.canals.Keys + {Generate(s.ids).1};
  }

  /** Creating keeps the agreement exactly when the name is taken, so that nothing happens, or an id is left. */
  lemma CreateKeepsAgree(s: Indices, name: string, password: string, limit: int)
    requires Agree(s)
    ensures Agree(Create(s, name, password, limit)) <==> name in s.dictionary || |s.canals| < 0x1_0000
    ensures name !in s.dictionary && |s.canals| < 0x1_0000 ==>
              var id := Generate(s.ids).1;
              id !in s.canals && forall u :: u in s.links ==> id !in s.links[u]
  {
    if name !in s.dictionary {
      CreateKeepsIds(s, name, password, limit);
      if |s.canals| < 0x1_0000 {
        NewIdIsUnlinked(s);
        CreateKeepsMirror(s, name, password, limit);
        CreateKeepsNames(s, name, password, limit);
        CreateKeepsRooms(s, name, password, limit);
      }
    }
  }

  /** Deleting an empty canal finds no link to it. */
  lemma EmptyCanalHasNoLinks(s: Indices, c: uint16)
    requires LinksMirror(s) && c in s.canals && s.canals[c].users == {}
    ensures forall u: uint16 :: !IsLinked(s, u, c)
  {
    forall u: uint16
      ensures !IsLinked(s, u, c)
    {
      assert IsMember(s, u, c) <==> IsLinked(s, u, c);
    }
  }

  lemma DeleteKeepsMirror(s: Indices, c: uint16)
    requires LinksMirror(s) && c in s.canals
    ensures LinksMirror(Delete(s, c))
  {
    var t := Delete(s, c);
    forall u: uint16, d: uint16
      ensures IsMember(t, u, d) <==> IsLinked(t, u, d)
    {
      assert IsMember(s, u, d) <==> IsLinked(s, u, d);
      assert IsMember(s, u, c) <==> IsLinked(s, u, c);
    }
  }

  lemma DeleteKeepsAgree(s: Indices, c: uint16)
    requires Agree(s)
    ensures Agree(Delete(s, c))
  {
    if c in s.canals {
      DeleteKeepsMirror(s, c);
      if s.canals[c].users == {} {
        EraseKeepsNames(s, c);
      } else {
        assert Delete(s, c).canals.Keys == s.canals.Keys;
      }
    }
  }

  lemma JoinKeepsAgree(s: Indices, u: uint16, c: uint16, password: string)
    requires Agree(s)
    ensures Agree(Join(s, u, c, password))
  {
    var t := Join(s, u, c, password);
    if CanJoin(s, c, password) {
      assert t.canals.Keys == s.canals.Keys;
      assert |s.canals[c].users + {u}| <= |s.canals[c].users| + 1;
      forall v: uint16, d: uint16
        ensures IsMember(t, v, d) <==> IsLinked(t, v, d)
      {
        assert IsMember(s, v, d) <==> IsLinked(s, v, d);
      }
    }
  }

  lemma LeaveJoinedKeepsMirror(s: Indices, u: uint16, c: uint16)
    requires LinksMirror(s) && c in s.canals && c in LinksOf(s, u)
    ensures LinksMirror(Leave(s, u, c))
  {
    var t := Leave(s, u, c);
    var unlinked := s.(links := s.links[u := LinksOf(s, u) - {c}]);
    DismissStep(unlinked, u, c);
    forall v: uint16, d: uint16
      ensures IsMember(t, v, d) <==> IsLinked(t, v, d)
    {
      assert IsMember(s, v, d) <==> IsLinked(s, v, d);
    }
  }

  lemma LeaveJoinedKeepsAgree(s: Indices, u: uint16, c: uint16)
    requires Agree(s) && c in s.canals && c in LinksOf(s, u)
    ensures Agree(Leave(s, u, c))
  {
    assert IsMember(s, u, c) <==> IsLinked(s, u, c);
    var unlinked := s.(links := s.links[u := LinksOf(s, u) - {c}]);
    LeaveJoinedKeepsMirror(s, u, c);
    DismissStep(unlinked, u, c);
    DismissKeepsNames(unlinked, u, c);
    SmallerWithout(s.canals[c].users, u);
  }

  lemma LeaveKeepsAgree(s: Indices, u: uint16, c: uint16)
    requires Agree(s)
    ensures Agree(Leave(s, u, c))
  {
    if c in s.canals && c in LinksOf(s, u) {
      LeaveJoinedKeepsAgree(s, u, c);
    } else {
      var t := Leave(s, u, c);
      forall v: uint16, d: uint16
        ensures IsMember(t, v, d) <==> IsLinked(t, v, d)
      {
        assert IsMember(s, v, d) <==> IsLinked(s, v, d);
      }
    }
  }

  lemma AgreeStartsLeaving(s: Indices, u: uint16)
    requires Agree(s) && u in s.links
    ensures AgreeExcept(s, u, s.links[u])
  {
    forall c: uint16
      ensures IsMember(s, u, c) <==> c in s.links[u]
    {
      assert IsMember(s, u, c) <==> IsLinked(s, u, c);
    }
  }

  lemma LeaveAllKeepsAgree(s: Indices, u: uint16, order: seq<uint16>)
    requires Agree(s) && (u in s.links ==> Enumerates(order, s.links[u]))
    ensures Agree(LeaveAll(s, u, order))
    ensures u !in LeaveAll(s, u, order).links
  {
    if u in s.links {
      AgreeStartsLeaving(s, u);
      DismissEachKeepsAgreeExcept(s, u, s.links[u], order);
      var gone := DismissEach(s, u, order);
      var t := LeaveAll(s, u, order);
      forall v: uint16, c: uint16
        ensures IsMember(t, v, c) <==> IsLinked(t, v, c)
      {
        assert v != u ==> (IsMember(gone, v, c) <==> IsLinked(gone, v, c));
        assert !IsMember(gone, u, c);
      }
    }
  }

  /** `Update` looks for canals both marked and empty; where the indices agree there are none. */
  function SweepTargets(s: Indices): set<uint16> {
    set c | c in s.canals && s.canals[c].marked && s.canals[c].users == {}
  }

  lemma SweepFindsNothing(s: Indices)
    requires Agree(s)
    ensures SweepTargets(s) == {}
  {
  }
}
