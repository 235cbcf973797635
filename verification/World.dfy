/**
 What the canal indices are for, without indices: rooms, and one relation saying
 who is in which room. Every operation on the indices is one step of this world.
 */
module World {
  import opened Common
  import opened IdGenerator
  import opened Membership

  datatype Room = Room(name: string, password: string, limit: int, marked: bool)

  datatype World = World(rooms: map<uint16, Room>, members: set<(uint16, uint16)>)

  function RoomOf(d: CanalData): Room {
    Room(d.name, d.password, d.limit, d.marked)
  }

  function View(s: Indices): World {
    World(map c | c in s.canals :: RoomOf(s.canals[c]),
          set c, u | c in s.canals && u in s.canals[c].users :: (u, c))
  }

  /** How many are in room `c`. */
  function Inside(w: World, c: uint16): set<uint16> {
    set m | m in w.members && m.1 == c :: m.0
  }

  // ---------- steps of the world ----------

  predicate NameTaken(w: World, name: string) {
    exists c :: c in w.rooms && w.rooms[c].name == name
  }

  /** A new room with a number no room has, unless the name is taken. */
  ghost predicate Creates(w: World, w': World, name: string, password: string, limit: int) {
    if NameTaken(w, name) then w' == w
    else exists id: uint16 :: id !in w.rooms && w' == w.(rooms := w.rooms[id := Room(name, password, limit, false)])
  }

  /** An empty room goes; another is marked. */
  function Deletes(w: World, c: uint16): World {
    if c !in w.rooms then w
    else if Inside(w, c) == {} then w.(rooms := w.rooms - {c})
    else w.(rooms := w.rooms[c := w.rooms[c].(marked := true)])
  }

  predicate HasRoomFor(w: World, c: uint16, password: string) {
    && c in w.rooms && w.rooms[c].password == password
    && (w.rooms[c].limit == -1 || |Inside(w, c)| != w.rooms[c].limit)
  }

  function Joins(w: World, u: uint16, c: uint16, password: string): World {
    if HasRoomFor(w, c, password) then w.(members := w.members + {(u, c)}) else w
  }

  /** Some pairs leave the relation; marked rooms left without anybody go with them. */
  function Vacates(w: World, leaving: set<(uint16, uint16)>): World {
    var stay := w.members - leaving;
    World(map c | c in w.rooms && !(w.rooms[c].marked && Inside(w.(members := stay), c) == {}) :: w.rooms[c], stay)
  }

  function MembershipsOf(w: World, u: uint16): set<(uint16, uint16)> {
    set m | m in w.members && m.0 == u
  }

  // ---------- the indices take these steps ----------

  lemma InsideIsUsers(s: Indices, c: uint16)
    ensures Inside(View(s), c) == if c in s.canals then s.canals[c].users else {}
  {
    var w := View(s);
    if c in s.canals {
      forall u
        ensures u in Inside(w, c) <==> u in s.canals[c].users
      {
        if u in s.canals[c].users {
          assert (u, c) in w.members;
        }
      }
    }
  }

  lemma CreateRefines(s: Indices, name: string, password: string, limit: int)
    requires Agree(s) && (name in s.dictionary || |s.canals| < 0x1_0000)
    ensures Creates(View(s), View(Create(s, name, password, limit)), name, password, limit)
  {
    var w := View(s);
    if name in s.dictionary {
      var c := s.dictionary[name];
      assert c in w.rooms && w.rooms[c].name == name;
    } else {
      var id := Generate(s.ids).1;
      CreateAddsRoom(s, name, password, limit);
      assert !NameTaken(w, name);
      assert id !in w.rooms;
    }
  }

  lemma CreateAddsRoom(s: Indices, name: string, password: string, limit: int)
    requires Agree(s) && name !in s.dictionary && |s.canals| < 0x1_0000
    ensures var id := Generate(s.ids).1;
            && id !in s.canals
            && View(Create(s, name, password, limit))
               == View(s).(rooms := View(s).rooms[id := Room(name, password, limit, false)])
  {
    var id := Generate(s.ids).1;
    var w, v := View(s), View(Create(s, name, password, limit));
    NewIdIsUnlinked(s);
    assert v.rooms == w.rooms[id := Room(name, password, limit, false)];
    assert v.members == w.members;
  }

  lemma DeleteRefines(s: Indices, c: uint16)
    ensures View(Delete(s, c)) == Deletes(View(s), c)
  {
    InsideIsUsers(s, c);
    var w, v := View(s), View(Delete(s, c));
    if c in s.canals {
      assert v.members == w.members;
      assert v.rooms == Deletes(w, c).rooms;
    }
  }

  lemma JoinRefines(s: Indices, u: uint16, c: uint16, password: string)
    ensures View(Join(s, u, c, password)) == Joins(View(s), u, c, password)
  {
    InsideIsUsers(s, c);
    var w, v := View(s), View(Join(s, u, c, password));
    if CanJoin(s, c, password) {
      assert v.rooms == w.rooms;
      assert v.members == w.members + {(u, c)};
    }
  }

  lemma MembersAre(s: Indices)
    ensures forall v: uint16, d: uint16 :: (v, d) in View(s).members <==> IsMember(s, v, d)
  {
  }

  lemma DismissTakesOnePair(s: Indices, u: uint16, c: uint16)
    requires c in s.canals
    ensures View(Dismiss(s, u, c)).members == View(s).members - {(u, c)}
  {
    var t := Dismiss(s, u, c);
    DismissStep(s, u, c);
    MembersAre(s);
    MembersAre(t);
    forall v: uint16, d: uint16
      ensures (v, d) in View(t).members <==> (v, d) in View(s).members - {(u, c)}
    {
      assert v != u ==> (v in s.canals[c].users <==> v in s.canals[c].users - {u});
      assert IsMember(t, v, d) <==> IsMember(s, v, d) && (v, d) != (u, c);
    }
  }

  lemma DismissTakesTheRoom(s: Indices, u: uint16, c: uint16)
    requires NoneMarkedAndEmpty(s) && c in s.canals
    ensures View(Dismiss(s, u, c)).rooms == Vacates(View(s), {(u, c)}).rooms
  {
    var w := View(s);
    var stay := w.(members := w.members - {(u, c)});
    DismissStep(s, u, c);
    forall d | d in s.canals
      ensures Inside(stay, d) == if d == c then s.canals[d].users - {u} else s.canals[d].users
    {
      InsideIsUsers(s, d);
      InsideWithout(w, {(u, c)}, d);
    }
  }

  /** `Dismiss` takes one pair out of the relation. */
  lemma DismissRefines(s: Indices, u: uint16, c: uint16)
    requires NoneMarkedAndEmpty(s) && c in s.canals
    ensures View(Dismiss(s, u, c)) == Vacates(View(s), {(u, c)})
  {
    DismissTakesOnePair(s, u, c);
    DismissTakesTheRoom(s, u, c);
  }

  lemma InsideWithout(w: World, leaving: set<(uint16, uint16)>, c: uint16)
    ensures forall u: uint16 ::
              u in Inside(w.(members := w.members - leaving), c) <==> u in Inside(w, c) && (u, c) !in leaving
  {
    forall u: uint16
      ensures u in Inside(w.(members := w.members - leaving), c) <==> u in Inside(w, c) && (u, c) !in leaving
    {
      if u in Inside(w, c) {
        assert (u, c) in w.members;
      }
    }
  }

  lemma LeaveRefines(s: Indices, u: uint16, c: uint16)
    requires Agree(s)
    ensures View(Leave(s, u, c)) == Vacates(View(s), {(u, c)})
  {
    assert IsMember(s, u, c) <==> IsLinked(s, u, c);
    if c in s.canals && c in LinksOf(s, u) {
      var unlinked := s.(links := s.links[u := LinksOf(s, u) - {c}]);
      assert View(unlinked) == View(s);
      DismissRefines(unlinked, u, c);
    } else {
      assert View(Leave(s, u, c)) == View(s);
      VacatesNobody(s, {(u, c)});
    }
  }

  /** Taking out pairs that are not there changes nothing. */
  lemma VacatesNobody(s: Indices, leaving: set<(uint16, uint16)>)
    requires NoneMarkedAndEmpty(s) && View(s).members !! leaving
    ensures Vacates(View(s), leaving) == View(s)
  {
    var w := View(s);
    assert w.members - leaving == w.members;
    forall c | c in s.canals
      ensures Inside(w, c) == s.canals[c].users
    {
      InsideIsUsers(s, c);
    }
    assert Vacates(w, leaving).rooms == w.rooms;
  }

  /** Leaving in two steps is leaving in one. */
  lemma VacatesTwice(w: World, first: set<(uint16, uint16)>, second: set<(uint16, uint16)>)
    ensures Vacates(Vacates(w, first), second) == Vacates(w, first + second)
  {
    var mid, end := Vacates(w, first), Vacates(w, first + second);
    assert (w.members - first) - second == w.members - (first + second);
    forall c | c in w.rooms && Inside(w.(members := w.members - first), c) == {}
      ensures Inside(w.(members := end.members), c) == {}
    {
      InsideWithout(w, first, c);
      InsideWithout(w, first + second, c);
    }
    forall c
      ensures Inside(mid.(members := end.members), c) == Inside(w.(members := end.members), c)
    {
    }
    assert Vacates(mid, second).rooms == end.rooms;
  }

  function Pairs(u: uint16, cs: seq<uint16>): set<(uint16, uint16)> {
    set c | c in cs :: (u, c)
  }

  /** The loop of `LeaveAllCanal` takes all its pairs out, in whatever order it visits them. */
  lemma {:induction false} DismissEachRefines(s: Indices, u: uint16, todo: set<uint16>, order: seq<uint16>)
    requires AgreeExcept(s, u, todo) && Enumerates(order, todo)
    ensures View(DismissEach(s, u, order)) == Vacates(View(s), Pairs(u, order))
    decreases |order|
  {
    if order == [] {
      VacatesNobody(s, Pairs(u, order));
    } else {
      var c := order[0];
      assert c in order;
      assert IsMember(s, u, c);
      DismissRefines(s, u, c);
      DismissKeepsAgreeExcept(s, u, todo, c);
      EnumeratesRest(order, todo);
      DismissEachRefines(Dismiss(s, u, c), u, todo - {c}, order[1..]);
      VacatesTwice(View(s), {(u, c)}, Pairs(u, order[1..]));
      assert forall x :: x in order <==> x == c || x in order[1..];
      assert Pairs(u, order) == {(u, c)} + Pairs(u, order[1..]);
    }
  }

  /** `LeaveAllCanal` ends all memberships of the user at once: the order it visits them in does not show. */
  lemma LeaveAllRefines(s: Indices, u: uint16, order: seq<uint16>)
    requires Agree(s) && (u in s.links ==> Enumerates(order, s.links[u]))
    ensures View(LeaveAll(s, u, order)) == Vacates(View(s), MembershipsOf(View(s), u))
  {
    var w := View(s);
    var mine := MembershipsOf(w, u);
    assert forall c: uint16 :: IsMember(s, u, c) <==> IsLinked(s, u, c);
    if u in s.links {
      AgreeStartsLeaving(s, u);
      DismissEachRefines(s, u, s.links[u], order);
      assert View(LeaveAll(s, u, order)) == View(DismissEach(s, u, order));
      forall m
        ensures m in mine <==> m in Pairs(u, order)
      {
        assert m.0 == u && IsMember(s, u, m.1) ==> m in w.members;
      }
      assert mine == Pairs(u, order);
    } else {
      forall m | m in mine
        ensures false
      {
        assert IsMember(s, u, m.1);
      }
      VacatesNobody(s, mine);
    }
  }
}
