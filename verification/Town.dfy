/**
 The server without its indices: who is connected, which rooms there are, and who is in
 which. Every step of `ServerSpec` is a step of this town.
 */
module Town {
  import opened Common
  import opened IdGenerator
  import opened Membership
  import opened World
  import opened ServerSpec

  datatype Town = Town(users: set<uint16>, world: World)

  function TownOf(s: Server): Town {
    Town(s.users.Keys, View(s.index))
  }

  function MembershipsOfAll(w: World, us: set<uint16>): set<(uint16, uint16)> {
    set m | m in w.members && m.0 in us
  }

  /** Some users go, and with them everything they were in. */
  function Departs(t: Town, us: set<uint16>): Town {
    Town(t.users - us, Vacates(t.world, MembershipsOfAll(t.world, us)))
  }

  /** What a command does to the town; `pending` are the removals waiting for `Update`. */
  ghost predicate TownNext(t: Town, pending: set<uint16>, cmd: Command, t': Town) {
    match cmd
    case AddUser(_) => exists id: uint16 :: id !in t.users && t' == t.(users := t.users + {id})
    case RemoveUser(_) => t' == t
    case RemoveUserInstant(u) => t' == Departs(t, {u})
    case Update => t' == Departs(t, pending)
    case CreateCanal(_, name, password, limit, _) =>
      t'.users == t.users && Creates(t.world, t'.world, name, password, limit)
    case DeleteCanal(_, c) => t' == t.(world := Deletes(t.world, c))
    case JoinCanal(u, c, password) => t' == t.(world := Joins(t.world, u, c, password))
    case LeaveCanal(u, c) => t' == t.(world := Vacates(t.world, {(u, c)}))
    case MessageCanal(_, _, _) => t' == t
  }

  /** Users that are not connected are in no room. */
  lemma StrangersAreNowhere(s: Server, us: set<uint16>)
    requires ServerAgrees(s) && us !! s.users.Keys
    ensures Departs(TownOf(s), us) == TownOf(s)
  {
    var w := View(s.index);
    forall m | m in w.members
      ensures m.0 in s.users
    {
      assert IsMember(s.index, m.0, m.1) ==> IsLinked(s.index, m.0, m.1);
    }
    assert MembershipsOfAll(w, us) == {};
    VacatesNobody(s.index, {});
    assert s.users.Keys - us == s.users.Keys;
  }

  lemma RemovesIsDeparture(s: Server, u: uint16, s': Server)
    requires ServerAgrees(s) && Removes(s, u, s')
    ensures TownOf(s') == Departs(TownOf(s), {u})
  {
    RemoveKeepsAgrees(s, u, s');
    if u in s.users {
      assert MembershipsOf(View(s.index), u) == MembershipsOfAll(View(s.index), {u});
    } else {
      StrangersAreNowhere(s, {u});
    }
  }

  lemma DepartsTwice(t: Town, us: set<uint16>, vs: set<uint16>)
    ensures Departs(Departs(t, us), vs) == Departs(t, us + vs)
  {
    var gone := MembershipsOfAll(t.world, us);
    var mid := Vacates(t.world, gone);
    var later := MembershipsOfAll(mid, vs);
    VacatesTwice(t.world, gone, later);
    assert t.world.members - (gone + later) == t.world.members - MembershipsOfAll(t.world, us + vs);
    SameVacancy(t.world, gone + later, MembershipsOfAll(t.world, us + vs));
    assert (t.users - us) - vs == t.users - (us + vs);
  }

  lemma SameVacancy(w: World, a: set<(uint16, uint16)>, b: set<(uint16, uint16)>)
    requires w.members - a == w.members - b
    ensures Vacates(w, a) == Vacates(w, b)
  {
  }

  lemma DepartsOneThenRest(t: Town, ids: seq<uint16>)
    requires ids != []
    ensures Departs(Departs(t, {ids[0]}), set u | u in ids[1..]) == Departs(t, set u | u in ids)
  {
    DepartsTwice(t, {ids[0]}, set u | u in ids[1..]);
    assert (set u | u in ids) == {ids[0]} + (set u | u in ids[1..]);
  }

  lemma {:induction false} RemovesEachIsDeparture(s: Server, ids: seq<uint16>, s': Server)
    requires ServerAgrees(s) && RemovesEach(s, ids, s')
    ensures TownOf(s') == Departs(TownOf(s), set u | u in ids)
    decreases |ids|
  {
    if ids == [] {
      StrangersAreNowhere(s, set u | u in ids);
    } else {
      var mid :| Removes(s, ids[0], mid) && RemovesEach(mid, ids[1..], s');
      RemoveKeepsAgrees(s, ids[0], mid);
      RemovesIsDeparture(s, ids[0], mid);
      RemovesEachIsDeparture(mid, ids[1..], s');
      DepartsOneThenRest(TownOf(s), ids);
    }
  }

  lemma AddRefinesTown(s: Server, handle: Handle)
    requires ServerAgrees(s) && Enabled(s, AddUser(handle))
    ensures TownNext(TownOf(s), (set u | u in s.pending), AddUser(handle), TownOf(Added(s, handle)))
  {
    var id := Generate(s.userIds).1;
    NewUserStartsClean(s);
    var s' := Added(s, handle);
    assert s'.users.Keys == s.users.Keys + {id};
    assert id !in TownOf(s).users && TownOf(s') == TownOf(s).(users := TownOf(s).users + {id});
  }

  lemma CanalNextRefinesTown(s: Server, cmd: Command, s': Server)
    requires ServerAgrees(s) && Enabled(s, cmd) && Next(s, cmd, s') && IsAboutCanals(cmd)
    ensures TownNext(TownOf(s), (set u | u in s.pending), cmd, TownOf(s'))
  {
    match cmd {
      case CreateCanal(u, name, password, limit, scrap) => CreateRefines(s.index, name, password, limit);
      case DeleteCanal(u, c) => DeleteRefines(s.index, c);
      case JoinCanal(u, c, password) => JoinRefines(s.index, u, c, password);
      case LeaveCanal(u, c) => LeaveRefines(s.index, u, c);
      case MessageCanal(u, c, text) =>
    }
  }

  /** Every step of the server, over all its redundant indices, is the step of the town. */
  lemma NextRefinesTown(s: Server, cmd: Command, s': Server)
    requires ServerAgrees(s) && Enabled(s, cmd) && Next(s, cmd, s')
    ensures TownNext(TownOf(s), (set u | u in s.pending), cmd, TownOf(s'))
  {
    match cmd {
      case AddUser(handle) => AddRefinesTown(s, handle);
      case RemoveUser(u) =>
      case RemoveUserInstant(u) => RemovesIsDeparture(s, u, s');
      case Update =>
        var mid :| RemovesEach(s, s.pending, mid) && s' == mid.(pending := []);
        RemovesEachIsDeparture(s, s.pending, mid);
      case _ => CanalNextRefinesTown(s, cmd, s');
    }
  }
}
