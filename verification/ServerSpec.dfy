/**
 The whole server as a state machine: users, their id generator and pending removals,
 the canal indices, and the record of every event handed to a user. One command is
 one step; hash-set iteration orders are left open.
 */
module ServerSpec {
  import opened Common
  import opened IdGenerator
  import opened Membership
  import opened World

  /** A pointer to an `AUser`. */
  type Handle = nat

  datatype Event = Event(error: bool, canalID: uint16, eventCode: uint16, data: string)

  /** One call of `user->Receive(event)`. */
  datatype Delivery = Delivery(user: uint16, event: Event)

  const USER_CONNECTED: uint16 := 100
  const MSG_CANAL: uint16 := 200
  const JOIN_CANAL: uint16 := 202
  const LEAVE_CANAL: uint16 := 203
  const CREATE_CANAL: uint16 := 204
  const DELETE_CANAL: uint16 := 205
  const CANAL_DELETED: uint16 := 299

  datatype Server = Server(
    users: map<uint16, Handle>,
    userIds: Ids,
    pending: seq<uint16>,
    index: Indices,
    delivered: seq<Delivery>)

  const EMPTY_SERVER := Server(map[], Ids(0, []), [], NO_CANALS, [])

  // ---------- events ----------

  /** `SendEvent(id, event)`: dropped unless the user is still there. */
  function Send(users: map<uint16, Handle>, u: uint16, e: Event): seq<Delivery> {
    if u in users then [Delivery(u, e)] else []
  }

  function SendEach(users: map<uint16, Handle>, order: seq<uint16>, e: Event): (r: seq<Delivery>)
    decreases |order|
  {
    if order == [] then [] else Send(users, order[0], e) + SendEach(users, order[1..], e)
  }

  function Told(s: Server, u: uint16, e: Event): Server {
    s.(delivered := s.delivered + Send(s.users, u, e))
  }

  /** `scrap` is the id the source sends uninitialised when the canal exists already. */
  function CreateReply(s: Indices, name: string, password: string, limit: int, scrap: uint16): Event {
    if name in s.dictionary then Event(true, scrap, CREATE_CANAL, "Cannot create canal: Canal already exist")
    else
      Event(false, Generate(s.ids).1, CREATE_CANAL, CreationText(password, limit))
  }

  function CreationText(password: string, limit: int): string {
    "Canal created"
    + (if password != "" then
         " with password"
         + (if limit != -1 then " and a user limit set to " + IntText(limit) else "")
       else if limit != -1 then " with a user limit set to " + IntText(limit) else "")
  }

  function DeleteReply(s: Indices, c: uint16): Event {
    if c !in s.canals then Event(true, c, DELETE_CANAL, "Cannot delete canal: Canal does not exist")
    else if s.canals[c].users == {} then Event(false, c, DELETE_CANAL, "Canal deleted")
    else Event(false, c, DELETE_CANAL, "Canal marked for deletion")
  }

  function JoinReply(s: Indices, c: uint16, password: string): Event {
    if c !in s.canals then Event(true, 0, JOIN_CANAL, "Cannot join canal: Canal does not exist")
    else if s.canals[c].password != password then Event(true, 0, JOIN_CANAL, "Cannot join canal: Password is incorrect")
    else if s.canals[c].IsFull() then Event(true, 0, JOIN_CANAL, "Cannot join canal: Canal is full")
    else Event(false, c, JOIN_CANAL, "Canal joined")
  }

  function LeaveReply(s: Indices, u: uint16, c: uint16): Event {
    if c !in s.canals then Event(true, c, LEAVE_CANAL, "Cannot leave canal: Canal does not exist")
    else if c !in LinksOf(s, u) then Event(true, c, LEAVE_CANAL, "Cannot leave canal: User has not joined it yet")
    else Event(false, c, LEAVE_CANAL, "Canal leaved")
  }

  function MessageEvent(c: uint16, text: string): Event {
    Event(false, c, MSG_CANAL, text)
  }

  // ---------- commands ----------

  datatype Command =
    | AddUser(handle: Handle)
    | RemoveUser(user: uint16)
    | RemoveUserInstant(user: uint16)
    | Update
    | CreateCanal(user: uint16, name: string, password: string, limit: int, scrap: uint16)
    | DeleteCanal(user: uint16, canal: uint16)
    | JoinCanal(user: uint16, canal: uint16, password: string)
    | LeaveCanal(user: uint16, canal: uint16)
    | MessageCanal(user: uint16, canal: uint16, text: string)

  /** Requests come from live users, and there is an id left for what is created. */
  predicate Enabled(s: Server, cmd: Command) {
    match cmd
    case AddUser(_) => |s.users| < 0x1_0000
    case CreateCanal(u, name, _, _, _) => u in s.users && (name in s.index.dictionary || |s.index.canals| < 0x1_0000)
    case DeleteCanal(u, _) => u in s.users
    case JoinCanal(u, _, _) => u in s.users
    case LeaveCanal(u, _) => u in s.users
    case MessageCanal(u, _, _) => u in s.users
    case _ => true
  }

  /** `InternalAddUser`: the user is told its id, then enters the set. */
  function Added(s: Server, handle: Handle): Server {
    var (ids, id) := Generate(s.userIds);
    s.(userIds := ids,
       users := if id in s.users then s.users else s.users[id := handle],
       delivered := s.delivered + [Delivery(id, Event(false, 0, USER_CONNECTED, ""))])
  }

  /** `RemoveUserInstant`, when `LeaveAllCanal` visits the links in this order. */
  function Removed(s: Server, u: uint16, order: seq<uint16>): Server {
    if u !in s.users then s
    else s.(users := s.users - {u}, userIds := Free(s.userIds, u), index := LeaveAll(s.index, u, order))
  }

  ghost predicate Removes(s: Server, u: uint16, s': Server) {
    exists order :: (u in s.users && u in s.index.links ==> Enumerates(order, s.index.links[u]))
        && s' == Removed(s, u, order)
  }

  /** The loop of `Update` over the pending removals. */
  ghost predicate RemovesEach(s: Server, ids: seq<uint16>, s': Server)
    decreases |ids|
  {
    if ids == [] then s' == s
    else exists mid :: Removes(s, ids[0], mid) && RemovesEach(mid, ids[1..], s')
  }

  /** `MessageCanal`: to an unknown canal nothing happens; an outsider is told so; a member reaches the others. */
  ghost predicate Messages(s: Server, u: uint16, c: uint16, text: string, s': Server) {
    if c !in s.index.canals then s' == s
    else if u !in s.index.canals[c].users then
      s' == Told(s, u, Event(true, c, MSG_CANAL, "Cannot message canal: User has not joined it yet"))
    else exists order ::
      && Enumerates(order, s.index.canals[c].users - {u})
      && s' == s.(delivered := s.delivered + SendEach(s.users, order, MessageEvent(c, text)))
  }

  ghost predicate Next(s: Server, cmd: Command, s': Server) {
    match cmd
    case AddUser(handle) => s' == Added(s, handle)
    case RemoveUser(u) => s' == s.(pending := s.pending + [u])
    case RemoveUserInstant(u) => Removes(s, u, s')
    case Update => exists mid :: RemovesEach(s, s.pending, mid) && s' == mid.(pending := [])
    case CreateCanal(u, name, password, limit, scrap) =>
      s' == Told(s, u, CreateReply(s.index, name, password, limit, scrap))
            .(index := Create(s.index, name, password, limit))
    case DeleteCanal(u, c) => s' == Told(s, u, DeleteReply(s.index, c)).(index := Delete(s.index, c))
    case JoinCanal(u, c, password) =>
      s' == Told(s, u, JoinReply(s.index, c, password)).(index := Join(s.index, u, c, password))
    case LeaveCanal(u, c) => s' == Told(s, u, LeaveReply(s.index, u, c)).(index := Leave(s.index, u, c))
    case MessageCanal(u, c, text) => Messages(s, u, c, text, s')
  }

  // ---------- the invariant ----------

  /**
   Users and canals hold exactly the ids their generators have out, the canal indices agree, and
   only live users have links.
   */
  ghost predicate ServerAgrees(s: Server) {
    && Consistent(0, s.userIds, s.users.Keys)
    && Agree(s.index)
    && s.index.links.Keys <= s.users.Keys
  }

  lemma EmptyServerAgrees()
    ensures ServerAgrees(EMPTY_SERVER)
  {
  }

  lemma NewUserIdIsFree(s: Server)
    requires ServerAgrees(s)
    ensures |s.users.Keys| == |s.users|
    ensures Generate(s.userIds).1 !in s.users <==> |s.users| < 0x1_0000
  {
    assert |s.users.Keys| == |s.users|;
    GenerateIsFresh(0, s.userIds, s.users.Keys);
  }

  /** A connection keeps the server in agreement exactly when an id is left for it. */
  lemma AddKeepsAgrees(s: Server, handle: Handle)
    requires ServerAgrees(s)
    ensures ServerAgrees(Added(s, handle)) <==> |s.users| < 0x1_0000
  {
    var id := Generate(s.userIds).1;
    NewUserIdIsFree(s);
    GenerateIsFresh(0, s.userIds, s.users.Keys);
    assert Added(s, handle).users.Keys == s.users.Keys + {id};
  }

  lemma {:induction false} DismissEachLinks(s: Indices, u: uint16, order: seq<uint16>)
    ensures DismissEach(s, u, order).links.Keys == s.links.Keys
    decreases |order|
  {
    if order != [] {
      if order[0] in s.canals {
        DismissStep(s, u, order[0]);
      }
      DismissEachLinks(Dismiss(s, u, order[0]), u, order[1..]);
    }
  }

  lemma RemoveKeepsAgrees(s: Server, u: uint16, s': Server)
    requires ServerAgrees(s) && Removes(s, u, s')
    ensures ServerAgrees(s')
    ensures u !in s'.users && u !in s'.index.links
    ensures s'.users == s.users - {u} && s'.delivered == s.delivered && s'.pending == s.pending
    ensures View(s'.index)
            == if u in s.users then Vacates(View(s.index), MembershipsOf(View(s.index), u)) else View(s.index)
  {
    if u in s.users {
      var order :| (u in s.users && u in s.index.links ==> Enumerates(order, s.index.links[u]))
          && s' == Removed(s, u, order);
      FreeKeepsConsistent(0, s.userIds, s.users.Keys, u);
      LeaveAllKeepsAgree(s.index, u, order);
      LeaveAllRefines(s.index, u, order);
      DismissEachLinks(s.index, u, order);
      assert s'.users.Keys == s.users.Keys - {u};
    } else {
      assert s.users - {u} == s.users;
    }
  }

  lemma WithoutOneThenRest(users: map<uint16, Handle>, ids: seq<uint16>)
    requires ids != []
    ensures (users - {ids[0]}) - (set u | u in ids[1..]) == users - (set u | u in ids)
  {
    assert (set u | u in ids) == {ids[0]} + (set u | u in ids[1..]);
  }

  lemma {:induction false} RemoveEachKeepsAgrees(s: Server, ids: seq<uint16>, s': Server)
    requires ServerAgrees(s) && RemovesEach(s, ids, s')
    ensures ServerAgrees(s')
    ensures s'.users == s.users - (set u | u in ids)
    ensures s'.delivered == s.delivered && s'.pending == s.pending
    decreases |ids|
  {
    if ids == [] {
      assert s.users - (set u | u in ids) == s.users;
    } else {
      var mid :| Removes(s, ids[0], mid) && RemovesEach(mid, ids[1..], s');
      RemoveKeepsAgrees(s, ids[0], mid);
      RemoveEachKeepsAgrees(mid, ids[1..], s');
      WithoutOneThenRest(s.users, ids);
    }
  }

  lemma DeleteLinks(s: Indices, c: uint16)
    ensures Delete(s, c).links.Keys == s.links.Keys
  {
  }

  lemma LeaveLinks(s: Indices, u: uint16, c: uint16)
    ensures Leave(s, u, c).links.Keys <= s.links.Keys + {u}
  {
    if c in s.canals && c in LinksOf(s, u) {
      DismissStep(s.(links := s.links[u := LinksOf(s, u) - {c}]), u, c);
    }
  }

  lemma DeleteKeepsAgrees(s: Server, c: uint16)
    requires ServerAgrees(s)
    ensures Agree(Delete(s.index, c)) && Delete(s.index, c).links.Keys <= s.users.Keys
  {
    DeleteKeepsAgree(s.index, c);
    DeleteLinks(s.index, c);
  }

  lemma CreateKeepsAgrees(s: Server, name: string, password: string, limit: int)
    requires ServerAgrees(s) && (name in s.index.dictionary || |s.index.canals| < 0x1_0000)
    ensures var t := Create(s.index, name, password, limit); Agree(t) && t.links.Keys <= s.users.Keys
  {
    CreateKeepsAgree(s.index, name, password, limit);
  }

  lemma JoinKeepsAgrees(s: Server, u: uint16, c: uint16, password: string)
    requires ServerAgrees(s) && u in s.users
    ensures var t := Join(s.index, u, c, password); Agree(t) && t.links.Keys <= s.users.Keys
  {
    JoinKeepsAgree(s.index, u, c, password);
  }

  lemma LeaveKeepsAgrees(s: Server, u: uint16, c: uint16)
    requires ServerAgrees(s) && u in s.users
    ensures Agree(Leave(s.index, u, c)) && Leave(s.index, u, c).links.Keys <= s.users.Keys
  {
    LeaveKeepsAgree(s.index, u, c);
    LeaveLinks(s.index, u, c);
  }

  /** Every command keeps the server in agreement. */
  lemma NextKeepsAgrees(s: Server, cmd: Command, s': Server)
    requires ServerAgrees(s) && Enabled(s, cmd) && Next(s, cmd, s')
    ensures ServerAgrees(s')
  {
    match cmd {
      case AddUser(handle) => AddKeepsAgrees(s, handle);
      case RemoveUser(u) =>
      case RemoveUserInstant(u) => RemoveKeepsAgrees(s, u, s');
      case Update =>
        var mid :| RemovesEach(s, s.pending, mid) && s' == mid.(pending := []);
        RemoveEachKeepsAgrees(s, s.pending, mid);
      case _ => CanalNextKeepsAgrees(s, cmd, s');
    }
  }

  /** The commands about canals. */
  predicate IsAboutCanals(cmd: Command) {
    cmd.CreateCanal? || cmd.DeleteCanal? || cmd.JoinCanal? || cmd.LeaveCanal? || cmd.MessageCanal?
  }

  lemma CanalNextKeepsAgrees(s: Server, cmd: Command, s': Server)
    requires ServerAgrees(s) && Enabled(s, cmd) && Next(s, cmd, s') && IsAboutCanals(cmd)
    ensures ServerAgrees(s')
  {
    match cmd {
      case CreateCanal(u, name, password, limit, scrap) => CreateKeepsAgrees(s, name, password, limit);
      case DeleteCanal(u, c) => DeleteKeepsAgrees(s, c);
      case JoinCanal(u, c, password) => JoinKeepsAgrees(s, u, c, password);
      case LeaveCanal(u, c) => LeaveKeepsAgrees(s, u, c);
      case MessageCanal(u, c, text) =>
    }
  }

  // ---------- runs ----------

  /** A run: the states a server goes through under a list of commands, from start-up. */
  ghost predicate IsRun(states: seq<Server>, cmds: seq<Command>) {
    && |states| == |cmds| + 1
    && states[0] == EMPTY_SERVER
    && forall i :: 0 <= i < |cmds| ==> Enabled(states[i], cmds[i]) && Next(states[i], cmds[i], states[i + 1])
  }

  lemma {:induction false} RunAgrees(states: seq<Server>, cmds: seq<Command>, i: nat)
    requires IsRun(states, cmds) && i < |states|
    ensures ServerAgrees(states[i])
  {
    if i > 0 {
      RunAgrees(states, cmds, i - 1);
      NextKeepsAgrees(states[i - 1], cmds[i - 1], states[i]);
    }
  }

  /** The ids in use are those the generator has counted off and that do not wait in its queue. */
  ghost predicate AreOut(ids: Ids, used: set<uint16>) {
    forall id: uint16 :: id in used <==> id < |used| + |ids.freed| && id !in ids.freed
  }

  /**
   Whole-server safety, in every state of every run: members of canals are live users in
   existing canals, the two sides of the membership relation agree, names and canals are in
   bijection, limits hold, and nothing waits to be swept.
   */
  lemma RunIsSafe(states: seq<Server>, cmds: seq<Command>, i: nat)
    requires IsRun(states, cmds) && i < |states|
    ensures var s := states[i];
            && (forall m :: m in View(s.index).members ==> m.0 in s.users && m.1 in s.index.canals)
            && LinksMirror(s.index)
            && NamesAgree(s.index)
            && WithinLimits(s.index)
            && SweepTargets(s.index) == {}
            && AreOut(s.userIds, s.users.Keys)
            && AreOut(s.index.ids, s.index.canals.Keys)
  {
    RunAgrees(states, cmds, i);
    var s := states[i];
    IdsAreOut(s.userIds, s.users.Keys);
    IdsAreOut(s.index.ids, s.index.canals.Keys);
    MembersAreUsers(s);
  }

  lemma IdsAreOut(ids: Ids, used: set<uint16>)
    requires Consistent(0, ids, used)
    ensures AreOut(ids, used)
  {
    ConsistentIsCyclic(0, ids, used);
    assert forall id: uint16 :: Offset(0, id) == id;
  }

  lemma MembersAreUsers(s: Server)
    requires ServerAgrees(s)
    ensures forall m :: m in View(s.index).members ==> m.0 in s.users && m.1 in s.index.canals
  {
    forall m | m in View(s.index).members
      ensures m.0 in s.users && m.1 in s.index.canals
    {
      assert IsMember(s.index, m.0, m.1) ==> IsLinked(s.index, m.0, m.1);
    }
  }

  /**
   A user id given out, fresh or again, belongs to nobody as long as an id is left, and then is
   in no canal and no link.
   */
  lemma NewUserStartsClean(s: Server)
    requires ServerAgrees(s)
    ensures var id := Generate(s.userIds).1;
            && (id !in s.users <==> |s.users| < 0x1_0000)
            && (id !in s.users ==>
                 && id !in s.index.links
                 && forall c :: c in s.index.canals ==> id !in s.index.canals[c].users)
  {
    var id := Generate(s.userIds).1;
    NewUserIdIsFree(s);
    forall c | c in s.index.canals && id !in s.users
      ensures id !in s.index.canals[c].users
    {
      assert IsMember(s.index, id, c) ==> IsLinked(s.index, id, c);
    }
  }

  /** A canal id given out is no canal's as long as an id is left, and then has no link, and no name leads to it. */
  lemma NewCanalStartsClean(s: Server)
    requires ServerAgrees(s)
    ensures var id := Generate(s.index.ids).1;
            && (id !in s.index.canals <==> |s.index.canals| < 0x1_0000)
            && (id !in s.index.canals ==>
                 && (forall u :: u in s.index.links ==> id !in s.index.links[u])
                 && (forall n :: n in s.index.dictionary ==> s.index.dictionary[n] != id))
  {
    var id := Generate(s.index.ids).1;
    NewIdIsFree(s.index);
    forall u | u in s.index.links && id !in s.index.canals
      ensures id !in s.index.links[u]
    {
      assert IsLinked(s.index, u, id) ==> IsMember(s.index, u, id);
    }
  }

  // ---------- what users are told ----------

  /** No step of its own reports a deletion. */
  lemma NextTellsNoDeletion(s: Server, cmd: Command, s': Server)
    requires ServerAgrees(s) && Next(s, cmd, s')
    requires forall d :: d in s.delivered ==> d.event.eventCode != CANAL_DELETED
    ensures forall d :: d in s'.delivered ==> d.event.eventCode != CANAL_DELETED
  {
    match cmd {
      case RemoveUserInstant(u) => RemoveKeepsAgrees(s, u, s');
      case Update =>
        var mid :| RemovesEach(s, s.pending, mid) && s' == mid.(pending := []);
        RemoveEachKeepsAgrees(s, s.pending, mid);
      case MessageCanal(u, c, text) =>
        if c in s.index.canals && u in s.index.canals[c].users {
          var order :| Enumerates(order, s.index.canals[c].users - {u})
                       && s' == s.(delivered := s.delivered + SendEach(s.users, order, MessageEvent(c, text)));
          SendEachEvents(s.users, order, MessageEvent(c, text));
        }
      case _ =>
    }
  }

  lemma {:induction false} SendEachEvents(users: map<uint16, Handle>, order: seq<uint16>, e: Event)
    ensures forall d :: d in SendEach(users, order, e) ==> d.event == e
    decreases |order|
  {
    if order != [] {
      SendEachEvents(users, order[1..], e);
    }
  }

  lemma {:induction false} SendEachOnce(users: map<uint16, Handle>, order: seq<uint16>, e: Event)
    requires Distinct(order)
    ensures forall v: uint16 ::
              multiset(SendEach(users, order, e))[Delivery(v, e)] == if v in order && v in users then 1 else 0
    decreases |order|
  {
    if order != [] {
      var sent := SendEach(users, order[1..], e);
      SendEachOnce(users, order[1..], e);
      assert multiset(SendEach(users, order, e)) == multiset(Send(users, order[0], e)) + multiset(sent);
      assert order[0] !in order[1..];
      forall v: uint16
        ensures multiset(SendEach(users, order, e))[Delivery(v, e)] == if v in order && v in users then 1 else 0
      {
        assert v in order <==> v == order[0] || v in order[1..];
      }
    }
  }

  /** A member's message reaches every other member exactly once, and nobody else. */
  lemma MessageReachesTheOthers(s: Server, u: uint16, c: uint16, text: string, s': Server)
    requires ServerAgrees(s) && IsMember(s.index, u, c) && Messages(s, u, c, text, s')
    ensures s.delivered <= s'.delivered
    ensures var sent := s'.delivered[|s.delivered|..];
            && (forall d :: d in sent ==> d.event == MessageEvent(c, text))
            && forall v: uint16 ::
                 multiset(sent)[Delivery(v, MessageEvent(c, text))]
                 == if v != u && IsMember(s.index, v, c) then 1 else 0
    ensures s'.index == s.index && s'.users == s.users
  {
    var others := s.index.canals[c].users - {u};
    var order :| Enumerates(order, others)
                 && s' == s.(delivered := s.delivered + SendEach(s.users, order, MessageEvent(c, text)));
    SendEachEvents(s.users, order, MessageEvent(c, text));
    SendEachOnce(s.users, order, MessageEvent(c, text));
    assert s'.delivered[|s.delivered|..] == SendEach(s.users, order, MessageEvent(c, text));
    forall v: uint16
      ensures v in order && v in s.users <==> v != u && IsMember(s.index, v, c)
    {
      assert IsMember(s.index, v, c) ==> IsLinked(s.index, v, c);
    }
  }
}
