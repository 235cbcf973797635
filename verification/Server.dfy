/**
 `Canal`, `CanalManager` and `UserManager`: the objects behind the state machine of
 `ServerSpec`. Each public method is one step, as under the source's mutex; the record
 `delivered` stands for the virtual calls `user->Receive(event)`.
 */
module ServerObjects {
  import opened Common
  import opened IdGenerator
  import opened Membership
  import opened ServerSpec
  import opened Notices
  import UidSet

  class Canal {
    var isMarkForDelete: bool
    const limit: int
    const name: string
    const password: string
    var users: set<uint16>

    function Data(): CanalData
      reads this
    {
      CanalData(name, password, limit, users, isMarkForDelete)
    }

    constructor (name: string, password: string, limit: int)
      ensures Data() == CanalData(name, password, limit, {}, false)
    {
      this.name := name;
      this.password := password;
      this.limit := limit;
      isMarkForDelete := false;
      users := {};
    }

    predicate IsEmpty()
      reads this
    {
      users == {}
    }

    predicate IsFull()
      reads this
    {
      limit != -1 && |users| == limit
    }

    method MarkForDelete()
      modifies this
      ensures Data() == old(Data()).(marked := true)
    {
      isMarkForDelete := true;
    }

    method AddUser(userId: uint16)
      modifies this
      ensures Data() == old(Data()).(users := old(Data()).users + {userId})
    {
      users := users + {userId};
    }

    method RemoveUser(userId: uint16)
      modifies this
      ensures Data() == old(Data()).(users := old(Data()).users - {userId})
    {
      if userId in users {
        users := users - {userId};
      }
    }
  }

  /** The links with the canal taken out, except for the users still to be visited. */
  function PartlyUnlinked(links: map<uint16, set<uint16>>, todo: set<uint16>, c: uint16): map<uint16, set<uint16>> {
    map u | u in links :: if u in todo then links[u] else links[u] - {c}
  }

  lemma {:induction false} SendEachAppend(users: map<uint16, Handle>, order: seq<uint16>, u: uint16, e: Event)
    ensures SendEach(users, order + [u], e) == SendEach(users, order, e) + Send(users, u, e)
    decreases |order|
  {
    if order == [] {
      assert [] + [u] == [u] && [u][1..] == [];
    } else {
      assert (order + [u])[1..] == order[1..] + [u];
      SendEachAppend(users, order[1..], u, e);
    }
  }

  /** Picking the next element of a hash set. */
  lemma EnumeratesMore(order: seq<uint16>, s: set<uint16>, todo: set<uint16>, x: uint16)
    requires Enumerates(order, s - todo) && x in todo
    ensures if x in s then Enumerates(order + [x], s - (todo - {x})) else Enumerates(order, s - (todo - {x}))
  {
    if x in s {
      assert s - (todo - {x}) == (s - todo) + {x};
    } else {
      assert s - (todo - {x}) == s - todo;
    }
  }

  lemma LeaveOfStranger(s: Indices, u: uint16, c: uint16)
    requires c in s.canals
    ensures c !in LinksOf(s, u) ==> Leave(s, u, c) == s.(links := s.links[u := LinksOf(s, u)])
    ensures c !in LinksOf(s, u)
            ==> LeaveReply(s, u, c) == Event(true, c, LEAVE_CANAL, "Cannot leave canal: User has not joined it yet")
  {
  }

  lemma LeaveIsDismiss(s: Indices, u: uint16, c: uint16)
    requires c in s.canals && c in LinksOf(s, u)
    ensures Leave(s, u, c) == Dismiss(s.(links := s.links[u := LinksOf(s, u) - {c}]), u, c)
  {
  }

  lemma {:induction false} DismissEachAppend(s: Indices, u: uint16, order: seq<uint16>, c: uint16)
    ensures DismissEach(s, u, order + [c]) == Dismiss(DismissEach(s, u, order), u, c)
    decreases |order|
  {
    if order == [] {
      assert [] + [c] == [c] && [c][1..] == [];
    } else {
      assert (order + [c])[1..] == order[1..] + [c];
      DismissEachAppend(Dismiss(s, u, order[0]), u, order[1..], c);
    }
  }

  function EraseEach(s: Indices, order: seq<uint16>): Indices
    decreases |order|
  {
    if order == [] then s else EraseEach(Erase(s, order[0]), order[1..])
  }

  lemma {:induction false} EraseEachAppend(s: Indices, order: seq<uint16>, c: uint16)
    ensures EraseEach(s, order + [c]) == Erase(EraseEach(s, order), c)
    decreases |order|
  {
    if order == [] {
      assert [] + [c] == [c] && [c][1..] == [];
    } else {
      assert (order + [c])[1..] == order[1..] + [c];
      EraseEachAppend(Erase(s, order[0]), order[1..], c);
    }
  }

  class CanalManager {
    const idGenerator: IDGenerator
    var canalDictionary: map<string, uint16>
    var canals: map<uint16, Canal>
    var clientLinks: map<uint16, set<uint16>>
    const userManager: UserManager

    /** Each canal is an object of its own, and the manager shares nothing with the users' side. */
    ghost predicate Valid()
      reads this, userManager, userManager.users
    {
      && userManager.users.Valid()
      && userManager.idGenerator != idGenerator
      && forall c, d :: c in canals && d in canals && c != d ==> canals[c] != canals[d]
    }

    function Index(): Indices
      reads this, idGenerator, canals.Values
    {
      Indices(idGenerator.State(), canalDictionary, map c | c in canals :: canals[c].Data(), clientLinks)
    }

    function Live(): map<uint16, Handle>
      reads this, userManager, userManager.users
    {
      userManager.users.Model()
    }

    constructor (userManager: UserManager)
      requires userManager.users.Valid()
      ensures Valid() && this.userManager == userManager && fresh(idGenerator)
      ensures Index() == NO_CANALS && canals == map[]
    {
      idGenerator := new IDGenerator(0);
      canalDictionary := map[];
      canals := map[];
      clientLinks := map[];
      this.userManager := userManager;
    }

    method SendAnswer(userId: uint16, canalId: uint16, eventCode: uint16, data: string)
      requires userManager.users.Valid()
      modifies userManager`delivered
      ensures userManager.delivered
              == old(userManager.delivered) + Send(Live(), userId, Event(false, canalId, eventCode, data))
    {
      userManager.SendEvent(userId, Event(false, canalId, eventCode, data));
    }

    method SendError(userId: uint16, canalId: uint16, eventCode: uint16, data: string)
      requires userManager.users.Valid()
      modifies userManager`delivered
      ensures userManager.delivered
              == old(userManager.delivered) + Send(Live(), userId, Event(true, canalId, eventCode, data))
    {
      userManager.SendEvent(userId, Event(true, canalId, eventCode, data));
    }

    /** `CreateCanal(name, password, limit, id)`. */
    method CreateNamed(canalName: string, canalPassword: string, canalLimit: int) returns (created: bool, id: uint16)
      requires Valid()
      modifies this, idGenerator
      ensures Valid() && fresh(canals.Values - old(canals.Values))
      ensures Index() == Create(old(Index()), canalName, canalPassword, canalLimit)
      ensures created <==> canalName !in old(canalDictionary)
      ensures created ==> id == Generate(old(Index()).ids).1
    {
      if canalName !in canalDictionary {
        id := NameNew(canalName);
        PutNew(id, canalName, canalPassword, canalLimit);
        return true, id;
      }
      return false, 0;
    }

    /** The new canal's id, under its name. */
    method NameNew(canalName: string) returns (id: uint16)
      requires Valid()
      modifies this`canalDictionary, idGenerator
      ensures Valid() && id == Generate(old(Index()).ids).1
      ensures var s := old(Index());
              Index() == s.(ids := Generate(s.ids).0, dictionary := s.dictionary[canalName := id])
    {
      id := idGenerator.GenerateID();
      canalDictionary := canalDictionary[canalName := id];
    }

    /** `m_Canals[id] = Canal(canalName, canalPassword, canalLimit)`. */
    method PutNew(id: uint16, canalName: string, canalPassword: string, canalLimit: int)
      requires Valid()
      modifies this`canals
      ensures Valid() && fresh(canals.Values - old(canals.Values))
      ensures var s := old(Index());
              Index() == s.(canals := s.canals[id := CanalData(canalName, canalPassword, canalLimit, {}, false)])
    {
      ghost var before := Index();
      var canal := new Canal(canalName, canalPassword, canalLimit);
      canals := canals[id := canal];
      assert Index().canals == before.canals[id := CanalData(canalName, canalPassword, canalLimit, {}, false)];
    }

    /** The answer's text, as the source streams it. */
    method Announce(canalPassword: string, canalLimit: int) returns (text: string)
      ensures text == CreationText(canalPassword, canalLimit)
    {
      text := "Canal created";
      if canalPassword != "" {
        text := text + " with password";
        if canalLimit != -1 {
          text := text + " and a user limit set to ";
          text := text + IntText(canalLimit);
        }
      } else if canalLimit != -1 {
        text := text + " with a user limit set to ";
        text := text + IntText(canalLimit);
      }
    }

    /** `CreateCanal(userId, canalInfo)`, the three settings already taken out of the JSON text. */
    method CreateCanal(userId: uint16, canalName: string, canalPassword: string, canalLimit: int, scrap: uint16)
      requires Valid()
      modifies this, idGenerator, userManager`delivered
      ensures Valid() && fresh(canals.Values - old(canals.Values))
      ensures Index() == Create(old(Index()), canalName, canalPassword, canalLimit)
      ensures userManager.delivered == old(userManager.delivered)
                + Send(Live(), userId, CreateReply(old(Index()), canalName, canalPassword, canalLimit, scrap))
    {
      var created, canalId := CreateNamed(canalName, canalPassword, canalLimit);
      if created {
        var text := Announce(canalPassword, canalLimit);
        SendAnswer(userId, canalId, CREATE_CANAL, text);
      } else {
        SendError(userId, scrap, CREATE_CANAL, "Cannot create canal: Canal already exist");
      }
    }

    /** The loop of `DeleteCanal` over the links: notifies whoever is linked, in the order the hash map yields them. */
    method Unlink(canalID: uint16) returns (ghost order: seq<uint16>)
      requires userManager.users.Valid()
      modifies this`clientLinks, userManager`delivered
      ensures clientLinks == map u | u in old(clientLinks) :: old(clientLinks)[u] - {canalID}
      ensures Enumerates(order, Linked(old(Index()).links, canalID))
      ensures userManager.delivered == old(userManager.delivered) + SendEach(Live(), order, DeletionNotice(canalID))
    {
      ghost var told, links := userManager.delivered, clientLinks;
      order := [];
      var todo := clientLinks.Keys;
      while todo != {}
        invariant todo <= links.Keys
        invariant clientLinks == PartlyUnlinked(links, todo, canalID)
        invariant Enumerates(order, Linked(links, canalID) - todo)
        invariant userManager.delivered == told + SendEach(Live(), order, DeletionNotice(canalID))
        decreases todo
      {
        var u :| u in todo;
        order := UnlinkOne(u, canalID, links, todo, told, order);
        todo := todo - {u};
      }
      assert Linked(links, canalID) - {} == Linked(old(Index()).links, canalID);
    }

    /** One round of that loop. */
    method UnlinkOne(
        u: uint16, canalID: uint16, ghost links: map<uint16, set<uint16>>, ghost todo: set<uint16>,
        ghost told: seq<Delivery>, ghost order: seq<uint16>)
      returns (ghost order': seq<uint16>)
      requires userManager.users.Valid() && u in todo && todo <= links.Keys
      requires clientLinks == PartlyUnlinked(links, todo, canalID)
      requires Enumerates(order, Linked(links, canalID) - todo)
      requires userManager.delivered == told + SendEach(Live(), order, DeletionNotice(canalID))
      modifies this`clientLinks, userManager`delivered
      ensures clientLinks == PartlyUnlinked(links, todo - {u}, canalID)
      ensures Enumerates(order', Linked(links, canalID) - (todo - {u}))
      ensures userManager.delivered == told + SendEach(Live(), order', DeletionNotice(canalID))
    {
      EnumeratesMore(order, Linked(links, canalID), todo, u);
      SendEachAppend(Live(), order, u, DeletionNotice(canalID));
      order' := order;
      assert canalID !in clientLinks[u] ==> clientLinks[u] - {canalID} == clientLinks[u];
      if canalID in clientLinks[u] {
        clientLinks := clientLinks[u := clientLinks[u] - {canalID}];
        SendAnswer(u, canalID, CANAL_DELETED, IntText(canalID));
        order' := order + [u];
      }
      assert clientLinks == PartlyUnlinked(links, todo - {u}, canalID);
    }

    /** `DeleteCanal(canalID)`. */
    method DeleteCanal(canalID: uint16) returns (ghost order: seq<uint16>)
      requires Valid()
      requires canalID in canals ==> canals[canalID].name in canalDictionary
      modifies this, idGenerator, userManager`delivered
      ensures Valid() && canals == old(canals) - {canalID}
      ensures Index() == Erase(old(Index()), canalID)
      ensures canalID in old(canals) ==> Enumerates(order, Linked(old(Index()).links, canalID))
      ensures userManager.delivered == old(userManager.delivered)
                + if canalID in old(canals) then SendEach(Live(), order, DeletionNotice(canalID)) else []
    {
      order := [];
      if canalID in canals {
        order := Unlink(canalID);
        canalDictionary := canalDictionary - {canals[canalID].name};
        canals := canals - {canalID};
        idGenerator.FreeID(canalID);
        assert Index().canals == old(Index()).canals - {canalID};
      }
    }

    /** `DeleteCanal(userId, canalId)`: at once when empty, otherwise when the last user leaves. */
    method DeleteCanalFor(userId: uint16, canalId: uint16)
      requires Valid() && NamesAgree(Index()) && LinksMirror(Index())
      modifies this, idGenerator, canals.Values, userManager`delivered
      ensures Valid() && canals.Values <= old(canals.Values)
      ensures Index() == Delete(old(Index()), canalId)
      ensures userManager.delivered
              == old(userManager.delivered) + Send(Live(), userId, DeleteReply(old(Index()), canalId))
    {
      if canalId in canals {
        DeleteExisting(userId, canalId);
      } else {
        SendError(userId, canalId, DELETE_CANAL, "Cannot delete canal: Canal does not exist");
      }
    }

    /** The branch of `DeleteCanal(userId, canalId)` for a canal that exists. */
    method DeleteExisting(userId: uint16, canalId: uint16)
      requires Valid() && NamesAgree(Index()) && LinksMirror(Index()) && canalId in canals
      modifies this, idGenerator, canals[canalId], userManager`delivered
      ensures Valid() && canals.Values <= old(canals.Values)
      ensures Index() == Delete(old(Index()), canalId)
      ensures userManager.delivered
              == old(userManager.delivered) + Send(Live(), userId, DeleteReply(old(Index()), canalId))
    {
      if canals[canalId].IsEmpty() {
        DeleteEmpty(canalId);
        SendAnswer(userId, canalId, DELETE_CANAL, "Canal deleted");
      } else {
        Mark(canalId);
        SendAnswer(userId, canalId, DELETE_CANAL, "Canal marked for deletion");
      }
    }

    /** The branch of `DeleteCanal(userId, canalId)` for an empty canal: nobody is notified. */
    method DeleteEmpty(canalId: uint16)
      requires Valid() && NamesAgree(Index()) && LinksMirror(Index())
      requires canalId in canals && canals[canalId].users == {}
      modifies this, idGenerator, userManager`delivered
      ensures Valid() && canals.Values <= old(canals.Values)
      ensures Index() == Erase(old(Index()), canalId)
      ensures userManager.delivered == old(userManager.delivered)
    {
      ghost var before := Index();
      assert before.canals[canalId].name in before.dictionary;
      NobodyIsLinked(before, canalId);
      ghost var order := DeleteCanal(canalId);
      EnumeratesNothing(order);
    }

    method Mark(canalId: uint16)
      requires Valid() && canalId in canals
      modifies canals[canalId]
      ensures var s := old(Index());
              Index() == s.(canals := s.canals[canalId := s.canals[canalId].(marked := true)])
    {
      ghost var before := Index();
      canals[canalId].MarkForDelete();
      assert Index().canals == before.canals[canalId := before.canals[canalId].(marked := true)];
    }

    method JoinCanal(userId: uint16, canalId: uint16, pass: string)
      requires Valid()
      modifies this`clientLinks, canals.Values, userManager`delivered
      ensures Valid()
      ensures Index() == Join(old(Index()), userId, canalId, pass)
      ensures userManager.delivered
              == old(userManager.delivered) + Send(Live(), userId, JoinReply(old(Index()), canalId, pass))
    {
      if canalId in canals {
        var canal := canals[canalId];
        if canal.password == pass {
          if !canal.IsFull() {
            Enter(userId, canalId);
            SendAnswer(userId, canalId, JOIN_CANAL, "Canal joined");
          } else {
            SendError(userId, 0, JOIN_CANAL, "Cannot join canal: Canal is full");
          }
        } else {
          SendError(userId, 0, JOIN_CANAL, "Cannot join canal: Password is incorrect");
        }
      } else {
        SendError(userId, 0, JOIN_CANAL, "Cannot join canal: Canal does not exist");
      }
    }

    /** The canal and the user's links, changed together. */
    method Enter(userId: uint16, canalId: uint16)
      requires Valid() && canalId in canals
      modifies this`clientLinks, canals[canalId]
      ensures var s := old(Index());
              var c := s.canals[canalId];
              Index() == s.(canals := s.canals[canalId := c.(users := c.users + {userId})],
                            links := s.links[userId := LinksOf(s, userId) + {canalId}])
    {
      ghost var before := Index();
      canals[canalId].AddUser(userId);
      if userId !in clientLinks {
        clientLinks := clientLinks[userId := {}];
      }
      clientLinks := clientLinks[userId := clientLinks[userId] + {canalId}];
      assert Index().canals
             == before.canals[canalId := before.canals[canalId].(users := before.canals[canalId].users + {userId})];
    }

    method RemoveFrom(userId: uint16, canalId: uint16)
      requires Valid() && canalId in canals
      modifies canals[canalId]
      ensures var s := old(Index());
              var c := s.canals[canalId];
              Index() == s.(canals := s.canals[canalId := c.(users := c.users - {userId})])
    {
      ghost var before := Index();
      canals[canalId].RemoveUser(userId);
      assert Index().canals
             == before.canals[canalId := before.canals[canalId].(users := before.canals[canalId].users - {userId})];
    }

    /**
     The body `LeaveCanal` and `LeaveAllCanal` share: the canal loses the user, and goes when it
     only waited for that.
     */
    method DismissFrom(userId: uint16, canalId: uint16)
      requires Valid() && canalId in canals && canals[canalId].name in canalDictionary
      modifies this, idGenerator, canals[canalId], userManager`delivered
      ensures Valid() && canals.Values <= old(canals.Values)
      ensures Index() == Dismiss(old(Index()), userId, canalId)
      ensures clientLinks.Keys == old(clientLinks.Keys)
      ensures canalId !in canals ==> old(canals[canalId].users) - {userId} == {}
      ensures canalId in canals || Linked(old(Index()).links, canalId) !! Live().Keys
              ==> userManager.delivered == old(userManager.delivered)
    {
      ghost var linked := Linked(Index().links, canalId);
      RemoveFrom(userId, canalId);
      if canals[canalId].isMarkForDelete && canals[canalId].IsEmpty() {
        ghost var order := DeleteCanal(canalId);
        if linked !! Live().Keys {
          NobodyToNotify(Live(), order, DeletionNotice(canalId));
        }
      }
    }

    method LeaveCanal(userId: uint16, canalId: uint16)
      requires Valid() && NamesAgree(Index()) && LinksMirror(Index())
      modifies this, idGenerator, canals.Values, userManager`delivered
      ensures Valid() && canals.Values <= old(canals.Values)
      ensures Index() == Leave(old(Index()), userId, canalId)
      ensures userManager.delivered
              == old(userManager.delivered) + Send(Live(), userId, LeaveReply(old(Index()), userId, canalId))
    {
      if canalId in canals {
        LeaveExisting(userId, canalId);
      } else {
        SendError(userId, canalId, LEAVE_CANAL, "Cannot leave canal: Canal does not exist");
      }
    }

    /** The branch of `LeaveCanal` for a canal that exists. */
    method LeaveExisting(userId: uint16, canalId: uint16)
      requires Valid() && NamesAgree(Index()) && LinksMirror(Index()) && canalId in canals
      modifies this, idGenerator, canals[canalId], userManager`delivered
      ensures Valid() && canals.Values <= old(canals.Values)
      ensures Index() == Leave(old(Index()), userId, canalId)
      ensures userManager.delivered
              == old(userManager.delivered) + Send(Live(), userId, LeaveReply(old(Index()), userId, canalId))
    {
      ghost var before := Index();
      LookUpLinks(userId);
      if canalId in clientLinks[userId] {
        LeaveLinked(before, userId, canalId);
      } else {
        RefuseStranger(before, userId, canalId);
      }
    }

    /** The branch of `LeaveCanal` for a user that is not in the canal. */
    method RefuseStranger(ghost before: Indices, userId: uint16, canalId: uint16)
      requires Valid() && Index() == before.(links := before.links[userId := LinksOf(before, userId)])
      requires canalId in canals && canalId !in clientLinks[userId]
      modifies userManager`delivered
      ensures Index() == Leave(before, userId, canalId)
      ensures userManager.delivered
              == old(userManager.delivered) + Send(Live(), userId, LeaveReply(before, userId, canalId))
    {
      LeaveOfStranger(before, userId, canalId);
      SendError(userId, canalId, LEAVE_CANAL, "Cannot leave canal: User has not joined it yet");
    }

    /** `m_ClientLinks[userId]`: looking a user up creates its entry. */
    method LookUpLinks(userId: uint16)
      modifies this`clientLinks
      ensures Index() == old(Index()).(links := old(Index()).links[userId := LinksOf(old(Index()), userId)])
    {
      if userId !in clientLinks {
        clientLinks := clientLinks[userId := {}];
      }
      assert clientLinks == old(clientLinks)[userId := LinksOf(old(Index()), userId)];
    }

    /** The branch of `LeaveCanal` for a user that is in the canal. */
    method LeaveLinked(ghost before: Indices, userId: uint16, canalId: uint16)
      requires Valid() && NamesAgree(before) && LinksMirror(before)
      requires Index() == before.(links := before.links[userId := LinksOf(before, userId)])
      requires canalId in canals && canalId in clientLinks[userId]
      modifies this, idGenerator, canals[canalId], userManager`delivered
      ensures Valid() && canals.Values <= old(canals.Values)
      ensures Index() == Leave(before, userId, canalId)
      ensures userManager.delivered
              == old(userManager.delivered) + Send(Live(), userId, LeaveReply(before, userId, canalId))
    {
      LeaveQuietly(before, userId, canalId);
      SendAnswer(userId, canalId, LEAVE_CANAL, "Canal leaved");
    }

    method LeaveQuietly(ghost before: Indices, userId: uint16, canalId: uint16)
      requires Valid() && NamesAgree(before) && LinksMirror(before)
      requires Index() == before.(links := before.links[userId := LinksOf(before, userId)])
      requires canalId in canals && canalId in clientLinks[userId]
      modifies this, idGenerator, canals[canalId], userManager`delivered
      ensures Valid() && canals.Values <= old(canals.Values)
      ensures Index() == Leave(before, userId, canalId)
      ensures userManager.delivered == old(userManager.delivered)
    {
      assert before.canals[canalId].name in before.dictionary;
      LastMemberUnlinked(before, userId, canalId);
      LeaveIsDismiss(before, userId, canalId);
      clientLinks := clientLinks[userId := clientLinks[userId] - {canalId}];
      assert Index() == before.(links := before.links[userId := LinksOf(before, userId) - {canalId}]);
      DismissFrom(userId, canalId);
    }

    /**
     `LeaveAllCanal`. The source walks the very set that `DeleteCanal` erases from; this
     walks the links as they were on entry, and reports the order it took.
     */
    method LeaveAllCanal(clientId: uint16) returns (ghost order: seq<uint16>)
      requires Valid() && Agree(Index())
      modifies this, idGenerator, canals.Values, userManager`delivered
      ensures Valid() && canals.Values <= old(canals.Values)
      ensures clientId in old(clientLinks) ==> Enumerates(order, old(clientLinks)[clientId])
      ensures Index() == LeaveAll(old(Index()), clientId, order)
      ensures clientId !in Live() ==> userManager.delivered == old(userManager.delivered)
    {
      order := [];
      if clientId in clientLinks {
        ghost var links := clientLinks[clientId];
        AgreeStartsLeaving(Index(), clientId);
        order := LeaveEach(clientId, clientLinks[clientId]);
        assert links - {} == links;
        ForgetLinks(clientId);
      }
    }

    /** `m_ClientLinks.erase(clientId)`. */
    method ForgetLinks(clientId: uint16)
      requires Valid()
      modifies this`clientLinks
      ensures Valid() && Index() == old(Index()).(links := old(Index()).links - {clientId})
    {
      clientLinks := clientLinks - {clientId};
    }

    /** How far the loop of `LeaveAllCanal` is: `order` is done, `todo` is left. */
    ghost predicate PartlyLeft(
        start: Indices, clientId: uint16, links: set<uint16>, todo: set<uint16>, order: seq<uint16>)
      reads this, idGenerator, canals.Values
    {
      && todo <= links && Enumerates(order, links - todo)
      && Index() == DismissEach(start, clientId, order)
      && AgreeExcept(Index(), clientId, todo)
    }

    /** The loop of `LeaveAllCanal`. */
    method LeaveEach(clientId: uint16, links: set<uint16>) returns (ghost order: seq<uint16>)
      requires Valid() && AgreeExcept(Index(), clientId, links)
      modifies this, idGenerator, canals.Values, userManager`delivered
      ensures Valid() && canals.Values <= old(canals.Values)
      ensures PartlyLeft(old(Index()), clientId, links, {}, order)
      ensures clientId !in Live() ==> userManager.delivered == old(userManager.delivered)
    {
      ghost var before, told := Index(), userManager.delivered;
      order := [];
      var todo := links;
      while todo != {}
        invariant Valid() && canals.Values <= old(canals.Values)
        invariant PartlyLeft(before, clientId, links, todo, order)
        invariant clientId !in Live() ==> userManager.delivered == told
        decreases todo
      {
        var canalId :| canalId in todo;
        order := LeaveOne(before, clientId, links, todo, order, canalId);
        todo := todo - {canalId};
      }
    }

    /** One round of that loop. */
    method LeaveOne(
        ghost start: Indices, clientId: uint16, ghost links: set<uint16>, ghost todo: set<uint16>,
        ghost order: seq<uint16>, canalId: uint16)
      returns (ghost order': seq<uint16>)
      requires Valid() && PartlyLeft(start, clientId, links, todo, order) && canalId in todo
      modifies this, idGenerator, canals.Values, userManager`delivered
      ensures Valid() && canals.Values <= old(canals.Values)
      ensures PartlyLeft(start, clientId, links, todo - {canalId}, order')
      ensures clientId !in Live() ==> userManager.delivered == old(userManager.delivered)
    {
      ghost var now := Index();
      assert IsMember(now, clientId, canalId);
      assert now.canals[canalId].name in now.dictionary;
      LeavingAlone(now, clientId, todo, canalId);
      DismissKeepsAgreeExcept(now, clientId, todo, canalId);
      DismissEachAppend(start, clientId, order, canalId);
      EnumeratesMore(order, links, todo, canalId);
      order' := order + [canalId];
      if canalId in canals {
        DismissFrom(clientId, canalId);
      }
    }

    /** `MessageCanal`: the other members, in the order the hash set yields them. */
    method MessageCanal(userId: uint16, canalId: uint16, content: string)
      requires Valid()
      modifies userManager`delivered
      ensures canalId !in canals ==> userManager.delivered == old(userManager.delivered)
      ensures canalId in canals && userId !in canals[canalId].users ==>
                userManager.delivered == old(userManager.delivered)
                  + Send(Live(), userId,
                      Event(true, canalId, MSG_CANAL, "Cannot message canal: User has not joined it yet"))
      ensures canalId in canals && userId in canals[canalId].users ==>
                exists order :: Enumerates(order, canals[canalId].users - {userId})
                  && userManager.delivered
                     == old(userManager.delivered) + SendEach(Live(), order, MessageEvent(canalId, content))
    {
      var users: seq<uint16> := [];
      if canalId in canals {
        var clientToSendTo := canals[canalId].users;
        if userId in clientToSendTo {
          clientToSendTo := clientToSendTo - {userId};
        } else {
          SendError(userId, canalId, MSG_CANAL, "Cannot message canal: User has not joined it yet");
          return;
        }
        users := Listed(clientToSendTo);
      }
      userManager.SendEventTo(users, Event(false, canalId, MSG_CANAL, content));
    }

    /** A vector built from a hash set. */
    method Listed(s: set<uint16>) returns (order: seq<uint16>)
      ensures Enumerates(order, s)
    {
      order := [];
      var todo := s;
      while todo != {}
        invariant todo <= s && Enumerates(order, s - todo)
        decreases todo
      {
        var x :| x in todo;
        todo := todo - {x};
        order := order + [x];
      }
      assert s - {} == s;
    }

    /** The scan of `Update`: the canals that are marked and empty. */
    method Sweepable() returns (toDelete: seq<uint16>)
      requires Valid()
      ensures Enumerates(toDelete, SweepTargets(Index()))
    {
      var targets := set c | c in canals && canals[c].isMarkForDelete && canals[c].IsEmpty();
      assert targets == SweepTargets(Index());
      toDelete := Listed(targets);
    }

    /** `Update`: deletes the canals that are marked and empty. */
    method Update()
      requires Valid() && NamesAgree(Index()) && Consistent(0, Index().ids, Index().canals.Keys)
      modifies this, idGenerator, userManager`delivered
      ensures Valid() && canals.Values <= old(canals.Values)
      ensures exists order :: Enumerates(order, SweepTargets(old(Index()))) && Index() == EraseEach(old(Index()), order)
      ensures SweepTargets(old(Index())) == {} ==> userManager.delivered == old(userManager.delivered)
    {
      ghost var before, told := Index(), userManager.delivered;
      var toDelete := Sweepable();
      for k := 0 to |toDelete|
        invariant Valid() && canals.Values <= old(canals.Values)
        invariant NamesAgree(Index()) && Consistent(0, Index().ids, Index().canals.Keys)
        invariant Index() == EraseEach(before, toDelete[..k])
        invariant k == 0 ==> userManager.delivered == told
      {
        assert toDelete[..k + 1] == toDelete[..k] + [toDelete[k]];
        EraseEachAppend(before, toDelete[..k], toDelete[k]);
        SweepOne(toDelete[k]);
      }
      assert toDelete[..|toDelete|] == toDelete;
      if SweepTargets(before) == {} {
        EnumeratesNothing(toDelete);
      }
    }

    /** One round of that loop. */
    method SweepOne(canalId: uint16)
      requires Valid() && NamesAgree(Index()) && Consistent(0, Index().ids, Index().canals.Keys)
      modifies this, idGenerator, userManager`delivered
      ensures Valid() && canals.Values <= old(canals.Values)
      ensures Index() == Erase(old(Index()), canalId)
      ensures NamesAgree(Index()) && Consistent(0, Index().ids, Index().canals.Keys)
    {
      if canalId in canals {
        assert Index().canals[canalId].name in Index().dictionary;
        EraseKeepsNames(Index(), canalId);
      }
      ghost var order := DeleteCanal(canalId);
    }
  }

  lemma NothingErased(s: Indices, s': Indices)
    requires SweepTargets(s) == {}
    requires exists order :: Enumerates(order, SweepTargets(s)) && s' == EraseEach(s, order)
    ensures s' == s
  {
    var order :| Enumerates(order, SweepTargets(s)) && s' == EraseEach(s, order);
    EnumeratesNothing(order);
  }

  lemma RemovedIs(s: Server, u: uint16, order: seq<uint16>, s': Server)
    requires u in s.users && u in s.index.links ==> Enumerates(order, s.index.links[u])
    requires s' == if u !in s.users then s
                   else s.(users := s.users - {u}, userIds := Free(s.userIds, u), index := LeaveAll(s.index, u, order))
    ensures Removes(s, u, s')
  {
    assert s' == Removed(s, u, order);
  }

  lemma PendingKept(s: Server, u: uint16, s': Server)
    requires Removes(s, u, s')
    ensures s'.pending == s.pending
  {
  }

  lemma {:induction false} RemovesEachAppend(s: Server, ids: seq<uint16>, mid: Server, u: uint16, s': Server)
    requires RemovesEach(s, ids, mid) && Removes(mid, u, s')
    ensures RemovesEach(s, ids + [u], s')
    decreases |ids|
  {
    if ids == [] {
      assert [] + [u] == [u] && [u][1..] == [];
      assert RemovesEach(s', [u][1..], s');
    } else {
      var next :| Removes(s, ids[0], next) && RemovesEach(next, ids[1..], mid);
      assert (ids + [u])[1..] == ids[1..] + [u];
      RemovesEachAppend(next, ids[1..], mid, u, s');
    }
  }

  class UserManager {
    const users: UidSet.UIDSet<Handle>
    const idGenerator: IDGenerator
    var usersToRemove: seq<uint16>
    var canalUser: CanalManager?
    var delivered: seq<Delivery>

    function Parts(): set<object>
      reads this, canalUser
    {
      {this, users, idGenerator}
      + if canalUser == null then {} else {canalUser, canalUser.idGenerator} + canalUser.canals.Values
    }

    /** The canal manager is this one's own. */
    ghost predicate Wired()
      reads this, canalUser, Parts()
    {
      canalUser != null && canalUser.userManager == this && canalUser.Valid()
    }

    ghost predicate Valid()
      reads this, canalUser, Parts()
    {
      Wired() && ServerAgrees(State())
    }

    function State(): Server
      requires canalUser != null
      reads this, canalUser, Parts()
    {
      Server(users.Model(), idGenerator.State(), usersToRemove, canalUser.Index(), delivered)
    }

    constructor ()
      ensures Valid() && State() == EMPTY_SERVER
    {
      users := new UidSet.UIDSet<Handle>();
      idGenerator := new IDGenerator(0);
      usersToRemove := [];
      delivered := [];
      canalUser := null;
      new;
      canalUser := new CanalManager(this);
      EmptyServerAgrees();
    }

    method SendEvent(id: uint16, event: Event)
      requires users.Valid()
      modifies this`delivered
      ensures delivered == old(delivered) + Send(users.Model(), id, event)
    {
      var user := users.Get(id);
      if user.Some? {
        delivered := delivered + [Delivery(id, event)];
      }
    }

    /** `SendEvent` for a vector of users. */
    method SendEventTo(usersId: seq<uint16>, event: Event)
      requires users.Valid()
      modifies this`delivered
      ensures delivered == old(delivered) + SendEach(users.Model(), usersId, event)
    {
      ghost var told := delivered;
      for k := 0 to |usersId|
        invariant delivered == told + SendEach(users.Model(), usersId[..k], event)
      {
        assert usersId[..k + 1] == usersId[..k] + [usersId[k]];
        SendEachAppend(users.Model(), usersId[..k], usersId[k], event);
        SendEvent(usersId[k], event);
      }
      assert usersId[..|usersId|] == usersId;
    }

    /** `InternalAddUser`. */
    method AddUser(user: Handle)
      requires Valid() && |users.Model()| < 0x1_0000
      modifies this`delivered, users, idGenerator
      ensures Valid() && State() == Added(old(State()), user)
    {
      AddKeepsAgrees(State(), user);
      Enlist(user);
    }

    method Enlist(user: Handle)
      requires Wired()
      modifies this`delivered, users, idGenerator
      ensures Wired() && State() == Added(old(State()), user)
    {
      var id := idGenerator.GenerateID();
      delivered := delivered + [Delivery(id, Event(false, 0, USER_CONNECTED, ""))];
      var added := users.Add(Some(UidSet.Entry(id, user)));
    }

    /** `RemoveUser`: remembered until the next `Update`. */
    method RemoveUser(id: uint16)
      requires Valid()
      modifies this`usersToRemove
      ensures Valid() && State() == old(State()).(pending := old(State()).pending + [id])
    {
      usersToRemove := usersToRemove + [id];
    }

    /** Out of the set of users, and the id freed. */
    method Delist(id: uint16) returns (removed: bool)
      requires Wired()
      modifies users, idGenerator
      ensures Wired()
      ensures removed <==> id in old(users.Model())
      ensures State() == if removed
              then old(State()).(users := old(State()).users - {id}, userIds := Free(old(State()).userIds, id))
                         else old(State())
    {
      removed := users.Remove(id);
      if removed {
        idGenerator.FreeID(id);
      } else {
        assert old(users.Model()) - {id} == old(users.Model());
      }
    }

    method RemoveUserInstant(id: uint16)
      requires Valid()
      modifies Parts()
      ensures canalUser == old(canalUser) && Parts() <= old(Parts())
      ensures Valid() && Removes(old(State()), id, State())
    {
      ghost var before := State();
      ghost var order: seq<uint16> := [];
      var removed := Delist(id);
      if removed {
        order := canalUser.LeaveAllCanal(id);
      }
      RemovedIs(before, id, order, State());
      RemoveKeepsAgrees(before, id, State());
    }

    /** `Update`, without the virtual updates of users and applications. */
    method Update()
      requires Valid()
      modifies Parts()
      ensures canalUser == old(canalUser) && Parts() <= old(Parts())
      ensures Valid()
      ensures exists mid :: RemovesEach(old(State()), old(State()).pending, mid) && State() == mid.(pending := [])
    {
      RemovePending();
      ForgetPending();
      SweepCanals();
    }

    /** `m_UsersToRemove.clear()`. */
    method ForgetPending()
      requires Valid()
      modifies this`usersToRemove
      ensures Valid() && State() == old(State()).(pending := [])
    {
      usersToRemove := [];
    }

    /** The loop of `Update` over the pending removals. */
    method RemovePending()
      requires Valid()
      modifies Parts()
      ensures canalUser == old(canalUser) && Parts() <= old(Parts())
      ensures Valid() && RemovesEach(old(State()), old(State()).pending, State())
    {
      ghost var before := State();
      for k := 0 to |usersToRemove|
        invariant canalUser == old(canalUser) && Parts() <= old(Parts())
        invariant PartlyRemoved(before, k)
      {
        RemoveNext(before, k);
      }
      assert before.pending[..|before.pending|] == before.pending;
    }

    /** How far that loop is: the first `k` pending users are gone. */
    ghost predicate PartlyRemoved(start: Server, k: nat)
      reads this, canalUser, Parts()
    {
      && Valid() && k <= |usersToRemove| && usersToRemove == start.pending
      && RemovesEach(start, start.pending[..k], State())
    }

    /** One round of that loop. */
    method RemoveNext(ghost start: Server, k: nat)
      requires k < |usersToRemove| && PartlyRemoved(start, k)
      modifies Parts()
      ensures canalUser == old(canalUser) && Parts() <= old(Parts())
      ensures PartlyRemoved(start, k + 1)
    {
      ghost var mid := State();
      var id := usersToRemove[k];
      RemoveUserInstant(id);
      PendingKept(mid, id, State());
      RemovesEachAppend(start, start.pending[..k], mid, id, State());
      assert start.pending[..k + 1] == start.pending[..k] + [id];
    }

    /** The canal manager's `Update` where the indices agree: nothing is swept. */
    method SweepCanals()
      requires Valid()
      modifies canalUser, canalUser.idGenerator, this`delivered
      ensures canalUser == old(canalUser) && Parts() <= old(Parts())
      ensures Valid() && State() == old(State())
    {
      ghost var index := canalUser.Index();
      SweepFindsNothing(index);
      canalUser.Update();
      NothingErased(index, canalUser.Index());
    }
  }
}
