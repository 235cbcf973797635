/**
 What users are told, read off the record of deliveries: each request about canals is
 answered once, to whoever asked, and the answer says what happened to the rooms.
 */
module Replies {
  import opened Common
  import opened IdGenerator
  import opened Membership
  import opened World
  import opened ServerSpec

  /** The step delivers one event, to this user. */
  predicate TellsOnly(s: Server, s': Server, u: uint16) {
    && |s'.delivered| == |s.delivered| + 1
    && s.delivered <= s'.delivered
    && s'.delivered[|s.delivered|].user == u
  }

  /** The event the step delivers last. */
  function Answer(s': Server): Event
    requires s'.delivered != []
  {
    s'.delivered[|s'.delivered| - 1].event
  }

  lemma ToldIs(s: Server, u: uint16, e: Event, s': Server)
    requires u in s.users && s'.delivered == Told(s, u, e).delivered
    ensures TellsOnly(s, s', u) && Answer(s') == e
  {
  }

  // ---------- requests about canals ----------

  /**
   The answer to a creation is an error exactly when the name is taken; otherwise it carries the
   new room's number.
   */
  lemma CreationIsAnswered(s: Server, u: uint16, name: string, password: string, limit: int, scrap: uint16, s': Server)
    requires ServerAgrees(s) && Enabled(s, CreateCanal(u, name, password, limit, scrap))
    requires Next(s, CreateCanal(u, name, password, limit, scrap), s')
    ensures TellsOnly(s, s', u) && Answer(s').eventCode == 204
    ensures var w, w', e := View(s.index), View(s'.index), Answer(s');
            && (e.error <==> NameTaken(w, name))
            && (e.error ==> w' == w && e.data == "Cannot create canal: Canal already exist")
            && (!e.error ==>
                 && e.canalID !in w.rooms
                 && w'.rooms == w.rooms[e.canalID := Room(name, password, limit, false)])
  {
    ToldIs(s, u, CreateReply(s.index, name, password, limit, scrap), s');
    if name in s.index.dictionary {
      var c := s.index.dictionary[name];
      assert View(s.index).rooms[c].name == name;
    } else {
      CreateAddsRoom(s.index, name, password, limit);
      assert !NameTaken(View(s.index), name);
    }
  }

  /** Its text tells the settings. */
  lemma CreationTellsSettings(
      s: Server, u: uint16, name: string, password: string, limit: int, scrap: uint16, s': Server)
    requires ServerAgrees(s) && Enabled(s, CreateCanal(u, name, password, limit, scrap))
    requires Next(s, CreateCanal(u, name, password, limit, scrap), s')
    ensures TellsOnly(s, s', u)
    ensures var data := Answer(s').data;
            !Answer(s').error ==>
              && (password == "" && limit == -1 ==> data == "Canal created")
              && (password != "" && limit == -1 ==> data == "Canal created" + " with password")
              && (password == "" && limit != -1
                 ==> data == "Canal created" + (" with a user limit set to " + IntText(limit)))
              && (password != "" && limit != -1 ==>
                   data == "Canal created" + (" with password" + (" and a user limit set to " + IntText(limit))))
  {
    ToldIs(s, u, CreateReply(s.index, name, password, limit, scrap), s');
    CreationTexts(password, limit);
  }

  lemma CreationTexts(password: string, limit: int)
    ensures password == "" && limit == -1 ==> CreationText(password, limit) == "Canal created"
    ensures password != "" && limit == -1 ==> CreationText(password, limit) == "Canal created" + " with password"
    ensures password == "" && limit != -1 ==>
              CreationText(password, limit) == "Canal created" + (" with a user limit set to " + IntText(limit))
    ensures password != "" && limit != -1 ==>
              CreationText(password, limit)
                  == "Canal created" + (" with password" + (" and a user limit set to " + IntText(limit)))
  {
    assert "Canal created" + "" == "Canal created";
    assert " with password" + "" == " with password";
  }

  /** The answer to a deletion is an error exactly when there is no such room, and says whether the room is gone. */
  lemma DeletionIsAnswered(s: Server, u: uint16, c: uint16, s': Server)
    requires ServerAgrees(s) && Enabled(s, DeleteCanal(u, c)) && Next(s, DeleteCanal(u, c), s')
    ensures TellsOnly(s, s', u) && Answer(s').eventCode == 205 && Answer(s').canalID == c
    ensures var w, w', e := View(s.index), View(s'.index), Answer(s');
            && (e.error <==> c !in w.rooms)
            && (e.error ==> w' == w && e.data == "Cannot delete canal: Canal does not exist")
            && (!e.error && c !in w'.rooms ==> e.data == "Canal deleted")
            && (!e.error && c in w'.rooms ==> w'.rooms[c].marked && e.data == "Canal marked for deletion")
  {
    ToldIs(s, u, DeleteReply(s.index, c), s');
  }

  /**
   The answer to joining is an error exactly when the room does not take the user, and says why;
   else the user is in.
   */
  lemma JoiningIsAnswered(s: Server, u: uint16, c: uint16, password: string, s': Server)
    requires ServerAgrees(s) && Enabled(s, JoinCanal(u, c, password)) && Next(s, JoinCanal(u, c, password), s')
    ensures TellsOnly(s, s', u) && Answer(s').eventCode == 202
    ensures var w, w', e := View(s.index), View(s'.index), Answer(s');
            && (e.error <==> !HasRoomFor(w, c, password))
            && (!e.error ==> (u, c) in w'.members && e.canalID == c && e.data == "Canal joined")
            && (e.error ==> w' == w && e.canalID == 0)
            && (c !in w.rooms ==> e.data == "Cannot join canal: Canal does not exist")
            && (c in w.rooms && w.rooms[c].password != password
               ==> e.data == "Cannot join canal: Password is incorrect")
            && (e.error && c in w.rooms && w.rooms[c].password == password ==>
                 |Inside(w, c)| == w.rooms[c].limit && e.data == "Cannot join canal: Canal is full")
  {
    ToldIs(s, u, JoinReply(s.index, c, password), s');
    InsideIsUsers(s.index, c);
    JoinRefines(s.index, u, c, password);
  }

  /** The answer to leaving is an error exactly when the user is not in that room; else it is out. */
  lemma LeavingIsAnswered(s: Server, u: uint16, c: uint16, s': Server)
    requires ServerAgrees(s) && Enabled(s, LeaveCanal(u, c)) && Next(s, LeaveCanal(u, c), s')
    ensures TellsOnly(s, s', u) && Answer(s').eventCode == 203 && Answer(s').canalID == c
    ensures var w, w', e := View(s.index), View(s'.index), Answer(s');
            && (e.error <==> (u, c) !in w.members)
            && (u, c) !in w'.members
            && (!e.error ==> e.data == "Canal leaved")
            && (c !in w.rooms ==> e.data == "Cannot leave canal: Canal does not exist")
            && (e.error && c in w.rooms ==> e.data == "Cannot leave canal: User has not joined it yet")
  {
    ToldIs(s, u, LeaveReply(s.index, u, c), s');
    LeaveRefines(s.index, u, c);
    assert IsMember(s.index, u, c) <==> IsLinked(s.index, u, c);
  }

  // ---------- messages ----------

  predicate IsMessage(e: Event, c: uint16, text: string) {
    e.data == text && e.canalID == c && !e.error && e.eventCode == 200
  }

  /** Every delivery of a member's message carries the text, to another member, each once; an outsider is told so. */
  lemma MessagesCarryTheText(s: Server, u: uint16, c: uint16, text: string, s': Server)
    requires ServerAgrees(s) && Enabled(s, MessageCanal(u, c, text)) && Next(s, MessageCanal(u, c, text), s')
    ensures c !in View(s.index).rooms ==> s' == s
    ensures c in View(s.index).rooms && (u, c) !in View(s.index).members ==>
              && TellsOnly(s, s', u)
              && var e := Answer(s');
                 e.error && e.eventCode == 200 && e.canalID == c
                 && e.data == "Cannot message canal: User has not joined it yet"
    ensures (u, c) in View(s.index).members ==>
              && s.delivered <= s'.delivered
              && var sent := s'.delivered[|s.delivered|..];
                 && (forall d :: d in sent ==>
                      IsMessage(d.event, c, text) && d.user != u && (d.user, c) in View(s.index).members)
                 && (forall v: uint16 :: v != u && (v, c) in View(s.index).members ==>
                      exists e :: IsMessage(e, c, text) && multiset(sent)[Delivery(v, e)] == 1)
  {
    if c in s.index.canals {
      if u in s.index.canals[c].users {
        MessageIsSent(s, u, c, text, s');
      } else {
        ToldIs(s, u, Event(true, c, MSG_CANAL, "Cannot message canal: User has not joined it yet"), s');
      }
    }
  }

  lemma MessageIsSent(s: Server, u: uint16, c: uint16, text: string, s': Server)
    requires ServerAgrees(s) && IsMember(s.index, u, c) && Messages(s, u, c, text, s')
    ensures s.delivered <= s'.delivered
    ensures var sent := s'.delivered[|s.delivered|..];
            && (forall d :: d in sent ==>
                 IsMessage(d.event, c, text) && d.user != u && (d.user, c) in View(s.index).members)
            && (forall v: uint16 :: v != u && (v, c) in View(s.index).members ==>
                 exists e :: IsMessage(e, c, text) && multiset(sent)[Delivery(v, e)] == 1)
  {
    MessageReachesTheOthers(s, u, c, text, s');
    MembersAre(s.index);
    var sent, e := s'.delivered[|s.delivered|..], MessageEvent(c, text);
    assert IsMessage(e, c, text);
    forall d | d in sent
      ensures d.user != u && (d.user, c) in View(s.index).members
    {
      assert d == Delivery(d.user, e) && multiset(sent)[d] > 0;
    }
    forall v: uint16 | v != u && (v, c) in View(s.index).members
      ensures multiset(sent)[Delivery(v, e)] == 1
    {
    }
  }

  // ---------- connecting and going ----------

  /** Whoever connects is told so once, under the id that is then its own. */
  lemma ConnectingIsAnswered(s: Server, handle: Handle, s': Server)
    requires ServerAgrees(s) && Enabled(s, AddUser(handle)) && Next(s, AddUser(handle), s')
    ensures s'.delivered != []
    ensures var u := s'.delivered[|s'.delivered| - 1].user;
            && TellsOnly(s, s', u) && u !in s.users && s'.users == s.users[u := handle]
            && Answer(s') == Event(false, 0, 100, "")
  {
    NewUserStartsClean(s);
  }

  /** Marking a user for removal, removing it and cleaning up tell nobody anything. */
  lemma GoingIsSilent(s: Server, cmd: Command, s': Server)
    requires ServerAgrees(s) && Next(s, cmd, s') && (cmd.RemoveUser? || cmd.RemoveUserInstant? || cmd.Update?)
    ensures s'.delivered == s.delivered
  {
    match cmd {
      case RemoveUser(_) =>
      case RemoveUserInstant(u) => RemoveKeepsAgrees(s, u, s');
      case Update =>
        var mid :| RemovesEach(s, s.pending, mid) && s' == mid.(pending := []);
        RemoveEachKeepsAgrees(s, s.pending, mid);
    }
  }
}
