/**
 The command layer: each request is handed to the canal manager with the id it came
 with. A call on the objects is a step of the state machine of `ServerSpec`, so what is
 proved of its runs holds of every sequence of calls.
 */
module Commands {
  import opened Common
  import opened Membership
  import opened ServerSpec
  import opened Notices
  import opened ServerObjects

  method TreatCreate(server: UserManager, u: uint16, name: string, password: string, limit: int, scrap: uint16)
    requires server.Valid() && Enabled(server.State(), CreateCanal(u, name, password, limit, scrap))
    modifies server.Parts()
    ensures server.Wired() && server.canalUser == old(server.canalUser) && fresh(server.Parts() - old(server.Parts()))
    ensures Next(old(server.State()), CreateCanal(u, name, password, limit, scrap), server.State())
  {
    server.canalUser.CreateCanal(u, name, password, limit, scrap);
  }

  method TreatDelete(server: UserManager, u: uint16, c: uint16)
    requires server.Valid()
    modifies server.Parts()
    ensures server.Wired() && server.canalUser == old(server.canalUser) && server.Parts() <= old(server.Parts())
    ensures Next(old(server.State()), DeleteCanal(u, c), server.State())
  {
    server.canalUser.DeleteCanalFor(u, c);
  }

  method TreatJoin(server: UserManager, u: uint16, c: uint16, password: string)
    requires server.Valid()
    modifies server.Parts()
    ensures server.Wired() && server.canalUser == old(server.canalUser) && server.Parts() <= old(server.Parts())
    ensures Next(old(server.State()), JoinCanal(u, c, password), server.State())
  {
    server.canalUser.JoinCanal(u, c, password);
  }

  method TreatLeave(server: UserManager, u: uint16, c: uint16)
    requires server.Valid()
    modifies server.Parts()
    ensures server.Wired() && server.canalUser == old(server.canalUser) && server.Parts() <= old(server.Parts())
    ensures Next(old(server.State()), LeaveCanal(u, c), server.State())
  {
    server.canalUser.LeaveCanal(u, c);
  }

  method TreatMessage(server: UserManager, u: uint16, c: uint16, text: string)
    requires server.Valid()
    modifies server.Parts()
    ensures server.Wired() && server.canalUser == old(server.canalUser) && server.Parts() <= old(server.Parts())
    ensures Next(old(server.State()), MessageCanal(u, c, text), server.State())
  {
    ghost var before := server.State();
    server.canalUser.MessageCanal(u, c, text);
    MessageIs(before, u, c, text, server.State());
  }

  lemma MessageIs(s: Server, u: uint16, c: uint16, text: string, s': Server)
    requires s'.users == s.users && s'.userIds == s.userIds && s'.pending == s.pending && s'.index == s.index
    requires c !in s.index.canals ==> s'.delivered == s.delivered
    requires c in s.index.canals && u !in s.index.canals[c].users ==>
               s'.delivered == s.delivered
                   + Send(s.users, u, Event(true, c, MSG_CANAL, "Cannot message canal: User has not joined it yet"))
    requires c in s.index.canals && u in s.index.canals[c].users ==>
               exists order :: Enumerates(order, s.index.canals[c].users - {u})
                 && s'.delivered == s.delivered + SendEach(s.users, order, MessageEvent(c, text))
    ensures Messages(s, u, c, text, s')
  {
    if c in s.index.canals && u in s.index.canals[c].users {
      var order :| Enumerates(order, s.index.canals[c].users - {u})
                   && s'.delivered == s.delivered + SendEach(s.users, order, MessageEvent(c, text));
      assert s' == s.(delivered := s.delivered + SendEach(s.users, order, MessageEvent(c, text)));
    }
  }

  /** Any command on the objects, when it is enabled, is its step, and leaves the objects valid. */
  method Execute(server: UserManager, cmd: Command)
    requires server.Valid() && Enabled(server.State(), cmd)
    modifies server.Parts()
    ensures server.Valid() && server.canalUser == old(server.canalUser) && fresh(server.Parts() - old(server.Parts()))
    ensures Next(old(server.State()), cmd, server.State()) && FullNext(old(server.State()), cmd, server.State())
  {
    ghost var before := server.State();
    match cmd {
      case AddUser(handle) => server.AddUser(handle);
      case RemoveUser(u) => server.RemoveUser(u);
      case RemoveUserInstant(u) => server.RemoveUserInstant(u);
      case Update => server.Update();
      case CreateCanal(u, name, password, limit, scrap) => TreatCreate(server, u, name, password, limit, scrap);
      case DeleteCanal(u, c) => TreatDelete(server, u, c);
      case JoinCanal(u, c, password) => TreatJoin(server, u, c, password);
      case LeaveCanal(u, c) => TreatLeave(server, u, c);
      case MessageCanal(u, c, text) => TreatMessage(server, u, c, text);
    }
    NextKeepsAgrees(before, cmd, server.State());
    FullNextIsNext(before, cmd, server.State());
  }
}
