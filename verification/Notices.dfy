/**
 The steps of the server with everything the code does in them: `DeleteCanal` tells
 whoever is linked, and `Update` sweeps canals that are marked and empty. In a server that
 agrees none of this is ever seen, so these steps are exactly those of `ServerSpec`.
 */
module Notices {
  import opened Common
  import opened IdGenerator
  import opened Membership
  import opened ServerSpec

  /** The users linked to a canal: those `DeleteCanal` notifies. */
  function Linked(links: map<uint16, set<uint16>>, c: uint16): set<uint16> {
    set u | u in links && c in links[u]
  }

  function DeletionNotice(c: uint16): Event {
    Event(false, c, CANAL_DELETED, IntText(c))
  }

  // ---------- who is linked when a canal is deleted ----------

  /** An empty canal that mirrors its links is deleted without a notice. */
  lemma NobodyIsLinked(s: Indices, c: uint16)
    requires LinksMirror(s) && c in s.canals && s.canals[c].users == {}
    ensures Linked(s.links, c) == {}
  {
    EmptyCanalHasNoLinks(s, c);
    assert forall u :: u in Linked(s.links, c) ==> IsLinked(s, u, c);
  }

  /** When the last member leaves, nobody is linked any more. */
  lemma LastMemberUnlinked(s: Indices, u: uint16, c: uint16)
    requires LinksMirror(s) && c in s.canals && c in LinksOf(s, u)
    ensures s.canals[c].users - {u} == {} ==> Linked(s.(links := s.links[u := LinksOf(s, u) - {c}]).links, c) == {}
  {
    if s.canals[c].users - {u} == {} {
      forall v: uint16 | v != u
        ensures !IsLinked(s, v, c)
      {
        assert IsLinked(s, v, c) <==> IsMember(s, v, c);
        assert v in s.canals[c].users <==> v in s.canals[c].users - {u};
      }
      var unlinked := s.(links := s.links[u := LinksOf(s, u) - {c}]);
      assert forall v: uint16 :: v in Linked(unlinked.links, c) ==> IsLinked(s, v, c) && v != u;
    }
  }

  /** Whoever is erased from the canals on the way out is the only one linked, if the canal goes. */
  lemma LeavingAlone(s: Indices, u: uint16, todo: set<uint16>, c: uint16)
    requires AgreeExcept(s, u, todo) && c in todo && c in s.canals
    ensures c !in Dismiss(s, u, c).canals ==> Linked(s.links, c) <= {u}
  {
    DismissStep(s, u, c);
    if s.canals[c].users - {u} == {} {
      OnlyTheLeavingUserIsLinked(s, u, todo, c);
      assert forall v :: v in Linked(s.links, c) ==> IsLinked(s, v, c);
    }
  }

  // ---------- notices that reach nobody ----------

  lemma EnumeratesNothing(order: seq<uint16>)
    requires Enumerates(order, {})
    ensures order == []
  {
    if order != [] {
      FirstIsListed(order, {});
    }
  }

  lemma FirstIsListed(order: seq<uint16>, s: set<uint16>)
    requires Enumerates(order, s) && order != []
    ensures order[0] in s
  {
    assert order[0] in order;
  }

  lemma {:induction false} NobodyToNotify(users: map<uint16, Handle>, order: seq<uint16>, e: Event)
    requires forall u :: u in order ==> u !in users
    ensures SendEach(users, order, e) == []
    decreases |order|
  {
    if order != [] {
      assert order[0] in order;
      NobodyToNotify(users, order[1..], e);
    }
  }

  lemma {:induction false} CanBeListed(s: set<uint16>) returns (order: seq<uint16>)
    ensures Enumerates(order, s)
  {
    if s == {} {
      order := [];
    } else {
      var x :| x in s;
      order := CanBeListed(s - {x});
      assert x !in order;
      order := [x] + order;
    }
  }

  /** The notices of one `DeleteCanal(canalID)`, in the order the hash map yields the links. */
  ghost predicate Notifies(users: map<uint16, Handle>, s: Indices, c: uint16, sent: seq<Delivery>) {
    exists order :: Enumerates(order, Linked(s.links, c)) && sent == SendEach(users, order, DeletionNotice(c))
  }

  lemma NobodyIsNotified(users: map<uint16, Handle>, s: Indices, c: uint16, sent: seq<Delivery>)
    requires Linked(s.links, c) !! users.Keys
    ensures Notifies(users, s, c, sent) <==> sent == []
  {
    if order :| Enumerates(order, Linked(s.links, c)) && sent == SendEach(users, order, DeletionNotice(c)) {
      NobodyToNotify(users, order, DeletionNotice(c));
    }
    var order := CanBeListed(Linked(s.links, c));
    NobodyToNotify(users, order, DeletionNotice(c));
  }

  // ---------- leaving ----------

  /** The canal only waits for this user to go. */
  predicate GoesWith(s: Indices, u: uint16, c: uint16)
    requires c in s.canals
  {
    s.canals[c].marked && s.canals[c].users - {u} == {}
  }

  /** The notices of the body `LeaveCanal` and `LeaveAllCanal` share. */
  ghost predicate DismissNotifies(users: map<uint16, Handle>, s: Indices, u: uint16, c: uint16, sent: seq<Delivery>) {
    if c in s.canals && GoesWith(s, u, c) then Notifies(users, s, c, sent) else sent == []
  }

  ghost predicate DismissEachNotifies(
      users: map<uint16, Handle>, s: Indices, u: uint16, order: seq<uint16>, sent: seq<Delivery>)
    decreases |order|
  {
    if order == [] then sent == []
    else exists first, rest ::
      && DismissNotifies(users, s, u, order[0], first)
      && DismissEachNotifies(users, Dismiss(s, u, order[0]), u, order[1..], rest)
      && sent == first + rest
  }

  lemma LeaverHearsNothing(
      users: map<uint16, Handle>, s: Indices, u: uint16, todo: set<uint16>, c: uint16, sent: seq<Delivery>)
    requires AgreeExcept(s, u, todo) && c in todo && u !in users
    ensures DismissNotifies(users, s, u, c, sent) <==> sent == []
  {
    assert IsMember(s, u, c);
    if GoesWith(s, u, c) {
      DismissStep(s, u, c);
      LeavingAlone(s, u, todo, c);
      NobodyIsNotified(users, s, c, sent);
    }
  }

  /** A user that is out of the user set leaves all its canals without anybody being told. */
  lemma {:induction false} LeavingAllIsSilent(
      users: map<uint16, Handle>, s: Indices, u: uint16, todo: set<uint16>, order: seq<uint16>, sent: seq<Delivery>)
    requires AgreeExcept(s, u, todo) && Enumerates(order, todo) && u !in users
    ensures DismissEachNotifies(users, s, u, order, sent) <==> sent == []
    decreases |order|
  {
    if order != [] {
      var c, s' := order[0], Dismiss(s, u, order[0]);
      assert c in order;
      DismissKeepsAgreeExcept(s, u, todo, c);
      EnumeratesRest(order, todo);
      forall first, rest
        ensures DismissNotifies(users, s, u, c, first) <==> first == []
        ensures DismissEachNotifies(users, s', u, order[1..], rest) <==> rest == []
      {
        LeaverHearsNothing(users, s, u, todo, c, first);
        LeavingAllIsSilent(users, s', u, todo - {c}, order[1..], rest);
      }
      var none: seq<Delivery> := [];
      assert DismissNotifies(users, s, u, c, none) && DismissEachNotifies(users, s', u, order[1..], none);
      assert none + none == none;
    }
  }

  // ---------- the full steps ----------

  function Recorded(s: Server, sent: seq<Delivery>): Server {
    s.(delivered := s.delivered + sent)
  }

  /** `RemoveUserInstant`: the user is out of the set when its canals are told. */
  ghost predicate FullRemoves(s: Server, u: uint16, s': Server) {
    if u !in s.users then s' == s
    else if u !in s.index.links then s' == Removed(s, u, [])
    else exists order, sent ::
      && Enumerates(order, s.index.links[u])
      && DismissEachNotifies(s.users - {u}, s.index, u, order, sent)
      && s' == Recorded(Removed(s, u, order), sent)
  }

  ghost predicate FullRemovesEach(s: Server, ids: seq<uint16>, s': Server)
    decreases |ids|
  {
    if ids == [] then s' == s
    else exists mid :: FullRemoves(s, ids[0], mid) && FullRemovesEach(mid, ids[1..], s')
  }

  /** The canal manager's `Update` over the canals it has found marked and empty. */
  ghost predicate SweepsEach(s: Server, order: seq<uint16>, s': Server)
    decreases |order|
  {
    if order == [] then s' == s
    else exists sent ::
      && Notifies(s.users, s.index, order[0], sent)
      && SweepsEach(Recorded(s.(index := Erase(s.index, order[0])), sent), order[1..], s')
  }

  ghost predicate Sweeps(s: Server, s': Server) {
    exists order :: Enumerates(order, SweepTargets(s.index)) && SweepsEach(s, order, s')
  }

  ghost predicate FullUpdates(s: Server, s': Server) {
    exists mid :: FullRemovesEach(s, s.pending, mid) && Sweeps(mid.(pending := []), s')
  }

  ghost predicate FullDeletes(s: Server, u: uint16, c: uint16, s': Server) {
    if c in s.index.canals && s.index.canals[c].users == {} then
      exists sent ::
        && Notifies(s.users, s.index, c, sent)
        && s' == Told(Recorded(s, sent), u, DeleteReply(s.index, c)).(index := Delete(s.index, c))
    else s' == Told(s, u, DeleteReply(s.index, c)).(index := Delete(s.index, c))
  }

  ghost predicate FullLeaves(s: Server, u: uint16, c: uint16, s': Server) {
    if c in s.index.canals && c in LinksOf(s.index, u) then
      exists sent ::
        && DismissNotifies(s.users, Unlinked(s.index, u, c), u, c, sent)
        && s' == Told(Recorded(s, sent), u, LeaveReply(s.index, u, c)).(index := Leave(s.index, u, c))
    else s' == Told(s, u, LeaveReply(s.index, u, c)).(index := Leave(s.index, u, c))
  }

  /** `LeaveCanal` takes the canal out of the user's links before it looks at the canal. */
  function Unlinked(s: Indices, u: uint16, c: uint16): Indices {
    s.(links := s.links[u := LinksOf(s, u) - {c}])
  }

  ghost predicate FullNext(s: Server, cmd: Command, s': Server) {
    match cmd
    case RemoveUserInstant(u) => FullRemoves(s, u, s')
    case Update => FullUpdates(s, s')
    case DeleteCanal(u, c) => FullDeletes(s, u, c, s')
    case LeaveCanal(u, c) => FullLeaves(s, u, c, s')
    case _ => Next(s, cmd, s')
  }

  // ---------- they are the steps of `ServerSpec` ----------

  lemma NothingRecorded(s: Server)
    ensures Recorded(s, []) == s
  {
    assert s.delivered + [] == s.delivered;
  }

  lemma SilentRemoval(s: Server, u: uint16, order: seq<uint16>, sent: seq<Delivery>)
    requires ServerAgrees(s) && u in s.users && u in s.index.links && Enumerates(order, s.index.links[u])
    ensures DismissEachNotifies(s.users - {u}, s.index, u, order, sent) <==> sent == []
  {
    AgreeStartsLeaving(s.index, u);
    LeavingAllIsSilent(s.users - {u}, s.index, u, s.index.links[u], order, sent);
  }

  lemma FullRemovesIs(s: Server, u: uint16, s': Server)
    requires ServerAgrees(s)
    ensures FullRemoves(s, u, s') <==> Removes(s, u, s')
  {
    if u in s.users && u in s.index.links {
      if order, sent :| Enumerates(order, s.index.links[u])
                        && DismissEachNotifies(s.users - {u}, s.index, u, order, sent)
                        && s' == Recorded(Removed(s, u, order), sent) {
        SilentRemoval(s, u, order, sent);
        NothingRecorded(Removed(s, u, order));
      }
      if Removes(s, u, s') {
        var order :| Enumerates(order, s.index.links[u]) && s' == Removed(s, u, order);
        var none: seq<Delivery> := [];
        SilentRemoval(s, u, order, none);
        NothingRecorded(Removed(s, u, order));
        assert s' == Recorded(Removed(s, u, order), none);
      }
    } else {
      UnlinkedRemoval(s, u, s');
    }
  }

  lemma UnlinkedRemoval(s: Server, u: uint16, s': Server)
    requires u !in s.users || u !in s.index.links
    ensures Removes(s, u, s') <==> s' == Removed(s, u, [])
  {
    var nothing: seq<uint16> := [];
    assert s' == Removed(s, u, []) ==> s' == Removed(s, u, nothing);
  }

  lemma {:induction false} FullRemovesEachIs(s: Server, ids: seq<uint16>, s': Server)
    requires ServerAgrees(s)
    ensures FullRemovesEach(s, ids, s') <==> RemovesEach(s, ids, s')
    decreases |ids|
  {
    if ids != [] {
      forall mid
        ensures FullRemoves(s, ids[0], mid) <==> Removes(s, ids[0], mid)
        ensures Removes(s, ids[0], mid) ==> (FullRemovesEach(mid, ids[1..], s') <==> RemovesEach(mid, ids[1..], s'))
      {
        FullRemovesIs(s, ids[0], mid);
        if Removes(s, ids[0], mid) {
          RemoveKeepsAgrees(s, ids[0], mid);
          FullRemovesEachIs(mid, ids[1..], s');
        }
      }
    }
  }

  lemma SweepsNothing(s: Server, s': Server)
    requires SweepTargets(s.index) == {}
    ensures Sweeps(s, s') <==> s' == s
  {
    if order :| Enumerates(order, SweepTargets(s.index)) && SweepsEach(s, order, s') {
      EnumeratesNothing(order);
    }
    var nothing: seq<uint16> := [];
    assert Enumerates(nothing, SweepTargets(s.index)) && SweepsEach(s, nothing, s);
  }

  lemma FullUpdatesIs(s: Server, s': Server)
    requires ServerAgrees(s)
    ensures FullUpdates(s, s') <==> Next(s, Update, s')
  {
    forall mid
      ensures FullRemovesEach(s, s.pending, mid) <==> RemovesEach(s, s.pending, mid)
      ensures RemovesEach(s, s.pending, mid) ==> (Sweeps(mid.(pending := []), s') <==> s' == mid.(pending := []))
    {
      FullRemovesEachIs(s, s.pending, mid);
      if RemovesEach(s, s.pending, mid) {
        RemoveEachKeepsAgrees(s, s.pending, mid);
        SweepFindsNothing(mid.index);
        SweepsNothing(mid.(pending := []), s');
      }
    }
  }

  lemma FullDeletesIs(s: Server, u: uint16, c: uint16, s': Server)
    requires ServerAgrees(s)
    ensures FullDeletes(s, u, c, s') <==> Next(s, DeleteCanal(u, c), s')
  {
    if c in s.index.canals && s.index.canals[c].users == {} {
      NobodyIsLinked(s.index, c);
      NothingRecorded(s);
      forall sent
        ensures Notifies(s.users, s.index, c, sent) <==> sent == []
      {
        NobodyIsNotified(s.users, s.index, c, sent);
      }
    }
  }

  lemma LeavingIsSilent(s: Server, u: uint16, c: uint16, sent: seq<Delivery>)
    requires ServerAgrees(s) && c in s.index.canals && c in LinksOf(s.index, u)
    ensures DismissNotifies(s.users, Unlinked(s.index, u, c), u, c, sent) <==> sent == []
  {
    LastMemberUnlinked(s.index, u, c);
    if GoesWith(Unlinked(s.index, u, c), u, c) {
      NobodyIsNotified(s.users, Unlinked(s.index, u, c), c, sent);
    }
  }

  lemma FullLeavesIs(s: Server, u: uint16, c: uint16, s': Server)
    requires ServerAgrees(s)
    ensures FullLeaves(s, u, c, s') <==> Next(s, LeaveCanal(u, c), s')
  {
    if c in s.index.canals && c in LinksOf(s.index, u) {
      NothingRecorded(s);
      forall sent
        ensures DismissNotifies(s.users, Unlinked(s.index, u, c), u, c, sent) <==> sent == []
      {
        LeavingIsSilent(s, u, c, sent);
      }
    }
  }

  /**
   In a server that agrees no notice of `DeleteCanal` reaches anybody, whatever the order,
   and `Update` sweeps nothing: the full step is the step of `ServerSpec`.
   */
  lemma FullNextIsNext(s: Server, cmd: Command, s': Server)
    requires ServerAgrees(s)
    ensures FullNext(s, cmd, s') <==> Next(s, cmd, s')
  {
    match cmd {
      case RemoveUserInstant(u) => FullRemovesIs(s, u, s');
      case Update => FullUpdatesIs(s, s');
      case DeleteCanal(u, c) => FullDeletesIs(s, u, c, s');
      case LeaveCanal(u, c) => FullLeavesIs(s, u, c, s');
      case _ =>
    }
  }

  // ---------- runs ----------

  ghost predicate IsFullRun(states: seq<Server>, cmds: seq<Command>) {
    && |states| == |cmds| + 1
    && states[0] == EMPTY_SERVER
    && forall i :: 0 <= i < |cmds| ==> Enabled(states[i], cmds[i]) && FullNext(states[i], cmds[i], states[i + 1])
  }

  lemma {:induction false} FullRunAgrees(states: seq<Server>, cmds: seq<Command>, i: nat)
    requires IsFullRun(states, cmds) && i < |states|
    ensures ServerAgrees(states[i])
    ensures i > 0 ==> Next(states[i - 1], cmds[i - 1], states[i])
  {
    if i > 0 {
      FullRunAgrees(states, cmds, i - 1);
      FullNextIsNext(states[i - 1], cmds[i - 1], states[i]);
      NextKeepsAgrees(states[i - 1], cmds[i - 1], states[i]);
    }
  }

  /** The full steps and those of `ServerSpec` have the same runs. */
  lemma FullRunsAreRuns(states: seq<Server>, cmds: seq<Command>)
    ensures IsFullRun(states, cmds) <==> IsRun(states, cmds)
  {
    if IsFullRun(states, cmds) {
      forall i | 0 <= i < |cmds|
        ensures Next(states[i], cmds[i], states[i + 1])
      {
        FullRunAgrees(states, cmds, i + 1);
      }
    }
    if IsRun(states, cmds) {
      forall i | 0 <= i < |cmds|
        ensures FullNext(states[i], cmds[i], states[i + 1])
      {
        RunAgrees(states, cmds, i);
        FullNextIsNext(states[i], cmds[i], states[i + 1]);
      }
    }
  }

  /** Nobody is ever told that a canal was deleted: the one user `DeleteCanal` finds linked is gone already. */
  lemma {:induction false} NobodyHearsCanalDeleted(states: seq<Server>, cmds: seq<Command>, i: nat)
    requires IsFullRun(states, cmds) && i < |states|
    ensures forall d :: d in states[i].delivered ==> d.event.eventCode != CANAL_DELETED
  {
    if i > 0 {
      NobodyHearsCanalDeleted(states, cmds, i - 1);
      FullRunAgrees(states, cmds, i - 1);
      FullRunAgrees(states, cmds, i);
      NextTellsNoDeletion(states[i - 1], cmds[i - 1], states[i]);
    }
  }
}
