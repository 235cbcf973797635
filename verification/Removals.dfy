/**
 `RemoveUser` remembers an id, not a user: the id waits for `Update`, and may by then
 belong to somebody else. This module says exactly when `Update` takes the wrong user.
 */
module Removals {
  import opened Common
  import opened IdGenerator
  import opened Membership
  import opened ServerSpec
  import opened Paths

  /** A server with the users whose removal somebody asked for. */
  datatype Tracked = Tracked(server: Server, asked: set<Handle>)

  function AskedFor(t: Tracked, cmd: Command): set<Handle> {
    match cmd
    case RemoveUser(u) => if u in t.server.users then t.asked + {t.server.users[u]} else t.asked
    case RemoveUserInstant(u) => if u in t.server.users then t.asked + {t.server.users[u]} else t.asked
    case _ => t.asked
  }

  ghost predicate TrackedNext(t: Tracked, cmd: Command, t': Tracked) {
    Enabled(t.server, cmd) && Next(t.server, cmd, t'.server) && t'.asked == AskedFor(t, cmd)
  }

  /** Every pending id that is in use belongs to a user somebody asked to remove. */
  predicate PendingIsFair(t: Tracked) {
    forall u :: u in t.server.pending && u in t.server.users ==> t.server.users[u] in t.asked
  }

  /** `Update` removes only users somebody asked to remove exactly when the pending ids are fair. */
  lemma UpdateTakesOnlyAskedExactlyWhenFair(t: Tracked, t': Tracked)
    requires ServerAgrees(t.server) && TrackedNext(t, Update, t')
    ensures PendingIsFair(t) <==>
            forall u :: u in t.server.users && u !in t'.server.users ==> t.server.users[u] in t.asked
  {
    var mid :| RemovesEach(t.server, t.server.pending, mid) && t'.server == mid.(pending := []);
    RemoveEachKeepsAgrees(t.server, t.server.pending, mid);
    assert forall u :: u in t.server.pending ==> u !in t'.server.users;
  }

  /** Only connecting can spoil it, and does exactly when the new id is already pending. */
  lemma AddIsFairExactlyWhenIdNotPending(t: Tracked, handle: Handle, t': Tracked)
    requires ServerAgrees(t.server) && PendingIsFair(t) && handle !in t.asked
    requires TrackedNext(t, AddUser(handle), t')
    ensures PendingIsFair(t') <==> Generate(t.server.userIds).1 !in t.server.pending
  {
    var id := Generate(t.server.userIds).1;
    NewUserStartsClean(t.server);
    assert t'.server.users == t.server.users[id := handle];
  }

  lemma OthersStayFair(t: Tracked, cmd: Command, t': Tracked)
    requires ServerAgrees(t.server) && PendingIsFair(t) && !cmd.AddUser? && TrackedNext(t, cmd, t')
    ensures PendingIsFair(t')
  {
    match cmd {
      case RemoveUserInstant(u) => RemoveKeepsAgrees(t.server, u, t'.server);
      case Update =>
        var mid :| RemovesEach(t.server, t.server.pending, mid) && t'.server == mid.(pending := []);
      case _ =>
    }
  }

  // ---------- runs ----------

  /** A step at which nobody connects whose removal was asked for. */
  ghost predicate IsTrackedStep(t: Tracked, cmd: Command, t': Tracked) {
    TrackedNext(t, cmd, t') && (cmd.AddUser? ==> cmd.handle !in t.asked)
  }

  /** A run from start-up, in which whoever connects is somebody whose removal nobody has asked for. */
  ghost predicate IsTrackedRun(states: seq<Tracked>, cmds: seq<Command>) {
    StepsThrough(IsTrackedStep, states, cmds) && states[0] == Tracked(EMPTY_SERVER, {})
  }

  /**
   A connection is given an id that waits for removal: what `InternalAddUser` could check before
   it hands the id out.
   */
  predicate GivesPendingId(s: Server, cmd: Command) {
    cmd.AddUser? && Generate(s.userIds).1 in s.pending
  }

  lemma RunStep(states: seq<Tracked>, cmds: seq<Command>, i: nat)
    requires IsTrackedRun(states, cmds) && i < |cmds|
    ensures IsTrackedStep(states[i], cmds[i], states[i + 1])
  {
  }

  lemma StepKeepsAgrees(t: Tracked, cmd: Command, t': Tracked)
    requires ServerAgrees(t.server) && IsTrackedStep(t, cmd, t')
    ensures ServerAgrees(t'.server)
  {
    NextKeepsAgrees(t.server, cmd, t'.server);
  }

  lemma TrackedRunAgrees(states: seq<Tracked>, cmds: seq<Command>, i: nat)
    requires IsTrackedRun(states, cmds) && i < |states|
    ensures ServerAgrees(states[i].server)
  {
    forall t, cmd, t' | IsTrackedStep(t, cmd, t') && ServerAgrees(t.server)
      ensures ServerAgrees(t'.server)
    {
      StepKeepsAgrees(t, cmd, t');
    }
    EmptyServerAgrees();
    RunKeeps(IsTrackedStep, (t: Tracked) => ServerAgrees(t.server), states, cmds, i);
  }

  ghost predicate FairUpTo(states: seq<Tracked>, n: nat)
    requires n < |states|
  {
    forall i :: 0 <= i <= n ==> PendingIsFair(states[i])
  }

  predicate NoPendingIdGiven(states: seq<Tracked>, cmds: seq<Command>, n: nat)
    requires n <= |cmds| < |states|
  {
    forall i :: 0 <= i < n ==> !GivesPendingId(states[i].server, cmds[i])
  }

  lemma StepStaysFairExactly(states: seq<Tracked>, cmds: seq<Command>, i: nat)
    requires IsTrackedRun(states, cmds) && i < |cmds| && PendingIsFair(states[i])
    ensures PendingIsFair(states[i + 1]) <==> !GivesPendingId(states[i].server, cmds[i])
  {
    TrackedRunAgrees(states, cmds, i);
    RunStep(states, cmds, i);
    StaysFairExactly(states[i], cmds[i], states[i + 1]);
  }

  /** Up to some point all states are fair exactly when up to there no connection was given a pending id. */
  lemma RunIsFairExactly(states: seq<Tracked>, cmds: seq<Command>, n: nat)
    requires IsTrackedRun(states, cmds) && n < |states|
    ensures FairUpTo(states, n) <==> NoPendingIdGiven(states, cmds, n)
  {
    var holds := seq(|states|, i requires 0 <= i < |states| => PendingIsFair(states[i]));
    var marked := seq(|cmds|, i requires 0 <= i < |cmds| => GivesPendingId(states[i].server, cmds[i]));
    forall i | 0 <= i < |marked| && holds[i]
      ensures holds[i + 1] <==> !marked[i]
    {
      StepStaysFairExactly(states, cmds, i);
    }
    HoldsUntilMarked(holds, marked, n);
    assert forall i :: 0 <= i <= n ==> (holds[i] <==> PendingIsFair(states[i]));
    assert forall i :: 0 <= i < n ==> (marked[i] <==> GivesPendingId(states[i].server, cmds[i]));
  }

  lemma StaysFairExactly(t: Tracked, cmd: Command, t': Tracked)
    requires ServerAgrees(t.server) && PendingIsFair(t) && TrackedNext(t, cmd, t')
    requires cmd.AddUser? ==> cmd.handle !in t.asked
    ensures PendingIsFair(t') <==> !GivesPendingId(t.server, cmd)
  {
    if cmd.AddUser? {
      AddIsFairExactlyWhenIdNotPending(t, cmd.handle, t');
    } else {
      OthersStayFair(t, cmd, t');
    }
  }

  /** As long as no connection is given a pending id, no `Update` removes a user nobody asked to remove. */
  lemma UpdatesTakeOnlyAsked(states: seq<Tracked>, cmds: seq<Command>, k: nat)
    requires IsTrackedRun(states, cmds) && k < |cmds| && cmds[k] == Update
    requires NoPendingIdGiven(states, cmds, k)
    ensures var before, after := states[k].server.users, states[k + 1].server.users;
            forall u :: u in before && u !in after ==> before[u] in states[k].asked
  {
    RunIsFairExactly(states, cmds, k);
    TrackedRunAgrees(states, cmds, k);
    RunStep(states, cmds, k);
    UpdateTakesOnlyAskedExactlyWhenFair(states[k], states[k + 1]);
  }

  // ---------- whom an `Update` takes wrongly ----------

  /**
   The user of `u` connected at step `j`, since the last `Update` before `k`, when `u` was
   pending, and is still there.
   */
  predicate TookPendingId(states: seq<Tracked>, cmds: seq<Command>, j: nat, k: nat, u: uint16)
    requires |states| == |cmds| + 1 && k < |states|
  {
    && j < k
    && GivesPendingId(states[j].server, cmds[j]) && Generate(states[j].server.userIds).1 == u
    && (forall i :: j <= i < k ==> cmds[i] != Update)
    && u in states[k].server.users && states[k].server.users[u] == cmds[j].handle
  }

  /** A pending id whose user nobody asked to remove. */
  predicate IsVictim(t: Tracked, u: uint16) {
    u in t.server.pending && u in t.server.users && t.server.users[u] !in t.asked
  }

  predicate StaysVictim(t: Tracked, t': Tracked, u: uint16) {
    IsVictim(t, u) && u in t'.server.users && t'.server.users[u] == t.server.users[u]
  }

  predicate BecomesVictim(t: Tracked, cmd: Command, t': Tracked, u: uint16) {
    && GivesPendingId(t.server, cmd) && Generate(t.server.userIds).1 == u
    && u in t'.server.users && t'.server.users[u] == cmd.handle
  }

  lemma VictimOrigin(t: Tracked, cmd: Command, t': Tracked, u: uint16)
    requires ServerAgrees(t.server) && IsTrackedStep(t, cmd, t') && IsVictim(t', u)
    ensures cmd != Update
    ensures StaysVictim(t, t', u) || BecomesVictim(t, cmd, t', u)
  {
    match cmd {
      case RemoveUserInstant(v) => RemoveKeepsAgrees(t.server, v, t'.server);
      case _ =>
    }
  }

  lemma {:induction false} VictimTookPendingId(states: seq<Tracked>, cmds: seq<Command>, k: nat, u: uint16)
    requires IsTrackedRun(states, cmds) && k < |states| && IsVictim(states[k], u)
    ensures exists j: nat :: TookPendingId(states, cmds, j, k, u)
  {
    if k > 0 {
      VictimCameFrom(states, cmds, k, u);
      if StaysVictim(states[k - 1], states[k], u) {
        VictimTookPendingId(states, cmds, k - 1, u);
        var j: nat :| TookPendingId(states, cmds, j, k - 1, u);
        assert TookPendingId(states, cmds, j, k, u);
      } else {
        assert TookPendingId(states, cmds, k - 1, k, u);
      }
    }
  }

  predicate HasOrigin(t: Tracked, cmd: Command, t': Tracked, u: uint16) {
    IsVictim(t', u) ==> cmd != Update && (StaysVictim(t, t', u) || BecomesVictim(t, cmd, t', u))
  }

  lemma VictimCameFrom(states: seq<Tracked>, cmds: seq<Command>, k: nat, u: uint16)
    requires IsTrackedRun(states, cmds) && 0 < k < |states|
    ensures HasOrigin(states[k - 1], cmds[k - 1], states[k], u)
  {
    TrackedRunAgrees(states, cmds, k - 1);
    forall t, cmd, t' | IsTrackedStep(t, cmd, t') && ServerAgrees(t.server)
      ensures HasOrigin(t, cmd, t', u)
    {
      if IsVictim(t', u) {
        VictimOrigin(t, cmd, t', u);
      }
    }
    RunStepHas(IsTrackedStep, (t: Tracked) => ServerAgrees(t.server), (t, cmd, t') => HasOrigin(t, cmd, t', u),
               states, cmds, k - 1);
  }

  lemma PendingStays(s: Server, cmd: Command, s': Server)
    requires Next(s, cmd, s') && cmd != Update
    ensures s.pending <= s'.pending
  {
    match cmd {
      case RemoveUserInstant(u) => RemovalKeepsPending(s, u, s');
      case _ =>
    }
  }

  lemma RemovalKeepsPending(s: Server, u: uint16, s': Server)
    requires Removes(s, u, s')
    ensures s'.pending == s.pending
  {
  }

  lemma {:induction false} PendingLasts(states: seq<Tracked>, cmds: seq<Command>, j: nat, k: nat)
    requires IsTrackedRun(states, cmds) && j <= k < |states|
    requires forall i :: j <= i < k ==> cmds[i] != Update
    ensures states[j].server.pending <= states[k].server.pending
    decreases k
  {
    if j < k {
      PendingLasts(states, cmds, j, k - 1);
      TrackedRunAgrees(states, cmds, k - 1);
      RunStep(states, cmds, k - 1);
      PendingStays(states[k - 1].server, cmds[k - 1], states[k].server);
    }
  }

  /**
   An `Update` takes a user nobody asked to remove exactly when that user connected, since
   the `Update` before, under an id that was pending then, and nobody has asked since.
   */
  lemma UpdateTakesWronglyExactly(states: seq<Tracked>, cmds: seq<Command>, k: nat, u: uint16)
    requires IsTrackedRun(states, cmds) && k < |cmds| && cmds[k] == Update
    ensures var before, after := states[k].server.users, states[k + 1].server.users;
            u in before && u !in after && before[u] !in states[k].asked
            <==> exists j: nat :: TookPendingId(states, cmds, j, k, u) && cmds[j].handle !in states[k].asked
  {
    TrackedRunAgrees(states, cmds, k);
    RunStep(states, cmds, k);
    UpdateTakesPending(states[k].server, states[k + 1].server, u);
    if IsVictim(states[k], u) {
      VictimTookPendingId(states, cmds, k, u);
    }
    if j: nat :| TookPendingId(states, cmds, j, k, u) && cmds[j].handle !in states[k].asked {
      PendingLasts(states, cmds, j, k);
    }
  }

  lemma UpdateTakesPending(s: Server, s': Server, u: uint16)
    requires ServerAgrees(s) && Next(s, Update, s')
    ensures u in s.users && u !in s'.users <==> u in s.users && u in s.pending
  {
    var mid :| RemovesEach(s, s.pending, mid) && s' == mid.(pending := []);
    RemoveEachKeepsAgrees(s, s.pending, mid);
  }

  /** A caller's discipline: `RemoveUser` only for users there, `RemoveUserInstant` only for users not pending. */
  predicate Disciplined(s: Server, cmd: Command) {
    match cmd
    case RemoveUser(u) => u in s.users
    case RemoveUserInstant(u) => u !in s.pending
    case _ => true
  }

  predicate PendingInUse(s: Server) {
    forall u :: u in s.pending ==> u in s.users
  }

  lemma UpdateForgetsPending(s: Server, s': Server)
    requires Next(s, Update, s')
    ensures s'.pending == []
  {
  }

  lemma RemovalKeepsPendingInUse(s: Server, u: uint16, s': Server)
    requires ServerAgrees(s) && Removes(s, u, s') && u !in s.pending && PendingInUse(s)
    ensures PendingInUse(s')
  {
    RemoveKeepsAgrees(s, u, s');
  }

  lemma AddKeepsPendingInUse(s: Server, handle: Handle)
    requires ServerAgrees(s) && PendingInUse(s) && Enabled(s, AddUser(handle))
    ensures PendingInUse(Added(s, handle)) && Generate(s.userIds).1 !in s.pending
  {
    NewUserStartsClean(s);
  }

  /** Under it pending ids stay in use until `Update`, so none is given out meanwhile. */
  lemma DisciplineKeepsPendingInUse(s: Server, cmd: Command, s': Server)
    requires ServerAgrees(s) && Enabled(s, cmd) && Next(s, cmd, s') && Disciplined(s, cmd) && PendingInUse(s)
    ensures PendingInUse(s') && !GivesPendingId(s, cmd)
  {
    match cmd {
      case AddUser(handle) => AddKeepsPendingInUse(s, handle);
      case RemoveUserInstant(u) => RemovalKeepsPendingInUse(s, u, s');
      case Update => UpdateForgetsPending(s, s');
      case _ =>
    }
  }

  /** So disciplined callers never have an `Update` take somebody nobody asked for. */
  lemma {:induction false} DisciplinedRunIsFair(states: seq<Tracked>, cmds: seq<Command>, n: nat)
    requires IsTrackedRun(states, cmds) && n < |states|
    requires forall i :: 0 <= i < n ==> Disciplined(states[i].server, cmds[i])
    ensures PendingInUse(states[n].server) && NoPendingIdGiven(states, cmds, n)
  {
    if n > 0 {
      DisciplinedRunIsFair(states, cmds, n - 1);
      TrackedRunAgrees(states, cmds, n - 1);
      RunStep(states, cmds, n - 1);
      DisciplineKeepsPendingInUse(states[n - 1].server, cmds[n - 1], states[n].server);
    }
  }

  // ---------- the run that takes the wrong user ----------

  const WELCOME := Delivery(0, Event(false, 0, USER_CONNECTED, ""))

  /** Nobody is connected. */
  function Deserted(pending: seq<uint16>, delivered: seq<Delivery>): Server {
    Server(map[], Ids(0, []), pending, NO_CANALS, delivered)
  }

  /** One user is connected, under the id 0. */
  function Alone(handle: Handle, pending: seq<uint16>, delivered: seq<Delivery>): Server {
    Server(map[0 := handle], Ids(1, []), pending, NO_CANALS, delivered)
  }

  lemma Connects(handle: Handle, pending: seq<uint16>, delivered: seq<Delivery>)
    ensures Enabled(Deserted(pending, delivered), AddUser(handle))
    ensures Next(Deserted(pending, delivered), AddUser(handle), Alone(handle, pending, delivered + [WELCOME]))
  {
    assert map[][0 := handle] == map[0 := handle];
  }

  lemma Leaves(handle: Handle, pending: seq<uint16>, delivered: seq<Delivery>)
    ensures Removes(Alone(handle, pending, delivered), 0, Deserted(pending, delivered))
  {
    var nobody: seq<uint16> := [];
    assert map[0 := handle] - {0} == map[];
    assert Removed(Alone(handle, pending, delivered), 0, nobody) == Deserted(pending, delivered);
  }

  lemma UpdateRemovesTheOne(handle: Handle, delivered: seq<Delivery>)
    ensures Next(Alone(handle, [0], delivered), Update, Deserted([], delivered))
  {
    var s, mid := Alone(handle, [0], delivered), Deserted([0], delivered);
    Leaves(handle, [0], delivered);
    assert RemovesEach(mid, [], mid) && s.pending[1..] == [];
    assert RemovesEach(s, s.pending, mid);
  }

  lemma ConnectsStep(handle: Handle, pending: seq<uint16>, delivered: seq<Delivery>, asked: set<Handle>)
    requires handle !in asked
    ensures IsTrackedStep(Tracked(Deserted(pending, delivered), asked), AddUser(handle),
                          Tracked(Alone(handle, pending, delivered + [WELCOME]), asked))
  {
    Connects(handle, pending, delivered);
  }

  lemma MarkStep(handle: Handle, delivered: seq<Delivery>)
    ensures IsTrackedStep(Tracked(Alone(handle, [], delivered), {}), RemoveUser(0),
                          Tracked(Alone(handle, [0], delivered), {handle}))
  {
    assert {} + {handle} == {handle};
  }

  lemma LeavesStep(handle: Handle, pending: seq<uint16>, delivered: seq<Delivery>)
    ensures IsTrackedStep(Tracked(Alone(handle, pending, delivered), {handle}), RemoveUserInstant(0),
                          Tracked(Deserted(pending, delivered), {handle}))
  {
    Leaves(handle, pending, delivered);
    assert {handle} + {handle} == {handle};
  }

  lemma UpdateStep(handle: Handle, delivered: seq<Delivery>, asked: set<Handle>)
    ensures IsTrackedStep(Tracked(Alone(handle, [0], delivered), asked), Update,
            Tracked(Deserted([], delivered), asked))
  {
    UpdateRemovesTheOne(handle, delivered);
  }

  lemma RunGoesOn(states: seq<Tracked>, cmds: seq<Command>, cmd: Command, t: Tracked)
    requires IsTrackedRun(states, cmds) && IsTrackedStep(states[|cmds|], cmd, t)
    ensures IsTrackedRun(states + [t], cmds + [cmd])
  {
    var ts, cs := states + [t], cmds + [cmd];
    forall i | 0 <= i < |cs|
      ensures IsTrackedStep(ts[i], cs[i], ts[i + 1])
    {
      if i < |cmds| {
        assert ts[i] == states[i] && ts[i + 1] == states[i + 1] && cs[i] == cmds[i];
      }
    }
  }

  /** One user connects, is marked for removal, and is removed at once. */
  lemma MarkedAndGone() returns (states: seq<Tracked>, cmds: seq<Command>)
    ensures IsTrackedRun(states, cmds) && cmds == [AddUser(0), RemoveUser(0), RemoveUserInstant(0)]
    ensures states[3] == Tracked(Deserted([0], [WELCOME]), {0})
  {
    states, cmds := [Tracked(Deserted([], []), {})], [];
    ConnectsStep(0, [], [], {});
    assert [] + [WELCOME] == [WELCOME];
    RunGoesOn(states, cmds, AddUser(0), Tracked(Alone(0, [], [WELCOME]), {}));
    states, cmds := states + [Tracked(Alone(0, [], [WELCOME]), {})], cmds + [AddUser(0)];
    MarkStep(0, [WELCOME]);
    RunGoesOn(states, cmds, RemoveUser(0), Tracked(Alone(0, [0], [WELCOME]), {0}));
    states, cmds := states + [Tracked(Alone(0, [0], [WELCOME]), {0})], cmds + [RemoveUser(0)];
    LeavesStep(0, [0], [WELCOME]);
    RunGoesOn(states, cmds, RemoveUserInstant(0), Tracked(Deserted([0], [WELCOME]), {0}));
    states, cmds := states + [Tracked(Deserted([0], [WELCOME]), {0})], cmds + [RemoveUserInstant(0)];
  }

  /** A second user gets its id: the next `Update` removes the second user, for whom nobody asked. */
  lemma UpdateTakesTheWrongUser() returns (states: seq<Tracked>, cmds: seq<Command>)
    ensures IsTrackedRun(states, cmds)
    ensures cmds == [AddUser(0), RemoveUser(0), RemoveUserInstant(0), AddUser(1), Update]
    ensures states[4].server.users == map[0 := 1] && states[5].server.users == map[] && states[4].asked == {0}
  {
    states, cmds := MarkedAndGone();
    var t4 := Tracked(Alone(1, [0], [WELCOME] + [WELCOME]), {0});
    ConnectsStep(1, [0], [WELCOME], {0});
    RunGoesOn(states, cmds, AddUser(1), t4);
    states, cmds := states + [t4], cmds + [AddUser(1)];
    var t5 := Tracked(Deserted([], [WELCOME] + [WELCOME]), {0});
    UpdateStep(1, [WELCOME] + [WELCOME], {0});
    RunGoesOn(states, cmds, Update, t5);
    states, cmds := states + [t5], cmds + [Update];
  }
}
