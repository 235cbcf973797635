/**
 `IDGenerator`: a 16-bit counter and a queue of freed ids that are handed out
 again before the counter moves.
 */
module IdGenerator {
  import opened Common
  import opened Paths

  datatype Ids = Ids(next: uint16, freed: seq<uint16>)

  /** `GenerateID`: the state after, and the id. */
  function Generate(s: Ids): (Ids, uint16) {
    if s.freed == [] then (s.(next := (s.next + 1) % 0x1_0000), s.next)
    else (s.(freed := s.freed[1..]), s.freed[0])
  }

  /** `FreeID`. The comparison is done on `int`, so 65535 never meets it. */
  function Free(s: Ids, id: uint16): Ids {
    if s.next == id + 1 then s.(next := s.next - 1) else s.(freed := s.freed + [id])
  }

  class IDGenerator {
    var id: uint16
    var freedID: seq<uint16>

    function State(): Ids
      reads this
    {
      Ids(id, freedID)
    }

    constructor (firstID: uint16)
      ensures State() == Ids(firstID, [])
    {
      id := firstID;
      freedID := [];
    }

    method GenerateID() returns (r: uint16)
      modifies this
      ensures (State(), r) == Generate(old(State()))
    {
      if freedID == [] {
        r := id;
        id := (id + 1) % 0x1_0000;
      } else {
        r := freedID[0];
        freedID := freedID[1..];
      }
    }

    method FreeID(freed: uint16)
      modifies this
      ensures State() == Free(old(State()), freed)
    {
      if id == freed + 1 {
        id := id - 1;
      } else {
        freedID := freedID + [freed];
      }
    }
  }

  // ---------- what the ids in circulation are ----------

  predicate Distinct(s: seq<uint16>) {
    forall i, j :: 0 <= i < j < |s| ==> s[i] != s[j]
  }

  /** How many ids are out or wait in the queue. */
  function Span(s: Ids, live: set<uint16>): nat {
    |live| + |s.freed|
  }

  /** How far an id is from the first, going up and round. */
  function Offset(first: uint16, id: uint16): nat {
    (id - first) % 0x1_0000
  }

  /** Going up from the first, and round, the counter has passed this id. */
  predicate Passed(first: uint16, s: Ids, live: set<uint16>, id: uint16) {
    if s.next == first then live != {} || s.freed != []
    else if first < s.next then first <= id < s.next
    else first <= id || id < s.next
  }

  /** Every id the counter has passed is live or waits in the queue, once; no other is either. */
  predicate Consistent(first: uint16, s: Ids, live: set<uint16>) {
    && Distinct(s.freed)
    && (forall i :: i in s.freed ==> Passed(first, s, live, i) && i !in live)
    && (forall i :: i in live ==> Passed(first, s, live, i))
    && (forall i: uint16 :: Passed(first, s, live, i) ==> i in live || i in s.freed)
  }

  // ---------- the same, counted ----------

  /** The ids out and queued are the first so many from the first on, and the counter is that many further. */
  predicate Cyclic(first: uint16, s: Ids, live: set<uint16>) {
    && Span(s, live) <= 0x1_0000
    && s.next == (first + Span(s, live)) % 0x1_0000
    && Distinct(s.freed)
    && (forall i :: i in s.freed ==> i !in live)
    && (forall i: uint16 :: i in live || i in s.freed <==> Offset(first, i) < Span(s, live))
  }

  /** How far the counter has come. */
  function Gap(first: uint16, s: Ids, live: set<uint16>): nat {
    if s.next == first then if live == {} && s.freed == [] then 0 else 0x1_0000
    else (s.next - first) % 0x1_0000
  }

  lemma PassedIsOffset(first: uint16, s: Ids, live: set<uint16>)
    ensures forall i: uint16 :: Passed(first, s, live, i) <==> Offset(first, i) < Gap(first, s, live)
    ensures Gap(first, s, live) <= 0x1_0000 && s.next == (first + Gap(first, s, live)) % 0x1_0000
  {
  }

  function IdsFrom(first: uint16, n: nat): (r: set<uint16>)
    requires n <= 0x1_0000
    ensures forall i: uint16 :: i in r <==> Offset(first, i) < n
    ensures |r| == n
  {
    if n == 0 then {}
    else
      var id: uint16 := (first + n - 1) % 0x1_0000;
      AtOffset(first, n - 1);
      IdsFrom(first, n - 1) + {id}
  }

  function Elements(s: seq<uint16>): (r: set<uint16>)
    ensures forall i :: i in r <==> i in s
  {
    set i | i in s
  }

  lemma {:induction false} ElementsSize(s: seq<uint16>)
    requires Distinct(s)
    ensures |Elements(s)| == |s|
  {
    if s == [] {
      assert Elements(s) == {};
    } else {
      ElementsSize(s[1..]);
      assert Elements(s) == Elements(s[1..]) + {s[0]};
      assert s[0] !in s[1..];
    }
  }

  /** The counter has come as far as there are ids live and queued. */
  lemma CountIds(first: uint16, s: Ids, live: set<uint16>)
    requires Consistent(first, s, live)
    ensures |live| + |s.freed| == Gap(first, s, live)
  {
    PassedIsOffset(first, s, live);
    ElementsSize(s.freed);
    assert live + Elements(s.freed) == IdsFrom(first, Gap(first, s, live));
    assert live !! Elements(s.freed);
  }

  lemma CyclicGap(first: uint16, s: Ids, live: set<uint16>)
    requires Cyclic(first, s, live)
    ensures Gap(first, s, live) == Span(s, live)
  {
  }

  lemma ConsistentIsCyclic(first: uint16, s: Ids, live: set<uint16>)
    ensures Consistent(first, s, live) <==> Cyclic(first, s, live)
  {
    PassedIsOffset(first, s, live);
    if Consistent(first, s, live) {
      CountIds(first, s, live);
    }
    if Cyclic(first, s, live) {
      CyclicGap(first, s, live);
    }
  }

  lemma AllAreLive(first: uint16, s: Ids, live: set<uint16>)
    requires Cyclic(first, s, live)
    ensures |live| == 0x1_0000 ==> s.freed == [] && forall i: uint16 :: i in live
  {
  }

  lemma GenerateFromQueue(first: uint16, s: Ids, live: set<uint16>)
    requires Cyclic(first, s, live) && s.freed != []
    ensures var (s', id) := Generate(s); id !in live && Cyclic(first, s', live + {id})
  {
    var (s', id) := Generate(s);
    assert forall i :: i in s.freed <==> i == id || i in s'.freed;
    assert id !in s'.freed by {
      assert forall j :: 0 <= j < |s'.freed| ==> s'.freed[j] == s.freed[j + 1];
    }
    assert Span(s', live + {id}) == Span(s, live);
  }

  /** The id `n` steps from the first is the only one at that offset. */
  lemma AtOffset(first: uint16, n: nat)
    requires n < 0x1_0000
    ensures var id: uint16 := (first + n) % 0x1_0000;
            Offset(first, id) == n && forall i: uint16 :: Offset(first, i) < n + 1 <==> Offset(first, i) < n || i == id
  {
  }

  lemma GenerateFromCounter(first: uint16, s: Ids, live: set<uint16>)
    requires Cyclic(first, s, live) && s.freed == [] && |live| < 0x1_0000
    ensures var (s', id) := Generate(s); id !in live && Cyclic(first, s', live + {id})
  {
    var (s', id) := Generate(s);
    AtOffset(first, |live|);
    NextRound(first + |live|);
    assert Span(s', live + {id}) == |live| + 1;
  }

  lemma NextRound(n: nat)
    ensures (n % 0x1_0000 + 1) % 0x1_0000 == (n + 1) % 0x1_0000
  {
  }

  /**
   A generated id is one that is not live, and the generator stays consistent, exactly
   when fewer than all 65536 ids are live.
   */
  lemma GenerateIsFresh(first: uint16, s: Ids, live: set<uint16>)
    requires Consistent(first, s, live)
    ensures Generate(s).1 !in live <==> |live| < 0x1_0000
    ensures Consistent(first, Generate(s).0, live + {Generate(s).1}) <==> |live| < 0x1_0000
  {
    ConsistentIsCyclic(first, s, live);
    ConsistentIsCyclic(first, Generate(s).0, live + {Generate(s).1});
    if s.freed != [] {
      GenerateFromQueue(first, s, live);
    } else if |live| < 0x1_0000 {
      GenerateFromCounter(first, s, live);
    } else {
      AllAreLive(first, s, live);
      assert live + {Generate(s).1} == live;
    }
  }

  lemma FreeLast(first: uint16, s: Ids, live: set<uint16>, id: uint16)
    requires Cyclic(first, s, live) && id in live && s.next == id + 1
    ensures Cyclic(first, Free(s, id), live - {id})
  {
    AtOffset(first, Span(s, live) - 1);
    assert |live - {id}| == |live| - 1;
  }

  lemma FreeOther(first: uint16, s: Ids, live: set<uint16>, id: uint16)
    requires Cyclic(first, s, live) && id in live && s.next != id + 1
    ensures Cyclic(first, Free(s, id), live - {id})
  {
    var s' := Free(s, id);
    assert forall i :: i in s'.freed <==> i in s.freed || i == id;
    assert Span(s', live - {id}) == Span(s, live);
  }

  lemma FreeKeepsConsistent(first: uint16, s: Ids, live: set<uint16>, id: uint16)
    requires Consistent(first, s, live) && id in live
    ensures Consistent(first, Free(s, id), live - {id})
  {
    ConsistentIsCyclic(first, s, live);
    ConsistentIsCyclic(first, Free(s, id), live - {id});
    if s.next == id + 1 {
      FreeLast(first, s, live, id);
    } else {
      FreeOther(first, s, live, id);
    }
  }

  // ---------- runs ----------

  datatype Operation = GenerateOp | FreeOp(id: uint16)

  /** A generator with the ids its users hold, and the most they ever held at once. */
  datatype History = History(ids: Ids, live: set<uint16>, peak: nat)

  function Start(first: uint16): History {
    History(Ids(first, []), {}, 0)
  }

  function After(h: History, op: Operation): History {
    match op
    case GenerateOp =>
      var (ids, id) := Generate(h.ids);
      History(ids, h.live + {id}, Max(h.peak, |h.live + {id}|))
    case FreeOp(id) => h.(ids := Free(h.ids, id), live := h.live - {id})
  }

  function Run(first: uint16, ops: seq<Operation>): History {
    if ops == [] then Start(first) else After(Run(first, ops[..|ops| - 1]), ops[|ops| - 1])
  }

  /** Users free only ids they hold. */
  predicate Disciplined(first: uint16, ops: seq<Operation>) {
    ops == [] ||
    (&& Disciplined(first, ops[..|ops| - 1])
     && (ops[|ops| - 1].FreeOp? ==> ops[|ops| - 1].id in Run(first, ops[..|ops| - 1]).live))
  }

  /** An id that is given out is held by nobody. */
  predicate GivesFresh(h: History, op: Operation) {
    op == GenerateOp ==> Generate(h.ids).1 !in h.live
  }

  /** When an id is asked for, some id is not held: what a caller can count. */
  predicate HasRoom(h: History, op: Operation) {
    op == GenerateOp ==> |h.live| < 0x1_0000
  }

  predicate AllFresh(first: uint16, ops: seq<Operation>) {
    forall k :: 0 <= k < |ops| ==> GivesFresh(Run(first, ops[..k]), ops[k])
  }

  predicate NeverFull(first: uint16, ops: seq<Operation>) {
    forall k :: 0 <= k < |ops| ==> HasRoom(Run(first, ops[..k]), ops[k])
  }

  lemma OneMore(first: uint16, ops: seq<Operation>)
    requires ops != []
    ensures var before, op := Front(ops), Last(ops);
            && (AllFresh(first, ops) <==> AllFresh(first, before) && GivesFresh(Run(first, before), op))
            && (NeverFull(first, ops) <==> NeverFull(first, before) && HasRoom(Run(first, before), op))
  {
    AllPrefixesSplit((before, op) => GivesFresh(Run(first, before), op), ops);
    AllPrefixesSplit((before, op) => HasRoom(Run(first, before), op), ops);
  }

  predicate WithinPeak(first: uint16, h: History) {
    && Consistent(first, h.ids, h.live)
    && |h.live| <= h.peak
    && Span(h.ids, h.live) <= h.peak
  }

  lemma AfterStaysWithinPeak(first: uint16, h: History, op: Operation)
    requires WithinPeak(first, h) && (op.FreeOp? ==> op.id in h.live) && HasRoom(h, op)
    ensures WithinPeak(first, After(h, op))
  {
    ConsistentIsCyclic(first, h.ids, h.live);
    match op {
      case GenerateOp => GenerateIsFresh(first, h.ids, h.live);
      case FreeOp(id) => FreeKeepsConsistent(first, h.ids, h.live, id);
    }
  }

  /**
   Over any run in which an id is asked for only while some id is not held, the ids up to
   the counter are the live and the queued ones, never more than were live at once.
   */
  lemma {:induction false} RunIsConsistent(first: uint16, ops: seq<Operation>)
    requires Disciplined(first, ops) && NeverFull(first, ops)
    ensures WithinPeak(first, Run(first, ops))
    decreases |ops|
  {
    if ops != [] {
      OneMore(first, ops);
      RunIsConsistent(first, ops[..|ops| - 1]);
      AfterStaysWithinPeak(first, Run(first, ops[..|ops| - 1]), ops[|ops| - 1]);
    }
  }

  /** In every run all ids given out are held by nobody exactly when none is asked for while all 65536 are held. */
  lemma {:induction false} RunIsFreshExactly(first: uint16, ops: seq<Operation>)
    requires Disciplined(first, ops)
    ensures AllFresh(first, ops) <==> NeverFull(first, ops)
    decreases |ops|
  {
    if ops != [] {
      var before := ops[..|ops| - 1];
      OneMore(first, ops);
      RunIsFreshExactly(first, before);
      if NeverFull(first, before) {
        RunIsConsistent(first, before);
        GenerateIsFresh(first, Run(first, before).ids, Run(first, before).live);
      }
    }
  }

  lemma {:induction false} PeakLeavesRoom(first: uint16, ops: seq<Operation>)
    ensures |Run(first, ops).live| <= Run(first, ops).peak
    ensures Run(first, ops).peak < 0x1_0000 ==> NeverFull(first, ops)
    decreases |ops|
  {
    if ops != [] {
      OneMore(first, ops);
      PeakLeavesRoom(first, ops[..|ops| - 1]);
    }
  }

  /** With a peak that leaves room for it the counter never goes round, and never passes the peak. */
  lemma RunNeverWraps(first: uint16, ops: seq<Operation>)
    requires Disciplined(first, ops) && Run(first, ops).peak <= 65535 - first
    ensures AllFresh(first, ops)
    ensures first <= Run(first, ops).ids.next <= first + Run(first, ops).peak
  {
    PeakLeavesRoom(first, ops);
    RunIsFreshExactly(first, ops);
    RunIsConsistent(first, ops);
    PeakBoundsCounter(first, Run(first, ops));
  }

  lemma PeakBoundsCounter(first: uint16, h: History)
    requires WithinPeak(first, h) && h.peak <= 65535 - first
    ensures first <= h.ids.next <= first + h.peak
  {
    ConsistentIsCyclic(first, h.ids, h.live);
  }

  // ---------- the order of reuse ----------

  /** The ids freed so far that were not simply taken back by the counter, in the order they were freed. */
  function FreedInOrder(first: uint16, ops: seq<Operation>): seq<uint16> {
    if ops == [] then []
    else
      var op, h := Last(ops), Run(first, Front(ops));
      FreedInOrder(first, Front(ops)) + if op.FreeOp? && h.ids.next != op.id + 1 then [op.id] else []
  }

  /** The ids given out so far that had been freed before, in the order they were given out. */
  function ReusedInOrder(first: uint16, ops: seq<Operation>): seq<uint16> {
    if ops == [] then []
    else
      var op, h := Last(ops), Run(first, Front(ops));
      ReusedInOrder(first, Front(ops)) + if op == GenerateOp && h.ids.freed != [] then [Generate(h.ids).1] else []
  }

  lemma FirstOut(reused: seq<uint16>, s: Ids)
    requires s.freed != []
    ensures reused + s.freed == (reused + [Generate(s).1]) + Generate(s).0.freed
  {
    assert s.freed == [s.freed[0]] + s.freed[1..];
  }

  lemma LastIn(reused: seq<uint16>, s: Ids, id: uint16)
    ensures reused + Free(s, id).freed == (reused + s.freed) + if s.next != id + 1 then [id] else []
  {
    assert reused + (s.freed + [id]) == (reused + s.freed) + [id];
    assert (reused + s.freed) + [] == reused + s.freed;
  }

  /** Over every run freed ids are given out again in the order they were freed, and the rest waits in that order. */
  lemma {:induction false} ReuseIsInOrder(first: uint16, ops: seq<Operation>)
    ensures FreedInOrder(first, ops) == ReusedInOrder(first, ops) + Run(first, ops).ids.freed
    decreases |ops|
  {
    if ops != [] {
      var h, reused := Run(first, Front(ops)), ReusedInOrder(first, Front(ops));
      ReuseIsInOrder(first, Front(ops));
      match Last(ops) {
        case GenerateOp => GenerateKeepsOrder(reused, h.ids);
        case FreeOp(id) =>
          LastIn(reused, h.ids, id);
          assert reused + [] == reused;
      }
    }
  }

  lemma GenerateKeepsOrder(reused: seq<uint16>, s: Ids)
    ensures (reused + s.freed) + []
         == (reused + if s.freed != [] then [Generate(s).1] else []) + Generate(s).0.freed
  {
    if s.freed != [] {
      FirstOut(reused, s);
    }
  }

  /** An id that is freed right after it came from the counter is taken back, unless the counter has just gone round. */
  lemma FreeUndoesGenerate(s: Ids)
    requires s.freed == []
    ensures Free(Generate(s).0, Generate(s).1) == s <==> s.next != 65535
  {
  }

  // ---------- a run that uses up all ids ----------

  function Generations(k: nat): seq<Operation> {
    seq(k, _ => GenerateOp)
  }

  lemma OneMoreGeneration(k: nat)
    requires k > 0
    ensures Run(0, Generations(k)) == After(Run(0, Generations(k - 1)), GenerateOp)
  {
    assert Generations(k)[..k - 1] == Generations(k - 1);
  }

  /** The ids below `k` are held, the counter stands at `k`. */
  predicate HoldsFirst(h: History, k: nat) {
    h.ids == Ids(k % 0x1_0000, []) && forall i: uint16 :: i in h.live <==> i < k
  }

  lemma {:induction false} RunOfGenerations(k: nat)
    requires k <= 0x1_0000
    ensures HoldsFirst(Run(0, Generations(k)), k)
  {
    if k > 0 {
      RunOfGenerations(k - 1);
      OneMoreGeneration(k);
      GeneratesNext(Run(0, Generations(k - 1)), k - 1);
    }
  }

  lemma GeneratesNext(h: History, k: uint16)
    requires HoldsFirst(h, k)
    ensures HoldsFirst(After(h, GenerateOp), k + 1)
  {
  }

  /** 65536 ids are given out, the counter is back at 0 and all are held: the next id given out is a live one. */
  lemma FullGeneratorGivesALiveId()
    ensures var h := Run(0, Generations(0x1_0000));
            && h.ids == Ids(0, []) && (forall i: uint16 :: i in h.live)
            && Generate(h.ids).1 == 0
  {
    RunOfGenerations(0x1_0000);
  }
}
