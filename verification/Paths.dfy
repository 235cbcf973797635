/** Paths of any step relation, and what holds along them. */
module Paths {

  function Front<C>(cs: seq<C>): (r: seq<C>)
    requires cs != []
    ensures |r| < |cs|
  {
    cs[..|cs| - 1]
  }

  function Last<C>(cs: seq<C>): C
    requires cs != []
  {
    cs[|cs| - 1]
  }

  lemma FrontPrefix<C>(cs: seq<C>, k: nat)
    requires k < |cs|
    ensures k < |cs| - 1 ==> Front(cs)[..k] == cs[..k] && Front(cs)[k] == cs[k]
    ensures k == |cs| - 1 ==> Front(cs) == cs[..k] && Last(cs) == cs[k]
  {
  }

  /** What is asked of every element after those before it, is asked of the front and of the last. */
  lemma AllPrefixesSplit<C>(ok: (seq<C>, C) -> bool, cs: seq<C>)
    requires cs != []
    ensures (forall k :: 0 <= k < |cs| ==> ok(cs[..k], cs[k]))
            <==> (forall k :: 0 <= k < |Front(cs)| ==> ok(Front(cs)[..k], Front(cs)[k])) && ok(Front(cs), Last(cs))
  {
    forall k | 0 <= k < |cs|
      ensures k < |cs| - 1 ==> Front(cs)[..k] == cs[..k] && Front(cs)[k] == cs[k]
      ensures k == |cs| - 1 ==> Front(cs) == cs[..k] && Last(cs) == cs[k]
    {
      FrontPrefix(cs, k);
    }
  }

  /** Taken in this order, the steps lead from one state to the other. */
  ghost predicate Path<S(!new), C>(step: (S, C, S) -> bool, s: S, cs: seq<C>, s': S)
    decreases |cs|
  {
    if cs == [] then s' == s
    else exists mid :: Path(step, s, Front(cs), mid) && step(mid, Last(cs), s')
  }

  lemma PathStep<S(!new), C>(step: (S, C, S) -> bool, s: S, cs: seq<C>, mid: S, c: C, s': S)
    requires Path(step, s, cs, mid) && step(mid, c, s')
    ensures Path(step, s, cs + [c], s')
  {
    assert Front(cs + [c]) == cs && Last(cs + [c]) == c;
  }

  lemma {:induction false} PathOn<S(!new), C>(step: (S, C, S) -> bool, s: S, cs: seq<C>, mid: S, ds: seq<C>, s': S)
    requires Path(step, s, cs, mid) && Path(step, mid, ds, s')
    ensures Path(step, s, cs + ds, s')
    decreases |ds|
  {
    if ds == [] {
      assert cs + ds == cs;
    } else {
      var front, last := Front(ds), Last(ds);
      var before :| Path(step, mid, front, before) && step(before, last, s');
      PathOn(step, s, cs, mid, front, before);
      PathStep(step, s, cs + front, before, last, s');
      assert cs + ds == (cs + front) + [last];
    }
  }

  /** What every step keeps is kept along a path. */
  lemma {:induction false} PathKeeps<S(!new), C(!new)>(
      step: (S, C, S) -> bool, kept: S -> bool, s: S, cs: seq<C>, s': S)
    requires Path(step, s, cs, s') && kept(s)
    requires forall a, c, b :: step(a, c, b) && kept(a) ==> kept(b)
    ensures kept(s')
    decreases |cs|
  {
    if cs != [] {
      var front, last := Front(cs), Last(cs);
      var mid :| Path(step, s, front, mid) && step(mid, last, s');
      PathKeeps(step, kept, s, front, mid);
    }
  }

  /** What holds at first and is lost exactly at marked steps holds all along exactly when no step is marked. */
  lemma {:induction false} HoldsUntilMarked(holds: seq<bool>, marked: seq<bool>, n: nat)
    requires n <= |marked| < |holds| && holds[0]
    requires forall i :: 0 <= i < |marked| && holds[i] ==> (holds[i + 1] <==> !marked[i])
    ensures (forall i :: 0 <= i <= n ==> holds[i]) <==> (forall i :: 0 <= i < n ==> !marked[i])
  {
    if n > 0 {
      HoldsUntilMarked(holds, marked, n - 1);
      assert holds[n - 1] ==> (holds[n - 1 + 1] <==> !marked[n - 1]);
    }
  }

  // ---------- runs, with their states ----------

  ghost predicate StepsThrough<S, C>(step: (S, C, S) -> bool, states: seq<S>, cs: seq<C>) {
    && |states| == |cs| + 1
    && forall i :: 0 <= i < |cs| ==> step(states[i], cs[i], states[i + 1])
  }

  lemma {:induction false} RunKeeps<S(!new), C(!new)>(
      step: (S, C, S) -> bool, kept: S -> bool, states: seq<S>, cs: seq<C>, i: nat)
    requires StepsThrough(step, states, cs) && i < |states| && kept(states[0])
    requires forall a, c, b :: step(a, c, b) && kept(a) ==> kept(b)
    ensures kept(states[i])
  {
    if i > 0 {
      RunKeeps(step, kept, states, cs, i - 1);
      assert step(states[i - 1], cs[i - 1], states[i - 1 + 1]);
    }
  }

  /** What every step from a good state satisfies, the step of a run from a good state does. */
  lemma RunStepHas<S(!new), C(!new)>(
      step: (S, C, S) -> bool, good: S -> bool, has: (S, C, S) -> bool, states: seq<S>, cs: seq<C>, i: nat)
    requires StepsThrough(step, states, cs) && i < |cs| && good(states[i])
    requires forall a, c, b :: step(a, c, b) && good(a) ==> has(a, c, b)
    ensures has(states[i], cs[i], states[i + 1])
  {
    assert step(states[i], cs[i], states[i + 1]);
  }

  /**
   What does not hold at first and is gained exactly at marked steps holds exactly when some step
   before was marked.
   */
  lemma {:induction false} RunGains<S(!new), C(!new)>(
      step: (S, C, S) -> bool, gained: S -> bool, mark: (S, C) -> bool, states: seq<S>, cs: seq<C>, i: nat)
    requires StepsThrough(step, states, cs) && i < |states| && !gained(states[0])
    requires forall a, c, b :: step(a, c, b) ==> (gained(b) <==> gained(a) || mark(a, c))
    ensures gained(states[i]) <==> exists j :: 0 <= j < i && mark(states[j], cs[j])
  {
    if i > 0 {
      RunGains(step, gained, mark, states, cs, i - 1);
      assert step(states[i - 1], cs[i - 1], states[i - 1 + 1]);
    }
  }
}
