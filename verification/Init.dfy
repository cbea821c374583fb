/** One-time initialisation: any number of threads race through a compare-exchange and a store. */
module Init {

  type Thread = nat

  const UNINITIALIZED: nat := 0
  const INITIALIZING: nat := 1
  const INITIALIZED: nat := 2

  datatype Outcome = Entered | InitializationInProgress | AlreadyInitialized

  function AfterEnter(state: nat): nat {
    if state == UNINITIALIZED then INITIALIZING else state
  }

  function AfterLeave(ok: bool): nat {
    if ok then INITIALIZED else UNINITIALIZED
  }

  // ---------- All interleavings ----------

  /** The cell, the closures now running, and what has been run so far. */
  datatype World = World(state: nat, running: multiset<Thread>, started: nat, succeeded: nat)

  /** A thread attempts the call, or its closure ends; a thread may call again from within its closure. */
  datatype Action = Attempt(t: Thread) | Finish(t: Thread, ok: bool)

  function Act(w: World, a: Action): World {
    match a
    case Attempt(t) =>
      if w.state == UNINITIALIZED
      then World(AfterEnter(w.state), w.running + multiset{t}, w.started + 1, w.succeeded) else w
    case Finish(t, ok) =>
      if t in w.running
      then World(AfterLeave(ok), w.running - multiset{t}, w.started, w.succeeded + if ok then 1 else 0) else w
  }

  function ActAll(w: World, actions: seq<Action>): World
    decreases |actions|
  {
    if actions == [] then w else ActAll(Act(w, actions[0]), actions[1..])
  }

  const START := World(UNINITIALIZED, multiset{}, 0, 0)

  /** At most one closure runs, exactly while the cell says so; at most one has succeeded, exactly when it says so. */
  predicate Safe(w: World) {
    && w.state <= INITIALIZED
    && |w.running| == (if w.state == INITIALIZING then 1 else 0)
    && w.succeeded == (if w.state == INITIALIZED then 1 else 0)
  }

  lemma ActKeepsSafe(w: World, a: Action)
    requires Safe(w)
    ensures Safe(Act(w, a))
    ensures w.state == INITIALIZED ==> Act(w, a) == w
  {
    if a.Finish? && a.t in w.running {
      assert |w.running - multiset{a.t}| == |w.running| - 1;
    }
  }

  lemma {:induction false} RunKeepsSafe(w: World, actions: seq<Action>)
    requires Safe(w)
    ensures Safe(ActAll(w, actions))
    ensures w.state == INITIALIZED ==> ActAll(w, actions) == w
    decreases |actions|
  {
    if actions != [] {
      ActKeepsSafe(w, actions[0]);
      RunKeepsSafe(Act(w, actions[0]), actions[1..]);
    }
  }

  lemma {:induction false} RunsCompose(w: World, before: seq<Action>, after: seq<Action>)
    ensures ActAll(w, before + after) == ActAll(ActAll(w, before), after)
    decreases |before|
  {
    if before == [] {
      assert before + after == after;
    } else {
      RunsCompose(Act(w, before[0]), before[1..], after);
      assert (before + after)[1..] == before[1..] + after;
    }
  }

  /**
    In every interleaving at most one closure runs at a time and at most one ever succeeds; once one has, no closure
    starts again and nothing changes any more, whatever comes after.
    */
  lemma InitialisedOnce(before: seq<Action>, after: seq<Action>)
    ensures |ActAll(START, before).running| <= 1 && ActAll(START, before).succeeded <= 1
    ensures ActAll(START, before).succeeded == 1 ==> ActAll(START, before + after) == ActAll(START, before)
  {
    RunKeepsSafe(START, before);
    RunKeepsSafe(ActAll(START, before), after);
    RunsCompose(START, before, after);
  }

  // ---------- The cell ----------

  /** The atomic state; ghost fields record the closures now running and what has been run. */
  class Cell {
    var state: nat
    ghost var running: multiset<Thread>
    ghost var started: nat
    ghost var succeeded: nat

    ghost function View(): World
      reads this
    {
      World(state, running, started, succeeded)
    }

    constructor ()
      ensures View() == START && Safe(View())
    {
      state, running, started, succeeded := UNINITIALIZED, multiset{}, 0, 0;
    }

    /** The compare-exchange lets a closure run exactly when none is running and none has succeeded. */
    method Enter(t: Thread) returns (r: Outcome)
      requires Safe(View())
      modifies this
      ensures View() == Act(old(View()), Attempt(t)) && Safe(View())
      ensures r == Entered <==> old(running) == multiset{} && old(succeeded) == 0
      ensures r == InitializationInProgress <==> |old(running)| == 1
      ensures r == AlreadyInitialized <==> old(succeeded) == 1
    {
      ActKeepsSafe(View(), Attempt(t));
      if state == UNINITIALIZED {
        state := INITIALIZING;
        running, started := running + multiset{t}, started + 1;
        return Entered;
      }
      r := if state == INITIALIZING then InitializationInProgress else AlreadyInitialized;
    }

    /** The store after the closure of `t`, which was the only one running. */
    method Leave(t: Thread, closureResult: bool)
      requires Safe(View()) && t in running
      modifies this
      ensures View() == Act(old(View()), Finish(t, closureResult)) && Safe(View())
      ensures running == multiset{} && succeeded == if closureResult then 1 else 0
    {
      ActKeepsSafe(View(), Finish(t, closureResult));
      var next := if closureResult then INITIALIZED else UNINITIALIZED;
      state := next;
      running := running - multiset{t};
      succeeded := succeeded + if closureResult then 1 else 0;
    }

    /** A call during which no other thread moves: it leaves no closure running, and repeats nothing once done. */
    method CallInit(t: Thread, closureResult: bool) returns (r: Outcome)
      requires Safe(View())
      modifies this
      ensures Safe(View()) && running == old(running)
      ensures r != Entered ==> View() == old(View())
      ensures r == Entered ==> started == old(started) + 1 && succeeded == if closureResult then 1 else 0
      ensures old(succeeded) == 1 ==> r == AlreadyInitialized
    {
      r := Enter(t);
      if r == Entered {
        Leave(t, closureResult);
      }
    }

    method IsInitialized() returns (r: bool)
      requires Safe(View())
      ensures r <==> succeeded == 1
    {
      r := state == INITIALIZED;
    }
  }
}
