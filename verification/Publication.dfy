/** The reentrant publication queue and the commit observer hub. */
module Publication {
  import opened Prelude

  /**
   * One publication by what its callbacks do when it runs: the publications they enqueue,
   * in order, and the failure they end with, if any.
   */
  datatype Publication = Publication(id: nat, nested: seq<Publication>, failure: Option<nat>)

  function Weight(q: seq<Publication>): nat {
    if q == [] then 0 else 1 + Weight(q[0].nested) + Weight(q[1..])
  }

  lemma {:induction false} WeightConcat(a: seq<Publication>, b: seq<Publication>)
    ensures Weight(a + b) == Weight(a) + Weight(b)
    decreases |a|
  {
    if a == [] {
      assert a + b == b;
    } else {
      assert (a + b)[0] == a[0] && (a + b)[1..] == a[1..] + b;
      WeightConcat(a[1..], b);
    }
  }

  /** First in, first out: what a publication enqueues runs after everything already waiting. */
  function Drain(q: seq<Publication>): seq<Publication>
    decreases Weight(q)
  {
    if q == [] then []
    else
      WeightConcat(q[1..], q[0].nested);
      [q[0]] + Drain(q[1..] + q[0].nested)
  }

  function FirstFailure(ran: seq<Publication>): Option<nat> {
    if ran == [] then None
    else if ran[0].failure.Some? then ran[0].failure
    else FirstFailure(ran[1..])
  }

  /** Every publication of a forest, each as often as it is enqueued. */
  function Everything(q: seq<Publication>): multiset<Publication> {
    if q == [] then multiset{} else multiset{q[0]} + Everything(q[0].nested) + Everything(q[1..])
  }

  lemma {:induction false} EverythingConcat(a: seq<Publication>, b: seq<Publication>)
    ensures Everything(a + b) == Everything(a) + Everything(b)
    decreases |a|
  {
    if a == [] {
      assert a + b == b;
    } else {
      assert (a + b)[0] == a[0] && (a + b)[1..] == a[1..] + b;
      EverythingConcat(a[1..], b);
    }
  }

  /** Draining runs every enqueued publication, however deeply nested, exactly once. */
  lemma {:induction false} DrainRunsEverythingOnce(q: seq<Publication>)
    ensures multiset(Drain(q)) == Everything(q)
    decreases Weight(q)
  {
    if q != [] {
      WeightConcat(q[1..], q[0].nested);
      DrainRunsEverythingOnce(q[1..] + q[0].nested);
      EverythingConcat(q[1..], q[0].nested);
      assert multiset([q[0]] + Drain(q[1..] + q[0].nested)) == multiset{q[0]} + multiset(Drain(q[1..] + q[0].nested));
    }
  }

  /** No publication runs before one that was waiting when it was enqueued. */
  lemma {:induction false} DrainStartsWithTheQueue(q: seq<Publication>)
    ensures q <= Drain(q)
    decreases Weight(q)
  {
    if q != [] {
      WeightConcat(q[1..], q[0].nested);
      DrainStartsWithTheQueue(q[1..] + q[0].nested);
    }
  }

  lemma FirstFailureConcat(a: seq<Publication>, b: seq<Publication>)
    ensures FirstFailure(a + b) == if FirstFailure(a).Some? then FirstFailure(a) else FirstFailure(b)
    decreases |a|
  {
    if a == [] {
      assert a + b == b;
    } else {
      assert (a + b)[0] == a[0] && (a + b)[1..] == a[1..] + b;
      FirstFailureConcat(a[1..], b);
    }
  }

  /** One turn of the drain: the next publication runs, and what it enqueues waits behind everything else. */
  lemma DrainStep(queue: seq<Publication>, cursor: nat, ran: seq<Publication>)
    requires cursor < |queue|
    ensures var next := queue[cursor];
            var after := (queue + next.nested)[cursor + 1..];
            && ran + Drain(queue[cursor..]) == ran + [next] + Drain(after)
            && Weight(after) < Weight(queue[cursor..])
            && FirstFailure(ran + [next]) == if FirstFailure(ran).Some? then FirstFailure(ran) else next.failure
  {
    var next := queue[cursor];
    var waiting := queue[cursor..];
    assert waiting[1..] + next.nested == (queue + next.nested)[cursor + 1..];
    WeightConcat(waiting[1..], next.nested);
    FirstFailureConcat(ran, [next]);
    assert [next][1..] == [];
  }

  class Queue {
    var queue: seq<Publication>
    var cursor: nat
    var publishing: bool
    ghost var ran: seq<Publication>

    /** Idle queues are empty. */
    ghost predicate Valid()
      reads this
    {
      cursor <= |queue| && (!publishing ==> queue == [] && cursor == 0)
    }

    constructor ()
      ensures Valid() && !publishing && ran == []
    {
      queue, cursor, publishing, ran := [], 0, false, [];
    }

    /**
     * Enqueue, and drain unless a drain is already under way. A nested caller only queues and never
     * sees a failure; the outermost call runs everything first in first out, leaves an idle queue,
     * and reports the first failure.
     */
    method Enqueue(p: Publication) returns (failure: Option<nat>)
      requires Valid()
      modifies this
      ensures Valid() && publishing == old(publishing)
      ensures old(publishing) ==>
                failure == None && queue == old(queue) + [p] && cursor == old(cursor) && ran == old(ran)
      ensures !old(publishing) ==> ran == old(ran) + Drain([p]) && failure == FirstFailure(Drain([p]))
      decreases if publishing then 0 else 2
    {
      queue := queue + [p];
      if publishing { return None; }
      publishing, failure := true, None;
      ghost var ranNow: seq<Publication> := [];
      assert queue == [p] && queue[0..] == [p];
      while cursor < |queue|
        invariant publishing && cursor <= |queue|
        invariant ran == old(ran) + ranNow
        invariant Drain([p]) == ranNow + Drain(queue[cursor..])
        invariant failure == FirstFailure(ranNow)
        decreases Weight(queue[cursor..])
      {
        var next := queue[cursor];
        DrainStep(queue, cursor, ranNow);
        cursor := cursor + 1;
        var failed := Call(next);
        if failure.None? { failure := failed; }
        ranNow := ranNow + [next];
      }
      assert ranNow + [] == ranNow;
      queue, cursor, publishing := [], 0, false;
    }

    /** Run one publication's callbacks, which may enqueue more. */
    method Call(p: Publication) returns (failure: Option<nat>)
      requires Valid() && publishing
      modifies this
      ensures Valid() && publishing && cursor == old(cursor)
      ensures queue == old(queue) + p.nested && ran == old(ran) + [p] && failure == p.failure
      decreases 1
    {
      ran := ran + [p];
      for n := 0 to |p.nested|
        invariant Valid() && publishing && cursor == old(cursor)
        invariant queue == old(queue) + p.nested[..n] && ran == old(ran) + [p]
      {
        var nested := Enqueue(p.nested[n]);
        assert p.nested[..n + 1] == p.nested[..n] + [p.nested[n]];
      }
      assert p.nested[..|p.nested|] == p.nested;
      failure := p.failure;
    }
  }

  // ---------------------------------------------------------------- observers

  /** What a callback may ask of the hub while it runs. */
  datatype Action = Subscribe(observer: nat) | Unsubscribe(observer: nat) | Prepare(callback: nat)

  /** What one call of a callback does: its requests in order, and how it ends. */
  datatype Reaction = Reaction(actions: seq<Action>, failure: Option<nat>)

  /** The observers in subscription order, and the evidence callback waiting for the next observation. */
  datatype Registry = Registry(observers: seq<nat>, pending: Option<nat>)

  function WithoutFirst(observers: seq<nat>, observer: nat): seq<nat> {
    if observers == [] then []
    else if observers[0] == observer then observers[1..]
    else [observers[0]] + WithoutFirst(observers[1..], observer)
  }

  /** A second evidence callback is refused. */
  function Act(r: Registry, action: Action): Registry {
    match action
    case Subscribe(o) => r.(observers := r.observers + [o])
    case Unsubscribe(o) => r.(observers := WithoutFirst(r.observers, o))
    case Prepare(c) => if r.pending.None? then r.(pending := Some(c)) else r
  }

  function Acted(r: Registry, actions: seq<Action>): Registry
    decreases |actions|
  {
    if actions == [] then r else Acted(Act(r, actions[0]), actions[1..])
  }

  /** Callbacks by call number: what the n-th call does when it is a call of this callback. */
  type Callbacks = (nat, nat) -> Reaction

  /** Everything these calls ask of the hub, in order. */
  function AllActions(react: Callbacks, clock: nat, calls: seq<nat>): seq<Action>
    decreases |calls|
  {
    if calls == [] then [] else react(clock, calls[0]).actions + AllActions(react, clock + 1, calls[1..])
  }

  function FirstCallFailure(react: Callbacks, clock: nat, calls: seq<nat>): Option<nat>
    decreases |calls|
  {
    if calls == [] then None
    else if react(clock, calls[0]).failure.Some? then react(clock, calls[0]).failure
    else FirstCallFailure(react, clock + 1, calls[1..])
  }

  lemma {:induction false} ActedConcat(r: Registry, a: seq<Action>, b: seq<Action>)
    ensures Acted(r, a + b) == Acted(Acted(r, a), b)
    decreases |a|
  {
    if a == [] {
      assert a + b == b;
    } else {
      assert (a + b)[0] == a[0] && (a + b)[1..] == a[1..] + b;
      ActedConcat(Act(r, a[0]), a[1..], b);
    }
  }

  function FirstPrepared(actions: seq<Action>): Option<nat> {
    if actions == [] then None
    else if actions[0].Prepare? then Some(actions[0].callback)
    else FirstPrepared(actions[1..])
  }

  /** The evidence callback left waiting is the one already waiting, or else the first one asked for. */
  lemma {:induction false} FirstPreparedWaits(r: Registry, actions: seq<Action>)
    ensures Acted(r, actions).pending == if r.pending.Some? then r.pending else FirstPrepared(actions)
    decreases |actions|
  {
    if actions != [] {
      FirstPreparedWaits(Act(r, actions[0]), actions[1..]);
    }
  }

  /**
   * The calls of one observation: the waiting evidence callback, and if it goes well every observer
   * registered by then, once for each of its subscriptions.
   */
  function Calls(react: Callbacks, clock: nat, r: Registry): seq<nat> {
    match r.pending
    case None => r.observers
    case Some(c) =>
      var reaction := react(clock, c);
      [c] + if reaction.failure.Some? then [] else Acted(r.(pending := None), reaction.actions).observers
  }

  /** One more call of a snapshot. */
  lemma NextCall(react: Callbacks, clock: nat, r: Registry, snapshot: seq<nat>, n: nat)
    requires n < |snapshot|
    ensures snapshot[..n + 1] == snapshot[..n] + [snapshot[n]]
    ensures var reaction := react(clock, snapshot[n]);
            && Acted(r, AllActions(react, clock, snapshot[n..])) ==
               Acted(Acted(r, reaction.actions), AllActions(react, clock + 1, snapshot[n + 1..]))
            && FirstCallFailure(react, clock, snapshot[n..]) ==
               if reaction.failure.Some? then reaction.failure else FirstCallFailure(react, clock + 1, snapshot[n + 1..])
  {
    assert snapshot[n..][1..] == snapshot[n + 1..];
    ActedConcat(r, react(clock, snapshot[n]).actions, AllActions(react, clock + 1, snapshot[n + 1..]));
  }

  // ---------------------------------------------------------------- who is called

  /** Disposing takes out the first subscription of an observer, and leaves the others in their order. */
  lemma {:induction false} DisposeTakesFirst(observers: seq<nat>, observer: nat) returns (before: seq<nat>, after: seq<nat>)
    ensures observer !in observers ==> WithoutFirst(observers, observer) == observers
    ensures observer in observers ==>
              && observers == before + [observer] + after && observer !in before
              && WithoutFirst(observers, observer) == before + after
    decreases |observers|
  {
    before, after := [], [];
    if observers != [] {
      if observers[0] == observer {
        after := observers[1..];
        assert observers == [] + [observer] + after && [] + after == after;
      } else {
        before, after := DisposeTakesFirst(observers[1..], observer);
        assert observers == [observers[0]] + observers[1..];
        if observer in observers {
          assert observers == ([observers[0]] + before) + [observer] + after;
          assert [observers[0]] + (before + after) == ([observers[0]] + before) + after;
        }
        before := [observers[0]] + before;
      }
    }
  }

  /** How many subscriptions an observer holds after these requests; disposing without one does nothing. */
  function Held(held: nat, actions: seq<Action>, observer: nat): nat
    decreases |actions|
  {
    if actions == [] then held
    else
      var next :=
        if actions[0] == Subscribe(observer) then held + 1
        else if actions[0] == Unsubscribe(observer) && held > 0 then held - 1
        else held;
      Held(next, actions[1..], observer)
  }

  lemma DisposeCounts(observers: seq<nat>, o: nat, observer: nat)
    ensures multiset(WithoutFirst(observers, o))[observer] ==
            multiset(observers)[observer] - if o == observer && observer in observers then 1 else 0
  {
    var before, after := DisposeTakesFirst(observers, o);
    if o in observers {
      assert multiset(observers) == multiset(before) + multiset{o} + multiset(after);
      assert multiset(before + after) == multiset(before) + multiset(after);
    }
  }

  lemma {:induction false} SubscriptionsCount(r: Registry, actions: seq<Action>, observer: nat)
    ensures multiset(Acted(r, actions).observers)[observer] == Held(multiset(r.observers)[observer], actions, observer)
    decreases |actions|
  {
    if actions != [] {
      match actions[0] {
        case Subscribe(o) => assert multiset(r.observers + [o]) == multiset(r.observers) + multiset{o};
        case Unsubscribe(o) => DisposeCounts(r.observers, o, observer);
        case Prepare(_) =>
      }
      SubscriptionsCount(Act(r, actions[0]), actions[1..], observer);
    }
  }

  /**
   * An observation calls every observer as often as it is subscribed when the observers' turn comes:
   * a disposed one no more, and one subscribed by the evidence callback already.
   */
  lemma CalledAsSubscribed(react: Callbacks, clock: nat, r: Registry, observer: nat)
    requires r.pending.Some? ==> react(clock, r.pending.value).failure.None?
    ensures var actions := if r.pending.Some? then react(clock, r.pending.value).actions else [];
            var observed := if r.pending.Some? then Calls(react, clock, r)[1..] else Calls(react, clock, r);
            multiset(observed)[observer] == Held(multiset(r.observers)[observer], actions, observer)
  {
    if r.pending.Some? {
      var actions := react(clock, r.pending.value).actions;
      SubscriptionsCount(r.(pending := None), actions, observer);
      assert Calls(react, clock, r)[1..] == Acted(r.(pending := None), actions).observers;
    }
  }

  class ObserverHub {
    const react: Callbacks
    var observers: seq<nat>
    var pending: Option<nat>
    /** How many callbacks were called, and which, in order. */
    var clock: nat
    ghost var called: seq<nat>

    ghost function View(): Registry
      reads this
    {
      Registry(observers, pending)
    }

    constructor (react: Callbacks)
      ensures this.react == react && View() == Registry([], None) && clock == 0 && called == []
    {
      this.react, observers, pending, clock, called := react, [], None, 0, [];
    }

    method PrepareObservation(callback: nat) returns (accepted: bool)
      modifies this`pending
      ensures accepted == old(pending).None?
      ensures View() == Act(old(View()), Prepare(callback))
    {
      accepted := pending.None?;
      if accepted { pending := Some(callback); }
    }

    method Observe(observer: nat)
      modifies this`observers
      ensures View() == Act(old(View()), Subscribe(observer))
    {
      observers := observers + [observer];
    }

    method Dispose(observer: nat)
      modifies this`observers
      ensures View() == Act(old(View()), Unsubscribe(observer))
    {
      observers := WithoutFirst(observers, observer);
    }

    /** One call of one callback, which may use the hub again. */
    method Call(callback: nat) returns (failure: Option<nat>)
      modifies this
      ensures clock == old(clock) + 1 && called == old(called) + [callback]
      ensures View() == Acted(old(View()), react(old(clock), callback).actions)
      ensures failure == react(old(clock), callback).failure
    {
      var reaction := react(clock, callback);
      clock, called := clock + 1, called + [callback];
      assert reaction.actions[..0] == [];
      for n := 0 to |reaction.actions|
        invariant clock == old(clock) + 1 && called == old(called) + [callback]
        invariant View() == Acted(old(View()), reaction.actions[..n])
      {
        ActedConcat(old(View()), reaction.actions[..n], [reaction.actions[n]]);
        assert [reaction.actions[n]][1..] == [];
        assert reaction.actions[..n] + [reaction.actions[n]] == reaction.actions[..n + 1];
        match reaction.actions[n]
        case Subscribe(o) => Observe(o);
        case Unsubscribe(o) => Dispose(o);
        case Prepare(c) => var accepted := PrepareObservation(c);
      }
      assert reaction.actions[..|reaction.actions|] == reaction.actions;
      failure := reaction.failure;
    }

    /** A commit that changed nothing is not observed at all. */
    method EmitCommit(changed: bool) returns (failure: Option<nat>)
      modifies this
      ensures !changed ==> failure == None && View() == old(View()) && clock == old(clock) && called == old(called)
      ensures changed ==>
                var calls := Calls(react, old(clock), old(View()));
                && called == old(called) + calls && clock == old(clock) + |calls|
                && View() == Acted(old(View()).(pending := None), AllActions(react, old(clock), calls))
                && failure == FirstCallFailure(react, old(clock), calls)
    {
      failure := None;
      if changed { failure := Emit(); }
    }

    /**
     * Publish one observation. The waiting evidence callback goes first, and if it fails nobody
     * observes. Otherwise every observer registered by then is called, in order, whatever the
     * callbacks subscribe, remove, prepare or throw; the first failure comes out.
     */
    method Emit() returns (failure: Option<nat>)
      modifies this
      ensures var calls := Calls(react, old(clock), old(View()));
              && called == old(called) + calls && clock == old(clock) + |calls|
              && View() == Acted(old(View()).(pending := None), AllActions(react, old(clock), calls))
              && failure == FirstCallFailure(react, old(clock), calls)
    {
      var prepare := pending;
      pending := None;
      ghost var calls := Calls(react, clock, old(View()));
      if prepare.Some? {
        ghost var rest := calls[1..];
        assert [prepare.value] + rest == calls;
        ActedConcat(View(), react(clock, prepare.value).actions, AllActions(react, clock + 1, rest));
        failure := Call(prepare.value);
        if failure.Some? { return; }
        assert rest == observers;
      }
      failure := EmitIsolated(observers);
    }

    /** Run one observer snapshot completely, then hand out the first failure. */
    method EmitIsolated(snapshot: seq<nat>) returns (failure: Option<nat>)
      modifies this
      ensures called == old(called) + snapshot && clock == old(clock) + |snapshot|
      ensures View() == Acted(old(View()), AllActions(react, old(clock), snapshot))
      ensures failure == FirstCallFailure(react, old(clock), snapshot)
    {
      assert snapshot[0..] == snapshot;
      failure := None;
      for n := 0 to |snapshot|
        invariant called == old(called) + snapshot[..n] && clock == old(clock) + n
        invariant Acted(old(View()), AllActions(react, old(clock), snapshot)) ==
                  Acted(View(), AllActions(react, clock, snapshot[n..]))
        invariant FirstCallFailure(react, old(clock), snapshot) ==
                  if failure.Some? then failure else FirstCallFailure(react, clock, snapshot[n..])
      {
        NextCall(react, clock, View(), snapshot, n);
        var failed := Call(snapshot[n]);
        if failure.None? { failure := failed; }
      }
    }
  }
}
