/** A system of replicas that own their ids. A node updates its own state, or merges any state that
    any node has ever held: late, repeated, reordered. Beside each state runs its causal history,
    the set of updates (by their place in the global log) that the state has absorbed. */
module Replication {
  import opened Wrappers

  /** One update, with what its author had seen when it made it and its state on either side. */
  datatype Event<+S, +Op> = Event(replica: string, op: Op, seen: set<nat>, pre: S, post: S)

  datatype Replica<+S> = Replica(state: S, history: set<nat>)

  datatype System<S(==), +Op> = System(
    nodes: map<string, Replica<S>>,
    log: seq<Event<S, Op>>,
    held: set<Replica<S>>)

  datatype Step<+S, +Op> =
    | Start(id: string)
    | Update(id: string, op: Op)
    | Absorb(id: string, from: Replica<S>)

  /** Ownership: a replica id is started once. */
  predicate Enabled<S(==), Op>(sys: System<S, Op>, step: Step<S, Op>) {
    match step
    case Start(id) => id !in sys.nodes
    case Update(id, _) => id in sys.nodes
    case Absorb(id, from) => id in sys.nodes && from in sys.held
  }

  function Install<S(==), Op>(sys: System<S, Op>, id: string, r: Replica<S>): System<S, Op> {
    System(sys.nodes[id := r], sys.log, sys.held + {r})
  }

  function Record<S(==), Op>(sys: System<S, Op>, id: string, op: Op, post: S): System<S, Op>
    requires id in sys.nodes
  {
    var me := sys.nodes[id];
    Install(sys.(log := sys.log + [Event(id, op, me.history, me.state, post)]), id,
            Replica(post, me.history + {|sys.log|}))
  }

  function Absorbed<S(==), Op>(sys: System<S, Op>, id: string, from: Replica<S>, post: S): System<S, Op>
    requires id in sys.nodes
  {
    Install(sys, id, Replica(post, sys.nodes[id].history + from.history))
  }

  /** A replicated type: its empty state, its update by one replica, its merge. */
  datatype Kind<!S, !Op> = Kind(bottom: S, apply: (S, string, Op) -> S, join: (S, S) -> S)

  ghost function NextOf<S, Op>(k: Kind<S, Op>, sys: System<S, Op>, step: Step<S, Op>): System<S, Op>
    requires Enabled(sys, step)
  {
    match step
    case Start(id) => Install(sys, id, Replica(k.bottom, {}))
    case Update(id, op) => Record(sys, id, op, k.apply(sys.nodes[id].state, id, op))
    case Absorb(id, from) => Absorbed(sys, id, from, k.join(sys.nodes[id].state, from.state))
  }

  /** The system after `steps`, if every one of them was enabled. */
  ghost function RunOf<S, Op>(k: Kind<S, Op>, steps: seq<Step<S, Op>>): Option<System<S, Op>> {
    if steps == [] then Some(System(map[], [], {}))
    else
      var before := RunOf(k, steps[..|steps| - 1]);
      var step := steps[|steps| - 1];
      if before.Some? && Enabled(before.value, step) then Some(NextOf(k, before.value, step)) else None
  }

  ghost predicate Closed<S, Op>(log: seq<Event<S, Op>>, h: set<nat>) {
    forall i <- h :: i < |log| && log[i].seen <= h
  }

  ghost predicate Causal<S, Op>(sys: System<S, Op>) {
    && (forall id <- sys.nodes :: sys.nodes[id] in sys.held)
    && (forall r <- sys.held :: Closed(sys.log, r.history))
    && (forall i | 0 <= i < |sys.log| ::
          && (forall j <- sys.log[i].seen :: j < i)
          && Replica(sys.log[i].pre, sys.log[i].seen) in sys.held
          && Replica(sys.log[i].post, sys.log[i].seen + {i}) in sys.held
          && sys.log[i].replica in sys.nodes
          && i in sys.nodes[sys.log[i].replica].history)
    && (forall i, j | 0 <= i < j < |sys.log| && sys.log[i].replica == sys.log[j].replica :: i in sys.log[j].seen)
  }

  lemma StartKeepsCausal<S, Op>(sys: System<S, Op>, id: string, bottom: S)
    requires Causal(sys) && id !in sys.nodes
    ensures Causal(Install(sys, id, Replica(bottom, {})))
  {
  }

  lemma RecordKeepsCausal<S, Op>(sys: System<S, Op>, id: string, op: Op, post: S)
    requires Causal(sys) && id in sys.nodes
    ensures Causal(Record(sys, id, op, post))
  {
    var next := Record(sys, id, op, post);
    assert Closed(sys.log, sys.nodes[id].history);
    forall r <- next.held ensures Closed(next.log, r.history) {
      if r in sys.held {
        assert Closed(sys.log, r.history);
      }
    }
  }

  lemma AbsorbKeepsCausal<S, Op>(sys: System<S, Op>, id: string, from: Replica<S>, post: S)
    requires Causal(sys) && id in sys.nodes && from in sys.held
    ensures Causal(Absorbed(sys, id, from, post))
  {
    assert Closed(sys.log, sys.nodes[id].history) && Closed(sys.log, from.history);
  }

  /** There is always an id nobody owns yet. */
  lemma UnownedIdExists(ids: set<string>) returns (z: string)
    ensures z !in ids
  {
    var n := LongerThanAll(ids);
    z := seq(n, _ => 'x');
  }

  lemma LongerThanAll(ids: set<string>) returns (n: nat)
    ensures forall s <- ids :: |s| < n
    decreases ids
  {
    if ids == {} {
      n := 0;
    } else {
      var s :| s in ids;
      var m := LongerThanAll(ids - {s});
      n := m + |s| + 1;
      assert forall t <- ids :: t == s || t in ids - {s};
    }
  }

  // ---- Any run ----

  /** The updates that the steps ask for, in order. */
  function Made<S, Op>(steps: seq<Step<S, Op>>): seq<(string, Op)> {
    if steps == [] then []
    else
      var n := |steps| - 1;
      Made(steps[..n]) + if steps[n].Update? then [(steps[n].id, steps[n].op)] else []
  }

  /** The log is those updates, each under its author's id. */
  lemma {:induction false} LogIsMade<S, Op>(k: Kind<S, Op>, steps: seq<Step<S, Op>>)
    requires RunOf(k, steps).Some?
    ensures var log := RunOf(k, steps).value.log;
      |log| == |Made(steps)| && forall i | 0 <= i < |log| :: (log[i].replica, log[i].op) == Made(steps)[i]
    decreases |steps|
  {
    if steps != [] { LogIsMade(k, steps[..|steps| - 1]); }
  }

  lemma {:induction false} RunKeepsCausal<S, Op>(k: Kind<S, Op>, steps: seq<Step<S, Op>>)
    requires RunOf(k, steps).Some?
    ensures Causal(RunOf(k, steps).value)
    decreases |steps|
  {
    if steps != [] {
      var n := |steps| - 1;
      RunKeepsCausal(k, steps[..n]);
      var sys := RunOf(k, steps[..n]).value;
      match steps[n]
      case Start(id) => StartKeepsCausal(sys, id, k.bottom);
      case Update(id, op) => RecordKeepsCausal(sys, id, op, k.apply(sys.nodes[id].state, id, op));
      case Absorb(id, from) => AbsorbKeepsCausal(sys, id, from, k.join(sys.nodes[id].state, from.state));
    }
  }

  predicate Logged<S, Op>(log: seq<Event<S, Op>>, i: nat) { i < |log| }

  function AllUpdates<S, Op>(log: seq<Event<S, Op>>): set<nat> {
    set i: nat | i < |log| && Logged(log, i)
  }

  /** One node merging these states, one after the other. */
  function Absorptions<S, Op>(id: string, from: seq<Replica<S>>): seq<Step<S, Op>> {
    if from == [] then [] else Absorptions(id, from[..|from| - 1]) + [Absorb(id, from[|from| - 1])]
  }

  lemma RunOn<S, Op>(k: Kind<S, Op>, steps: seq<Step<S, Op>>, step: Step<S, Op>)
    requires RunOf(k, steps).Some? && Enabled(RunOf(k, steps).value, step)
    ensures RunOf(k, steps + [step]) == Some(NextOf(k, RunOf(k, steps).value, step))
  {
    assert (steps + [step])[..|steps + [step]| - 1] == steps;
  }

  /** `id` has merged these states since `sys`, and nothing else has happened. */
  ghost predicate Merged<S, Op>(sys: System<S, Op>, now: System<S, Op>, id: string, from: seq<Replica<S>>) {
    && now.log == sys.log && sys.held <= now.held && now.nodes.Keys == sys.nodes.Keys && id in sys.nodes
    && forall i :: i in now.nodes[id].history <==> i in sys.nodes[id].history || exists r <- from :: i in r.history
  }

  lemma MergesOneMore<S, Op>(k: Kind<S, Op>, sys: System<S, Op>, now: System<S, Op>, id: string,
                             from: seq<Replica<S>>, r: Replica<S>)
    requires Merged(sys, now, id, from) && r in sys.held
    ensures Merged(sys, NextOf(k, now, Absorb(id, r)), id, from + [r])
  {
    assert r in from + [r] && forall x <- from :: x in from + [r];
  }

  lemma {:induction false} Gathers<S, Op>(k: Kind<S, Op>, steps: seq<Step<S, Op>>, id: string, from: seq<Replica<S>>)
    requires RunOf(k, steps).Some? && id in RunOf(k, steps).value.nodes
    requires forall r <- from :: r in RunOf(k, steps).value.held
    ensures var all := steps + Absorptions(id, from);
      RunOf(k, all).Some? && Merged(RunOf(k, steps).value, RunOf(k, all).value, id, from)
    decreases |from|
  {
    if from == [] {
      assert steps + Absorptions<S, Op>(id, from) == steps;
    } else {
      var n := |from| - 1;
      var early := steps + Absorptions(id, from[..n]);
      Gathers(k, steps, id, from[..n]);
      assert steps + Absorptions(id, from) == early + [Absorb(id, from[n])];
      RunOn(k, early, Absorb(id, from[n]));
      MergesOneMore(k, RunOf(k, steps).value, RunOf(k, early).value, id, from[..n], from[n]);
      assert from == from[..n] + [from[n]];
    }
  }

  /** A node that has merged the current state of every node has absorbed every update made. */
  lemma HearsAll<S, Op>(k: Kind<S, Op>, steps: seq<Step<S, Op>>, id: string, from: seq<Replica<S>>)
    requires RunOf(k, steps).Some? && id in RunOf(k, steps).value.nodes
    requires forall r <- from :: r in RunOf(k, steps).value.held
    requires forall n <- RunOf(k, steps).value.nodes :: RunOf(k, steps).value.nodes[n] in from
    ensures RunOf(k, steps + Absorptions(id, from)).Some?
    ensures var now := RunOf(k, steps + Absorptions(id, from)).value;
      && now.log == RunOf(k, steps).value.log && id in now.nodes && now.nodes[id] in now.held
      && now.nodes[id].history == AllUpdates(now.log)
  {
    RunKeepsCausal(k, steps);
    Gathers(k, steps, id, from);
    RunKeepsCausal(k, steps + Absorptions(id, from));
    var sys, now := RunOf(k, steps).value, RunOf(k, steps + Absorptions(id, from)).value;
    forall i: nat ensures i in now.nodes[id].history <==> i < |now.log| {
      assert Closed(now.log, now.nodes[id].history);
      if i < |sys.log| {
        var author := sys.nodes[sys.log[i].replica];
        assert author in from && i in author.history;
      }
    }
  }
}
