/** What every run of replicated observed-remove sets keeps: the state is a function of the causal
    history, and membership is the observed-remove rule on that history. */
module OrSetRuns {
  import opened Clock
  import opened CrdtValues
  import opened OrSets
  import opened Replication
  import opened Wrappers

  datatype Op = Add(element: Value) | Del(element: Value)

  type Log = seq<Event<OrSet, Op>>
  type Sys = System<OrSet, Op>

  ghost function Apply(s: OrSet, id: string, op: Op): OrSet {
    match op
    case Add(e) => s.Inserted(id, e)
    case Del(e) => s.Removed(e)
  }

  ghost const SETS: Kind<OrSet, Op> := Kind(EMPTY_ORSET, Apply, JoinOr)

  ghost function Next(sys: Sys, step: Step<OrSet, Op>): Sys
    requires Enabled(sys, step)
  {
    NextOf(SETS, sys, step)
  }

  /** The system after `steps`, if every one of them was enabled. */
  ghost function Run(steps: seq<Step<OrSet, Op>>): Option<Sys> {
    RunOf(SETS, steps)
  }

  predicate IsAdd(log: Log, i: nat) {
    i < |log| && log[i].op.Add?
  }

  predicate IsAddOf(log: Log, i: nat, e: Value) {
    i < |log| && log[i].op == Add(e)
  }

  /** The removal `j` had observed the insertion `i` of its element. */
  predicate Covers(log: Log, j: nat, i: nat) {
    && j < |log| && log[j].op.Del?
    && i in log[j].seen && IsAddOf(log, i, log[j].op.element)
  }

  /** The observed-remove rule: some insertion of `e` in the history that no removal of `e` in the
      history had seen. It mentions no tag and no tombstone. */
  ghost predicate Present(log: Log, h: set<nat>, e: Value) {
    exists i <- h :: IsAddOf(log, i, e) && forall j <- h :: !Covers(log, j, i)
  }

  ghost function TagOf(log: Log, i: nat): Dot
    requires IsAdd(log, i)
  {
    log[i].pre.NextTag(log[i].replica)
  }

  ghost function AddTags(log: Log, h: set<nat>, e: Value): set<Dot> {
    set i | i in h && IsAddOf(log, i, e) :: TagOf(log, i)
  }

  ghost function Elements(log: Log, h: set<nat>): set<Value> {
    set i | i in h && IsAdd(log, i) :: log[i].op.element
  }

  ghost function Tombstones(log: Log, h: set<nat>): set<Dot> {
    set i, j | j in h && i in h && Covers(log, j, i) :: TagOf(log, i)
  }

  /** The state is determined by the history, tag for tag. */
  ghost predicate Refines(log: Log, s: OrSet, h: set<nat>) {
    && s.adds.Keys == Elements(log, h)
    && (forall e :: s.TagsOf(e) == AddTags(log, h, e))
    && s.removed == Tombstones(log, h)
  }

  ghost predicate Inv(sys: Sys) {
    && Causal(sys)
    && forall r <- sys.held :: Refines(sys.log, r.state, r.history)
  }

  lemma RefinesIsFramed(log: Log, more: Log, s: OrSet, h: set<nat>)
    requires Closed(log, h) && log <= more
    requires Refines(log, s, h)
    ensures Refines(more, s, h)
  {
    assert forall i <- h :: more[i] == log[i];
    assert forall i, j :: j in h && i in h ==> (Covers(more, j, i) <==> Covers(log, j, i));
    assert Elements(more, h) == Elements(log, h);
    forall e ensures AddTags(more, h, e) == AddTags(log, h, e) {
      assert forall i <- h :: IsAddOf(more, i, e) <==> IsAddOf(log, i, e);
    }
    forall t ensures t in Tombstones(more, h) <==> t in Tombstones(log, h) {}
  }

  lemma JoinAddTags(log: Log, g: set<nat>, h: set<nat>, e: Value)
    ensures AddTags(log, g + h, e) == AddTags(log, g, e) + AddTags(log, h, e)
  {
    forall x ensures x in AddTags(log, g + h, e) <==> x in AddTags(log, g, e) + AddTags(log, h, e) {}
  }

  lemma JoinTombstones(log: Log, g: set<nat>, h: set<nat>)
    requires Closed(log, g) && Closed(log, h)
    ensures Tombstones(log, g + h) == Tombstones(log, g) + Tombstones(log, h)
  {
    forall x | x in Tombstones(log, g + h) ensures x in Tombstones(log, g) + Tombstones(log, h) {
      var i: nat, j: nat :| j in g + h && i in g + h && Covers(log, j, i) && TagOf(log, i) == x;
      if j in g { assert i in g; } else { assert i in h; }
    }
  }

  lemma JoinRefines(log: Log, s: OrSet, g: set<nat>, t: OrSet, h: set<nat>)
    requires Closed(log, g) && Closed(log, h)
    requires Refines(log, s, g) && Refines(log, t, h)
    ensures Refines(log, s.Join(t), g + h)
  {
    JoinIsJoin(s, t);
    assert Elements(log, g + h) == Elements(log, g) + Elements(log, h);
    forall e ensures s.Join(t).TagsOf(e) == AddTags(log, g + h, e) {
      assert s.TagsOf(e) == AddTags(log, g, e) && t.TagsOf(e) == AddTags(log, h, e);
      JoinAddTags(log, g, h, e);
    }
    JoinTombstones(log, g, h);
  }

  lemma UpdateRefines(log: Log, h: set<nat>, ev: Event<OrSet, Op>)
    requires ev.seen == h && Closed(log, h) && Refines(log, ev.pre, h)
    ensures Refines(log + [ev], Apply(ev.pre, ev.replica, ev.op), h + {|log|})
  {
    var n := |log|;
    var more := log + [ev];
    var k := h + {n};
    RefinesIsFramed(log, more, ev.pre, h);
    var post := Apply(ev.pre, ev.replica, ev.op);
    assert forall i <- h :: i < n && more[i] == log[i];
    assert more[n] == ev && n in k;
    ElementsAfter(more, h, n);
    forall e ensures post.TagsOf(e) == AddTags(more, k, e) {
      assert ev.pre.TagsOf(e) == AddTags(more, h, e);
      AddTagsAfter(more, h, n, e);
    }
    TombstonesAfter(more, h, n);
  }

  lemma ElementsAfter(more: Log, h: set<nat>, n: nat)
    requires n < |more|
    ensures Elements(more, h + {n}) == Elements(more, h) + if more[n].op.Add? then {more[n].op.element} else {}
  {
    var added := if more[n].op.Add? then {more[n].op.element} else {};
    forall x ensures x in Elements(more, h + {n}) <==> x in Elements(more, h) + added {
      if more[n].op.Add? { assert IsAdd(more, n) && n in h + {n}; }
    }
  }

  lemma AddTagsAfter(more: Log, h: set<nat>, n: nat, e: Value)
    requires n < |more|
    ensures AddTags(more, h + {n}, e) == AddTags(more, h, e) + if IsAddOf(more, n, e) then {TagOf(more, n)} else {}
  {
    var added := if IsAddOf(more, n, e) then {TagOf(more, n)} else {};
    forall x ensures x in AddTags(more, h + {n}, e) <==> x in AddTags(more, h, e) + added {
      assert n in h + {n};
    }
  }

  /** A removal tombstones what it had seen of its element; an insertion tombstones nothing. */
  lemma TombstonesAfter(more: Log, h: set<nat>, n: nat)
    requires n < |more| && more[n].seen == h && n !in h
    requires forall j <- h :: j < |more| && n !in more[j].seen
    ensures Tombstones(more, h + {n}) ==
      Tombstones(more, h) + if more[n].op.Del? then AddTags(more, h, more[n].op.element) else {}
  {
    var k := h + {n};
    var gone := if more[n].op.Del? then AddTags(more, h, more[n].op.element) else {};
    forall t | t in gone ensures t in Tombstones(more, k) {
      var i: nat :| i in h && IsAddOf(more, i, more[n].op.element) && TagOf(more, i) == t;
      assert Covers(more, n, i) && n in k && i in k;
    }
    forall t | t in Tombstones(more, k) ensures t in Tombstones(more, h) + gone {
      var i: nat, j: nat :| j in k && i in k && Covers(more, j, i) && TagOf(more, i) == t;
      assert i != n;
    }
    forall t | t in Tombstones(more, h) ensures t in Tombstones(more, k) {
      var i: nat, j: nat :| j in h && i in h && Covers(more, j, i) && TagOf(more, i) == t;
      assert i in k && j in k;
    }
  }

  lemma StepKeepsInv(sys: Sys, step: Step<OrSet, Op>)
    requires Inv(sys) && Enabled(sys, step)
    ensures Inv(Next(sys, step))
  {
    var next := Next(sys, step);
    match step
    case Start(id) =>
      StartKeepsCausal(sys, id, EMPTY_ORSET);
    case Update(id, op) =>
      var me := sys.nodes[id];
      RecordKeepsCausal(sys, id, op, Apply(me.state, id, op));
      UpdateRefines(sys.log, me.history, next.log[|sys.log|]);
      forall r <- next.held ensures Refines(next.log, r.state, r.history) {
        if r in sys.held { RefinesIsFramed(sys.log, next.log, r.state, r.history); }
      }
    case Absorb(id, from) =>
      var me := sys.nodes[id];
      AbsorbKeepsCausal(sys, id, from, me.state.Join(from.state));
      JoinRefines(sys.log, me.state, me.history, from.state, from.history);
  }

  lemma {:induction false} RunKeepsInv(steps: seq<Step<OrSet, Op>>)
    requires Run(steps).Some?
    ensures Inv(Run(steps).value)
    decreases |steps|
  {
    if steps != [] {
      RunKeepsInv(steps[..|steps| - 1]);
      StepKeepsInv(Run(steps[..|steps| - 1]).value, steps[|steps| - 1]);
    }
  }

  // ---- Tags ----

  lemma HasTagIff(log: Log, s: OrSet, h: set<nat>, t: Dot)
    requires Refines(log, s, h) && Closed(log, h)
    ensures s.HasTag(t) <==> exists i <- h :: IsAdd(log, i) && TagOf(log, i) == t
  {
    if s.HasTag(t) {
      if t in s.removed {
        assert t in Tombstones(log, h);
      } else {
        var e :| e in s.adds && t in s.adds[e];
        assert t in s.TagsOf(e) && t in AddTags(log, h, e);
      }
    }
    forall i <- h | IsAdd(log, i) ensures s.HasTag(TagOf(log, i)) {
      var e := log[i].op.element;
      assert TagOf(log, i) in AddTags(log, h, e);
      assert TagOf(log, i) in s.TagsOf(e);
    }
  }

  /** The insertions among the first `n` updates. */
  function AddsBefore(log: Log, n: nat): nat
    requires n <= |log|
  {
    if n == 0 then 0 else AddsBefore(log, n - 1) + if log[n - 1].op.Add? then 1 else 0
  }

  lemma {:induction false} AddsBeforeMonotone(log: Log, m: nat, n: nat)
    requires m <= n <= |log|
    ensures AddsBefore(log, m) <= AddsBefore(log, n)
    decreases n
  {
    if m < n { AddsBeforeMonotone(log, m, n - 1); }
  }

  /** What the invariant says of the state update `i` was applied to. */
  ghost predicate Grounded(log: Log) {
    forall i: nat | i < |log| ::
      && (forall k <- log[i].seen :: k < i)
      && Closed(log, log[i].seen)
      && Refines(log, log[i].pre, log[i].seen)
  }

  lemma InvGrounds(sys: Sys)
    requires Inv(sys)
    ensures Grounded(sys.log)
  {
    forall i: nat | i < |sys.log|
      ensures (forall k <- sys.log[i].seen :: k < i) && Closed(sys.log, sys.log[i].seen)
        && Refines(sys.log, sys.log[i].pre, sys.log[i].seen)
    {
      assert Replica(sys.log[i].pre, sys.log[i].seen) in sys.held;
    }
  }

  /** The counter an insertion ticks past was stamped by an earlier insertion. */
  ghost predicate TopIsEarlier(log: Log, i: nat)
    requires IsAdd(log, i)
  {
    var top := log[i].pre.HighestCounter();
    top == 0 || exists k: nat :: k < i && IsAdd(log, k) && TagOf(log, k).counter == top
  }

  lemma GroundedTops(log: Log, i: nat)
    requires Grounded(log) && IsAdd(log, i)
    ensures TopIsEarlier(log, i)
  {
    var top := log[i].pre.HighestCounter();
    if top > 0 {
      var t :| log[i].pre.HasTag(t) && t.counter == top;
      HasTagIff(log, log[i].pre, log[i].seen, t);
    }
  }

  /** Every tag counter is at most the number of insertions so far, counting its own. */
  lemma {:induction false} TagCounterBound(log: Log, i: nat)
    requires forall j: nat {:trigger TopIsEarlier(log, j)} | IsAdd(log, j) :: TopIsEarlier(log, j)
    requires IsAdd(log, i)
    ensures log[i].pre.HighestCounter() <= AddsBefore(log, i)
    ensures TagOf(log, i).counter <= AddsBefore(log, i + 1)
    decreases i
  {
    var top := log[i].pre.HighestCounter();
    assert TopIsEarlier(log, i);
    if top > 0 {
      var k: nat :| k < i && IsAdd(log, k) && TagOf(log, k).counter == top;
      TagCounterBound(log, k);
      AddsBeforeMonotone(log, k + 1, i);
    }
  }

  lemma CounterBelowInsertions(log: Log, i: nat)
    requires Grounded(log) && IsAdd(log, i)
    ensures log[i].pre.HighestCounter() <= AddsBefore(log, i)
    ensures TagOf(log, i).counter <= AddsBefore(log, i + 1)
  {
    forall j: nat | IsAdd(log, j) ensures TopIsEarlier(log, j) { GroundedTops(log, j); }
    TagCounterBound(log, i);
  }

  /** What the author of insertion `i` could check before making it. */
  ghost predicate Guarded(log: Log, i: nat)
    requires IsAdd(log, i)
  {
    || log[i].pre.HighestCounter() < 0xFFFF_FFFF_FFFF_FFFF
    || !log[i].pre.HasTag(Dot(0xFFFF_FFFF_FFFF_FFFF, log[i].replica))
  }

  ghost predicate AllGuarded(log: Log) {
    forall i: nat | IsAdd(log, i) :: Guarded(log, i)
  }

  ghost predicate TagsUnique(log: Log) {
    forall i: nat, j: nat | IsAdd(log, i) && IsAdd(log, j) && i != j :: TagOf(log, i) != TagOf(log, j)
  }

  /** No two insertions anywhere share a tag exactly when every insertion was guarded. */
  lemma TagsUniqueIff(sys: Sys)
    requires Inv(sys)
    ensures TagsUnique(sys.log) <==> AllGuarded(sys.log)
  {
    var log := sys.log;
    forall i: nat | IsAdd(log, i)
      ensures Guarded(log, i) <==> forall k <- log[i].seen | IsAdd(log, k) :: TagOf(log, k) != TagOf(log, i)
    {
      assert Replica(log[i].pre, log[i].seen) in sys.held;
      HasTagIff(log, log[i].pre, log[i].seen, TagOf(log, i));
      NextTagIsNewIff(log[i].pre, log[i].replica);
    }
    if AllGuarded(log) {
      forall i: nat, j: nat | IsAdd(log, i) && IsAdd(log, j) && i < j ensures TagOf(log, i) != TagOf(log, j) {
        if log[i].replica == log[j].replica {
          assert i in log[j].seen;
          assert Guarded(log, j);
        }
      }
    }
    if TagsUnique(log) {
      forall i: nat | IsAdd(log, i) ensures Guarded(log, i) {
        assert forall k <- log[i].seen :: k < i;
      }
    }
  }

  /** Fewer than 2^64 insertions never need the guard. */
  lemma FewInsertionsAreGuarded(sys: Sys)
    requires Inv(sys) && AddsBefore(sys.log, |sys.log|) < 0x1_0000_0000_0000_0000
    ensures AllGuarded(sys.log)
  {
    InvGrounds(sys);
    forall i: nat | IsAdd(sys.log, i) ensures Guarded(sys.log, i) {
      CounterBelowInsertions(sys.log, i);
      FewAreGuarded(sys.log, i, sys.log[i].pre.HighestCounter());
    }
  }

  lemma FewAreGuarded(log: Log, i: nat, top: nat)
    requires IsAdd(log, i) && top <= AddsBefore(log, i) && AddsBefore(log, |log|) <= MAX_U64
    ensures top < MAX_U64
  {
    AddsBeforeMonotone(log, i + 1, |log|);
  }

  // ---- Membership ----

  /** A member always has an insertion no removal saw, even at the ceiling. */
  lemma ContainsIsPresent(log: Log, s: OrSet, h: set<nat>, e: Value)
    requires Refines(log, s, h) && s.Contains(e)
    ensures Present(log, h, e)
  {
    var t :| t in s.TagsOf(e) && t !in s.removed;
    assert t in AddTags(log, h, e);
    var i: nat :| i in h && IsAddOf(log, i, e) && TagOf(log, i) == t;
    assert forall j <- h :: Covers(log, j, i) ==> TagOf(log, i) in Tombstones(log, h);
  }

  lemma UncoveredTagLives(log: Log, h: set<nat>, i: nat)
    requires TagsUnique(log) && IsAdd(log, i) && forall j <- h :: !Covers(log, j, i)
    ensures TagOf(log, i) !in Tombstones(log, h)
  {
    forall k: nat, j: nat | j in h && k in h && Covers(log, j, k) ensures TagOf(log, k) != TagOf(log, i) {
      assert IsAdd(log, k);
    }
  }

  lemma PresentIsContained(log: Log, s: OrSet, h: set<nat>, e: Value)
    requires Refines(log, s, h) && TagsUnique(log) && Present(log, h, e)
    ensures s.Contains(e)
  {
    var i :| i in h && IsAddOf(log, i, e) && forall j <- h :: !Covers(log, j, i);
    UncoveredTagLives(log, h, i);
    assert TagOf(log, i) in AddTags(log, h, e) && TagOf(log, i) in s.TagsOf(e);
  }

  ghost predicate MembershipRule(sys: Sys) {
    forall r <- sys.held, e: Value :: r.state.Contains(e) <==> Present(sys.log, r.history, e)
  }

  lemma GuardedGivesRule(sys: Sys)
    requires Inv(sys) && AllGuarded(sys.log)
    ensures MembershipRule(sys)
  {
    TagsUniqueIff(sys);
    forall r <- sys.held, e: Value ensures r.state.Contains(e) <==> Present(sys.log, r.history, e) {
      if r.state.Contains(e) { ContainsIsPresent(sys.log, r.state, r.history, e); }
      if Present(sys.log, r.history, e) { PresentIsContained(sys.log, r.state, r.history, e); }
    }
  }

  /** The main result: in every run with fewer than 2^64 insertions, at every state any node ever
      held, membership is the observed-remove rule on that state's causal history. */
  lemma MembershipIsObservedRemove(steps: seq<Step<OrSet, Op>>)
    requires Run(steps).Some?
    requires AddsBefore(Run(steps).value.log, |Run(steps).value.log|) < 0x1_0000_0000_0000_0000
    ensures MembershipRule(Run(steps).value)
    ensures TagsUnique(Run(steps).value.log)
  {
    RunKeepsInv(steps);
    FewInsertionsAreGuarded(Run(steps).value);
    GuardedGivesRule(Run(steps).value);
    TagsUniqueIff(Run(steps).value);
  }

  /** Two nodes that absorbed the same updates hold the same state, whatever the order, grouping or
      duplication of their merges. */
  lemma SameHistorySameState(steps: seq<Step<OrSet, Op>>, a: Replica<OrSet>, b: Replica<OrSet>)
    requires Run(steps).Some?
    requires a in Run(steps).value.held && b in Run(steps).value.held && a.history == b.history
    ensures a.state == b.state
  {
    RunKeepsInv(steps);
    var log := Run(steps).value.log;
    assert Refines(log, a.state, a.history) && Refines(log, b.state, b.history);
    forall e ensures a.state.TagsOf(e) == b.state.TagsOf(e) {
      assert a.state.TagsOf(e) == AddTags(log, a.history, e);
      assert b.state.TagsOf(e) == AddTags(log, b.history, e);
    }
    SameOrSet(a.state, b.state);
  }

  lemma TombstoneIsAdded(log: Log, s: OrSet, h: set<nat>, t: Dot)
    requires Refines(log, s, h) && t in s.removed
    ensures exists e <- s.adds :: t in s.adds[e]
  {
    assert t in Tombstones(log, h);
    var i: nat, j: nat :| j in h && i in h && Covers(log, j, i) && TagOf(log, i) == t;
    var e := log[i].op.element;
    assert t in AddTags(log, h, e);
    assert t in s.TagsOf(e);
  }

  /** Every tombstone names a tag that is still among the added ones. */
  lemma TombstonesNameAdds(steps: seq<Step<OrSet, Op>>, r: Replica<OrSet>, t: Dot)
    requires Run(steps).Some? && r in Run(steps).value.held && t in r.state.removed
    ensures exists e <- r.state.adds :: t in r.state.adds[e]
  {
    RunKeepsInv(steps);
    TombstoneIsAdded(Run(steps).value.log, r.state, r.history, t);
  }

  /** A merge brings an element back only if it brings an insertion the receiver's removals had not
      seen: a stale state, full of removed insertions, resurrects nothing. */
  lemma StaleMergeNeverResurrects(steps: seq<Step<OrSet, Op>>, id: string, from: Replica<OrSet>, e: Value)
    requires Run(steps).Some? && Enabled(Run(steps).value, Absorb(id, from))
    requires AllGuarded(Run(steps).value.log)
    requires var sys := Run(steps).value; var mine := sys.nodes[id].history;
      && !sys.nodes[id].state.Contains(e)
      && forall i <- from.history | IsAddOf(sys.log, i, e) ::
           i in mine || exists j <- mine + from.history :: Covers(sys.log, j, i)
    ensures !Next(Run(steps).value, Absorb(id, from)).nodes[id].state.Contains(e)
  {
    RunKeepsInv(steps);
    var sys := Run(steps).value;
    var me := sys.nodes[id];
    StepKeepsInv(sys, Absorb(id, from));
    GuardedGivesRule(sys);
    assert !Present(sys.log, me.history, e);
    var next := Next(sys, Absorb(id, from));
    var after := next.nodes[id];
    forall i <- after.history | IsAddOf(sys.log, i, e) ensures exists j <- after.history :: Covers(sys.log, j, i) {
      if i in me.history {
        assert exists j <- me.history :: Covers(sys.log, j, i);
      }
    }
    assert !Present(next.log, after.history, e);
    if after.state.Contains(e) {
      ContainsIsPresent(next.log, after.state, after.history, e);
    }
  }

  /** A merge that brings an insertion no removal on either side had seen makes the element a member: a
      concurrent insertion wins. */
  lemma ConcurrentAddWins(steps: seq<Step<OrSet, Op>>, id: string, from: Replica<OrSet>, i: nat, e: Value)
    requires Run(steps).Some? && Enabled(Run(steps).value, Absorb(id, from))
    requires AllGuarded(Run(steps).value.log)
    requires var sys := Run(steps).value; var all := sys.nodes[id].history + from.history;
      i in all && IsAddOf(sys.log, i, e) && forall j <- all :: !Covers(sys.log, j, i)
    ensures Next(Run(steps).value, Absorb(id, from)).nodes[id].state.Contains(e)
  {
    RunKeepsInv(steps);
    var sys := Run(steps).value;
    StepKeepsInv(sys, Absorb(id, from));
    var next := Next(sys, Absorb(id, from));
    TagsUniqueIff(next);
    PresentIsContained(next.log, next.nodes[id].state, next.nodes[id].history, e);
  }

  /** Inserting again after a removal takes, and no state held anywhere before undoes it. */
  lemma ReAddSurvives(steps: seq<Step<OrSet, Op>>, id: string, e: Value, from: Replica<OrSet>)
    requires Run(steps).Some? && id in Run(steps).value.nodes && from in Run(steps).value.held
    requires AddsBefore(Run(steps).value.log, |Run(steps).value.log|) < 0xFFFF_FFFF_FFFF_FFFF
    ensures var more := steps + [Update(id, Add(e))];
      && Run(more).Some? && Run(more).value.nodes[id].state.Contains(e)
      && Run(more + [Absorb(id, from)]).Some?
      && Run(more + [Absorb(id, from)]).value.nodes[id].state.Contains(e)
  {
    var more := steps + [Update(id, Add(e))];
    RunExtends(steps, Update(id, Add(e)));
    RunExtends(more, Absorb(id, from));
    RunKeepsInv(more);
    var next := Run(more).value;
    InsertIsNewest(Run(steps).value, id, e);
    NewestIsMember(next, next.nodes[id], e);
    NewestSurvives(next, id, e, from);
  }

  lemma InsertIsNewest(sys: Sys, id: string, e: Value)
    requires id in sys.nodes && AddsBefore(sys.log, |sys.log|) < 0xFFFF_FFFF_FFFF_FFFF
    ensures var next := Next(sys, Update(id, Add(e)));
      && |next.log| > 0 && AddsBefore(next.log, |next.log|) <= MAX_U64 && id in next.nodes
      && |next.log| - 1 in next.nodes[id].history && IsAddOf(next.log, |next.log| - 1, e)
      && next.nodes[id] in next.held && sys.held <= next.held
  {
    AddsBeforeSame(sys.log, Next(sys, Update(id, Add(e))).log, |sys.log|);
  }

  lemma NewestSurvives(sys: Sys, id: string, e: Value, from: Replica<OrSet>)
    requires Inv(sys) && id in sys.nodes && from in sys.held && |sys.log| > 0
    requires AddsBefore(sys.log, |sys.log|) <= MAX_U64
    requires |sys.log| - 1 in sys.nodes[id].history && IsAddOf(sys.log, |sys.log| - 1, e)
    ensures Next(sys, Absorb(id, from)).nodes[id].state.Contains(e)
  {
    var last := Next(sys, Absorb(id, from));
    AbsorbKeepsMine(sys, id, from);
    StepKeepsInv(sys, Absorb(id, from));
    NewestIsMember(last, last.nodes[id], e);
  }

  lemma AbsorbKeepsMine(sys: Sys, id: string, from: Replica<OrSet>)
    requires id in sys.nodes && from in sys.held
    ensures var last := Next(sys, Absorb(id, from));
      && last.log == sys.log && id in last.nodes && last.nodes[id] in last.held
      && sys.nodes[id].history <= last.nodes[id].history
  {
  }

  lemma NewestIsMember(sys: Sys, r: Replica<OrSet>, e: Value)
    requires Inv(sys) && r in sys.held && AddsBefore(sys.log, |sys.log|) <= MAX_U64 && |sys.log| > 0
    requires |sys.log| - 1 in r.history && IsAddOf(sys.log, |sys.log| - 1, e)
    ensures r.state.Contains(e)
  {
    FewInsertionsAreGuarded(sys);
    TagsUniqueIff(sys);
    NewestIsPresent(sys, r, e);
    PresentIsContained(sys.log, r.state, r.history, e);
  }

  lemma {:induction false} AddsBeforeSame(log: Log, more: Log, n: nat)
    requires log <= more && n <= |log|
    ensures AddsBefore(more, n) == AddsBefore(log, n)
    decreases n
  {
    if n > 0 { AddsBeforeSame(log, more, n - 1); }
  }

  lemma NewestIsPresent(sys: Sys, r: Replica<OrSet>, e: Value)
    requires Inv(sys) && r in sys.held && |sys.log| > 0
    requires |sys.log| - 1 in r.history && IsAddOf(sys.log, |sys.log| - 1, e)
    ensures Present(sys.log, r.history, e)
  {
    assert Closed(sys.log, r.history);
    assert forall j <- r.history :: !Covers(sys.log, j, |sys.log| - 1);
  }

  /** Run-level form of the bound: a counter anywhere never outruns the insertions made. */
  lemma CountersNeverOutrunInsertions(steps: seq<Step<OrSet, Op>>, r: Replica<OrSet>, t: Dot)
    requires Run(steps).Some? && r in Run(steps).value.held && r.state.HasTag(t)
    ensures t.counter <= AddsBefore(Run(steps).value.log, |Run(steps).value.log|)
  {
    RunKeepsInv(steps);
    var sys := Run(steps).value;
    InvGrounds(sys);
    HasTagIff(sys.log, r.state, r.history, t);
    var i :| i in r.history && IsAdd(sys.log, i) && TagOf(sys.log, i) == t;
    CounterBelowInsertions(sys.log, i);
    AddsBeforeMonotone(sys.log, i + 1, |sys.log|);
  }

  // ---- Exactly when the rule holds ----

  predicate AddFree(more: seq<Step<OrSet, Op>>) {
    forall step <- more :: step.Update? ==> step.op.Del?
  }

  lemma RunExtends(steps: seq<Step<OrSet, Op>>, step: Step<OrSet, Op>)
    requires Run(steps).Some? && Enabled(Run(steps).value, step)
    ensures Run(steps + [step]) == Some(Next(Run(steps).value, step))
  {
    assert (steps + [step])[..|steps|] == steps;
  }

  /** Removals, merges and new nodes leave the insertions, guarded or not, as they were. */
  lemma {:induction false} AddFreeKeepsGuards(steps: seq<Step<OrSet, Op>>, more: seq<Step<OrSet, Op>>)
    requires AddFree(more) && Run(steps + more).Some?
    ensures Run(steps).Some?
    ensures AllGuarded(Run(steps).value.log) ==> AllGuarded(Run(steps + more).value.log)
    decreases |more|
  {
    if more == [] {
      assert steps + more == steps;
    } else {
      var n := |more| - 1;
      assert (steps + more)[..|steps + more| - 1] == steps + more[..n];
      AddFreeKeepsGuards(steps, more[..n]);
      var before := Run(steps + more[..n]).value;
      var after := Run(steps + more).value;
      assert (steps + more)[|steps + more| - 1] == more[n];
      assert after == Next(before, more[n]);
      assert forall i: nat | IsAdd(after.log, i) :: IsAdd(before.log, i) && after.log[i] == before.log[i];
      assert forall i: nat | IsAdd(after.log, i) && Guarded(before.log, i) :: Guarded(after.log, i);
    }
  }

  /** One system reaches another by these steps. */
  ghost predicate Leads(sys: Sys, more: seq<Step<OrSet, Op>>, last: Sys)
    decreases |more|
  {
    if more == [] then sys == last
    else Enabled(sys, more[0]) && Leads(Next(sys, more[0]), more[1..], last)
  }

  lemma {:induction false} LeadsExtendsRun(steps: seq<Step<OrSet, Op>>, more: seq<Step<OrSet, Op>>, last: Sys)
    requires Run(steps).Some? && Leads(Run(steps).value, more, last)
    ensures Run(steps + more) == Some(last)
    decreases |more|
  {
    if more == [] {
      assert steps + more == steps;
    } else {
      RunExtends(steps, more[0]);
      LeadsExtendsRun(steps + [more[0]], more[1..], last);
      assert steps + more == steps + [more[0]] + more[1..];
    }
  }

  lemma LeadsCons(sys: Sys, step: Step<OrSet, Op>, more: seq<Step<OrSet, Op>>, last: Sys)
    requires Enabled(sys, step) && Leads(Next(sys, step), more, last)
    ensures Leads(sys, [step] + more, last)
  {
    assert ([step] + more)[1..] == more;
  }

  /** A new node absorbs `p`, removes `f` and `e` there, then absorbs `q`. */
  lemma RemoveThenAbsorb(sys: Sys, p: Replica<OrSet>, q: Replica<OrSet>, f: Value, e: Value)
      returns (more: seq<Step<OrSet, Op>>, last: Sys, r: Replica<OrSet>)
    requires p in sys.held && q in sys.held
    ensures AddFree(more) && Leads(sys, more, last)
    ensures var n := |sys.log|;
      && |last.log| == n + 2 && sys.log <= last.log
      && last.log[n].op == Del(f) && last.log[n].seen == p.history
      && last.log[n + 1].op == Del(e) && last.log[n + 1].seen == p.history + {n}
      && r in last.held && r.history == p.history + {n} + {n + 1} + q.history
  {
    var z := UnownedIdExists(sys.nodes.Keys);
    var s1, s2, s3, s4, s5 := Start(z), Absorb(z, p), Update(z, Del(f)), Update(z, Del(e)), Absorb(z, q);
    var sys1 := Next(sys, s1);
    assert sys1.nodes[z].history == {} && sys1.log == sys.log && sys.held <= sys1.held;
    var sys2 := Next(sys1, s2);
    assert sys2.nodes[z].history == p.history && sys2.log == sys.log && sys.held <= sys2.held;
    var sys3 := Next(sys2, s3);
    assert sys3.nodes[z].history == p.history + {|sys.log|} && sys.held <= sys3.held;
    var sys4 := Next(sys3, s4);
    assert sys4.nodes[z].history == p.history + {|sys.log|} + {|sys.log| + 1} && sys.held <= sys4.held;
    last := Next(sys4, s5);
    r := last.nodes[z];
    assert Leads(last, [], last);
    LeadsCons(sys4, s5, [], last);
    LeadsCons(sys3, s4, [s5] + [], last);
    LeadsCons(sys2, s3, [s4] + ([s5] + []), last);
    LeadsCons(sys1, s2, [s3] + ([s4] + ([s5] + [])), last);
    LeadsCons(sys, s1, [s2] + ([s3] + ([s4] + ([s5] + []))), last);
    more := [s1] + ([s2] + ([s3] + ([s4] + ([s5] + []))));
  }

  /** An unguarded insertion reuses the tag of one it had seen. */
  lemma ReusedTag(sys: Sys, i: nat) returns (k: nat)
    requires Inv(sys) && IsAdd(sys.log, i) && !Guarded(sys.log, i)
    ensures k in sys.log[i].seen && k < i && IsAdd(sys.log, k) && TagOf(sys.log, k) == TagOf(sys.log, i)
  {
    var ev := sys.log[i];
    assert Replica(ev.pre, ev.seen) in sys.held;
    HasTagIff(sys.log, ev.pre, ev.seen, TagOf(sys.log, i));
    k :| k in ev.seen && IsAdd(sys.log, k) && TagOf(sys.log, k) == TagOf(sys.log, i);
  }

  /** The replica `r` holds insertion `i`, whose tag is that of `k`, beside removals, at `n` and after it,
      of what `i` had seen of both elements. */
  ghost predicate Collides(last: Sys, r: Replica<OrSet>, i: nat, k: nat, n: nat) {
    var log := last.log;
    && r in last.held && i < n && |log| == n + 2
    && IsAdd(log, i) && k in log[i].seen && IsAdd(log, k) && TagOf(log, k) == TagOf(log, i)
    && log[n].op == Del(log[k].op.element) && log[n].seen == log[i].seen
    && log[n + 1].op == Del(log[i].op.element) && log[n + 1].seen == log[i].seen + {n}
    && r.history == log[i].seen + {n} + {n + 1} + (log[i].seen + {i})
  }

  lemma CollidingFuture(sys: Sys, i: nat, k: nat)
      returns (more: seq<Step<OrSet, Op>>, last: Sys, r: Replica<OrSet>)
    requires IsAdd(sys.log, i) && k < i && k in sys.log[i].seen && IsAdd(sys.log, k)
    requires TagOf(sys.log, k) == TagOf(sys.log, i)
    requires Replica(sys.log[i].pre, sys.log[i].seen) in sys.held
    requires Replica(sys.log[i].post, sys.log[i].seen + {i}) in sys.held
    ensures AddFree(more) && Leads(sys, more, last)
    ensures Collides(last, r, i, k, |sys.log|)
  {
    var ev := sys.log[i];
    more, last, r := RemoveThenAbsorb(sys, Replica(ev.pre, ev.seen), Replica(ev.post, ev.seen + {i}),
                                      sys.log[k].op.element, ev.op.element);
    SameAdd(sys.log, last.log, i);
    SameAdd(sys.log, last.log, k);
  }

  lemma SameAdd(log: Log, more: Log, i: nat)
    requires log <= more && IsAdd(log, i)
    ensures IsAdd(more, i) && more[i] == log[i] && TagOf(more, i) == TagOf(log, i)
  {
  }

  /** An unguarded insertion has an ordinary future, five steps long and without insertions, in which
      a node holding the insertion and no removal that saw it denies the element. */
  lemma UnguardedBreaksRule(steps: seq<Step<OrSet, Op>>, i: nat) returns (more: seq<Step<OrSet, Op>>)
    requires Run(steps).Some? && IsAdd(Run(steps).value.log, i) && !Guarded(Run(steps).value.log, i)
    ensures AddFree(more) && Run(steps + more).Some? && !MembershipRule(Run(steps + more).value)
  {
    RunKeepsInv(steps);
    var sys := Run(steps).value;
    var k := ReusedTag(sys, i);
    var last, r;
    more, last, r := CollidingFuture(sys, i, k);
    LeadsExtendsRun(steps, more, last);
    RunKeepsInv(steps + more);
    LostInRun(last, r, i, k, |sys.log|);
  }

  lemma LostInRun(last: Sys, r: Replica<OrSet>, i: nat, k: nat, n: nat)
    requires Inv(last) && Collides(last, r, i, k, n)
    ensures !MembershipRule(last)
  {
    LostInsertion(last.log, r, last.log[i].seen, i, k, n, n + 1);
  }

  lemma LostInsertion(log: Log, r: Replica<OrSet>, seen: set<nat>, i: nat, k: nat, n: nat, m: nat)
    requires Refines(log, r.state, r.history) && r.history == seen + {n} + {m} + (seen + {i})
    requires i < n < m < |log| && IsAdd(log, i) && log[i].seen == seen
    requires k in seen && IsAdd(log, k) && TagOf(log, k) == TagOf(log, i)
    requires forall j <- seen :: j < i && forall x <- log[j].seen :: x < j
    requires log[n].op == Del(log[k].op.element) && log[n].seen == seen
    requires log[m].op == Del(log[i].op.element) && log[m].seen == seen + {n}
    ensures Present(log, r.history, log[i].op.element) && !r.state.Contains(log[i].op.element)
  {
    var e := log[i].op.element;
    var h := r.history;
    assert i in h && IsAddOf(log, i, e);
    assert forall j <- h :: !Covers(log, j, i);
    assert Covers(log, n, k) && n in h && k in h;
    assert TagOf(log, k) in Tombstones(log, h);
    forall t | t in r.state.TagsOf(e) ensures t in r.state.removed {
      assert t in AddTags(log, h, e);
      var x: nat :| x in h && IsAddOf(log, x, e) && TagOf(log, x) == t;
      if x in seen { assert Covers(log, m, x) && m in h; }
    }
  }

  /** The condition is exact: after a run, membership follows the observed-remove rule in all of its
      futures without further insertions if and only if every insertion so far was guarded. */
  lemma RuleHoldsIffGuarded(steps: seq<Step<OrSet, Op>>)
    requires Run(steps).Some?
    ensures AllGuarded(Run(steps).value.log) <==>
      forall more | AddFree(more) && Run(steps + more).Some? :: MembershipRule(Run(steps + more).value)
  {
    var log := Run(steps).value.log;
    if AllGuarded(log) {
      forall more | AddFree(more) && Run(steps + more).Some? ensures MembershipRule(Run(steps + more).value) {
        AddFreeKeepsGuards(steps, more);
        RunKeepsInv(steps + more);
        GuardedGivesRule(Run(steps + more).value);
      }
    } else {
      var i: nat :| IsAdd(log, i) && !Guarded(log, i);
      var more := UnguardedBreaksRule(steps, i);
    }
  }

  // ---- The ceiling ----

  /** `n` insertions by one owner. */
  function Monologue(n: nat, e: Value): seq<Step<OrSet, Op>> {
    [Start("A")] + seq(n, _ => Update("A", Add(e)))
  }

  ghost predicate Ticked(s: OrSet, n: nat) {
    && s.HighestCounter() == (if n <= MAX_U64 then n else MAX_U64)
    && (n > 0 ==> s.HasTag(Dot(s.HighestCounter(), "A")))
  }

  /** One insertion moves the highest counter one tick, to the ceiling and no further. */
  lemma InsertTicks(s: OrSet, n: nat, e: Value)
    requires Ticked(s, n)
    ensures Ticked(s.Inserted("A", e), n + 1)
  {
    var t, u := s.NextTag("A"), s.Inserted("A", e);
    assert u.adds[e] == s.TagsOf(e) + {t} && u.HasTag(t);
    forall x | u.HasTag(x) ensures x == t || s.HasTag(x) {
      if x !in u.removed {
        var f :| f in u.adds && x in u.adds[f];
        if f in s.adds && x in s.adds[f] { assert s.HasTag(x); }
      }
    }
  }

  lemma EmptyIsUnticked()
    ensures Ticked(EMPTY_ORSET, 0)
  {
  }

  lemma {:induction false} MonologueRuns(n: nat, e: Value)
    ensures var run := Run(Monologue(n, e));
      run.Some? && |run.value.log| == n && "A" in run.value.nodes && Ticked(run.value.nodes["A"].state, n)
    decreases n
  {
    var steps := Monologue(n, e);
    if n == 0 {
      assert Run(steps[..0]) == Some(System(map[], [], {}));
      assert steps == [Start("A")] && steps[..0] == [];
      EmptyIsUnticked();
    } else {
      MonologueRuns(n - 1, e);
      assert steps == Monologue(n - 1, e) + [Update("A", Add(e))];
      RunExtends(Monologue(n - 1, e), Update("A", Add(e)));
      UpdateTicks(Run(Monologue(n - 1, e)).value, n - 1, e);
    }
  }

  lemma UpdateTicks(sys: Sys, n: nat, e: Value)
    requires "A" in sys.nodes && Ticked(sys.nodes["A"].state, n)
    ensures var next := Next(sys, Update("A", Add(e)));
      |next.log| == |sys.log| + 1 && "A" in next.nodes && Ticked(next.nodes["A"].state, n + 1)
  {
    InsertTicks(sys.nodes["A"].state, n, e);
  }

  /** The bound is tight: one owner's 2^64-th insertion reuses a tag, and five ordinary steps later the
      observed-remove rule fails. */
  lemma TheCeilingIsReached(e: Value) returns (more: seq<Step<OrSet, Op>>)
    ensures var steps, last := Monologue(0x1_0000_0000_0000_0000, e), 0xFFFF_FFFF_FFFF_FFFF;
      && Run(steps).Some? && |Run(steps).value.log| == last + 1
      && IsAdd(Run(steps).value.log, last) && !Guarded(Run(steps).value.log, last)
      && AddFree(more) && Run(steps + more).Some? && !MembershipRule(Run(steps + more).value)
  {
    var steps := Monologue(MAX_U64 + 1, e);
    MonologueRuns(MAX_U64, e);
    MonologueRuns(MAX_U64 + 1, e);
    assert steps[..|steps| - 1] == Monologue(MAX_U64, e) && steps[|steps| - 1] == Update("A", Add(e));
    var before := Run(Monologue(MAX_U64, e)).value;
    assert Run(steps).value == Next(before, Update("A", Add(e)));
    assert Run(steps).value.log[MAX_U64] == Event("A", Add(e), before.nodes["A"].history, before.nodes["A"].state,
                                                  Apply(before.nodes["A"].state, "A", Add(e)));
    more := UnguardedBreaksRule(steps, MAX_U64);
  }

  /** Once a node has merged the current state of every node, its members are those that some insertion put in
      and no removal anywhere had seen. */
  lemma ExchangeReachesAll(steps: seq<Step<OrSet, Op>>, id: string, from: seq<Replica<OrSet>>, e: Value)
    requires Run(steps).Some? && id in Run(steps).value.nodes
    requires AddsBefore(Run(steps).value.log, |Run(steps).value.log|) < 0x1_0000_0000_0000_0000
    requires forall r <- from :: r in Run(steps).value.held
    requires forall n <- Run(steps).value.nodes :: Run(steps).value.nodes[n] in from
    ensures Run(steps + Absorptions(id, from)).Some? && id in Run(steps + Absorptions(id, from)).value.nodes
    ensures var now := Run(steps + Absorptions(id, from)).value;
      && now.log == Run(steps).value.log
      && (now.nodes[id].state.Contains(e) <==> Present(now.log, AllUpdates(now.log), e))
  {
    HearsAll(SETS, steps, id, from);
    MembershipIsObservedRemove(steps + Absorptions(id, from));
  }
}
