/** What every run of replicated counters keeps: each half of a counter counts every update of its
    causal history exactly once, up to saturation. The positive half alone is the grow-only
    counter: an update of the other sign leaves it as it was. */
module CounterRuns {
  import opened Orders
  import opened BTrees
  import opened Clock
  import opened Counters
  import opened Lattice
  import opened Replication
  import opened Wrappers

  datatype Op = Op(up: bool, amount: U64)

  type Log = seq<Event<PnCounter, Op>>
  type Sys = System<PnCounter, Op>

  function Apply(c: PnCounter, id: string, op: Op): PnCounter {
    if op.up then c.Incremented(id, op.amount) else c.Decremented(id, op.amount)
  }

  const COUNTERS: Kind<PnCounter, Op> := Kind(EMPTY_PNCOUNTER, Apply, JoinPn)

  ghost function Next(sys: Sys, step: Step<PnCounter, Op>): Sys
    requires Enabled(sys, step)
  {
    NextOf(COUNTERS, sys, step)
  }

  ghost function Run(steps: seq<Step<PnCounter, Op>>): Option<Sys> {
    RunOf(COUNTERS, steps)
  }

  function Half(c: PnCounter, up: bool): GCounter {
    if up then c.positive else c.negative
  }

  /** The amounts of one sign among the first `n` updates that the history holds. */
  function Total(log: Log, h: set<nat>, up: bool, n: nat): nat
    requires n <= |log|
  {
    if n == 0 then 0
    else Total(log, h, up, n - 1) + (if n - 1 in h && log[n - 1].op.up == up then log[n - 1].op.amount else 0)
  }

  /** The same, for one replica's updates. */
  function Share(log: Log, h: set<nat>, up: bool, r: string, n: nat): nat
    requires n <= |log|
  {
    if n == 0 then 0
    else if n - 1 in h && log[n - 1].op.up == up && log[n - 1].replica == r then
      Share(log, h, up, r, n - 1) + log[n - 1].op.amount
    else Share(log, h, up, r, n - 1)
  }

  function Contributors(log: Log, h: set<nat>, up: bool): set<string> {
    set i | i in h && i < |log| && log[i].op.up == up :: log[i].replica
  }

  ghost predicate Tallies(log: Log, c: GCounter, h: set<nat>, up: bool) {
    && c.counts.Keys == Contributors(log, h, up)
    && forall r :: c.At(r) == Clamp(Share(log, h, up, r, |log|))
  }

  ghost predicate Refines(log: Log, c: PnCounter, h: set<nat>) {
    Tallies(log, c.positive, h, true) && Tallies(log, c.negative, h, false)
  }

  ghost predicate Inv(sys: Sys) {
    && Causal(sys)
    && forall r <- sys.held :: Refines(sys.log, r.state, r.history)
  }

  // ---- Sums ----

  lemma {:induction false} ShareIsFramed(log: Log, more: Log, h: set<nat>, up: bool, r: string, n: nat)
    requires log <= more && n <= |more| && forall i <- h :: i < |log|
    ensures Share(more, h, up, r, n) == Share(log, h, up, r, if n <= |log| then n else |log|)
    decreases n
  {
    if n > 0 { ShareIsFramed(log, more, h, up, r, n - 1); }
  }

  lemma {:induction false} ShareIgnores(log: Log, h: set<nat>, x: nat, up: bool, r: string, n: nat)
    requires n <= x && n <= |log|
    ensures Share(log, h + {x}, up, r, n) == Share(log, h, up, r, n)
    decreases n
  {
    if n > 0 { ShareIgnores(log, h, x, up, r, n - 1); }
  }

  /** `g` has no update of `r` that `h` lacks. */
  predicate NestsOn(log: Log, g: set<nat>, h: set<nat>, r: string) {
    forall i <- g :: i < |log| && log[i].replica == r ==> i in h
  }

  lemma {:induction false} NestedShares(log: Log, g: set<nat>, h: set<nat>, up: bool, r: string, n: nat)
    requires n <= |log| && NestsOn(log, g, h, r)
    ensures Share(log, g, up, r, n) <= Share(log, h, up, r, n)
    ensures Share(log, g + h, up, r, n) == Share(log, h, up, r, n)
    decreases n
  {
    if n > 0 { NestedShares(log, g, h, up, r, n - 1); }
  }

  /** Of two updates by one owner, whoever absorbed the later has the earlier: so one of two histories has
      all of an owner's updates that the other has. */
  lemma JoinedShare(sys: Sys, g: set<nat>, h: set<nat>, up: bool, r: string)
    requires Causal(sys) && Closed(sys.log, g) && Closed(sys.log, h)
    ensures Share(sys.log, g + h, up, r, |sys.log|)
      == Max(Share(sys.log, g, up, r, |sys.log|), Share(sys.log, h, up, r, |sys.log|))
  {
    if NestsOn(sys.log, g, h, r) {
      NestedShares(sys.log, g, h, up, r, |sys.log|);
    } else {
      var i :| i in g && i < |sys.log| && sys.log[i].replica == r && i !in h;
      forall j <- h | sys.log[j].replica == r ensures j in g {
        if j < i { assert j in sys.log[i].seen; }
      }
      NestedShares(sys.log, h, g, up, r, |sys.log|);
      assert h + g == g + h;
    }
  }

  // ---- The invariant ----

  lemma TalliesAreFramed(log: Log, more: Log, c: GCounter, h: set<nat>, up: bool)
    requires Closed(log, h) && log <= more && Tallies(log, c, h, up)
    ensures Tallies(more, c, h, up)
  {
    assert Contributors(more, h, up) == Contributors(log, h, up) by {
      assert forall i <- h :: more[i] == log[i];
    }
    forall r ensures c.At(r) == Clamp(Share(more, h, up, r, |more|)) {
      assert c.At(r) == Clamp(Share(log, h, up, r, |log|));
      ShareIsFramed(log, more, h, up, r, |more|);
    }
  }

  lemma JoinTallies(sys: Sys, a: GCounter, g: set<nat>, b: GCounter, h: set<nat>, up: bool)
    requires Causal(sys) && Closed(sys.log, g) && Closed(sys.log, h)
    requires Tallies(sys.log, a, g, up) && Tallies(sys.log, b, h, up)
    ensures Tallies(sys.log, a.Join(b), g + h, up)
  {
    JoinGIsJoin(a, b);
    assert Contributors(sys.log, g + h, up) == Contributors(sys.log, g, up) + Contributors(sys.log, h, up);
    forall r ensures a.Join(b).At(r) == Clamp(Share(sys.log, g + h, up, r, |sys.log|)) {
      assert a.At(r) == Clamp(Share(sys.log, g, up, r, |sys.log|));
      assert b.At(r) == Clamp(Share(sys.log, h, up, r, |sys.log|));
      JoinedShare(sys, g, h, up, r);
    }
  }

  lemma UpdateTallies(log: Log, c: GCounter, h: set<nat>, up: bool, ev: Event<PnCounter, Op>)
    requires Closed(log, h) && Tallies(log, c, h, up)
    ensures Tallies(log + [ev], if ev.op.up == up then c.Incremented(ev.replica, ev.op.amount) else c,
                    h + {|log|}, up)
  {
    var n := |log|;
    var more := log + [ev];
    TalliesAreFramed(log, more, c, h, up);
    var post := if ev.op.up == up then c.Incremented(ev.replica, ev.op.amount) else c;
    ContributorsAfter(more, h, up, n);
    forall r ensures post.At(r) == Clamp(Share(more, h + {n}, up, r, n + 1)) {
      assert c.At(r) == Clamp(Share(log, h, up, r, n));
      ShareIsFramed(log, more, h, up, r, n);
      ShareIgnores(more, h, n, up, r, n);
    }
  }

  lemma ContributorsAfter(more: Log, h: set<nat>, up: bool, n: nat)
    requires n < |more|
    ensures Contributors(more, h + {n}, up)
         == Contributors(more, h, up) + if more[n].op.up == up then {more[n].replica} else {}
  {
    assert n in h + {n};
  }

  lemma StepKeepsInv(sys: Sys, step: Step<PnCounter, Op>)
    requires Inv(sys) && Enabled(sys, step)
    ensures Inv(Next(sys, step))
  {
    var next := Next(sys, step);
    match step
    case Start(id) =>
      StartKeepsCausal(sys, id, EMPTY_PNCOUNTER);
      EmptyRefines(sys.log);
    case Update(id, op) =>
      var me := sys.nodes[id];
      RecordKeepsCausal(sys, id, op, Apply(me.state, id, op));
      UpdateTallies(sys.log, me.state.positive, me.history, true, next.log[|sys.log|]);
      UpdateTallies(sys.log, me.state.negative, me.history, false, next.log[|sys.log|]);
      forall r <- next.held ensures Refines(next.log, r.state, r.history) {
        if r in sys.held {
          TalliesAreFramed(sys.log, next.log, r.state.positive, r.history, true);
          TalliesAreFramed(sys.log, next.log, r.state.negative, r.history, false);
        }
      }
    case Absorb(id, from) =>
      var me := sys.nodes[id];
      AbsorbKeepsCausal(sys, id, from, me.state.Join(from.state));
      JoinTallies(sys, me.state.positive, me.history, from.state.positive, from.history, true);
      JoinTallies(sys, me.state.negative, me.history, from.state.negative, from.history, false);
  }

  lemma {:induction false} EmptyShare(log: Log, up: bool, r: string, n: nat)
    requires n <= |log|
    ensures Share(log, {}, up, r, n) == 0
    decreases n
  {
    if n > 0 { EmptyShare(log, up, r, n - 1); }
  }

  lemma EmptyRefines(log: Log)
    ensures Refines(log, EMPTY_PNCOUNTER, {})
  {
    forall up: bool, r: string ensures Share(log, {}, up, r, |log|) == 0 { EmptyShare(log, up, r, |log|); }
  }

  lemma {:induction false} RunKeepsInv(steps: seq<Step<PnCounter, Op>>)
    requires Run(steps).Some?
    ensures Inv(Run(steps).value)
    decreases |steps|
  {
    if steps != [] {
      RunKeepsInv(steps[..|steps| - 1]);
      StepKeepsInv(Run(steps[..|steps| - 1]).value, steps[|steps| - 1]);
    }
  }

  // ---- Values ----

  function ShareOver(log: Log, h: set<nat>, up: bool, ks: seq<string>, n: nat): nat
    requires n <= |log|
  {
    if ks == [] then 0 else Share(log, h, up, ks[0], n) + ShareOver(log, h, up, ks[1..], n)
  }

  lemma {:induction false} FoldIsClampedSum(log: Log, c: GCounter, h: set<nat>, up: bool, ks: seq<string>, acc: nat)
    requires Tallies(log, c, h, up) && forall k <- ks :: k in c.counts
    ensures FoldSaturating(c.counts, ks, Clamp(acc)) == Clamp(acc + ShareOver(log, h, up, ks, |log|))
    decreases |ks|
  {
    if ks != [] {
      assert c.counts[ks[0]] == c.At(ks[0]);
      FoldIsClampedSum(log, c, h, up, ks[1..], acc + Share(log, h, up, ks[0], |log|));
    }
  }

  predicate Distinct(ks: seq<string>) {
    forall i, j :: 0 <= i < j < |ks| ==> ks[i] != ks[j]
  }

  lemma {:induction false} ShareOverStep(log: Log, h: set<nat>, up: bool, ks: seq<string>, n: nat)
    requires 0 < n <= |log| && Distinct(ks)
    ensures ShareOver(log, h, up, ks, n) == ShareOver(log, h, up, ks, n - 1)
      + if n - 1 in h && log[n - 1].op.up == up && log[n - 1].replica in ks then log[n - 1].op.amount else 0
    decreases |ks|
  {
    if ks != [] {
      assert Distinct(ks[1..]) && ks[0] !in ks[1..];
      assert ks == [ks[0]] + ks[1..];
      ShareOverStep(log, h, up, ks[1..], n);
    }
  }

  lemma {:induction false} SharesMakeTotal(log: Log, h: set<nat>, up: bool, ks: seq<string>, n: nat)
    requires n <= |log| && Distinct(ks) && forall r <- Contributors(log, h, up) :: r in ks
    ensures ShareOver(log, h, up, ks, n) == Total(log, h, up, n)
    decreases n
  {
    if n == 0 {
      NoShares(log, h, up, ks);
    } else {
      SharesMakeTotal(log, h, up, ks, n - 1);
      ShareOverStep(log, h, up, ks, n);
      if n - 1 in h && log[n - 1].op.up == up { assert log[n - 1].replica in Contributors(log, h, up); }
    }
  }

  lemma {:induction false} NoShares(log: Log, h: set<nat>, up: bool, ks: seq<string>)
    ensures ShareOver(log, h, up, ks, 0) == 0
    decreases |ks|
  {
    if ks != [] { NoShares(log, h, up, ks[1..]); }
  }

  /** The fold goes over the replicas in ascending order, each once. */
  lemma AscendingNames(c: GCounter) returns (ks: seq<string>)
    ensures Distinct(ks) && forall k :: k in ks <==> k in c.counts
    ensures c.Value() == FoldSaturating(c.counts, ks, 0)
  {
    StringsAreOrdered();
    ks := Ascending(CmpString, c.counts.Keys);
    forall i, j | 0 <= i < j < |ks| ensures ks[i] != ks[j] { CmpStringLaws(ks[i], ks[j], ks[i]); }
  }

  lemma FoldIsTotal(log: Log, c: GCounter, h: set<nat>, up: bool, ks: seq<string>)
    requires Tallies(log, c, h, up) && Distinct(ks) && forall k :: k in ks <==> k in c.counts
    ensures FoldSaturating(c.counts, ks, 0) == Clamp(Total(log, h, up, |log|))
  {
    assert forall r <- Contributors(log, h, up) :: r in ks;
    SharesMakeTotal(log, h, up, ks, |log|);
    assert forall k <- ks :: k in c.counts;
    FoldIsClampedSum(log, c, h, up, ks, 0);
  }

  lemma ValueCounts(log: Log, c: GCounter, h: set<nat>, up: bool)
    requires Tallies(log, c, h, up)
    ensures c.Value() == Clamp(Total(log, h, up, |log|))
  {
    var ks := AscendingNames(c);
    FoldIsTotal(log, c, h, up, ks);
  }

  lemma {:induction false} TotalGrows(log: Log, more: Log, g: set<nat>, h: set<nat>, up: bool, n: nat)
    requires log <= more && n <= |log| && g <= h
    ensures Total(log, g, up, n) <= Total(more, h, up, n)
    decreases n
  {
    if n > 0 { TotalGrows(log, more, g, h, up, n - 1); }
  }

  lemma {:induction false} TotalPrefix(log: Log, h: set<nat>, up: bool, m: nat, n: nat)
    requires m <= n <= |log|
    ensures Total(log, h, up, m) <= Total(log, h, up, n)
    decreases n
  {
    if m < n { TotalPrefix(log, h, up, m, n - 1); }
  }

  lemma LaterCountsMore(log: Log, a: GCounter, g: set<nat>, more: Log, b: GCounter, h: set<nat>, up: bool)
    requires Tallies(log, a, g, up) && Tallies(more, b, h, up) && log <= more && g <= h
    ensures a.Value() <= b.Value()
  {
    ValueCounts(log, a, g, up);
    ValueCounts(more, b, h, up);
    TotalGrows(log, more, g, h, up, |log|);
    TotalPrefix(more, h, up, |log|, |more|);
  }

  /** No step lowers either total of any node. */
  lemma ValuesNeverFall(steps: seq<Step<PnCounter, Op>>, step: Step<PnCounter, Op>, id: string, up: bool)
    requires Run(steps).Some? && Enabled(Run(steps).value, step) && id in Run(steps).value.nodes
    ensures id in Next(Run(steps).value, step).nodes
    ensures Half(Run(steps).value.nodes[id].state, up).Value()
      <= Half(Next(Run(steps).value, step).nodes[id].state, up).Value()
  {
    RunKeepsInv(steps);
    StepCountsMore(Run(steps).value, step, id, up);
  }

  lemma StepCountsMore(sys: Sys, step: Step<PnCounter, Op>, id: string, up: bool)
    requires Inv(sys) && Enabled(sys, step) && id in sys.nodes
    ensures Half(sys.nodes[id].state, up).Value() <= Half(Next(sys, step).nodes[id].state, up).Value()
  {
    StepKeepsInv(sys, step);
    var next := Next(sys, step);
    var a, b := sys.nodes[id], next.nodes[id];
    assert a.history <= b.history && sys.log <= next.log;
    LaterCountsMore(sys.log, Half(a.state, up), a.history, next.log, Half(b.state, up), b.history, up);
  }

  // ---- Reconciling every node ----

  function JoinReplicas(a: Replica<PnCounter>, b: Replica<PnCounter>): Replica<PnCounter> {
    Replica(a.state.Join(b.state), a.history + b.history)
  }

  function States(t: MergeTree<Replica<PnCounter>>): MergeTree<PnCounter> {
    match t
    case Leaf(r) => Leaf(r.state)
    case Node(l, r) => Node(States(l), States(r))
  }

  lemma {:induction false} TreeRefines(sys: Sys, t: MergeTree<Replica<PnCounter>>)
    requires Inv(sys) && t.Leaves() <= sys.held
    ensures var r := t.Eval(JoinReplicas);
      && r.state == States(t).Eval(JoinPn)
      && Closed(sys.log, r.history) && Refines(sys.log, r.state, r.history)
      && forall leaf <- t.Leaves() :: leaf.history <= r.history
  {
    match t
    case Leaf(r) =>
    case Node(l, r) =>
      TreeRefines(sys, l);
      TreeRefines(sys, r);
      var a, b := l.Eval(JoinReplicas), r.Eval(JoinReplicas);
      JoinTallies(sys, a.state.positive, a.history, b.state.positive, b.history, true);
      JoinTallies(sys, a.state.negative, a.history, b.state.negative, b.history, false);
      forall leaf <- t.Leaves() ensures leaf.history <= a.history + b.history {
        assert leaf in l.Leaves() || leaf in r.Leaves();
      }
  }

  lemma NodesCoverLog(sys: Sys, t: MergeTree<Replica<PnCounter>>)
    requires Inv(sys) && t.Leaves() <= sys.held
    requires forall id <- sys.nodes :: sys.nodes[id] in t.Leaves()
    ensures var r := t.Eval(JoinReplicas);
      && r.state == States(t).Eval(JoinPn)
      && r.history == AllUpdates(sys.log) && Refines(sys.log, r.state, r.history)
  {
    TreeRefines(sys, t);
    var r := t.Eval(JoinReplicas);
    forall i: nat | i < |sys.log| ensures i in r.history {
      var owner := sys.nodes[sys.log[i].replica];
      assert owner in t.Leaves() && i in owner.history;
    }
    assert r.history == AllUpdates(sys.log);
  }

  /** A total saturates at the greatest unsigned 64-bit number. */
  predicate Saturates(value: int, total: nat) {
    value == if total < 0x1_0000_0000_0000_0000 then total else 0xFFFF_FFFF_FFFF_FFFF
  }

  /** The signed value is the difference of the totals, at most the greatest signed 64-bit number and at least
      the least. */
  predicate Differs(value: int, ups: int, downs: int) {
    var d := ups - downs;
    && (-0x8000_0000_0000_0000 <= d <= 0x7FFF_FFFF_FFFF_FFFF ==> value == d)
    && (d < -0x8000_0000_0000_0000 ==> value == -0x8000_0000_0000_0000)
    && (d > 0x7FFF_FFFF_FFFF_FFFF ==> value == 0x7FFF_FFFF_FFFF_FFFF)
  }

  /** Both totals of `c` are the saturated sums over the history, its value their clamped difference. */
  ghost predicate CountsExactly(log: Log, c: PnCounter, h: set<nat>) {
    && Saturates(c.positive.Value(), Total(log, h, true, |log|))
    && Saturates(c.negative.Value(), Total(log, h, false, |log|))
    && Differs(c.Value(), c.positive.Value(), c.negative.Value())
  }

  lemma RefinedCountsExactly(log: Log, c: PnCounter, h: set<nat>)
    requires Refines(log, c, h)
    ensures CountsExactly(log, c, h)
  {
    ValueCounts(log, c.positive, h, true);
    ValueCounts(log, c.negative, h, false);
  }

  /** The main result: merge the current states of all nodes, with any stale ones thrown in, in any
      shape of tree, and the outcome counts every amount ever counted exactly once. */
  lemma ReconciledCountIsExact(steps: seq<Step<PnCounter, Op>>, t: MergeTree<Replica<PnCounter>>)
    requires Run(steps).Some? && t.Leaves() <= Run(steps).value.held
    requires forall id <- Run(steps).value.nodes :: Run(steps).value.nodes[id] in t.Leaves()
    ensures CountsExactly(Run(steps).value.log, States(t).Eval(JoinPn), AllUpdates(Run(steps).value.log))
  {
    RunKeepsInv(steps);
    NodesCoverLog(Run(steps).value, t);
    RefinedCountsExactly(Run(steps).value.log, States(t).Eval(JoinPn), AllUpdates(Run(steps).value.log));
  }

  /** Every state any node ever held counts exactly the updates of its causal history, and so never
      more than all the updates made. */
  lemma NodeCountsItsHistory(steps: seq<Step<PnCounter, Op>>, r: Replica<PnCounter>, up: bool)
    requires Run(steps).Some? && r in Run(steps).value.held
    ensures var log := Run(steps).value.log;
      && CountsExactly(log, r.state, r.history)
      && Half(r.state, up).Value() <= Clamp(Total(log, AllUpdates(log), up, |log|))
  {
    RunKeepsInv(steps);
    var log := Run(steps).value.log;
    RefinedCountsExactly(log, r.state, r.history);
    assert Closed(log, r.history);
    TotalGrows(log, log, r.history, AllUpdates(log), up, |log|);
  }

  /** Once a node has merged the current state of every node, it counts every amount ever counted. */
  lemma ExchangeReachesAll(steps: seq<Step<PnCounter, Op>>, id: string, from: seq<Replica<PnCounter>>)
    requires Run(steps).Some? && id in Run(steps).value.nodes
    requires forall r <- from :: r in Run(steps).value.held
    requires forall n <- Run(steps).value.nodes :: Run(steps).value.nodes[n] in from
    ensures Run(steps + Absorptions(id, from)).Some? && id in Run(steps + Absorptions(id, from)).value.nodes
    ensures var now := Run(steps + Absorptions(id, from)).value;
      now.log == Run(steps).value.log && CountsExactly(now.log, now.nodes[id].state, AllUpdates(now.log))
  {
    HearsAll(COUNTERS, steps, id, from);
    var now := Run(steps + Absorptions(id, from)).value;
    RunKeepsInv(steps + Absorptions(id, from));
    RefinedCountsExactly(now.log, now.nodes[id].state, now.nodes[id].history);
  }
}
