/** What every run of replicated last-write-wins registers keeps: a register holds the write with
    the greatest stamp in its causal history, and stamps respect causality. */
module LwwRuns {
  import opened Orders
  import opened Clock
  import opened CrdtValues
  import opened LwwRegisters
  import opened Replication
  import opened Wrappers

  type Log = seq<Event<Lww, Value>>
  type Sys = System<Lww, Value>

  const REGISTERS: Kind<Lww, Value> := Kind(EMPTY_LWW, (s: Lww, id: string, v: Value) => s.Written(id, v), JoinLww)

  ghost function Next(sys: Sys, step: Step<Lww, Value>): Sys
    requires Enabled(sys, step)
  {
    NextOf(REGISTERS, sys, step)
  }

  ghost function Run(steps: seq<Step<Lww, Value>>): Option<Sys> {
    RunOf(REGISTERS, steps)
  }

  /** The register state that write `i` produced, with its stamp. */
  function WriteOf(log: Log, i: nat): Lww
    requires i < |log|
  {
    log[i].pre.Written(log[i].replica, log[i].op)
  }

  function StampOf(log: Log, i: nat): Dot
    requires i < |log|
  {
    WriteOf(log, i).stamp
  }

  /** A register invents nothing: it is empty or holds a write of its history. */
  ghost predicate Holds(log: Log, s: Lww, h: set<nat>) {
    if h == {} then s == EMPTY_LWW else exists i <- h :: i < |log| && s == WriteOf(log, i)
  }

  ghost predicate AtLeastAll(log: Log, s: Lww, h: set<nat>) {
    forall i <- h :: i < |log| ==> CmpLww(WriteOf(log, i), s) != Greater
  }

  /** What the author of write `i` could check before making it: the counter can tick, or its id
      outranks the id of the write it overwrites. */
  predicate Guarded(log: Log, i: nat)
    requires i < |log|
  {
    log[i].pre.stamp.counter < 0xFFFF_FFFF_FFFF_FFFF || CmpString(log[i].pre.stamp.replica, log[i].replica) == Less
  }

  predicate AllGuarded(log: Log) {
    forall i | 0 <= i < |log| :: Guarded(log, i)
  }

  ghost predicate Inv(sys: Sys) {
    && Causal(sys)
    && (forall r <- sys.held :: Holds(sys.log, r.state, r.history))
    && (AllGuarded(sys.log) ==> forall r <- sys.held :: AtLeastAll(sys.log, r.state, r.history))
  }

  lemma WritesAreFramed(log: Log, more: Log, s: Lww, h: set<nat>)
    requires Closed(log, h) && log <= more
    ensures Holds(log, s, h) <==> Holds(more, s, h)
    ensures AtLeastAll(log, s, h) <==> AtLeastAll(more, s, h)
  {
    assert forall i <- h :: WriteOf(more, i) == WriteOf(log, i);
  }

  lemma WriteRises(s: Lww, replica: string, v: Value)
    ensures CmpDot(s.stamp, s.Written(replica, v).stamp) == Less <==>
      s.stamp.counter < MAX_U64 || CmpString(s.stamp.replica, replica) == Less
  {
  }

  lemma WriteKeepsGreatest(log: Log, h: set<nat>, ev: Event<Lww, Value>)
    requires Closed(log, h) && ev.seen == h
    requires AtLeastAll(log, ev.pre, h) && Guarded(log + [ev], |log|)
    ensures AtLeastAll(log + [ev], WriteOf(log + [ev], |log|), h + {|log|})
  {
    var more := log + [ev];
    var post := WriteOf(more, |log|);
    WritesAreFramed(log, more, ev.pre, h);
    WriteRises(ev.pre, ev.replica, ev.op);
    CmpLwwLaws(post, post, post);
    forall i <- h ensures CmpLww(WriteOf(more, i), post) != Greater {
      CmpLwwLaws(WriteOf(more, i), ev.pre, post);
    }
  }

  lemma JoinKeepsGreatest(log: Log, s: Lww, g: set<nat>, t: Lww, h: set<nat>)
    requires AtLeastAll(log, s, g) && AtLeastAll(log, t, h)
    ensures AtLeastAll(log, s.Join(t), g + h)
  {
    var top := s.Join(t);
    forall i <- g + h | i < |log| ensures CmpLww(WriteOf(log, i), top) != Greater {
      var w := WriteOf(log, i);
      CmpLwwLaws(s, t, s);
      CmpLwwLaws(w, s, t);
      CmpLwwLaws(w, t, s);
    }
  }

  lemma JoinHolds(log: Log, s: Lww, g: set<nat>, t: Lww, h: set<nat>)
    requires Closed(log, g) && Closed(log, h) && Holds(log, s, g) && Holds(log, t, h)
    ensures Holds(log, s.Join(t), g + h)
  {
    if g == {} && h != {} {
      var i :| i in h && i < |log| && t == WriteOf(log, i);
      assert s.Join(t) == t && i in g + h;
    } else if g != {} && h == {} {
      var i :| i in g && i < |log| && s == WriteOf(log, i);
      assert s.Join(t) == s && i in g + h;
    } else if g != {} && h != {} {
      var i :| i in g && i < |log| && s == WriteOf(log, i);
      var j :| j in h && j < |log| && t == WriteOf(log, j);
      assert i in g + h && j in g + h;
    }
  }

  lemma UpdateKeepsHolds(sys: Sys, id: string, v: Value)
    requires Inv(sys) && id in sys.nodes
    ensures var next := Next(sys, Update(id, v)); forall r <- next.held :: Holds(next.log, r.state, r.history)
  {
    var next := Next(sys, Update(id, v));
    forall r <- next.held ensures Holds(next.log, r.state, r.history) {
      if r in sys.held {
        WritesAreFramed(sys.log, next.log, r.state, r.history);
      } else {
        assert r.state == WriteOf(next.log, |sys.log|) && |sys.log| in r.history;
      }
    }
  }

  lemma GuardedBefore(log: Log, ev: Event<Lww, Value>)
    requires AllGuarded(log + [ev])
    ensures AllGuarded(log) && Guarded(log + [ev], |log|)
  {
    assert forall i | 0 <= i < |log| :: (log + [ev])[i] == log[i] && Guarded(log + [ev], i);
  }

  lemma UpdateKeepsGreatest(sys: Sys, id: string, v: Value)
    requires Inv(sys) && id in sys.nodes
    requires AllGuarded(Next(sys, Update(id, v)).log)
    ensures var next := Next(sys, Update(id, v)); forall r <- next.held :: AtLeastAll(next.log, r.state, r.history)
  {
    var next := Next(sys, Update(id, v));
    GuardedBefore(sys.log, next.log[|sys.log|]);
    forall r <- next.held ensures AtLeastAll(next.log, r.state, r.history) {
      if r in sys.held {
        WritesAreFramed(sys.log, next.log, r.state, r.history);
      } else {
        WriteKeepsGreatest(sys.log, sys.nodes[id].history, next.log[|sys.log|]);
      }
    }
  }

  lemma StepKeepsInv(sys: Sys, step: Step<Lww, Value>)
    requires Inv(sys) && Enabled(sys, step)
    ensures Inv(Next(sys, step))
  {
    match step
    case Start(id) =>
      StartKeepsCausal(sys, id, EMPTY_LWW);
    case Update(id, v) =>
      RecordKeepsCausal(sys, id, v, sys.nodes[id].state.Written(id, v));
      UpdateKeepsHolds(sys, id, v);
      if AllGuarded(Next(sys, step).log) { UpdateKeepsGreatest(sys, id, v); }
    case Absorb(id, from) =>
      AbsorbKeepsCausal(sys, id, from, sys.nodes[id].state.Join(from.state));
      AbsorbKeepsGreatest(sys, id, from);
  }

  lemma AbsorbKeepsGreatest(sys: Sys, id: string, from: Replica<Lww>)
    requires Inv(sys) && id in sys.nodes && from in sys.held
    ensures var post := sys.nodes[id].state.Join(from.state); var h := sys.nodes[id].history + from.history;
      && Holds(sys.log, post, h)
      && (AllGuarded(sys.log) ==> AtLeastAll(sys.log, post, h))
  {
    var me := sys.nodes[id];
    JoinHolds(sys.log, me.state, me.history, from.state, from.history);
    if AllGuarded(sys.log) {
      JoinKeepsGreatest(sys.log, me.state, me.history, from.state, from.history);
    }
  }

  lemma {:induction false} RunKeepsInv(steps: seq<Step<Lww, Value>>)
    requires Run(steps).Some?
    ensures Inv(Run(steps).value)
    decreases |steps|
  {
    if steps != [] {
      RunKeepsInv(steps[..|steps| - 1]);
      StepKeepsInv(Run(steps[..|steps| - 1]).value, steps[|steps| - 1]);
    }
  }

  /** A write outranks every write it had seen. */
  ghost predicate RespectsCausality(log: Log) {
    forall i: nat, j: nat | i < |log| && j in log[i].seen :: Outranks(log, i, j)
  }

  predicate Outranks(log: Log, i: nat, j: nat)
    requires i < |log|
  {
    j < i && CmpDot(StampOf(log, j), StampOf(log, i)) == Less
  }

  /** What the invariant says of the register write `i` was applied to. */
  ghost predicate Grounded(log: Log, i: nat)
    requires i < |log|
  {
    && Holds(log, log[i].pre, log[i].seen)
    && (forall j <- log[i].seen :: j < i)
    && (AllGuarded(log) ==> AtLeastAll(log, log[i].pre, log[i].seen))
  }

  lemma InvGrounds(sys: Sys)
    requires Inv(sys)
    ensures forall i | 0 <= i < |sys.log| :: Grounded(sys.log, i)
  {
    forall i | 0 <= i < |sys.log| ensures Grounded(sys.log, i) {
      assert Replica(sys.log[i].pre, sys.log[i].seen) in sys.held;
    }
  }

  lemma GuardedIsCausal(log: Log)
    requires AllGuarded(log) && forall i | 0 <= i < |log| :: Grounded(log, i)
    ensures RespectsCausality(log)
  {
    forall i: nat, j: nat | i < |log| && j in log[i].seen ensures Outranks(log, i, j) {
      assert Grounded(log, i) && Guarded(log, i);
      OutranksSeen(log, i, j);
    }
  }

  lemma CausalIsGuarded(log: Log)
    requires RespectsCausality(log) && forall i | 0 <= i < |log| :: Grounded(log, i)
    ensures AllGuarded(log)
  {
    forall i | 0 <= i < |log| ensures Guarded(log, i) {
      assert Grounded(log, i);
      CausalWriteIsGuarded(log, i);
    }
  }

  lemma CausalWriteIsGuarded(log: Log, i: nat)
    requires i < |log| && Holds(log, log[i].pre, log[i].seen) && RespectsCausality(log)
    ensures Guarded(log, i)
  {
    if log[i].seen != {} {
      var j :| j in log[i].seen && j < |log| && log[i].pre == WriteOf(log, j);
      assert Outranks(log, i, j);
      WriteRises(log[i].pre, log[i].replica, log[i].op);
    }
  }

  /** The stamps of a run respect causality exactly when every write was guarded. */
  lemma CausalityIffGuarded(steps: seq<Step<Lww, Value>>)
    requires Run(steps).Some?
    ensures RespectsCausality(Run(steps).value.log) <==> AllGuarded(Run(steps).value.log)
  {
    RunKeepsInv(steps);
    InvGrounds(Run(steps).value);
    var log := Run(steps).value.log;
    if AllGuarded(log) { GuardedIsCausal(log); }
    if RespectsCausality(log) { CausalIsGuarded(log); }
  }

  lemma OutranksSeen(log: Log, i: nat, j: nat)
    requires i < |log| && j < |log| && j in log[i].seen
    requires AtLeastAll(log, log[i].pre, log[i].seen) && Guarded(log, i)
    ensures CmpDot(StampOf(log, j), StampOf(log, i)) == Less
  {
    WriteRises(log[i].pre, log[i].replica, log[i].op);
    assert CmpLww(WriteOf(log, j), log[i].pre) != Greater;
    CmpDotLaws(StampOf(log, j), log[i].pre.stamp, StampOf(log, i));
  }

  /** A write's stamp never outruns the number of writes made. */
  lemma {:induction false} StampBound(log: Log, i: nat)
    requires i < |log|
    requires forall k | 0 <= k < |log| :: Grounded(log, k)
    ensures log[i].pre.stamp.counter <= i
    ensures StampOf(log, i).counter <= i + 1
    decreases i
  {
    assert Grounded(log, i);
    if log[i].seen != {} {
      var j :| j in log[i].seen && j < |log| && log[i].pre == WriteOf(log, j);
      StampBound(log, j);
    }
  }

  lemma FewWritesAreGuarded(steps: seq<Step<Lww, Value>>)
    requires Run(steps).Some? && |Run(steps).value.log| < 0x1_0000_0000_0000_0000
    ensures AllGuarded(Run(steps).value.log)
  {
    RunKeepsInv(steps);
    var sys := Run(steps).value;
    InvGrounds(sys);
    forall i | 0 <= i < |sys.log| ensures Guarded(sys.log, i) { StampBound(sys.log, i); }
  }

  /** `w` is the write with strictly the greatest stamp in the history, and no write of the history
      had seen it. */
  ghost predicate IsLatest(log: Log, h: set<nat>, w: nat) {
    && w in h && w < |log|
    && forall j <- h :: j < |log| && w !in log[j].seen
         && (j != w ==> CmpDot(StampOf(log, j), StampOf(log, w)) == Less)
  }

  /** The register reads empty without a write in its causal history, and else what the latest of them wrote,
      under its author's id. */
  ghost predicate IsCurrent(log: Log, r: Replica<Lww>) {
    if r.history == {} then r.state == Lww(Dot(0, ""), None)
    else exists w: nat | w < |log| :: IsLatest(log, r.history, w) && Shows(r.state, log[w])
  }

  ghost predicate Shows(s: Lww, write: Event<Lww, Value>) {
    s.value == Some(write.op) && s.stamp.replica == write.replica
  }

  /** The main result: every state any node ever held is the latest write of its history exactly when every
      write was guarded. */
  lemma RegisterHoldsLatestIff(steps: seq<Step<Lww, Value>>)
    requires Run(steps).Some?
    ensures var sys := Run(steps).value;
      AllGuarded(sys.log) <==> forall r <- sys.held :: IsCurrent(sys.log, r)
  {
    RunKeepsInv(steps);
    CausalityIffGuarded(steps);
    var sys := Run(steps).value;
    if AllGuarded(sys.log) {
      forall r <- sys.held ensures IsCurrent(sys.log, r) { GuardedIsCurrent(sys, r); }
    }
    if forall r <- sys.held :: IsCurrent(sys.log, r) {
      forall i | 0 <= i < |sys.log| ensures Guarded(sys.log, i) { CurrentIsGuarded(sys, i); }
    }
  }

  lemma GuardedIsCurrent(sys: Sys, r: Replica<Lww>)
    requires Inv(sys) && AllGuarded(sys.log) && RespectsCausality(sys.log) && r in sys.held
    ensures IsCurrent(sys.log, r)
  {
    if r.history != {} {
      var w :| w in r.history && w < |sys.log| && r.state == WriteOf(sys.log, w);
      assert Closed(sys.log, r.history);
      GreatestIsLatest(sys, r, w);
      assert Shows(r.state, sys.log[w]);
    }
  }

  /** A write that did not outrank what it overwrote leaves its own author without a latest write. */
  lemma CurrentIsGuarded(sys: Sys, i: nat)
    requires Inv(sys) && i < |sys.log| && forall r <- sys.held :: IsCurrent(sys.log, r)
    ensures Guarded(sys.log, i)
  {
    var log := sys.log;
    assert Replica(log[i].post, log[i].seen + {i}) in sys.held && Replica(log[i].pre, log[i].seen) in sys.held;
    LatestOutranks(log, i, Replica(log[i].post, log[i].seen + {i}));
  }

  lemma StampRises(log: Log, i: nat, j: nat)
    requires i < |log| && j < |log| && log[i].pre == WriteOf(log, j)
    requires j == i || CmpDot(StampOf(log, j), StampOf(log, i)) == Less
    ensures j != i ==> Guarded(log, i)
  {
    WriteRises(log[i].pre, log[i].replica, log[i].op);
  }

  lemma LatestOutranks(log: Log, i: nat, r: Replica<Lww>)
    requires i < |log| && Holds(log, log[i].pre, log[i].seen)
    requires r.history == log[i].seen + {i} && IsCurrent(log, r)
    ensures Guarded(log, i)
  {
    if log[i].seen != {} {
      var j :| j in log[i].seen && j < |log| && log[i].pre == WriteOf(log, j);
      var w: nat :| w < |log| && IsLatest(log, r.history, w);
      assert i in r.history && w == i && j in r.history;
      StampRises(log, i, j);
    }
  }

  /** So it always is with fewer than 2^64 writes. */
  lemma RegisterHoldsLatest(steps: seq<Step<Lww, Value>>, r: Replica<Lww>)
    requires Run(steps).Some? && |Run(steps).value.log| < 0x1_0000_0000_0000_0000 && r in Run(steps).value.held
    ensures IsCurrent(Run(steps).value.log, r)
  {
    FewWritesAreGuarded(steps);
    RegisterHoldsLatestIff(steps);
  }

  lemma GreatestIsLatest(sys: Sys, r: Replica<Lww>, w: nat)
    requires Causal(sys) && RespectsCausality(sys.log)
    requires Closed(sys.log, r.history) && AtLeastAll(sys.log, r.state, r.history)
    requires w in r.history && w < |sys.log| && r.state == WriteOf(sys.log, w)
    ensures IsLatest(sys.log, r.history, w)
  {
    var log := sys.log;
    forall j <- r.history
      ensures w !in log[j].seen && (j != w ==> CmpDot(StampOf(log, j), StampOf(log, w)) == Less)
    {
      assert CmpLww(WriteOf(log, j), r.state) != Greater;
      CmpDotLaws(StampOf(log, j), StampOf(log, w), StampOf(log, j));
      if j < w && log[j].replica == log[w].replica {
        assert j in log[w].seen;
      }
    }
  }

  /** Equal histories converge on one state. */
  lemma SameHistorySameState(steps: seq<Step<Lww, Value>>, a: Replica<Lww>, b: Replica<Lww>)
    requires Run(steps).Some? && AllGuarded(Run(steps).value.log)
    requires a in Run(steps).value.held && b in Run(steps).value.held && a.history == b.history
    ensures a.state == b.state
  {
    RunKeepsInv(steps);
    var log := Run(steps).value.log;
    if a.history != {} {
      var i :| i in a.history && i < |log| && a.state == WriteOf(log, i);
      var j :| j in b.history && j < |log| && b.state == WriteOf(log, j);
      assert CmpLww(b.state, a.state) != Greater && CmpLww(a.state, b.state) != Greater;
      CmpLwwLaws(a.state, b.state, a.state);
    }
  }

  /** `n` writes by one owner. */
  function Monologue(n: nat, v: Value): seq<Step<Lww, Value>> {
    [Start("A")] + seq(n, _ => Update("A", v))
  }

  lemma {:induction false} MonologueRuns(n: nat, v: Value)
    ensures var run := Run(Monologue(n, v));
      && run.Some? && |run.value.log| == n && "A" in run.value.nodes
      && run.value.nodes["A"].state.stamp.counter == (if n <= MAX_U64 then n else MAX_U64)
      && (n > 0 ==> run.value.nodes["A"].state.stamp.replica == "A")
    decreases n
  {
    var steps := Monologue(n, v);
    if n == 0 {
      assert steps == [Start("A")] && steps[..0] == [];
      assert Run(steps[..0]) == Some(System(map[], [], {}));
    } else {
      MonologueRuns(n - 1, v);
      assert steps[..n] == Monologue(n - 1, v) && steps[n] == Update("A", v);
    }
  }

  /** The bound is tight: the 2^64-th write of one owner no longer rises, so not every state of that run is
      the latest write of its history. */
  lemma TheCeilingIsReached(v: Value)
    ensures var run := Run(Monologue(0x1_0000_0000_0000_0000, v));
      && run.Some? && |run.value.log| == 0x1_0000_0000_0000_0000
      && !Guarded(run.value.log, 0xFFFF_FFFF_FFFF_FFFF)
      && exists r <- run.value.held :: !IsCurrent(run.value.log, r)
  {
    var steps := Monologue(MAX_U64 + 1, v);
    MonologueRuns(MAX_U64, v);
    MonologueRuns(MAX_U64 + 1, v);
    assert steps[..|steps| - 1] == Monologue(MAX_U64, v) && steps[|steps| - 1] == Update("A", v);
    CmpStringLaws("A", "A", "A");
    RegisterHoldsLatestIff(steps);
  }

  /** Once a node has merged the current state of every node, it reads the latest of all writes made. */
  lemma ExchangeReachesAll(steps: seq<Step<Lww, Value>>, id: string, from: seq<Replica<Lww>>)
    requires Run(steps).Some? && |Run(steps).value.log| < 0x1_0000_0000_0000_0000 && id in Run(steps).value.nodes
    requires forall r <- from :: r in Run(steps).value.held
    requires forall n <- Run(steps).value.nodes :: Run(steps).value.nodes[n] in from
    ensures Run(steps + Absorptions(id, from)).Some? && id in Run(steps + Absorptions(id, from)).value.nodes
    ensures var now := Run(steps + Absorptions(id, from)).value;
      && now.log == Run(steps).value.log && now.nodes[id].history == AllUpdates(now.log)
      && IsCurrent(now.log, now.nodes[id])
  {
    HearsAll(REGISTERS, steps, id, from);
    RegisterHoldsLatest(steps + Absorptions(id, from), Run(steps + Absorptions(id, from)).value.nodes[id]);
  }
}
