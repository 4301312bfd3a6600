/** The encrypted form of a shared signal: the same cell and the same drain, over the payloads of an
    encrypted group. */
module EncryptedSignals {
  import opened EncryptedGroups
  import opened GroupPolling
  import opened Lattice
  import opened PollRuns
  import opened SyncedSignals
  import opened Wrappers

  // ---- Polls in a row ----

  /** One stretch of messages and then another. */
  function Then<G, D>(p: Progress<G, D>, q: Progress<G, D>): Progress<G, D> {
    Progress(q.group, p.surfaced + q.surfaced, p.answers + q.answers, p.fine && q.fine)
  }

  /** Taking messages in two stretches is taking them in one. */
  lemma {:induction false} Resumes<G, W, D>(receive: Receiver<G, W, D>, g: G, queue: seq<W>, n: nat,
                                            p: Progress<G, D>, rest: seq<W>, m: nat)
    requires n <= |queue| && p == Along(receive, g, queue, n) && rest == queue[n..] && m <= |rest|
    ensures Along(receive, g, queue, n + m) == Then(p, Along(receive, p.group, rest, m))
    decreases m
  {
    if m == 0 {
      assert p.surfaced + [] == p.surfaced && p.answers + [] == p.answers;
    } else {
      Resumes(receive, g, queue, n, p, rest, m - 1);
      var q := Along(receive, p.group, rest, m - 1);
      OneMoreThen(p, q, receive(q.group, rest[m - 1]));
    }
  }

  lemma OneMoreThen<G, D>(p: Progress<G, D>, q: Progress<G, D>, reaction: (G, Outcome<Output<D>>))
    ensures OneMore(Then(p, q), reaction) == Then(p, OneMore(q, reaction))
  {
  }

  /** A drain has the payloads `got`: everything that waited and that the messages came to, but what still
      waits. */
  ghost predicate Drained<G, D>(e: Entry<G, D>, p: Progress<G, D>, got: seq<D>, now: Entry<G, D>) {
    now.group == p.group && e.inbox + p.surfaced == got + now.inbox
  }

  /** How a drain failed: an answer to the last message was refused, and then what it decrypted to waits; or
      it failed itself, first of all, and nothing waits. */
  ghost predicate FailedIn<G, D>(before: Progress<G, D>, p: Progress<G, D>, aired: seq<Op<D>>, inbox: seq<D>) {
    if aired != p.answers then p.fine else before.fine && !p.fine && inbox == []
  }

  /** One more poll adds its payload, if it hands one back. */
  lemma PollDrains<G, D>(e: Entry<G, D>, p: Progress<G, D>, got: seq<D>, now: Entry<G, D>, n: nat, total: nat,
                         before: Progress<G, D>, q: Progress<G, D>, cut: bool, r: Outcome<Option<D>>,
                         after: Entry<G, D>)
    requires Drained(e, p, got, now) && Polled(now, n, total, before, q, cut, r, after)
    ensures Drained(e, Then(p, q), got + Handed(r), after)
    ensures Handed(r) != [] && n == 0 && q.surfaced == [] ==> |after.inbox| < |now.inbox|
  {
    assert e.inbox + (p.surfaced + q.surfaced) == e.inbox + p.surfaced + q.surfaced;
    assert got + now.inbox + q.surfaced == got + (now.inbox + q.surfaced);
    assert got + Handed(r) + after.inbox == got + (Handed(r) + after.inbox);
  }

  /** Its answers get out as far as they do. */
  lemma PollAnswers<G, D>(p: Progress<G, D>, n: nat, total: nat, now: Entry<G, D>, before: Progress<G, D>,
                          q: Progress<G, D>, r: Outcome<Option<D>>, after: Entry<G, D>, refuses: nat -> bool,
                          from: nat, aired: seq<Op<D>>)
    requires p.fine && Accepts(refuses, from, |p.answers|) && Aired(refuses, from + |p.answers|, q.answers, aired)
    requires Polled(now, n, total, before, q, aired != q.answers, r, after)
    ensures Aired(refuses, from, Then(p, q).answers, p.answers + aired)
    ensures Tries(Then(p, q).answers, p.answers + aired) == |p.answers| + Tries(q.answers, aired)
    ensures r.Ok? ==> Then(p, q).fine && p.answers + aired == Then(p, q).answers
    ensures r.Err? ==> n > 0 && FailedIn(Then(p, before), Then(p, q), p.answers + aired, after.inbox)
  {
    AiredOn(refuses, from, p.answers, q.answers, aired);
  }

  lemma RestOfRest<T>(s: seq<T>, n: nat, k: nat)
    requires n + k <= |s|
    ensures s[n..][k..] == s[n + k..]
  {
  }

  /** What the messages up to the end of the second stretch, and before its last, came to. */
  lemma StretchEnds<G, W, D>(receive: Receiver<G, W, D>, g: G, queue: seq<W>, n: nat, p: Progress<G, D>, rest: seq<W>,
                             k: nat)
    requires n <= |queue| && p == Along(receive, g, queue, n) && rest == queue[n..] && k <= |rest|
    ensures Along(receive, g, queue, n + k) == Then(p, Along(receive, p.group, rest, k))
    ensures k > 0 ==> Before(receive, g, queue, n + k) == Then(p, Before(receive, p.group, rest, k))
    ensures rest[k..] == queue[n + k..]
  {
    Resumes(receive, g, queue, n, p, rest, k);
    RestOfRest(queue, n, k);
    if k > 0 { Resumes(receive, g, queue, n, p, rest, k - 1); }
  }

  /** A drain that has taken `n` messages, which came to `p`, and of whose answers `aired` got out. */
  ghost predicate At<G, W, D>(receive: Receiver<G, W, D>, refuses: nat -> bool, e: Entry<G, D>, queue: seq<W>,
                              from: nat, n: nat, p: Progress<G, D>, got: seq<D>, aired: seq<Op<D>>, now: Entry<G, D>)
  {
    && n <= |queue| && p == Along(receive, e.group, queue, n)
    && Drained(e, p, got, now) && Aired(refuses, from, p.answers, aired)
  }

  /** How one more poll, of the messages `rest`, leaves it. */
  ghost predicate Advanced<G, D>(was: Entry<G, D>, k: nat, rest: nat, before: Progress<G, D>, p: Progress<G, D>,
                                 aired: seq<Op<D>>, r: Outcome<Option<D>>, after: Entry<G, D>)
  {
    && (r.Ok? ==> p.fine && aired == p.answers)
    && (r == Ok(None) ==> k == rest && after.inbox == [])
    && (r.Err? ==> k > 0 && FailedIn(before, p, aired, after.inbox))
    && (r.Ok? && r.value.Some? ==> k > 0 || |after.inbox| < |was.inbox|)
  }

  lemma PollAdvances<G, D>(e: Entry<G, D>, p: Progress<G, D>, got: seq<D>, was: Entry<G, D>, k: nat, rest: nat,
                           before: Progress<G, D>, q: Progress<G, D>, r: Outcome<Option<D>>, after: Entry<G, D>,
                           refuses: nat -> bool, from: nat, aired: seq<Op<D>>)
    requires Drained(e, p, got, was) && Polled(was, k, rest, before, q, aired != q.answers, r, after)
    requires p.fine && Accepts(refuses, from, |p.answers|) && Aired(refuses, from + |p.answers|, q.answers, aired)
    requires k == 0 ==> q.surfaced == []
    ensures Drained(e, Then(p, q), got + Handed(r), after)
    ensures Aired(refuses, from, Then(p, q).answers, p.answers + aired)
    ensures Tries(Then(p, q).answers, p.answers + aired) == |p.answers| + Tries(q.answers, aired)
    ensures Advanced(was, k, rest, Then(p, before), Then(p, q), p.answers + aired, r, after)
  {
    PollDrains(e, p, got, was, k, rest, before, q, aired != q.answers, r, after);
    PollAnswers(p, k, rest, was, before, q, r, after, refuses, from, aired);
  }

  /** One more poll of a drain, all told. */
  lemma AddPoll<G, W, D>(receive: Receiver<G, W, D>, refuses: nat -> bool, e: Entry<G, D>, queue: seq<W>, from: nat,
                         n: nat, p: Progress<G, D>, got: seq<D>, was: Entry<G, D>, rest: seq<W>, k: nat,
                         more: seq<Op<D>>, msg: Outcome<Option<D>>, after: Entry<G, D>)
      returns (now: Progress<G, D>)
    requires At(receive, refuses, e, queue, from, n, p, got, p.answers, was) && p.fine
    requires rest == queue[n..] && k <= |rest|
    requires Aired(refuses, from + |p.answers|, Answers(receive, was.group, rest, k), more)
    requires PolledExactly(receive, was, rest, k, more != Answers(receive, was.group, rest, k), msg, after)
    ensures At(receive, refuses, e, queue, from, n + k, now, got + Handed(msg), p.answers + more, after)
    ensures Tries(now.answers, p.answers + more) == |p.answers| + Tries(Answers(receive, was.group, rest, k), more)
    ensures Advanced(was, k, |rest|, Before(receive, e.group, queue, n + k), now, p.answers + more, msg, after)
    ensures rest[k..] == queue[n + k..]
  {
    var q, before := Along(receive, was.group, rest, k), Before(receive, was.group, rest, k);
    now := Then(p, q);
    StretchEnds(receive, e.group, queue, n, p, rest, k);
    PollAdvances(e, p, got, was, k, |rest|, before, q, msg, after, refuses, from, more);
  }

  class EncryptedSignal<!G, !W, S(==, !new), B> {
    const codec: Codec<S, B>
    const node: GroupNode<G, W, B>
    const topic: string
    const sub: nat
    var cell: S
    var wakes: nat

    ghost predicate Valid()
      reads this, node
    {
      Lawful(codec) && node.Valid() && sub in node.groupSubs && node.groupSubs[sub] == topic && topic in node.groups
    }

    constructor (codec: Codec<S, B>, node: GroupNode<G, W, B>, topic: string, sub: nat, initial: S)
      ensures this.codec == codec && this.node == node && this.topic == topic && this.sub == sub
      ensures cell == initial && wakes == 0
    {
      this.codec, this.node, this.topic, this.sub := codec, node, topic, sub;
      cell, wakes := initial, 0;
    }

    /** Open the group on the topic, announce the initial state through it, retain it. Opening, subscribing and
        announcing may fail; a failed announcement leaves the group open without a signal. */
    static method Create(codec: Codec<S, B>, node: GroupNode<G, W, B>, topic: string,
                         opening: Outcome<(G, seq<Op<B>>)>, subscribes: bool, initial: S, f: Faults)
        returns (r: Outcome<EncryptedSignal<G, W, S, B>>, ghost aired: seq<Op<B>>, ghost told: seq<Op<B>>)
      requires Lawful(codec) && node.Valid()
      modifies node
      ensures node.Valid()
      ensures r.Ok? ==>
        var signal := r.value;
        && fresh(signal) && signal.codec == codec && signal.node == node && signal.topic == topic && signal.Valid()
        && signal.cell == initial && signal.wakes == 0
        && signal.sub !in old(node.groupSubs) && node.Queue(signal.sub) == []
      ensures opening.Err? || !subscribes ==>
        && r.Err? && node.groups == old(node.groups) && node.groupSubs == old(node.groupSubs)
        && node.broadcast == old(node.broadcast)
      ensures opening.Ok? && subscribes ==>
        var (group, ops) := opening.value;
        var (g1, out) := node.publish(group, codec.encode(initial), f);
        var announces := if out.Ok? then out.value else [];
        && Aired(node.refuses, old(node.attempts), ops, aired)
        && (aired != ops ==>
              r.Err? && node.groups == old(node.groups) && node.broadcast == old(node.broadcast) + aired)
        && (aired == ops ==>
              && node.groups == old(node.groups)[topic := Entry(g1, [])]
              && Aired(node.refuses, old(node.attempts) + |ops|, announces, told)
              && node.broadcast == old(node.broadcast) + ops + told
              && r.Ok? == (out.Ok? && told == announces))
    {
      told := [];
      var opens;
      opens, aired := node.GroupOpen(topic, opening, subscribes);
      if opens.Err? { return Err, aired, []; }
      label Opens:
      var done;
      done, told := node.GroupPublish(topic, codec.encode(initial), f);
      assert node.groups == old(node.groups)[topic := node.groups[topic]];
      if done.Err? { return Err, aired, told; }
      var signal := new EncryptedSignal<G, W, S, B>(codec, node, topic, opens.value, initial);
      r := Ok(signal);
    }

    /** Local converge, wake, and hand the new state to the group. Without an open group, or when encrypting
        or broadcasting fails, that fails and leaves the cell converged. */
    method Merge(delta: S, f: Faults) returns (done: Outcome<()>, ghost aired: seq<Op<B>>)
      requires Lawful(codec)
      modifies this, node`groups, node`broadcast, node`attempts
      ensures cell == codec.join(old(cell), delta) && wakes == old(wakes) + 1
      ensures topic !in old(node.groups) ==>
        done.Err? && node.groups == old(node.groups) && node.broadcast == old(node.broadcast)
      ensures topic in old(node.groups) ==>
        var (g1, out) := node.publish(old(node.groups)[topic].group, codec.encode(cell), f);
        var ops := if out.Ok? then out.value else [];
        && OnlyTopic(topic, old(node.groups), node.groups)
        && node.groups[topic] == Entry(g1, old(node.groups)[topic].inbox)
        && Aired(node.refuses, old(node.attempts), ops, aired) && node.broadcast == old(node.broadcast) + aired
        && done.Ok? == (out.Ok? && aired == ops)
    {
      var merged := codec.join(cell, delta);
      var bytes := codec.encode(merged);
      cell := merged;
      wakes := wakes + 1;
      done, aired := node.GroupPublish(topic, bytes, f);
    }

    /** A drain that began with the entry `e`, the messages `queue` and the broadcasts `sent`, its first attempt
        to publish being `from`, has taken `n` messages, which came to `p`, and the payloads `got`; and of the
        answers `aired` got out. */
    ghost predicate Stands(e: Entry<G, B>, queue: seq<W>, sent: seq<Op<B>>, from: nat, n: nat, p: Progress<G, B>,
                           got: seq<B>, aired: seq<Op<B>>)
      reads this, node
    {
      && topic in node.groups
      && At(node.receive, node.refuses, e, queue, from, n, p, got, aired, node.groups[topic])
      && node.Queue(sub) == queue[n..]
      && node.broadcast == sent + aired && node.attempts == from + Tries(p.answers, aired)
    }

    /** One poll of a drain whose answers all got out so far: it takes `k` messages more. */
    method PollOnce(ghost e: Entry<G, B>, ghost queue: seq<W>, ghost sent: seq<Op<B>>, ghost from: nat, ghost n: nat,
                    ghost p: Progress<G, B>, ghost got: seq<B>)
        returns (msg: Outcome<Option<B>>, ghost k: nat, ghost now: Progress<G, B>, ghost more: seq<Op<B>>)
      requires Valid() && Stands(e, queue, sent, from, n, p, got, p.answers) && p.fine
      modifies node`groups, node`queues, node`broadcast, node`attempts
      ensures Valid() && OnlyTopic(topic, old(node.groups), node.groups)
      ensures Stands(e, queue, sent, from, n + k, now, got + Handed(msg), p.answers + more)
      ensures Advanced(old(node.groups)[topic], k, |queue| - n, Before(node.receive, e.group, queue, n + k), now,
                       p.answers + more, msg, node.groups[topic])
    {
      ghost var was, rest := node.groups[topic], queue[n..];
      msg, k, more := node.GroupPoll(sub);
      now := AddPoll(node.receive, node.refuses, e, queue, from, n, p, got, was, rest, k, more, msg, node.groups[topic]);
      AiredAfter(sent, p.answers, more);
    }

    /** The same, by where it leads. */
    method PollMore(ghost e: Entry<G, B>, ghost queue: seq<W>, ghost sent: seq<Op<B>>, ghost from: nat, ghost n: nat,
                    ghost p: Progress<G, B>, ghost got: seq<B>)
        returns (msg: Outcome<Option<B>>, ghost m: nat, ghost now: Progress<G, B>, ghost aired: seq<Op<B>>)
      requires Valid() && Stands(e, queue, sent, from, n, p, got, p.answers) && p.fine
      modifies node`groups, node`queues, node`broadcast, node`attempts
      ensures Valid() && OnlyTopic(topic, old(node.groups), node.groups)
      ensures n <= m && Stands(e, queue, sent, from, m, now, got + Handed(msg), aired)
      ensures Advanced(old(node.groups)[topic], m - n, |queue| - n, Before(node.receive, e.group, queue, m), now, aired,
                       msg, node.groups[topic])
    {
      ghost var k, more;
      msg, k, now, more := PollOnce(e, queue, sent, from, n, p, got);
      m, aired := n + k, p.answers + more;
    }

    /** Drain the group: everything that waits and that the pending messages decrypt to is merged in, in
        order, up to the message that fails or has an answer refused, if one does. Dependents are woken once
        if and only if nothing failed and the value ended up different: a failed drain keeps what it merged
        and wakes nobody. */
    method Sync()
        returns (done: Outcome<()>, ghost n: nat, ghost p: Progress<G, B>, ghost got: seq<B>, ghost aired: seq<Op<B>>)
      requires Valid()
      modifies this, node`groups, node`queues, node`broadcast, node`attempts
      ensures Valid()
      ensures OnlyTopic(topic, old(node.groups), node.groups)
      ensures
        var e := old(node.groups)[topic];
        var queue := old(node.Queue(sub));
        && Stands(e, queue, old(node.broadcast), old(node.attempts), n, p, got, aired)
        && (if done.Ok? then n == |queue| && p.fine && aired == p.answers && node.groups[topic].inbox == []
            else n > 0 && FailedIn(Before(node.receive, e.group, queue, n), p, aired, node.groups[topic].inbox))
      ensures cell == Drain(codec, old(cell), got)
      ensures wakes == old(wakes) + if done.Ok? && cell != old(cell) then 1 else 0
    {
      ghost var e, queue, start := node.groups[topic], node.Queue(sub), cell;
      ghost var sent, from := node.broadcast, node.attempts;
      var changed := false;
      n, p, got, aired := 0, Along(node.receive, e.group, queue, 0), [], [];
      assert Idempotent(codec.join, cell);
      while true
        invariant Valid() && wakes == old(wakes)
        invariant OnlyTopic(topic, old(node.groups), node.groups)
        invariant Stands(e, queue, sent, from, n, p, got, aired) && p.fine && aired == p.answers
        invariant cell == Drain(codec, start, got) && Below(codec.join, start, cell)
        invariant changed <==> cell != start
        decreases |queue| - n, |node.groups[topic].inbox|
      {
        var msg;
        msg, n, p, aired := PollMore(e, queue, sent, from, n, p, got);
        assert got + [] == got;
        if msg.Err? { return Err, n, p, got, aired; }
        if msg.value.None? { break; }
        var bytes := msg.value.value;
        ChangesAddUp(codec, start, got, bytes);
        got := got + [bytes];
        var merged := MergePeerBytes(codec, cell, bytes);
        if merged.Some? && cell != merged.value {
          cell := merged.value;
          changed := true;
        }
      }
      if changed { wakes := wakes + 1; }
      done := Ok(());
    }
  }

  /** Bytes that are no operation, after two payloads: a drain merges both, fails, and wakes nobody, though
      the value is another one; and nothing is left for a later drain to wake anybody for. */
  lemma AFailedDrainIsSilent<S(!new)>(codec: Codec<S, string>, start: S)
    requires Lawful(codec) && Drain(codec, start, ["a", "b"]) != start
    ensures
      var queue := HISTORY + [(Garbage, FAULTLESS)];
      && |queue| == 7 && FailedAt(GROUP.receive, MEMBER, queue, 7)
      && Drain(codec, start, Surfaces(GROUP.receive, MEMBER, queue, 7)) != start
  {
    var queue := HISTORY + [(Garbage, FAULTLESS)];
    HistorySurfaces(queue);
    assert ["a", "b"] + [] == ["a", "b"];
    assert Surfaces(GROUP.receive, MEMBER, queue, 7) == Surfaces(GROUP.receive, MEMBER, queue, 6) + [];
  }
}
