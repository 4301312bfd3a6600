/** Publishing to an encrypted group and reading its decrypted payloads, one per call. The node needs
    nothing of the group but its `receive` and its `publish`, so the group is a parameter here. */
module GroupPolling {
  import opened EncryptedGroups
  import opened Wrappers

  /** A state machine's reaction to one raw message. */
  type Receiver<!G, !W, D> = (G, W) -> (G, Outcome<Output<D>>)

  /** One topic's group and the payloads it has decrypted but not yet handed back. */
  datatype Entry<+G, +D> = Entry(group: G, inbox: seq<D>)

  function Decrypted<D>(o: Outcome<Output<D>>): seq<D> {
    if o.Ok? then o.value.decrypted else []
  }

  /** What the first `n` messages of `queue`, taken in order, come to: the group they leave, everything they
      decrypt to and make the group broadcast, in order, and whether none of them fails. */
  datatype Progress<+G, +D> = Progress(group: G, surfaced: seq<D>, answers: seq<Op<D>>, fine: bool)

  function Along<G, W, D>(receive: Receiver<G, W, D>, g: G, queue: seq<W>, n: nat): Progress<G, D>
    requires n <= |queue|
  {
    if n == 0 then Progress(g, [], [], true)
    else
      var p := Along(receive, g, queue, n - 1);
      OneMore(p, receive(p.group, queue[n - 1]))
  }

  function OneMore<G, D>(p: Progress<G, D>, reaction: (G, Outcome<Output<D>>)): Progress<G, D> {
    var (g1, out) := reaction;
    Progress(g1, p.surfaced + Decrypted(out), p.answers + Sends(out), p.fine && out.Ok?)
  }

  function After<G, W, D>(receive: Receiver<G, W, D>, g: G, queue: seq<W>, n: nat): G
    requires n <= |queue|
  {
    Along(receive, g, queue, n).group
  }

  function Surfaces<G, W, D>(receive: Receiver<G, W, D>, g: G, queue: seq<W>, n: nat): seq<D>
    requires n <= |queue|
  {
    Along(receive, g, queue, n).surfaced
  }

  function Answers<G, W, D>(receive: Receiver<G, W, D>, g: G, queue: seq<W>, n: nat): seq<Op<D>>
    requires n <= |queue|
  {
    Along(receive, g, queue, n).answers
  }

  predicate Fine<G, W, D>(receive: Receiver<G, W, D>, g: G, queue: seq<W>, n: nat)
    requires n <= |queue|
  {
    Along(receive, g, queue, n).fine
  }

  /** What they came to before the last of them. */
  function Before<G, W, D>(receive: Receiver<G, W, D>, g: G, queue: seq<W>, n: nat): Progress<G, D>
    requires n <= |queue|
  {
    Along(receive, g, queue, if n > 0 then n - 1 else 0)
  }

  /** The last of the first `n` messages fails, and none before it. */
  predicate FailedAt<G, W, D>(receive: Receiver<G, W, D>, g: G, queue: seq<W>, n: nat)
    requires n <= |queue|
  {
    Before(receive, g, queue, n).fine && !Fine(receive, g, queue, n)
  }

  function Handed<D>(r: Outcome<Option<D>>): seq<D> {
    if r.Ok? && r.value.Some? then [r.value.value] else []
  }

  /** What one poll that took `n` messages off `queue` did: the waiting payloads and everything the
      messages decrypted to are the payload handed back and the ones still waiting, in order. It took
      no more than it needed: nothing surfaced before the last message taken. It failed exactly when that
      message did, with nothing left waiting, or when the transport refused an answer to it, which is `cut`
      and leaves what it decrypted to waiting. */
  ghost predicate PolledExactly<G, W, D>(receive: Receiver<G, W, D>, e: Entry<G, D>, queue: seq<W>, n: nat,
                                         cut: bool, r: Outcome<Option<D>>, after: Entry<G, D>)
  {
    && n <= |queue|
    && Polled(e, n, |queue|, Before(receive, e.group, queue, n), Along(receive, e.group, queue, n), cut, r, after)
  }

  /** The same of what those messages came to, and what they came to before the last. */
  ghost predicate Polled<G, D>(e: Entry<G, D>, n: nat, total: nat, before: Progress<G, D>, p: Progress<G, D>,
                               cut: bool, r: Outcome<Option<D>>, after: Entry<G, D>)
  {
    && after.group == p.group
    && e.inbox + p.surfaced == Handed(r) + after.inbox
    && (n > 0 ==> e.inbox == [] && before.surfaced == [])
    && (r == Ok(None) ==> n == total && after.inbox == [])
    && (if r.Ok? then !cut && p.fine
        else if cut then n > 0 && p.fine
        else n > 0 && before.fine && !p.fine && after.inbox == [])
  }

  /** The transport takes these attempts to publish. */
  ghost predicate Accepts(refuses: nat -> bool, from: nat, count: nat) {
    forall i | from <= i < from + count :: !refuses(i)
  }

  /** Publishing `ops` one by one, from attempt `from` on, stops at the first refusal; `aired` got out. */
  ghost predicate Aired<D>(refuses: nat -> bool, from: nat, ops: seq<Op<D>>, aired: seq<Op<D>>) {
    && aired <= ops && Accepts(refuses, from, |aired|)
    && (aired != ops ==> refuses(from + |aired|))
  }

  /** The attempts that makes. */
  function Tries<D>(ops: seq<Op<D>>, aired: seq<Op<D>>): nat {
    if |aired| < |ops| then |aired| + 1 else |aired|
  }

  /** All get out exactly if the transport takes as many attempts as there are operations. */
  lemma AiredIff<D>(refuses: nat -> bool, from: nat, ops: seq<Op<D>>, aired: seq<Op<D>>)
    requires Aired(refuses, from, ops, aired)
    ensures aired == ops <==> Accepts(refuses, from, |ops|)
  {
    if aired != ops {
      assert |aired| < |ops|;
    }
  }

  lemma AiredOn<D>(refuses: nat -> bool, from: nat, ops: seq<Op<D>>, more: seq<Op<D>>, aired: seq<Op<D>>)
    requires Accepts(refuses, from, |ops|) && Aired(refuses, from + |ops|, more, aired)
    ensures Aired(refuses, from, ops + more, ops + aired)
    ensures ops + aired == ops + more <==> aired == more
  {
    assert ops + more == ops + aired + more[|aired|..];
    assert (ops + aired)[|ops|..] == aired && (ops + more)[|ops|..] == more;
  }

  /** Only the entry of `topic` may differ. */
  ghost predicate OnlyTopic<G, D>(topic: string, before: map<string, Entry<G, D>>, after: map<string, Entry<G, D>>) {
    && topic in before && after.Keys == before.Keys
    && forall t <- before :: t != topic ==> after[t] == before[t]
  }

  /** Where a poll of `e` stands after taking `n` messages. */
  ghost predicate Midway<G, W, D>(receive: Receiver<G, W, D>, e: Entry<G, D>, queue: seq<W>, n: nat, cur: Entry<G, D>)
  {
    && n <= |queue|
    && Halfway(e, n, Before(receive, e.group, queue, n), Along(receive, e.group, queue, n), cur)
  }

  /** The same of what those messages came to. */
  ghost predicate Halfway<G, D>(e: Entry<G, D>, n: nat, before: Progress<G, D>, p: Progress<G, D>, cur: Entry<G, D>) {
    && p.fine && cur == Entry(p.group, e.inbox + p.surfaced)
    && (n > 0 ==> e.inbox == [] && before.surfaced == [])
  }

  lemma PaysOut<G, D>(e: Entry<G, D>, n: nat, total: nat, before: Progress<G, D>, p: Progress<G, D>, cur: Entry<G, D>)
    requires Halfway(e, n, before, p, cur)
    ensures cur.inbox != [] ==>
      Polled(e, n, total, before, p, false, Ok(Some(cur.inbox[0])), cur.(inbox := cur.inbox[1..]))
    ensures cur.inbox == [] && n == total ==> Polled(e, n, total, before, p, false, Ok(None), cur)
    ensures n > 0 ==> Polled(e, n, total, before, p, true, Err, cur)
  {
    assert [] + cur.inbox == cur.inbox;
    if cur.inbox != [] {
      var r: Outcome<Option<D>> := Ok(Some(cur.inbox[0]));
      assert Handed(r) + cur.inbox[1..] == cur.inbox;
    }
  }

  /** The next message, when nothing waits: its answers get out as far as `aired`. */
  lemma TakesAnother<G, D>(e: Entry<G, D>, n: nat, total: nat, before: Progress<G, D>, p: Progress<G, D>,
                           cur: Entry<G, D>, reaction: (G, Outcome<Output<D>>), refuses: nat -> bool, from: nat,
                           aired: seq<Op<D>>)
    requires Halfway(e, n, before, p, cur) && cur.inbox == []
    requires Accepts(refuses, from, |p.answers|) && Aired(refuses, from + |p.answers|, Sends(reaction.1), aired)
    ensures
      var after := Entry(reaction.0, cur.inbox + Decrypted(reaction.1));
      var now, all := OneMore(p, reaction), p.answers + aired;
      && Aired(refuses, from, now.answers, all)
      && (all == now.answers <==> aired == Sends(reaction.1))
      && Tries(now.answers, all) == |p.answers| + Tries(Sends(reaction.1), aired)
      && (reaction.1.Ok? && all == now.answers ==> Halfway(e, n + 1, p, now, after))
      && (reaction.1.Err? || all != now.answers ==>
            Polled(e, n + 1, total, p, now, all != now.answers, Err, after))
  {
    var after, now := Entry(reaction.0, cur.inbox + Decrypted(reaction.1)), OneMore(p, reaction);
    AiredOn(refuses, from, p.answers, Sends(reaction.1), aired);
    assert e.inbox == [] && p.surfaced == [];
    if reaction.1.Ok? {
      assert Halfway(e, n + 1, p, now, after);
      PaysOut(e, n + 1, total, p, now, after);
    } else {
      assert Sends(reaction.1) == [] && aired == [];
      assert p.answers + [] == p.answers;
    }
  }

  /** One turn of a poll, all told. */
  lemma TurnOf<G, W, D>(receive: Receiver<G, W, D>, e: Entry<G, D>, queue: seq<W>, n: nat, cur: Entry<G, D>,
                        refuses: nat -> bool, from: nat, aired: seq<Op<D>>)
    requires Midway(receive, e, queue, n, cur) && cur.inbox == [] && n < |queue|
    requires Accepts(refuses, from, |Answers(receive, e.group, queue, n)|)
    requires Aired(refuses, from + |Answers(receive, e.group, queue, n)|, Sends(receive(cur.group, queue[n]).1), aired)
    ensures
      var (g1, out) := receive(cur.group, queue[n]);
      var after := Entry(g1, cur.inbox + Decrypted(out));
      var answers, all := Answers(receive, e.group, queue, n + 1), Answers(receive, e.group, queue, n) + aired;
      && Aired(refuses, from, answers, all)
      && Tries(answers, all) == |Answers(receive, e.group, queue, n)| + Tries(Sends(out), aired)
      && (out.Ok? && aired == Sends(out) ==> all == answers && Midway(receive, e, queue, n + 1, after))
      && (out.Err? || aired != Sends(out) ==> PolledExactly(receive, e, queue, n + 1, all != answers, Err, after))
  {
    TakesAnother(e, n, |queue|, Before(receive, e.group, queue, n), Along(receive, e.group, queue, n), cur,
                 receive(cur.group, queue[n]), refuses, from, aired);
  }

  lemma AiredAfter<D>(sent: seq<D>, before: seq<D>, more: seq<D>)
    ensures sent + before + more == sent + (before + more)
  {
  }

  /** The node's groups. A group may fail in any reaction or publication, and the transport may refuse any
      attempt to publish an operation. */
  class GroupNode<!G, !W, D> {
    const receive: Receiver<G, W, D>
    const publish: (G, D, Faults) -> (G, Outcome<seq<Op<D>>>)
    const refuses: nat -> bool
    var attempts: nat
    var nextSub: nat
    var groupSubs: map<nat, string>
    var groups: map<string, Entry<G, D>>
    var queues: map<nat, seq<W>>
    var broadcast: seq<Op<D>>

    constructor (receive: Receiver<G, W, D>, publish: (G, D, Faults) -> (G, Outcome<seq<Op<D>>>), refuses: nat -> bool)
      ensures this.receive == receive && this.publish == publish && this.refuses == refuses
      ensures groupSubs == map[] && groups == map[] && queues == map[] && broadcast == [] && Valid()
    {
      this.receive := receive;
      this.publish := publish;
      this.refuses := refuses;
      attempts, nextSub, groupSubs, groups, queues, broadcast := 0, 0, map[], map[], map[], [];
    }

    /** Subscription ids are handed out once. */
    ghost predicate Valid()
      reads this
    {
      forall sub <- groupSubs :: sub < nextSub
    }

    /** Publish operations one by one, up to the first the transport refuses. */
    method PublishAll(ops: seq<Op<D>>) returns (all: bool, ghost aired: seq<Op<D>>)
      modifies this`broadcast, this`attempts
      ensures Aired(refuses, old(attempts), ops, aired) && all == (aired == ops)
      ensures broadcast == old(broadcast) + aired && attempts == old(attempts) + Tries(ops, aired)
    {
      for i := 0 to |ops|
        invariant Accepts(refuses, old(attempts), i) && attempts == old(attempts) + i
        invariant broadcast == old(broadcast) + ops[..i]
      {
        attempts := attempts + 1;
        if refuses(attempts - 1) { return false, ops[..i]; }
        broadcast := broadcast + [ops[i]];
      }
      assert ops[..|ops|] == ops;
      return true, ops;
    }

    /** Open a group: it may fail, and so may the subscription. What opening it sends is broadcast, and if all
        of that is taken the group is installed over any of that topic, whose old subscriptions stay. */
    method GroupOpen(topic: string, opening: Outcome<(G, seq<Op<D>>)>, subscribes: bool)
        returns (sub: Outcome<nat>, ghost aired: seq<Op<D>>)
      requires Valid()
      modifies this
      ensures Valid()
      ensures opening.Err? || !subscribes ==>
        && sub.Err? && groups == old(groups) && groupSubs == old(groupSubs) && queues == old(queues)
        && broadcast == old(broadcast) && attempts == old(attempts)
      ensures opening.Ok? && subscribes ==>
        var (group, ops) := opening.value;
        && Aired(refuses, old(attempts), ops, aired)
        && broadcast == old(broadcast) + aired && attempts == old(attempts) + Tries(ops, aired)
        && sub.Ok? == (aired == ops)
        && groups == (if sub.Ok? then old(groups)[topic := Entry(group, [])] else old(groups))
        && queues == old(queues)[old(nextSub) := []]
        && groupSubs == (if sub.Ok? then old(groupSubs)[sub.value := topic] else old(groupSubs))
      ensures sub.Ok? ==> sub.value == old(nextSub) && sub.value !in old(groupSubs)
    {
      aired := [];
      if opening.Err? || !subscribes { return Err, []; }
      var (group, toSend) := opening.value;
      var id := nextSub;
      nextSub := nextSub + 1;
      queues := queues[id := []];
      var all;
      all, aired := PublishAll(toSend);
      if !all { return Err, aired; }
      groups := groups[topic := Entry(group, [])];
      groupSubs := groupSubs[id := topic];
      sub := Ok(id);
    }

    function Queue(sub: nat): seq<W>
      reads this
    {
      if sub in queues then queues[sub] else []
    }

    /** The next raw message, or nothing: never blocks. */
    method PollSub(sub: nat) returns (raw: Option<W>)
      modifies this`queues
      ensures |old(Queue(sub))| == 0 ==> raw.None? && queues == old(queues)
      ensures |old(Queue(sub))| > 0 ==>
        raw.Some? && [raw.value] == old(Queue(sub))[..1] && queues == old(queues)[sub := old(Queue(sub))[1..]]
    {
      if sub !in queues || |queues[sub]| == 0 { return None; }
      raw := Some(queues[sub][0]);
      queues := queues[sub := queues[sub][1..]];
    }

    /** The next decrypted payload, or nothing once the subscription has run dry; control operations
        are answered on the way. */
    method GroupPoll(sub: nat)
        returns (r: Outcome<Option<D>>, ghost n: nat, ghost aired: seq<Op<D>>)
      modifies this`groups, this`queues, this`broadcast, this`attempts
      ensures sub !in groupSubs ==>
        && r == Ok(None) && groups == old(groups) && queues == old(queues)
        && broadcast == old(broadcast) && attempts == old(attempts)
      ensures sub in groupSubs && groupSubs[sub] !in old(groups) ==>
        && groups == old(groups) && broadcast == old(broadcast) && attempts == old(attempts)
        && r == (if old(Queue(sub)) == [] then Ok(None) else Err)
        && (old(Queue(sub)) != [] ==> Queue(sub) == old(Queue(sub))[1..])
      ensures sub in groupSubs && groupSubs[sub] in old(groups) ==>
        var topic := groupSubs[sub];
        && OnlyTopic(topic, old(groups), groups) && n <= |old(Queue(sub))|
        && Queue(sub) == old(Queue(sub))[n..]
        && var answers := Answers(receive, old(groups)[topic].group, old(Queue(sub)), n);
        && Aired(refuses, old(attempts), answers, aired)
        && broadcast == old(broadcast) + aired && attempts == old(attempts) + Tries(answers, aired)
        && PolledExactly(receive, old(groups)[topic], old(Queue(sub)), n, aired != answers, r, groups[topic])
    {
      n, aired := 0, [];
      if sub !in groupSubs { return Ok(None), 0, []; }
      var topic := groupSubs[sub];
      if topic !in groups {
        var raw := PollSub(sub);
        return if raw.None? then Ok(None) else Err, 0, [];
      }
      r, n, aired := PollOpen(sub, topic);
    }

    /** Broadcast what the topic's group makes of `data`; what waits to be read stays. */
    method GroupPublish(topic: string, data: D, f: Faults) returns (done: Outcome<()>, ghost aired: seq<Op<D>>)
      modifies this`groups, this`broadcast, this`attempts
      ensures topic !in old(groups) ==>
        done.Err? && groups == old(groups) && broadcast == old(broadcast) && attempts == old(attempts)
      ensures topic in old(groups) ==>
        var e := old(groups)[topic];
        var (g1, out) := publish(e.group, data, f);
        var ops := if out.Ok? then out.value else [];
        && OnlyTopic(topic, old(groups), groups) && groups[topic] == Entry(g1, e.inbox)
        && Aired(refuses, old(attempts), ops, aired)
        && broadcast == old(broadcast) + aired && attempts == old(attempts) + Tries(ops, aired)
        && done.Ok? == (out.Ok? && aired == ops)
    {
      aired := [];
      if topic !in groups { return Err, []; }
      var (g1, out) := publish(groups[topic].group, data, f);
      groups := groups[topic := groups[topic].(group := g1)];
      if out.Err? { return Err, []; }
      var all;
      all, aired := PublishAll(out.value);
      done := if all then Ok(()) else Err;
    }

    /** Pull the next raw message, if any, process it into the topic's entry, and answer it. */
    method TakeOne(sub: nat, topic: string) returns (taken: Option<Outcome<()>>, ghost aired: seq<Op<D>>)
      requires topic in groups
      modifies this`groups, this`queues, this`broadcast, this`attempts
      ensures |old(Queue(sub))| == 0 ==>
        && taken.None? && groups == old(groups) && Queue(sub) == old(Queue(sub))
        && broadcast == old(broadcast) && attempts == old(attempts)
      ensures |old(Queue(sub))| > 0 ==>
        var e := old(groups)[topic];
        var (g1, out) := receive(e.group, old(Queue(sub))[0]);
        && taken.Some? && taken.value.Ok? == (out.Ok? && aired == Sends(out))
        && Queue(sub) == old(Queue(sub))[1..]
        && OnlyTopic(topic, old(groups), groups) && groups[topic] == Entry(g1, e.inbox + Decrypted(out))
        && Aired(refuses, old(attempts), Sends(out), aired)
        && broadcast == old(broadcast) + aired && attempts == old(attempts) + Tries(Sends(out), aired)
    {
      aired := [];
      var raw := PollSub(sub);
      if raw.None? { return None, []; }
      assert [raw.value][0] == old(Queue(sub))[..1][0];
      var (g1, out) := receive(groups[topic].group, raw.value);
      groups := groups[topic := Entry(g1, groups[topic].inbox + Decrypted(out))];
      if out.Err? { return Some(Err), []; }
      var all;
      all, aired := PublishAll(out.value.toSend);
      taken := Some(if all then Ok(()) else Err);
    }

    /** One turn of the loop, after `n` messages of `queue`, all answered. */
    method TakeNext(sub: nat, topic: string, ghost e: Entry<G, D>, ghost queue: seq<W>, ghost sent: seq<Op<D>>,
                    ghost from: nat, ghost n: nat)
        returns (taken: Option<Outcome<()>>, ghost aired: seq<Op<D>>)
      requires topic in groups && Midway(receive, e, queue, n, groups[topic]) && groups[topic].inbox == []
      requires Queue(sub) == queue[n..] && Stands(sent, from, Answers(receive, e.group, queue, n))
      modifies this`groups, this`queues, this`broadcast, this`attempts
      ensures OnlyTopic(topic, old(groups), groups)
      ensures taken.None? ==>
        && n == |queue| && Queue(sub) == queue[n..] && broadcast == old(broadcast) && attempts == old(attempts)
        && PolledExactly(receive, e, queue, n, false, Ok(None), groups[topic])
      ensures taken.Some? ==>
        && n < |queue| && Queue(sub) == queue[n + 1..]
        && var answers := Answers(receive, e.group, queue, n + 1);
        && Aired(refuses, from, answers, aired) && broadcast == sent + aired && attempts == from + Tries(answers, aired)
        && (if taken.value.Ok? then aired == answers && Midway(receive, e, queue, n + 1, groups[topic])
            else PolledExactly(receive, e, queue, n + 1, aired != answers, Err, groups[topic]))
    {
      ghost var cur, before := groups[topic], Answers(receive, e.group, queue, n);
      taken, aired := TakeOne(sub, topic);
      if taken.Some? {
        assert queue[n..][0] == queue[n] && queue[n..][1..] == queue[n + 1..];
        TurnOf(receive, e, queue, n, cur, refuses, from, aired);
        AiredAfter(sent, before, aired);
        aired := before + aired;
      } else {
        PaysOut(e, n, |queue|, Before(receive, e.group, queue, n), Along(receive, e.group, queue, n), cur);
      }
    }

    /** All of `ops` got out, from attempt `from` on. */
    ghost predicate Stands(sent: seq<Op<D>>, from: nat, ops: seq<Op<D>>)
      reads this`broadcast, this`attempts
    {
      Accepts(refuses, from, |ops|) && broadcast == sent + ops && attempts == from + |ops|
    }

    /** Hand back the first of the payloads that wait. */
    method HandBack(topic: string, ghost e: Entry<G, D>, ghost queue: seq<W>, ghost n: nat)
        returns (r: Outcome<Option<D>>)
      requires topic in groups && Midway(receive, e, queue, n, groups[topic]) && groups[topic].inbox != []
      modifies this`groups
      ensures OnlyTopic(topic, old(groups), groups)
      ensures PolledExactly(receive, e, queue, n, false, r, groups[topic])
    {
      var cur := groups[topic];
      PaysOut(e, n, |queue|, Before(receive, e.group, queue, n), Along(receive, e.group, queue, n), cur);
      r := Ok(Some(cur.inbox[0]));
      groups := groups[topic := cur.(inbox := cur.inbox[1..])];
    }

    /** The loop, for a subscription whose group is open. */
    method PollOpen(sub: nat, topic: string)
        returns (r: Outcome<Option<D>>, ghost n: nat, ghost aired: seq<Op<D>>)
      requires topic in groups
      modifies this`groups, this`queues, this`broadcast, this`attempts
      ensures OnlyTopic(topic, old(groups), groups) && n <= |old(Queue(sub))|
      ensures Queue(sub) == old(Queue(sub))[n..]
      ensures
        var answers := Answers(receive, old(groups)[topic].group, old(Queue(sub)), n);
        && Aired(refuses, old(attempts), answers, aired)
        && broadcast == old(broadcast) + aired && attempts == old(attempts) + Tries(answers, aired)
        && PolledExactly(receive, old(groups)[topic], old(Queue(sub)), n, aired != answers, r, groups[topic])
    {
      ghost var start, queue := groups[topic], Queue(sub);
      n := 0;
      while |groups[topic].inbox| == 0
        invariant OnlyTopic(topic, old(groups), groups)
        invariant Midway(receive, start, queue, n, groups[topic])
        invariant Queue(sub) == queue[n..]
        invariant Stands(old(broadcast), old(attempts), Answers(receive, start.group, queue, n))
        decreases |queue| - n
      {
        var taken;
        taken, aired := TakeNext(sub, topic, start, queue, old(broadcast), old(attempts), n);
        if taken.None? { return Ok(None), n, Answers(receive, start.group, queue, n); }
        n := n + 1;
        if taken.value.Err? { return Err, n, aired; }
      }
      aired := Answers(receive, start.group, queue, n);
      r := HandBack(topic, start, queue, n);
    }
  }
}
