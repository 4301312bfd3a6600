/** One encrypted topic over any turns: messages arriving, polls by any of its subscriptions, the topic
    opened again, and other calls on its group. Reactions and answers may fail. */
module PollRuns {
  import opened EncryptedGroups
  import opened GroupPolling
  import opened Wrappers

  /** A group's reactions, and what each message decrypts to in them, even if they then fail. */
  datatype Machine<!G, !W, D> = Machine(receive: Receiver<G, W, D>, sees: (G, W) -> seq<D>)

  ghost predicate Truthful<G(!new), W(!new), D>(m: Machine<G, W, D>) {
    forall g, w {:trigger m.sees(g, w)} :: m.receive(g, w).1.Ok? ==> m.sees(g, w) == Decrypted(m.receive(g, w).1)
  }

  function SeenAt<G, W, D>(m: Machine<G, W, D>, g: G, queue: seq<W>, i: nat): seq<D>
    requires i < |queue|
  {
    m.sees(After(m.receive, g, queue, i), queue[i])
  }

  /** Everything the first `n` messages decrypt to, in order. */
  function Seen<G, W, D>(m: Machine<G, W, D>, g: G, queue: seq<W>, n: nat): seq<D>
    requires n <= |queue|
  {
    if n == 0 then [] else Seen(m, g, queue, n - 1) + SeenAt(m, g, queue, n - 1)
  }

  lemma {:induction false} FineIsSeen<G(!new), W(!new), D>(m: Machine<G, W, D>, g: G, queue: seq<W>, n: nat)
    requires Truthful(m) && n <= |queue| && Fine(m.receive, g, queue, n)
    ensures Seen(m, g, queue, n) == Surfaces(m.receive, g, queue, n)
    decreases n
  {
    if n > 0 { FineIsSeen(m, g, queue, n - 1); }
  }

  /** What became of a payload that is no longer waiting: returned to a subscription, dropped by an opening of
      the topic, or discarded by the failure of the reaction that decrypted it. */
  datatype Fate<+D> = Returned(sub: nat, payload: D) | Dropped(payload: D) | Discarded(payload: D)

  /** One subscription's messages: waiting, all that ever arrived, and those a poll has taken. */
  datatype Stream<+W> = Stream(queue: seq<W>, arrived: seq<W>, consumed: seq<W>)

  /** A topic over its lifetime: its entry, its subscriptions, everything the messages taken decrypted to at
      the time, and the fate of what is no longer waiting, in order. */
  datatype Desk<+G, +W, +D> = Desk(
    e: Entry<G, D>, streams: map<nat, Stream<W>>, surfaced: seq<D>, fates: seq<Fate<D>>)

  datatype Turn<+G, +W, +D> =
    | Arrival(sub: nat, w: W)
    | OtherCall(group: G)
    | Open(sub: nat, group: G)
    | Poll(sub: nat, n: nat, cut: bool, r: Outcome<Option<D>>, after: Entry<G, D>)

  /** A poll may do only what `GroupPoll` promises, an opening is a new subscription, and any other call may
      change the group at will. */
  ghost predicate Allowed<G, W, D>(m: Machine<G, W, D>, s: Desk<G, W, D>, turn: Turn<G, W, D>) {
    match turn
    case Arrival(sub, _) => sub in s.streams
    case OtherCall(_) => true
    case Open(sub, _) => sub !in s.streams
    case Poll(sub, n, cut, r, after) =>
      sub in s.streams && PolledExactly(m.receive, s.e, s.streams[sub].queue, n, cut, r, after)
  }

  function NewStream<W>(): Stream<W> { Stream([], [], []) }

  function DropAll<D>(inbox: seq<D>): seq<Fate<D>> {
    seq(|inbox|, i requires 0 <= i < |inbox| => Dropped(inbox[i]))
  }

  function DiscardAll<D>(got: seq<D>): seq<Fate<D>> {
    seq(|got|, i requires 0 <= i < |got| => Discarded(got[i]))
  }

  /** The payloads a failed reaction had decrypted, if the poll ended in one. */
  ghost function LostIn<G, W, D>(m: Machine<G, W, D>, s: Desk<G, W, D>, turn: Turn<G, W, D>): seq<D>
    requires turn.Poll? && Allowed(m, s, turn)
  {
    if turn.r.Err? && !turn.cut then SeenAt(m, s.e.group, s.streams[turn.sub].queue, turn.n - 1) else []
  }

  function HandTo<D>(sub: nat, r: Outcome<Option<D>>): seq<Fate<D>> {
    if r.Ok? && r.value.Some? then [Returned(sub, r.value.value)] else []
  }

  ghost function Take<G, W, D>(m: Machine<G, W, D>, s: Desk<G, W, D>, turn: Turn<G, W, D>): Desk<G, W, D>
    requires Allowed(m, s, turn)
  {
    match turn
    case Arrival(sub, w) =>
      var q := s.streams[sub];
      s.(streams := s.streams[sub := q.(queue := q.queue + [w], arrived := q.arrived + [w])])
    case OtherCall(g) => s.(e := s.e.(group := g))
    case Open(sub, g) =>
      s.(e := Entry(g, []), streams := s.streams[sub := NewStream()], fates := s.fates + DropAll(s.e.inbox))
    case Poll(sub, n, _, r, after) =>
      var q := s.streams[sub];
      Desk(after, s.streams[sub := q.(queue := q.queue[n..], consumed := q.consumed + q.queue[..n])],
           s.surfaced + Seen(m, s.e.group, q.queue, n), s.fates + (HandTo(sub, r) + DiscardAll(LostIn(m, s, turn))))
  }

  /** From the first opening of the topic on. */
  ghost function Life<G, W, D>(m: Machine<G, W, D>, g: G, sub: nat, turns: seq<Turn<G, W, D>>): Option<Desk<G, W, D>>
  {
    if turns == [] then Some(Desk(Entry(g, []), map[sub := NewStream()], [], []))
    else
      var before := Life(m, g, sub, turns[..|turns| - 1]);
      var turn := turns[|turns| - 1];
      if before.Some? && Allowed(m, before.value, turn) then Some(Take(m, before.value, turn)) else None
  }

  function PayloadsOf<D>(fates: seq<Fate<D>>): seq<D> {
    seq(|fates|, i requires 0 <= i < |fates| => fates[i].payload)
  }

  function ReturnedTo<D>(fates: seq<Fate<D>>, sub: nat): seq<D> {
    if fates == [] then []
    else
      var n := |fates| - 1;
      var before := ReturnedTo(fates[..n], sub);
      if fates[n].Returned? && fates[n].sub == sub then before + [fates[n].payload] else before
  }

  ghost predicate Accounted<G, W, D>(s: Desk<G, W, D>) {
    && (forall sub <- s.streams :: s.streams[sub].arrived == s.streams[sub].consumed + s.streams[sub].queue)
    && s.surfaced == PayloadsOf(s.fates) + s.e.inbox
  }

  /** A poll accounts for all that its messages decrypted to: what waited and that are the payload returned,
      those a failure discarded, and those waiting now. */
  lemma PollAccounts<G(!new), W(!new), D>(m: Machine<G, W, D>, s: Desk<G, W, D>, turn: Turn<G, W, D>)
    requires Truthful(m) && turn.Poll? && Allowed(m, s, turn)
    ensures s.e.inbox + Seen(m, s.e.group, s.streams[turn.sub].queue, turn.n)
         == (Handed(turn.r) + LostIn(m, s, turn)) + turn.after.inbox
  {
    var g, queue, n := s.e.group, s.streams[turn.sub].queue, turn.n;
    var before, p := Before(m.receive, g, queue, n), Along(m.receive, g, queue, n);
    if turn.r.Err? && !turn.cut {
      FineIsSeen(m, g, queue, n - 1);
      FailureAccounts(s.e, n, |queue|, before, p, turn.r, turn.after, Seen(m, g, queue, n - 1), LostIn(m, s, turn));
    } else {
      FineIsSeen(m, g, queue, n);
      SuccessAccounts(s.e, n, |queue|, before, p, turn.cut, turn.r, turn.after, Seen(m, g, queue, n));
    }
  }

  lemma SuccessAccounts<G, D>(e: Entry<G, D>, n: nat, total: nat, before: Progress<G, D>, p: Progress<G, D>, cut: bool,
                              r: Outcome<Option<D>>, after: Entry<G, D>, seen: seq<D>)
    requires Polled(e, n, total, before, p, cut, r, after) && seen == p.surfaced
    ensures e.inbox + seen == (Handed(r) + []) + after.inbox
  {
    assert Handed(r) + [] == Handed(r);
  }

  lemma FailureAccounts<G, D>(e: Entry<G, D>, n: nat, total: nat, before: Progress<G, D>, p: Progress<G, D>,
                              r: Outcome<Option<D>>, after: Entry<G, D>, seen: seq<D>, lost: seq<D>)
    requires Polled(e, n, total, before, p, false, r, after) && r.Err? && seen == before.surfaced
    ensures e.inbox + (seen + lost) == (Handed(r) + lost) + after.inbox
  {
  }

  lemma TurnAccounts<G(!new), W(!new), D>(m: Machine<G, W, D>, s: Desk<G, W, D>, turn: Turn<G, W, D>)
    requires Truthful(m) && Accounted(s) && Allowed(m, s, turn)
    ensures Accounted(Take(m, s, turn))
  {
    match turn
    case Arrival(sub, w) =>
      var q := s.streams[sub];
      assert q.consumed + q.queue + [w] == q.consumed + (q.queue + [w]);
    case OtherCall(_) =>
    case Open(_, _) =>
      assert PayloadsOf(s.fates + DropAll(s.e.inbox)) == PayloadsOf(s.fates) + s.e.inbox;
    case Poll(sub, n, _, r, after) =>
      var q := s.streams[sub];
      assert q.consumed + q.queue[..n] + q.queue[n..] == q.consumed + q.queue;
      PollAccounts(m, s, turn);
      var lost := LostIn(m, s, turn);
      FatesOf(s.fates, sub, r, lost);
      Reassociate(PayloadsOf(s.fates), s.e.inbox, Seen(m, s.e.group, q.queue, n), Handed(r) + lost, after.inbox);
  }

  lemma FatesOf<D>(fates: seq<Fate<D>>, sub: nat, r: Outcome<Option<D>>, lost: seq<D>)
    ensures PayloadsOf(fates + (HandTo(sub, r) + DiscardAll(lost))) == PayloadsOf(fates) + (Handed(r) + lost)
  {
    assert PayloadsOf(HandTo(sub, r)) == Handed(r) && PayloadsOf(DiscardAll(lost)) == lost;
  }

  lemma Reassociate<D>(a: seq<D>, b: seq<D>, c: seq<D>, d: seq<D>, e: seq<D>)
    requires b + c == d + e
    ensures a + b + c == a + d + e
  {
    assert a + b + c == a + (b + c);
    assert a + d + e == a + (d + e);
  }

  /** Whatever the arrivals, openings, polls by any subscription and other calls, and whatever fails, each
      subscription's messages are taken once each in order of arrival; and the payloads returned to some
      subscription, dropped by an opening or discarded by a failed reaction, followed by those waiting, are
      exactly the ones the messages taken decrypted to, in order. */
  lemma {:induction false} EveryPayloadHasOneFate<G(!new), W(!new), D>(m: Machine<G, W, D>, g: G, sub: nat,
                                                                       turns: seq<Turn<G, W, D>>)
    requires Truthful(m) && Life(m, g, sub, turns).Some?
    ensures Accounted(Life(m, g, sub, turns).value)
    decreases |turns|
  {
    if turns != [] {
      EveryPayloadHasOneFate(m, g, sub, turns[..|turns| - 1]);
      TurnAccounts(m, Life(m, g, sub, turns[..|turns| - 1]).value, turns[|turns| - 1]);
    }
  }

  /** An opening finds nothing waiting; no reaction fails after it decrypted something; and a poll by a
      subscription other than `reader`, where one is named, hands back nothing. */
  ghost predicate Spares<G, W, D>(m: Machine<G, W, D>, s: Desk<G, W, D>, turn: Turn<G, W, D>, reader: Option<nat>)
    requires Allowed(m, s, turn)
  {
    match turn
    case Open(_, _) => s.e.inbox == []
    case Poll(sub, _, _, r, _) =>
      && LostIn(m, s, turn) == []
      && (reader.Some? && sub != reader.value ==> Handed(r) == [])
    case _ => true
  }

  ghost predicate AllSpare<G, W, D>(m: Machine<G, W, D>, g: G, sub: nat, turns: seq<Turn<G, W, D>>, reader: Option<nat>)
    requires Life(m, g, sub, turns).Some?
  {
    turns != [] ==>
      var n := |turns| - 1;
      AllSpare(m, g, sub, turns[..n], reader) && Spares(m, Life(m, g, sub, turns[..n]).value, turns[n], reader)
  }

  predicate Reached<D>(f: Fate<D>, reader: Option<nat>) {
    f.Returned? && (reader.Some? ==> f.sub == reader.value)
  }

  lemma {:induction false} FatesReachIff<G, W, D>(m: Machine<G, W, D>, g: G, sub: nat, turns: seq<Turn<G, W, D>>,
                                                  reader: Option<nat>)
    requires Life(m, g, sub, turns).Some?
    ensures (forall f <- Life(m, g, sub, turns).value.fates :: Reached(f, reader))
       <==> AllSpare(m, g, sub, turns, reader)
    decreases |turns|
  {
    if turns != [] {
      var n := |turns| - 1;
      FatesReachIff(m, g, sub, turns[..n], reader);
      TurnReachesIff(m, Life(m, g, sub, turns[..n]).value, turns[n], reader);
    }
  }

  lemma TurnReachesIff<G, W, D>(m: Machine<G, W, D>, s: Desk<G, W, D>, turn: Turn<G, W, D>, reader: Option<nat>)
    requires Allowed(m, s, turn)
    ensures (forall f <- Take(m, s, turn).fates :: Reached(f, reader))
       <==> (forall f <- s.fates :: Reached(f, reader)) && Spares(m, s, turn, reader)
  {
    var next := Take(m, s, turn);
    assert forall f <- s.fates :: f in next.fates;
    match turn
    case Open(_, _) =>
      if s.e.inbox != [] {
        assert DropAll(s.e.inbox)[0] in next.fates;
      }
    case Poll(who, _, _, r, _) =>
      PollReachesIff(s.fates, who, r, LostIn(m, s, turn), reader);
    case _ =>
  }

  lemma PollReachesIff<D>(fates: seq<Fate<D>>, who: nat, r: Outcome<Option<D>>, lost: seq<D>, reader: Option<nat>)
    ensures (forall f <- fates + (HandTo(who, r) + DiscardAll(lost)) :: Reached(f, reader))
       <==> (forall f <- fates :: Reached(f, reader)) && lost == []
              && (reader.Some? && who != reader.value ==> Handed(r) == [])
  {
    var more := HandTo(who, r) + DiscardAll(lost);
    assert forall f <- fates :: f in fates + more;
    assert forall f <- more :: f in fates + more;
    if lost != [] {
      assert DiscardAll(lost)[0] in more;
    }
    if Handed(r) != [] {
      assert HandTo(who, r)[0] in more;
    }
  }

  lemma {:induction false} ReturnedIsShorter<D>(fates: seq<Fate<D>>, reader: nat)
    ensures |ReturnedTo(fates, reader)| <= |fates|
    ensures |ReturnedTo(fates, reader)| == |fates| <==> forall f <- fates :: Reached(f, Some(reader))
    ensures |ReturnedTo(fates, reader)| == |fates| ==> ReturnedTo(fates, reader) == PayloadsOf(fates)
    decreases |fates|
  {
    if fates != [] {
      var n := |fates| - 1;
      ReturnedIsShorter(fates[..n], reader);
      ReachedSnoc(fates[..n], fates[n], reader);
      assert fates == fates[..n] + [fates[n]];
      assert PayloadsOf(fates) == PayloadsOf(fates[..n]) + [fates[n].payload];
    }
  }

  lemma ReachedSnoc<D>(fates: seq<Fate<D>>, f: Fate<D>, reader: nat)
    ensures (forall x <- fates + [f] :: Reached(x, Some(reader)))
       <==> (forall x <- fates :: Reached(x, Some(reader))) && Reached(f, Some(reader))
  {
    assert f in fates + [f] && forall x <- fates :: x in fates + [f];
  }

  /** No payload is lost exactly when every opening of the topic finds its inbox empty and no reaction fails
      after it decrypted something. */
  lemma NothingIsLostIff<G, W, D>(m: Machine<G, W, D>, g: G, sub: nat, turns: seq<Turn<G, W, D>>)
    requires Life(m, g, sub, turns).Some?
    ensures (forall f <- Life(m, g, sub, turns).value.fates :: f.Returned?) <==> AllSpare(m, g, sub, turns, None)
  {
    FatesReachIff(m, g, sub, turns, None);
    assert forall f: Fate<D> :: Reached(f, None) <==> f.Returned?;
  }

  /** One subscription gets every payload, once and in order, exactly when in addition no other subscription
      of the topic is handed one. */
  lemma ReaderGetsAllIff<G(!new), W(!new), D>(m: Machine<G, W, D>, g: G, sub: nat, turns: seq<Turn<G, W, D>>,
                                              reader: nat)
    requires Truthful(m) && Life(m, g, sub, turns).Some?
    ensures var s := Life(m, g, sub, turns).value;
      s.surfaced == ReturnedTo(s.fates, reader) + s.e.inbox <==> AllSpare(m, g, sub, turns, Some(reader))
  {
    var s := Life(m, g, sub, turns).value;
    EveryPayloadHasOneFate(m, g, sub, turns);
    FatesReachIff(m, g, sub, turns, Some(reader));
    ReturnedIsShorter(s.fates, reader);
    if s.surfaced == ReturnedTo(s.fates, reader) + s.e.inbox {
      assert |PayloadsOf(s.fates)| == |ReturnedTo(s.fates, reader)|;
    }
  }

  // ---- Payloads lost ----

  lemma LifeGoesOn<G, W, D>(m: Machine<G, W, D>, g: G, sub: nat, turns: seq<Turn<G, W, D>>, turn: Turn<G, W, D>)
    requires Life(m, g, sub, turns).Some? && Allowed(m, Life(m, g, sub, turns).value, turn)
    ensures Life(m, g, sub, turns + [turn]) == Some(Take(m, Life(m, g, sub, turns).value, turn))
  {
    assert (turns + [turn])[..|turns|] == turns;
  }

  function Arrivals<G, W, D>(sub: nat, ws: seq<W>): seq<Turn<G, W, D>> {
    seq(|ws|, i requires 0 <= i < |ws| => Arrival(sub, ws[i]))
  }

  lemma {:induction false} ArrivalsQueue<G, W, D>(m: Machine<G, W, D>, g: G, sub: nat, ws: seq<W>)
    ensures Life(m, g, sub, Arrivals(sub, ws)) == Some(Desk(Entry(g, []), map[sub := Stream(ws, ws, [])], [], []))
    decreases |ws|
  {
    if ws == [] {
      assert Arrivals<G, W, D>(sub, ws) == [];
    } else {
      var n := |ws| - 1;
      ArrivalsQueue(m, g, sub, ws[..n]);
      LifeGoesOn(m, g, sub, Arrivals(sub, ws[..n]), Arrival(sub, ws[n]));
      assert Arrivals<G, W, D>(sub, ws) == Arrivals(sub, ws[..n]) + [Arrival(sub, ws[n])];
      assert ws == ws[..n] + [ws[n]];
      assert map[sub := Stream(ws[..n], ws[..n], [])][sub := Stream(ws, ws, [])] == map[sub := Stream(ws, ws, [])];
    }
  }

  /** A raw message, and the library calls that fail in the reaction to it. */
  type Raw = (Wire<string>, Faults)

  const GROUP: Machine<Group<string>, Raw, string> :=
    Machine((g: Group<string>, w: Raw) => ReceivedUnder(g, w.0, w.1),
            (g: Group<string>, w: Raw) => DecryptedUnder(g, w.0, w.1))

  /** A real group's reaction, when it succeeds, surfaces what the message decrypts to. */
  lemma GroupIsTruthful()
    ensures Truthful(GROUP)
  {
  }

  function Clean(op: Op<string>): Raw { (Encoded(op), FAULTLESS) }

  /** The log of a creator that published twice and then welcomed member 1, as member 1 reads it. */
  const HISTORY: seq<Raw> := [
    Clean(KeyBundle(0)), Clean(Create(0)), Clean(App(0, "a")), Clean(App(0, "b")), Clean(AddAuth(0, 1)),
    Clean(AddSpace(0, 1))]

  /** Member 1 of two, as it opens the group. */
  const MEMBER: Group<string> := Group(1, false, Space({}, [], false), [0, 1], false, {}, {}, None)

  lemma MemberIsOpened()
    ensures Opened(1, [0, 1], 1).0 == MEMBER
  {
    assert 0 in [0, 1];
  }

  /** How a member still waiting for its welcome takes the next operation. */
  lemma WaitingTakes(g0: Group<string>, queue: seq<Raw>, n: nat, g: Group<string>, op: Op<string>)
    requires n < |queue| && queue[n] == Clean(op) && After(GROUP.receive, g0, queue, n) == g
    requires Fine(GROUP.receive, g0, queue, n)
    requires !g.creator && !g.welcomed && Process(g.space, g.me, op).Ok?
    ensures var (space, events) := Process(g.space, g.me, op).value;
      && Fine(GROUP.receive, g0, queue, n + 1)
      && Surfaces(GROUP.receive, g0, queue, n + 1) == Surfaces(GROUP.receive, g0, queue, n) + Payloads(events)
      && (g.me !in space.members ==>
            After(GROUP.receive, g0, queue, n + 1) == g.(space := space, known := g.known + Bundles(events)))
  {
  }

  lemma ControlTakes(queue: seq<Raw>, g: Group<string>) returns (g2: Group<string>)
    requires |queue| > 2 && queue[0] == Clean(KeyBundle(0)) && queue[1] == Clean(Create(0))
    requires g.(pending := None) == MEMBER
    ensures g2 == g.(known := {0}, space := Space({0}, [], false))
    ensures After(GROUP.receive, g, queue, 2) == g2 && Surfaces(GROUP.receive, g, queue, 2) == []
    ensures Fine(GROUP.receive, g, queue, 2)
  {
    var bundle: seq<Event<string>> := [Bundle(0)];
    assert Bundles(bundle) == {0} by { assert bundle[0] == Bundle(0); }
    assert Bundles<string>([]) == {} && {0} + {} == {0} && {} + {0} == {0};
    WaitingTakes(g, queue, 0, g, KeyBundle(0));
    var g1 := g.(known := {0});
    WaitingTakes(g, queue, 1, g1, Create(0));
    g2 := g1.(space := Space({0}, [], false));
  }

  lemma DataWaits(queue: seq<Raw>, n: nat, g0: Group<string>, g: Group<string>, d: string)
    requires n < |queue| && queue[n] == Clean(App(0, d)) && After(GROUP.receive, g0, queue, n) == g
    requires Fine(GROUP.receive, g0, queue, n)
    requires !g.creator && !g.welcomed && !g.space.revoked && g.me !in g.space.members
    ensures After(GROUP.receive, g0, queue, n + 1) == g.(space := g.space.(held := g.space.held + [d]))
    ensures Surfaces(GROUP.receive, g0, queue, n + 1) == Surfaces(GROUP.receive, g0, queue, n)
    ensures Fine(GROUP.receive, g0, queue, n + 1)
  {
    assert Bundles<string>([]) == {} && g.known + {} == g.known;
    WaitingTakes(g0, queue, n, g, App(0, d));
  }

  /** Up to the welcome both payloads are held. */
  lemma HistoryHolds(queue: seq<Raw>, g0: Group<string>) returns (g5: Group<string>)
    requires |queue| > 5 && queue[..5] == HISTORY[..5] && g0.(pending := None) == MEMBER
    ensures After(GROUP.receive, g0, queue, 5) == g5 && Fine(GROUP.receive, g0, queue, 5)
    ensures Surfaces(GROUP.receive, g0, queue, 5) == []
    ensures g5 == g0.(known := {0}, space := Space({0}, ["a", "b"], false))
  {
    assert queue[0] == queue[..5][0] && queue[1] == queue[..5][1] && queue[2] == queue[..5][2];
    assert queue[3] == queue[..5][3] && queue[4] == queue[..5][4];
    var g2 := ControlTakes(queue, g0);
    DataWaits(queue, 2, g0, g2, "a");
    var g3 := g2.(space := g2.space.(held := [] + ["a"]));
    DataWaits(queue, 3, g0, g3, "b");
    g5 := g3.(space := g3.space.(held := ["a"] + ["b"]));
    assert ["a"] + ["b"] == ["a", "b"];
    assert Bundles<string>([]) == {} && g5.known + {} == g5.known;
    WaitingTakes(g0, queue, 4, g5, AddAuth(0, 1));
  }

  /** Both surface with the welcome. */
  lemma HistorySurfaces(queue: seq<Raw>)
    requires HISTORY <= queue
    ensures Fine(GROUP.receive, MEMBER, queue, 6)
    ensures Surfaces(GROUP.receive, MEMBER, queue, 5) == []
    ensures Surfaces(GROUP.receive, MEMBER, queue, 6) == ["a", "b"]
  {
    assert queue[5] == HISTORY[5] && queue[..5] == HISTORY[..5];
    var g5 := HistoryHolds(queue, MEMBER);
    WaitingTakes(MEMBER, queue, 5, g5, AddSpace(0, 1));
    PayloadsOfApplications(["a", "b"]);
  }

  /** One poll that surfaces two payloads hands back the first. */
  lemma FirstIsReturned<G, W, D>(m: Machine<G, W, D>, g: G, ws: seq<W>, a: D, b: D)
      returns (poll: Turn<G, W, D>, desk: Desk<G, W, D>)
    requires |ws| > 0 && Surfaces(m.receive, g, ws, |ws| - 1) == [] && Surfaces(m.receive, g, ws, |ws|) == [a, b]
    requires Fine(m.receive, g, ws, |ws|)
    ensures Life(m, g, 0, Arrivals(0, ws) + [poll]) == Some(desk)
    ensures poll == Poll(0, |ws|, false, Ok(Some(a)), Entry(After(m.receive, g, ws, |ws|), [b]))
    ensures desk.e.inbox == [b] && desk.fates == [Returned(0, a)] && desk.streams.Keys == {0}
  {
    poll := Poll(0, |ws|, false, Ok(Some(a)), Entry(After(m.receive, g, ws, |ws|), [b]));
    ArrivalsQueue(m, g, 0, ws);
    var before := Desk(Entry(g, []), map[0 := Stream(ws, ws, [])], [], []);
    assert [a] + [b] == [a, b] && [] + [a, b] == [a, b];
    assert PolledExactly(m.receive, before.e, ws, |ws|, false, poll.r, poll.after);
    LifeGoesOn(m, g, 0, Arrivals(0, ws), poll);
    desk := Take(m, before, poll);
    assert [] + ([Returned(0, a)] + DiscardAll([])) == [Returned(0, a)];
  }

  /** Opening the topic again then drops the second. */
  lemma SecondIsDropped<G, W, D>(m: Machine<G, W, D>, g: G, turns: seq<Turn<G, W, D>>, desk: Desk<G, W, D>,
                                 a: D, b: D, again: G)
    requires Life(m, g, 0, turns) == Some(desk)
    requires desk.e.inbox == [b] && desk.fates == [Returned(0, a)] && desk.streams.Keys == {0}
    ensures var life := Life(m, g, 0, turns + [Open(1, again)]);
      life.Some? && life.value.fates == [Returned(0, a), Dropped(b)]
  {
    LifeGoesOn(m, g, 0, turns, Open(1, again));
    assert DropAll([b]) == [Dropped(b)];
    assert [Returned(0, a)] + [Dropped(b)] == [Returned(0, a), Dropped(b)];
  }

  /** Of the two payloads one poll surfaced, opening the topic again loses the second. */
  lemma ReopeningLosesAPayload() returns (turns: seq<Turn<Group<string>, Raw, string>>)
    ensures |turns| == |HISTORY| + 2 && turns[..|HISTORY|] == Arrivals(0, HISTORY)
    ensures turns[|HISTORY|].Poll? && turns[|HISTORY| + 1] == Open(1, Opened(1, [0, 1], 1).0)
    ensures Life(GROUP, MEMBER, 0, turns).Some?
    ensures Life(GROUP, MEMBER, 0, turns).value.fates == [Returned(0, "a"), Dropped("b")]
  {
    MemberIsOpened();
    HistorySurfaces(HISTORY);
    turns := LosingTurns(GROUP, MEMBER, HISTORY, "a", "b");
  }

  lemma LosingTurns<G, W, D>(m: Machine<G, W, D>, g: G, ws: seq<W>, a: D, b: D) returns (turns: seq<Turn<G, W, D>>)
    requires |ws| > 0 && Surfaces(m.receive, g, ws, |ws| - 1) == [] && Surfaces(m.receive, g, ws, |ws|) == [a, b]
    requires Fine(m.receive, g, ws, |ws|)
    ensures |turns| == |ws| + 2 && turns[..|ws|] == Arrivals(0, ws)
    ensures turns[|ws|].Poll? && turns[|ws| + 1] == Open(1, g)
    ensures Life(m, g, 0, turns).Some? && Life(m, g, 0, turns).value.fates == [Returned(0, a), Dropped(b)]
  {
    var poll, desk := FirstIsReturned(m, g, ws, a, b);
    SecondIsDropped(m, g, Arrivals(0, ws) + [poll], desk, a, b, g);
    turns := Arrivals(0, ws) + [poll] + [Open(1, g)];
  }

  /** The same history, but the member had handed in a state, and encrypting it fails with the welcome. */
  const UNLUCKY: seq<Raw> := HISTORY[..5] + [(Encoded(AddSpace(0, 1)), FAULTLESS.(publish := true))]

  const HOLDER: Group<string> := MEMBER.(pending := Some("p"))

  lemma UnluckyFails(queue: seq<Raw>)
    requires queue == UNLUCKY
    ensures FailedAt(GROUP.receive, HOLDER, queue, 6) && Surfaces(GROUP.receive, HOLDER, queue, 5) == []
    ensures SeenAt(GROUP, HOLDER, queue, 5) == ["a", "b"]
  {
    assert queue[..5] == HISTORY[..5];
    var g5 := HistoryHolds(queue, HOLDER);
    PayloadsOfApplications(["a", "b"]);
    assert queue[5] == (Encoded(AddSpace(0, 1)), FAULTLESS.(publish := true));
    assert Applications(["a", "b"]) == Process(g5.space, 1, AddSpace(0, 1)).value.1;
  }

  lemma FailureDiscards<G, W, D>(m: Machine<G, W, D>, g: G, ws: seq<W>, a: D, b: D) returns (poll: Turn<G, W, D>)
    requires |ws| > 0 && FailedAt(m.receive, g, ws, |ws|) && Surfaces(m.receive, g, ws, |ws| - 1) == []
    requires SeenAt(m, g, ws, |ws| - 1) == [a, b]
    ensures poll.Poll? && poll.r.Err? && Life(m, g, 0, Arrivals(0, ws) + [poll]).Some?
    ensures var desk := Life(m, g, 0, Arrivals(0, ws) + [poll]).value;
      && desk.fates == [Discarded(a), Discarded(b)] && desk.e.inbox == []
      && 0 in desk.streams && desk.streams[0].queue == []
  {
    poll := Poll(0, |ws|, false, Err, Entry(After(m.receive, g, ws, |ws|), []));
    ArrivalsQueue(m, g, 0, ws);
    assert Surfaces(m.receive, g, ws, |ws|) == [] + [];
    LifeGoesOn(m, g, 0, Arrivals(0, ws), poll);
    assert DiscardAll([a, b]) == [Discarded(a), Discarded(b)];
    assert [] + ([] + [Discarded(a), Discarded(b)]) == [Discarded(a), Discarded(b)];
  }

  /** A member that had published before its welcome, and cannot encrypt when it comes, loses both payloads
      the welcome decrypted, with no opening at all. */
  lemma AFailureDiscardsPayloads() returns (poll: Turn<Group<string>, Raw, string>)
    ensures Published(Opened(1, [0, 1], 1).0, "p").0 == HOLDER
    ensures poll.Poll? && poll.r.Err? && Life(GROUP, HOLDER, 0, Arrivals(0, UNLUCKY) + [poll]).Some?
    ensures var desk := Life(GROUP, HOLDER, 0, Arrivals(0, UNLUCKY) + [poll]).value;
      && desk.fates == [Discarded("a"), Discarded("b")] && desk.e.inbox == []
      && 0 in desk.streams && desk.streams[0].queue == []
  {
    MemberIsOpened();
    UnluckyFails(UNLUCKY);
    poll := FailureDiscards(GROUP, HOLDER, UNLUCKY, "a", "b");
  }

  // ---- What the turns put in and hand out ----

  function ArrivedAt<G, W, D>(turns: seq<Turn<G, W, D>>, sub: nat): seq<W> {
    if turns == [] then []
    else
      var n := |turns| - 1;
      ArrivedAt(turns[..n], sub) + if turns[n].Arrival? && turns[n].sub == sub then [turns[n].w] else []
  }

  function PolledBy<G, W, D>(turns: seq<Turn<G, W, D>>, sub: nat): seq<D> {
    if turns == [] then []
    else
      var n := |turns| - 1;
      PolledBy(turns[..n], sub) + if turns[n].Poll? && turns[n].sub == sub then Handed(turns[n].r) else []
  }

  /** What arrived at a subscription are the messages the turns brought it, and what was returned to it is what
      its polls handed back, each in order. */
  lemma {:induction false} DeskKeepsTurns<G, W, D>(m: Machine<G, W, D>, g: G, first: nat, turns: seq<Turn<G, W, D>>,
                                                   sub: nat)
    requires Life(m, g, first, turns).Some?
    ensures var s := Life(m, g, first, turns).value;
      && ArrivedAt(turns, sub) == (if sub in s.streams then s.streams[sub].arrived else [])
      && PolledBy(turns, sub) == ReturnedTo(s.fates, sub)
    decreases |turns|
  {
    if turns != [] {
      var n := |turns| - 1;
      DeskKeepsTurns(m, g, first, turns[..n], sub);
      TurnReturns(m, Life(m, g, first, turns[..n]).value, turns[n], sub);
      TurnArrives(m, Life(m, g, first, turns[..n]).value, turns[n], sub);
    }
  }

  lemma TurnArrives<G, W, D>(m: Machine<G, W, D>, s: Desk<G, W, D>, turn: Turn<G, W, D>, sub: nat)
    requires Allowed(m, s, turn)
    ensures var was := if sub in s.streams then s.streams[sub].arrived else [];
      var now := Take(m, s, turn).streams;
      (if sub in now then now[sub].arrived else []) == was + if turn.Arrival? && turn.sub == sub then [turn.w] else []
  {
  }

  lemma TurnReturns<G, W, D>(m: Machine<G, W, D>, s: Desk<G, W, D>, turn: Turn<G, W, D>, sub: nat)
    requires Allowed(m, s, turn)
    ensures ReturnedTo(Take(m, s, turn).fates, sub) ==
      ReturnedTo(s.fates, sub) + if turn.Poll? && turn.sub == sub then Handed(turn.r) else []
  {
    match turn
    case Open(_, _) => NotReturned(s.fates, DropAll(s.e.inbox), sub);
    case Poll(who, _, _, r, _) =>
      var lost := DiscardAll(LostIn(m, s, turn));
      assert s.fates + (HandTo(who, r) + lost) == s.fates + HandTo(who, r) + lost;
      NotReturned(s.fates + HandTo(who, r), lost, sub);
      HandedOnce(s.fates, who, r, sub);
    case _ =>
  }

  lemma {:induction false} NotReturned<D>(fates: seq<Fate<D>>, more: seq<Fate<D>>, sub: nat)
    requires forall f <- more :: !f.Returned?
    ensures ReturnedTo(fates + more, sub) == ReturnedTo(fates, sub)
    decreases |more|
  {
    if more == [] {
      assert fates + more == fates;
    } else {
      var n := |more| - 1;
      NotReturned(fates, more[..n], sub);
      assert (fates + more)[..|fates + more| - 1] == fates + more[..n];
    }
  }

  lemma HandedOnce<D>(fates: seq<Fate<D>>, who: nat, r: Outcome<Option<D>>, sub: nat)
    ensures ReturnedTo(fates + HandTo(who, r), sub) == ReturnedTo(fates, sub) + if who == sub then Handed(r) else []
  {
    if HandTo(who, r) == [] {
      assert fates + HandTo(who, r) == fates;
    } else {
      assert (fates + HandTo(who, r))[..|fates|] == fates;
    }
  }
}
