/** The node registry: one live node for one directory, by a key resolved when it is named and again
    before it starts anything. */
module Registry {
  import opened Wrappers
  import opened Paths

  datatype NodeConfig = NodeConfig(appId: Option<string>, dataDir: Option<Path>)

  /** `None` is the loopback broker. */
  type Key = Option<NodeConfig>

  /** A node of its own takes a host that permits real networking and a build that carries the ring. */
  function BackendKey(requested: Key, permitted: bool, ring: bool): Key {
    if permitted && ring then requested else None
  }

  function SettleKey(fs: Filesystem, key: Key): Key {
    match key
    case Some(NodeConfig(app, Some(dir))) => Some(NodeConfig(app, Some(Canonical(fs, dir))))
    case _ => key
  }

  /** The registry's map, and every node made so far with the key it was made for. */
  datatype Book = Book(nodes: map<Key, nat>, made: seq<Key>)

  /** What a caller asks for, and the world at that moment: the filesystem, and whether a transport
      would come up. */
  datatype Request = Request(requested: Key, permitted: bool, fs: Filesystem, starts: bool)
  {
    function Asks(ring: bool): Key { BackendKey(requested, permitted, ring) }

    function Settled(ring: bool): Key { SettleKey(fs, Asks(ring)) }
  }

  /** The broker always comes up. */
  predicate ComesUp(key: Key, starts: bool) { key.None? || starts }

  /** The registry rule on values: a known key answers; so does a known settled key, which the asked one
      then aliases; otherwise, if one comes up, a node is made for the settled key and entered under
      both. */
  function Answered(book: Book, key: Key, settled: Key, up: bool): (Book, Option<nat>) {
    if key in book.nodes then (book, Some(book.nodes[key]))
    else if settled in book.nodes then
      (book.(nodes := book.nodes[key := book.nodes[settled]]), Some(book.nodes[settled]))
    else if !up then (book, None)
    else
      var n := |book.made|;
      (Book(book.nodes[key := n][settled := n], book.made + [settled]), Some(n))
  }

  /** The registry of one run: a mutable map beside the nodes it started. */
  class Registrar {
    const ring: bool
    var nodes: map<Key, nat>
    var made: seq<Key>

    constructor (ring: bool)
      ensures this.ring == ring && ToBook() == Book(map[], [])
    {
      this.ring, nodes, made := ring, map[], [];
    }

    function ToBook(): Book
      reads this
    {
      Book(nodes, made)
    }

    /** Starts a node for `key`: the transport may refuse, the broker cannot. */
    method CreateBackend(key: Key, starts: bool) returns (node: Option<nat>)
      modifies this`made
      ensures node == (if ComesUp(key, starts) then Some(|old(made)|) else None)
      ensures made == (if ComesUp(key, starts) then old(made) + [key] else old(made))
    {
      if key.None? || starts {
        node := Some(|made|);
        made := made + [key];
      } else {
        node := None;
      }
    }

    method BackendIn(requested: Key, permitted: bool, fs: Filesystem, starts: bool) returns (node: Option<nat>)
      modifies this
      ensures
        var key := BackendKey(requested, permitted, ring);
        var settled := SettleKey(fs, key);
        (ToBook(), node) == Answered(old(ToBook()), key, settled, ComesUp(settled, starts))
    {
      var key := BackendKey(requested, permitted, ring);
      if key in nodes {
        return Some(nodes[key]);
      }
      var settled := SettleKey(fs, key);
      var moved := settled != key;
      if moved && settled in nodes {
        node := Some(nodes[settled]);
        nodes := nodes[key := nodes[settled]];
        return;
      }
      var backend := CreateBackend(settled, starts);
      if backend.None? { return None; }
      assert !moved ==> nodes[key := backend.value][settled := backend.value] == nodes[settled := backend.value];
      if moved {
        nodes := nodes[key := backend.value];
      }
      nodes := nodes[settled := backend.value];
      return backend;
    }
  }

  /** A run's book, with the key each entry settled onto when it was entered. */
  datatype Life = Life(book: Book, settledAs: map<Key, Key>)

  const NEWBORN := Life(Book(map[], []), map[])

  function Entered(life: Life, key: Key, settled: Key, up: bool): Life {
    var book := Answered(life.book, key, settled, up).0;
    if key in life.book.nodes then life
    else if settled in life.book.nodes then Life(book, life.settledAs[key := settled])
    else if !up then life
    else Life(book, life.settledAs[key := settled][settled := settled])
  }

  function Answer(life: Life, ring: bool, r: Request): Option<nat> {
    Answered(life.book, r.Asks(ring), r.Settled(ring), ComesUp(r.Settled(ring), r.starts)).1
  }

  function After(life: Life, ring: bool, r: Request): Life {
    Entered(life, r.Asks(ring), r.Settled(ring), ComesUp(r.Settled(ring), r.starts))
  }

  /** Any requests, each against a filesystem of its own. */
  function Lived(ring: bool, requests: seq<Request>): Life {
    if requests == [] then NEWBORN
    else After(Lived(ring, requests[..|requests| - 1]), ring, requests[|requests| - 1])
  }

  /** An entry shares its node with the key it settled onto, and one that settled onto itself is the key its
      node was made for. */
  ghost predicate Fits(life: Life, k: Key)
    requires k in life.book.nodes && k in life.settledAs
  {
    var nodes := life.book.nodes;
    && nodes[k] < |life.book.made|
    && life.settledAs[k] in nodes
    && nodes[life.settledAs[k]] == nodes[k]
    && (life.settledAs[k] == k ==> life.book.made[nodes[k]] == k)
  }

  /** The key a node was made for leads to that node, and settled onto itself. */
  ghost predicate Housed(life: Life, n: nat)
    requires n < |life.book.made|
  {
    var k := life.book.made[n];
    k in life.book.nodes && life.book.nodes[k] == n && k in life.settledAs && life.settledAs[k] == k
  }

  ghost predicate Sound(life: Life) {
    && life.settledAs.Keys == life.book.nodes.Keys
    && (forall k {:trigger Fits(life, k)} | k in life.book.nodes :: Fits(life, k))
    && (forall n {:trigger Housed(life, n)} | 0 <= n < |life.book.made| :: Housed(life, n))
  }

  lemma AliasedIsSound(life: Life, key: Key, settled: Key)
    requires Sound(life) && key !in life.book.nodes && settled in life.book.nodes
    ensures Sound(Entered(life, key, settled, true))
  {
    var next := Entered(life, key, settled, true);
    assert key !in life.settledAs;
    forall k <- next.book.nodes ensures Fits(next, k) {
      assert Fits(life, if k == key then settled else k);
    }
    forall n | 0 <= n < |next.book.made| ensures Housed(next, n) {
      assert Housed(life, n);
    }
  }

  lemma MadeIsSound(life: Life, key: Key, settled: Key)
    requires Sound(life) && key !in life.book.nodes && settled !in life.book.nodes
    ensures Sound(Entered(life, key, settled, true))
  {
    var next := Entered(life, key, settled, true);
    assert key !in life.settledAs && settled !in life.settledAs;
    forall k <- next.book.nodes ensures Fits(next, k) {
      if k in life.book.nodes {
        assert Fits(life, k);
        assert life.settledAs[k] in life.book.nodes;
      }
    }
    forall n | 0 <= n < |next.book.made| ensures Housed(next, n) {
      if n < |life.book.made| {
        assert Housed(life, n);
        assert next.book.made[n] == life.book.made[n];
      }
    }
  }

  lemma EnteredIsSound(life: Life, key: Key, settled: Key, up: bool)
    requires Sound(life)
    ensures Sound(Entered(life, key, settled, up))
  {
    if key !in life.book.nodes {
      if settled in life.book.nodes {
        AliasedIsSound(life, key, settled);
      } else {
        MadeIsSound(life, key, settled);
      }
    }
  }

  lemma {:induction false} LivedIsSound(ring: bool, requests: seq<Request>)
    ensures Sound(Lived(ring, requests))
    decreases |requests|
  {
    if requests != [] {
      var n := |requests| - 1;
      LivedIsSound(ring, requests[..n]);
      var r := requests[n];
      EnteredIsSound(Lived(ring, requests[..n]), r.Asks(ring), r.Settled(ring), ComesUp(r.Settled(ring), r.starts));
    }
  }

  /** Nothing entered changes later, and no node made later is for a key that was entered. */
  ghost predicate Kept(was: Life, now: Life) {
    && was.book.made <= now.book.made
    && (forall n | |was.book.made| <= n < |now.book.made| :: now.book.made[n] !in was.book.nodes)
    && was.book.nodes.Keys <= now.book.nodes.Keys
    && was.settledAs.Keys <= now.settledAs.Keys
    && (forall k <- was.book.nodes :: now.book.nodes[k] == was.book.nodes[k])
    && (forall k <- was.settledAs :: now.settledAs[k] == was.settledAs[k])
  }

  lemma EnteredKeeps(life: Life, key: Key, settled: Key, up: bool)
    requires life.settledAs.Keys == life.book.nodes.Keys
    ensures Kept(life, Entered(life, key, settled, up))
  {
    assert key in life.settledAs <==> key in life.book.nodes;
    assert settled in life.settledAs <==> settled in life.book.nodes;
  }

  /** Whatever the filesystem does between the requests, an entry never rebinds, its settled key stays what
      it was when it was entered, and no node is forgotten. */
  lemma {:induction false} EntriesNeverRebind(ring: bool, early: seq<Request>, late: seq<Request>)
    ensures Kept(Lived(ring, early), Lived(ring, early + late))
    decreases |late|
  {
    if late == [] {
      assert early + late == early;
    } else {
      var n := |late| - 1;
      EntriesNeverRebind(ring, early, late[..n]);
      assert (early + late)[..|early + late| - 1] == early + late[..n];
      var r := (early + late)[|early + late| - 1];
      LivedIsSound(ring, early + late[..n]);
      EnteredKeeps(Lived(ring, early + late[..n]), r.Asks(ring), r.Settled(ring), ComesUp(r.Settled(ring), r.starts));
    }
  }

  /** In every run: no two nodes were made for one settled key, and two keys that settled onto one key when
      first served share a node. */
  lemma OneKeyOneNode(ring: bool, requests: seq<Request>)
    ensures
      var life := Lived(ring, requests);
      && life.settledAs.Keys == life.book.nodes.Keys
      && (forall m, n | 0 <= m < n < |life.book.made| :: life.book.made[m] != life.book.made[n])
      && (forall j, k | j in life.book.nodes && k in life.book.nodes && life.settledAs[j] == life.settledAs[k] ::
            life.book.nodes[j] == life.book.nodes[k])
  {
    var life := Lived(ring, requests);
    LivedIsSound(ring, requests);
    forall m, n | 0 <= m < n < |life.book.made| ensures life.book.made[m] != life.book.made[n] {
      assert Housed(life, m) && Housed(life, n);
    }
    forall j, k | j in life.book.nodes && k in life.book.nodes && life.settledAs[j] == life.settledAs[k]
      ensures life.book.nodes[j] == life.book.nodes[k]
    {
      assert Fits(life, j) && Fits(life, k);
    }
  }

  /** Requests that name no node of their own, or that the host or the build keeps off the network, are all
      answered, and by one broker, whenever they come. */
  lemma OneBroker(ring: bool, early: seq<Request>, r: Request, late: seq<Request>, r': Request)
    requires !ring || !r.permitted || r.requested.None?
    requires !ring || !r'.permitted || r'.requested.None?
    ensures Answer(Lived(ring, early), ring, r).Some?
    ensures Answer(Lived(ring, early + [r] + late), ring, r') == Answer(Lived(ring, early), ring, r)
  {
    assert (early + [r])[..|early|] == early;
    EntriesNeverRebind(ring, early + [r], late);
  }

  /** The configuration `r` asks for, where host and build allow a node of its own, its directory named as the
      filesystem has it at that moment. */
  ghost predicate IsFor(key: Key, ring: bool, r: Request) {
    && ring && r.permitted && r.requested.Some? && key.Some?
    && key.value.appId == r.requested.value.appId
    && match r.requested.value.dataDir
       case None => key.value.dataDir == None
       case Some(dir) => key.value.dataDir == Some(Canonical(r.fs, dir))
  }

  /** Every node but the broker was made on such a request. */
  lemma {:induction false} NodesAreMadeOnRequest(ring: bool, requests: seq<Request>, n: nat) returns (i: nat)
    requires n < |Lived(ring, requests).book.made| && Lived(ring, requests).book.made[n] != None
    ensures i < |requests| && IsFor(Lived(ring, requests).book.made[n], ring, requests[i])
    decreases |requests|
  {
    i := |requests| - 1;
    var before := Lived(ring, requests[..i]).book;
    if n < |before.made| {
      i := NodesAreMadeOnRequest(ring, requests[..i], n);
    }
  }

  /** An entry leads to the broker's node exactly if it is the broker's own. */
  ghost predicate BrokerApart(book: Book) {
    forall k <- book.nodes :: book.nodes[k] < |book.made| && (book.made[book.nodes[k]] == None <==> k == None)
  }

  lemma AnsweredKeepsApart(book: Book, key: Key, settled: Key, up: bool)
    requires BrokerApart(book) && (key == None <==> settled == None)
    ensures BrokerApart(Answered(book, key, settled, up).0)
  {
  }

  lemma {:induction false} LivedKeepsApart(ring: bool, requests: seq<Request>)
    ensures BrokerApart(Lived(ring, requests).book)
    decreases |requests|
  {
    if requests != [] {
      var n := |requests| - 1;
      var r := requests[n];
      LivedKeepsApart(ring, requests[..n]);
      AnsweredKeepsApart(Lived(ring, requests[..n]).book, r.Asks(ring), r.Settled(ring),
                         ComesUp(r.Settled(ring), r.starts));
    }
  }

  /** A request gets the broker exactly if it names no node of its own or is kept off the network. */
  lemma BrokerIff(ring: bool, requests: seq<Request>, r: Request)
    ensures
      var life := Lived(ring, requests);
      var node := Answer(life, ring, r);
      node.Some? ==>
        && node.value < |After(life, ring, r).book.made|
        && (After(life, ring, r).book.made[node.value] == None <==> !ring || !r.permitted || r.requested.None?)
  {
    LivedKeepsApart(ring, requests);
    var book := Lived(ring, requests).book;
    AnsweredKeepsApart(book, r.Asks(ring), r.Settled(ring), ComesUp(r.Settled(ring), r.starts));
    assert r.Asks(ring) in Lived(ring, requests).book.nodes || Answer(Lived(ring, requests), ring, r).None?
        || r.Asks(ring) in After(Lived(ring, requests), ring, r).book.nodes;
  }

  /** A request goes unanswered exactly if it is for a node of its own that neither the key asked for nor the
      one it settles onto leads to, and the transport refuses; and then nothing is entered. */
  lemma UnansweredIff(ring: bool, requests: seq<Request>, r: Request)
    ensures
      var life := Lived(ring, requests);
      && (Answer(life, ring, r).None? <==>
            && ring && r.permitted && r.requested.Some? && !r.starts
            && r.requested !in life.book.nodes && r.Settled(ring) !in life.book.nodes)
      && (Answer(life, ring, r).None? ==> After(life, ring, r) == life)
  {
  }

  lemma SettlingIsIdempotent(fs: Filesystem, key: Key)
    requires Lawful(fs)
    ensures SettleKey(fs, SettleKey(fs, key)) == SettleKey(fs, key)
  {
    if key.Some? && key.value.dataDir.Some? {
      CanonicalIsIdempotent(fs, key.value.dataDir.value);
    }
  }

  ghost predicate AllSettled(life: Life, fs: Filesystem) {
    forall k <- life.settledAs :: life.settledAs[k] == SettleKey(fs, k)
  }

  lemma {:induction false} SteadyRunsSettle(ring: bool, requests: seq<Request>, fs: Filesystem)
    requires Lawful(fs) && forall r <- requests :: r.fs == fs
    ensures AllSettled(Lived(ring, requests), fs)
    decreases |requests|
  {
    if requests != [] {
      var n := |requests| - 1;
      SteadyRunsSettle(ring, requests[..n], fs);
      SettlingIsIdempotent(fs, requests[n].Asks(ring));
    }
  }

  /** While the filesystem stands still, two entries are one node exactly when their names are one
      directory. */
  lemma SteadyIsOneDirectoryOneNode(ring: bool, requests: seq<Request>, fs: Filesystem, j: Key, k: Key)
    requires Lawful(fs) && forall r <- requests :: r.fs == fs
    requires j in Lived(ring, requests).book.nodes && k in Lived(ring, requests).book.nodes
    ensures
      var nodes := Lived(ring, requests).book.nodes;
      nodes[j] == nodes[k] <==> SettleKey(fs, j) == SettleKey(fs, k)
  {
    var life := Lived(ring, requests);
    SteadyRunsSettle(ring, requests, fs);
    LivedIsSound(ring, requests);
    assert Fits(life, j) && Fits(life, k);
    HomeIsSettled(life, fs, j);
    HomeIsSettled(life, fs, k);
  }

  lemma HomeIsSettled(life: Life, fs: Filesystem, k: Key)
    requires Sound(life) && AllSettled(life, fs) && Lawful(fs) && k in life.book.nodes
    ensures life.book.nodes[k] < |life.book.made|
    ensures life.book.made[life.book.nodes[k]] == SettleKey(fs, k)
  {
    var s := SettleKey(fs, k);
    assert Fits(life, k) && life.settledAs[k] == s;
    SettlingIsIdempotent(fs, k);
    assert Fits(life, s) && s in life.settledAs;
  }

  /** An entry that settled onto another key: the stale spelling of a directory already named. */
  predicate IsAlias(life: Life, k: Key) {
    k in life.settledAs && life.settledAs[k] != k
  }

  /** The settled key is no alias; and a key already entered shares its node with the one it settles onto
      now. */
  predicate LeadsHome(life: Life, asked: Key, settled: Key) {
    var nodes := life.book.nodes;
    && !IsAlias(life, settled)
    && (asked in nodes ==> settled in nodes && nodes[settled] == nodes[asked])
  }

  /** Whatever is asked, known or not, the node handed out is the one made for the directory the key names
      now exactly when that directory's name is no alias of another one and, if the key is already entered,
      leads to the same node as the key. And a node is made, if at all, for a settled key that led nowhere. */
  lemma ServedByItsOwnNodeIff(ring: bool, requests: seq<Request>, r: Request)
    ensures
      var life := Lived(ring, requests);
      var node := Answer(life, ring, r);
      node.Some? ==>
        && node.value < |After(life, ring, r).book.made|
        && (After(life, ring, r).book.made[node.value] == r.Settled(ring)
            <==> LeadsHome(life, r.Asks(ring), r.Settled(ring)))
    ensures
      var was, now := Lived(ring, requests).book, After(Lived(ring, requests), ring, r).book;
      now.made != was.made ==> r.Settled(ring) !in was.nodes && now.made == was.made + [r.Settled(ring)]
  {
    var life, asked, settled := Lived(ring, requests), r.Asks(ring), r.Settled(ring);
    LivedIsSound(ring, requests);
    assert settled in life.settledAs <==> settled in life.book.nodes;
    if asked in life.book.nodes {
      assert Fits(life, asked);
      assert Housed(life, life.book.nodes[asked]);
    }
    if settled in life.book.nodes {
      assert Fits(life, settled);
      assert Housed(life, life.book.nodes[settled]);
    }
  }

  const ROOT := Path(true, [])

  function At(name: string): Path { Path(true, [Name(name)]) }

  function Named(name: string): Key { Some(NodeConfig(None, Some(At(name)))) }

  /** A filesystem of one directory, `target`, and one symlink to it. */
  function LinksTo(link: string, target: string): Filesystem {
    Filesystem(p => if p == ROOT then Some(ROOT)
                    else if p == At(link) || p == At(target) then Some(At(target))
                    else None, None)
  }

  const LINKED := LinksTo("link", "home")

  /** `link` has become a directory, and `other` a symlink to it. */
  const RELINKED := LinksTo("other", "link")

  /** `link` is a symlink to the directory `cottage`. */
  const MOVED := LinksTo("link", "cottage")

  lemma LinksAreLawful(link: string, target: string)
    ensures Lawful(LinksTo(link, target))
  {
    var fs := LinksTo(link, target);
    forall p: Path, s: string {:trigger p.Child(Name(s))}
      ensures fs.resolve(p.Child(Name(s))) ==
        if fs.resolve(p).None? then None else fs.resolve(fs.resolve(p).value.Child(Name(s)))
    {
      assert p.Child(Name(s)).segments != [];
      assert p.segments != [] ==> |p.Child(Name(s)).segments| > 1;
      if p.segments == [] && p.rooted {
        assert p == ROOT;
      }
    }
  }

  lemma ExampleSettles(fs: Filesystem, name: string, q: Path)
    requires fs.resolve(At(name)) == Some(q)
    ensures SettleKey(fs, Named(name)) == Some(NodeConfig(None, Some(q)))
  {
    assert Names([]) == [];
    assert q.Extended([]) == q;
  }

  lemma LinkIsHome()
    ensures
      var life := Lived(true, [Request(Named("link"), true, LINKED, true)]);
      && life.book.nodes == map[Named("link") := 0, Named("home") := 0]
      && life.book.made == [Named("home")]
      && life.settledAs == map[Named("link") := Named("home"), Named("home") := Named("home")]
  {
    ExampleSettles(LINKED, "link", At("home"));
    var r := Request(Named("link"), true, LINKED, true);
    assert [r][..0] == [];
    assert Lived(true, [r]) == After(NEWBORN, true, r);
    assert At("link").segments[0] != At("home").segments[0];
  }

  /** Two directories can share a node: `link` settles onto `home` and is kept as its alias; once `link` is
      a directory of its own, a spelling that settles onto it is answered with the node of `home`. */
  lemma AnAliasCapturesALaterDirectory()
    ensures
      var r := Request(Named("link"), true, LINKED, true);
      var r' := Request(Named("other"), true, RELINKED, true);
      var life := Lived(true, [r]);
      && Lawful(LINKED) && Lawful(RELINKED)
      && r'.Settled(true) == Named("link")
      && Answer(life, true, r') == Some(0)
      && After(life, true, r').book.made == [Named("home")]
  {
    LinksAreLawful("link", "home");
    LinksAreLawful("other", "link");
    LinkIsHome();
    ExampleSettles(RELINKED, "other", At("link"));
    assert At("link").segments[0] != At("home").segments[0];
    assert At("other").segments[0] != At("home").segments[0] && At("other").segments[0] != At("link").segments[0];
  }

  /** So does the stale spelling itself: it keeps answering with the node of `home`, both once `link` is a
      directory of its own and once it points to `cottage`, which no key is an alias of. */
  lemma AStaleNameKeepsItsNode()
    ensures
      var life := Lived(true, [Request(Named("link"), true, LINKED, true)]);
      var own := Request(Named("link"), true, RELINKED, true);
      var moved := Request(Named("link"), true, MOVED, true);
      && Lawful(LINKED) && Lawful(RELINKED) && Lawful(MOVED)
      && own.Settled(true) == Named("link")
      && moved.Settled(true) == Named("cottage") && !IsAlias(life, Named("cottage"))
      && Answer(life, true, own) == Some(0) == Answer(life, true, moved)
      && life.book.made == [Named("home")]
  {
    LinksAreLawful("link", "home");
    LinksAreLawful("other", "link");
    LinksAreLawful("link", "cottage");
    LinkIsHome();
    ExampleSettles(RELINKED, "link", At("link"));
    ExampleSettles(MOVED, "link", At("cottage"));
    assert At("cottage").segments[0] != At("home").segments[0];
    assert At("cottage").segments[0] != At("link").segments[0];
  }
}
