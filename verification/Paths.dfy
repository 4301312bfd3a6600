/** Names for directories: resolution of the longest existing ancestor, with the rest kept as it was
    spelled. */
module Paths {
  import opened Wrappers

  /** A component: a name, or a step to the parent. `.` and repeated slashes never survive into one. */
  datatype Segment = Name(s: string) | Up

  datatype Path = Path(rooted: bool, segments: seq<Segment>)
  {
    function Child(seg: Segment): Path { Path(rooted, segments + [seg]) }

    function Parent(): Option<Path> {
      if segments == [] then None else Some(Path(rooted, segments[..|segments| - 1]))
    }

    /** The last component, when it is a name. */
    function FileName(): Option<string> {
      if segments == [] then None
      else match segments[|segments| - 1]
        case Name(s) => Some(s)
        case Up => None
    }

    function Extended(names: seq<string>): Path {
      Path(rooted, segments + Names(names))
    }
  }

  function Names(names: seq<string>): seq<Segment> {
    seq(|names|, i requires 0 <= i < |names| => Name(names[i]))
  }

  /** One moment of the filesystem: what each path resolves to, if it exists, and the working directory
      if it can be read. */
  datatype Filesystem = Filesystem(resolve: Path -> Option<Path>, cwd: Option<Path>)

  /** A result is rooted and resolves to itself; and a child resolves through its parent's result. */
  ghost predicate Lawful(fs: Filesystem) {
    && (fs.cwd.Some? ==> fs.cwd.value.rooted)
    && (forall p: Path {:trigger fs.resolve(p)} :: fs.resolve(p).Some? ==>
          fs.resolve(p).value.rooted && fs.resolve(fs.resolve(p).value) == fs.resolve(p))
    && (forall p: Path, s: string {:trigger fs.resolve(p.Child(Name(s)))} ::
          fs.resolve(p.Child(Name(s))) ==
            match fs.resolve(p)
            case None => None
            case Some(q) => fs.resolve(q.Child(Name(s))))
  }

  /** Rooted already, or under the working directory; a failure leaves the path as it was. */
  function Absolute(fs: Filesystem, p: Path): Path {
    if p.rooted || p.segments == [] || fs.cwd.None? then p
    else Path(fs.cwd.value.rooted, fs.cwd.value.segments + p.segments)
  }

  /** The name of `absolute` when `probe` is the part still to try and `tail` was stripped off it. */
  function Probe(fs: Filesystem, absolute: Path, probe: Path, tail: seq<string>): Path
    decreases |probe.segments|
  {
    match fs.resolve(probe)
    case Some(q) => q.Extended(tail)
    case None =>
      if probe.FileName().Some? then Probe(fs, absolute, probe.Parent().value, [probe.FileName().value] + tail)
      else absolute
  }

  function Canonical(fs: Filesystem, dir: Path): Path {
    var absolute := Absolute(fs, dir);
    Probe(fs, absolute, absolute, [])
  }

  function Reversed(s: seq<string>): seq<string> {
    if s == [] then [] else Reversed(s[1..]) + [s[0]]
  }

  method CanonicalDir(fs: Filesystem, dir: Path) returns (name: Path)
    ensures name == Canonical(fs, dir)
  {
    var absolute := Absolute(fs, dir);
    var probe := absolute;
    var tail: seq<string> := [];
    while true
      invariant Canonical(fs, dir) == Probe(fs, absolute, probe, Reversed(tail))
      decreases |probe.segments|
    {
      var resolved := fs.resolve(probe);
      if resolved.Some? {
        return resolved.value.Extended(Reversed(tail));
      }
      var last := probe.FileName();
      var parent := probe.Parent();
      if parent.None? || last.None? { return absolute; }
      ReversedSnoc(tail, last.value);
      tail := tail + [last.value];
      probe := parent.value;
    }
  }

  lemma {:induction false} ReversedSnoc(s: seq<string>, x: string)
    ensures Reversed(s + [x]) == [x] + Reversed(s)
    decreases |s|
  {
    if s != [] {
      ReversedSnoc(s[1..], x);
      assert (s + [x])[1..] == s[1..] + [x];
    }
  }

  /** `p` is the longest ancestor of `absolute` that exists, `tail` the names below it. */
  ghost predicate LongestResolvable(fs: Filesystem, absolute: Path, p: Path, tail: seq<string>) {
    && absolute == p.Extended(tail)
    && fs.resolve(p).Some?
    && forall k | 0 < k <= |tail| :: fs.resolve(p.Extended(tail[..k])).None?
  }

  lemma ExtendedChild(p: Path, names: seq<string>, s: string)
    ensures p.Extended(names + [s]) == p.Extended(names).Child(Name(s))
  {
    assert Names(names + [s]) == Names(names) + [Name(s)];
    assert p.segments + (Names(names) + [Name(s)]) == (p.segments + Names(names)) + [Name(s)];
  }

  lemma ExtendedHead(p: Path, s: string, names: seq<string>)
    ensures p.Child(Name(s)).Extended(names) == p.Extended([s] + names)
  {
    assert Names([s] + names) == [Name(s)] + Names(names);
    assert (p.segments + [Name(s)]) + Names(names) == p.segments + ([Name(s)] + Names(names));
  }

  /** Below the longest existing ancestor the loop strips every name and stops there. */
  lemma {:induction false} ProbeFinds(fs: Filesystem, absolute: Path, p: Path, names: seq<string>, tail: seq<string>)
    requires fs.resolve(p).Some?
    requires forall k | 0 < k <= |names| :: fs.resolve(p.Extended(names[..k])).None?
    ensures Probe(fs, absolute, p.Extended(names), tail) == fs.resolve(p).value.Extended(names + tail)
    decreases |names|
  {
    if names == [] {
      assert p.segments + [] == p.segments && names + tail == tail;
      assert p.Extended(names) == p;
    } else {
      var n := |names| - 1;
      assert names[..|names|] == names;
      assert names == names[..n] + [names[n]];
      ExtendedChild(p, names[..n], names[n]);
      var probe := p.Extended(names);
      assert probe == p.Extended(names[..n]).Child(Name(names[n]));
      assert probe.segments[..|probe.segments| - 1] == p.Extended(names[..n]).segments;
      assert probe.Parent() == Some(p.Extended(names[..n])) && probe.FileName() == Some(names[n]);
      forall k | 0 < k <= n ensures fs.resolve(p.Extended(names[..n][..k])).None? {
        assert names[..n][..k] == names[..k];
      }
      ProbeFinds(fs, absolute, p, names[..n], [names[n]] + tail);
      assert names[..n] + ([names[n]] + tail) == names + tail;
    }
  }

  /** The name is the resolution of the longest existing ancestor with the rest as spelled, so two
      spellings that resolve alike there, with one tail, are one name. */
  lemma NameIsLongestAncestor(fs: Filesystem, dir: Path, p: Path, tail: seq<string>)
    requires LongestResolvable(fs, Absolute(fs, dir), p, tail)
    ensures Canonical(fs, dir) == fs.resolve(p).value.Extended(tail)
  {
    ProbeFinds(fs, Absolute(fs, dir), p, tail, []);
    assert tail + [] == tail;
  }

  lemma SpellingsAgree(fs: Filesystem, a: Path, pa: Path, b: Path, pb: Path, tail: seq<string>)
    requires LongestResolvable(fs, Absolute(fs, a), pa, tail) && LongestResolvable(fs, Absolute(fs, b), pb, tail)
    requires fs.resolve(pa) == fs.resolve(pb)
    ensures Canonical(fs, a) == Canonical(fs, b)
  {
    NameIsLongestAncestor(fs, a, pa, tail);
    NameIsLongestAncestor(fs, b, pb, tail);
  }

  /** A relative spelling has the name of the same path spelled out under the working directory. */
  lemma RelativeIsUnderWorkingDirectory(fs: Filesystem, p: Path)
    requires Lawful(fs) && fs.cwd.Some? && !p.rooted && p.segments != []
    ensures Canonical(fs, p) == Canonical(fs, Path(fs.cwd.value.rooted, fs.cwd.value.segments + p.segments))
  {
  }

  /** A rooted spelling is tried as it stands, and so is one that cannot be made absolute. */
  lemma RootedIsTriedAsItStands(fs: Filesystem, p: Path, q: Path, tail: seq<string>)
    requires p.rooted || p.segments == [] || fs.cwd.None?
    requires LongestResolvable(fs, p, q, tail)
    ensures Canonical(fs, p) == fs.resolve(q).value.Extended(tail)
  {
    NameIsLongestAncestor(fs, p, q, tail);
  }

  /** No ancestor exists down to `p`, which cannot be stripped: the root, nothing at all, or `..`. */
  ghost predicate Stuck(fs: Filesystem, absolute: Path, p: Path, tail: seq<string>) {
    && absolute == p.Extended(tail)
    && p.FileName().None?
    && forall k | 0 <= k <= |tail| :: fs.resolve(p.Extended(tail[..k])).None?
  }

  /** Stripping names ends at an ancestor that exists, or nowhere, and then the path is kept. */
  lemma {:induction false} ProbeCases(fs: Filesystem, absolute: Path, probe: Path, tail: seq<string>)
      returns (p: Path, names: seq<string>)
    requires absolute == probe.Extended(tail)
    requires forall k | 0 < k <= |tail| :: fs.resolve(probe.Extended(tail[..k])).None?
    ensures
      || LongestResolvable(fs, absolute, p, names)
      || (Stuck(fs, absolute, p, names) && Probe(fs, absolute, probe, tail) == absolute)
    decreases |probe.segments|
  {
    p, names := probe, tail;
    if fs.resolve(probe).None? {
      assert tail[..0] == [] && probe.Extended([]) == probe;
      if probe.FileName().Some? {
        var parent, s := probe.Parent().value, probe.FileName().value;
        assert probe == parent.Child(Name(s));
        ExtendedHead(parent, s, tail);
        forall k | 0 < k <= |[s] + tail| ensures fs.resolve(parent.Extended(([s] + tail)[..k])).None? {
          assert ([s] + tail)[..k] == [s] + tail[..k - 1];
          ExtendedHead(parent, s, tail[..k - 1]);
        }
        p, names := ProbeCases(fs, absolute, parent, [s] + tail);
      }
    }
  }

  /** Every directory has a name: the longest existing ancestor's resolution with the rest as spelled, or,
      when stripping meets the root or `..` first, the absolute path itself. */
  lemma NameCases(fs: Filesystem, dir: Path) returns (p: Path, tail: seq<string>)
    ensures
      || (LongestResolvable(fs, Absolute(fs, dir), p, tail)
          && Canonical(fs, dir) == fs.resolve(p).value.Extended(tail))
      || (Stuck(fs, Absolute(fs, dir), p, tail) && Canonical(fs, dir) == Absolute(fs, dir))
  {
    var absolute := Absolute(fs, dir);
    assert absolute.segments + Names([]) == absolute.segments;
    p, tail := ProbeCases(fs, absolute, absolute, []);
    if LongestResolvable(fs, absolute, p, tail) {
      NameIsLongestAncestor(fs, dir, p, tail);
    }
  }

  /** The kept absolute path is used exactly when no such ancestor exists: wherever stripping is bound to
      stop, the existing ancestor is met first. */
  lemma ExistingIsMetFirst(fs: Filesystem, absolute: Path, p: Path, tail: seq<string>, p': Path, tail': seq<string>)
      returns (k: nat)
    requires LongestResolvable(fs, absolute, p, tail)
    requires absolute == p'.Extended(tail') && p'.FileName().None?
    ensures k <= |tail'| && p'.Extended(tail'[..k]) == p
    ensures !Stuck(fs, absolute, p', tail')
  {
    var n, m := |p.segments|, |p'.segments|;
    assert forall i | n <= i < |absolute.segments| :: absolute.segments[i] == Name(tail[i - n]);
    assert m > 0 ==> absolute.segments[m - 1] == p'.segments[m - 1] == Up;
    k := n - m;
    assert forall i | 0 <= i < n :: absolute.segments[i] == p.segments[i];
    assert forall i | 0 <= i < k :: Names(tail'[..k])[i] == Name(tail'[i]) == absolute.segments[m + i];
    assert p'.segments + Names(tail'[..k]) == p.segments;
  }

  /** Paths that resolve alike resolve alike with the same names below them. */
  lemma {:induction false} ResolvesBelow(fs: Filesystem, a: Path, b: Path, names: seq<string>)
    requires Lawful(fs) && fs.resolve(a) == fs.resolve(b)
    ensures fs.resolve(a.Extended(names)) == fs.resolve(b.Extended(names))
    decreases |names|
  {
    if names == [] {
      assert a.Extended([]) == a && b.Extended([]) == b;
    } else {
      var n := |names| - 1;
      ResolvesBelow(fs, a, b, names[..n]);
      assert names == names[..n] + [names[n]];
      ExtendedChild(a, names[..n], names[n]);
      ExtendedChild(b, names[..n], names[n]);
    }
  }

  /** Naming a name changes nothing: on one filesystem a resolved key settles onto itself. */
  lemma CanonicalIsIdempotent(fs: Filesystem, dir: Path)
    requires Lawful(fs)
    ensures Canonical(fs, Canonical(fs, dir)) == Canonical(fs, dir)
  {
    var p, tail := NameCases(fs, dir);
    if LongestResolvable(fs, Absolute(fs, dir), p, tail) {
      var q := fs.resolve(p).value;
      assert fs.resolve(q) == Some(q);
      forall k | 0 < k <= |tail| ensures fs.resolve(q.Extended(tail[..k])).None? {
        ResolvesBelow(fs, p, q, tail[..k]);
      }
      assert Absolute(fs, q.Extended(tail)) == q.Extended(tail);
      NameIsLongestAncestor(fs, q.Extended(tail), q, tail);
    }
  }
}
