/** The output directory on the host: created component by component under the project, on a
    filesystem whose symlinks may point anywhere, and never outside the project. */
module DistDir {
  import opened Text
  import opened Wrappers

  /** An absolute path with every name resolved: the names from the root down. */
  type Path = seq<string>

  datatype Component = RootDir | CurDir | ParentDir | Normal(name: string)

  datatype Node = Dir | File | Link(target: seq<Component>)

  type Nodes = map<Path, Node>

  const MAX_SYMLINKS: nat := 40

  // ----- paths as text -----------------------------------------------------------------------

  /** `trim().is_empty()` */
  predicate Blank(s: string) {
    forall i :: 0 <= i < |s| ==> IsWhitespace(s[i])
  }

  function ComponentsOf(pieces: seq<string>, first: bool): seq<Component> {
    if pieces == [] then []
    else
      var rest := ComponentsOf(pieces[1..], false);
      if pieces[0] == "" then rest
      else if pieces[0] == "." then (if first then [CurDir] else []) + rest
      else if pieces[0] == ".." then [ParentDir] + rest
      else [Normal(pieces[0])] + rest
  }

  /** `Path::components`: repeated separators and inner dots vanish. */
  function Components(s: string): seq<Component> {
    if s != "" && s[0] == '/' then [RootDir] + ComponentsOf(Split(s[1..], '/'), false)
    else ComponentsOf(Split(s, '/'), true)
  }

  predicate Safe(c: Component) {
    c.CurDir? || c.Normal?
  }

  /** What the configuration check asks of `[output].dir`. */
  predicate OutputDirAccepted(dir: string) {
    !Blank(dir) && forall i :: 0 <= i < |Components(dir)| ==> Safe(Components(dir)[i])
  }

  /** The names a text leads through: its pieces between slashes, without the empty ones and the dots. */
  function NamesIn(pieces: seq<string>): Path {
    if pieces == [] then []
    else (if pieces[0] == "" || pieces[0] == "." then [] else [pieces[0]]) + NamesIn(pieces[1..])
  }

  predicate AllSafe(components: seq<Component>) {
    forall i :: 0 <= i < |components| ==> Safe(components[i])
  }

  lemma AllSafeCons(c: Component, rest: seq<Component>)
    ensures AllSafe([c] + rest) <==> Safe(c) && AllSafe(rest)
  {
    assert ([c] + rest)[0] == c;
    assert forall i :: 0 <= i < |rest| ==> ([c] + rest)[i + 1] == rest[i];
  }

  lemma {:induction false} PiecesSafe(pieces: seq<string>, first: bool)
    ensures AllSafe(ComponentsOf(pieces, first)) <==> ".." !in pieces
  {
    if pieces != [] {
      PiecesSafe(pieces[1..], false);
      var rest := ComponentsOf(pieces[1..], false);
      assert ".." in pieces <==> pieces[0] == ".." || ".." in pieces[1..];
      assert [] + rest == rest;
      AllSafeCons(CurDir, rest);
      AllSafeCons(ParentDir, rest);
      AllSafeCons(Normal(pieces[0]), rest);
    }
  }

  /** As text: the setting passes the check exactly if it is not blank, does not begin at the root and
      no piece of it between slashes is two dots. */
  lemma AcceptedText(dir: string)
    ensures OutputDirAccepted(dir) <==>
      (exists i :: 0 <= i < |dir| && !IsWhitespace(dir[i])) && dir[0] != '/' && ".." !in Split(dir, '/')
  {
    assert Blank(dir) <==> !exists i :: 0 <= i < |dir| && !IsWhitespace(dir[i]);
    EmptyIsBlank();
    hide Blank;
    if dir != "" && dir[0] == '/' {
      assert |Components(dir)| > 0 && Components(dir)[0] == RootDir;
    } else if dir != "" {
      PiecesSafe(Split(dir, '/'), true);
      assert Components(dir) == ComponentsOf(Split(dir, '/'), true);
    }
  }

  lemma EmptyIsBlank()
    ensures Blank("")
  {
  }

  // ----- resolution --------------------------------------------------------------------------

  /** Follows `todo` from the directory `done`, through at most `links` symlinks. */
  function Walk(ns: Nodes, done: Path, todo: seq<Component>, links: nat): Option<Path>
    decreases links, |todo|
  {
    if todo == [] then (if done in ns then Some(done) else None)
    else
      match todo[0]
      case RootDir => Walk(ns, [], todo[1..], links)
      case CurDir => Walk(ns, done, todo[1..], links)
      case ParentDir => Walk(ns, if done == [] then [] else done[..|done| - 1], todo[1..], links)
      case Normal(name) =>
        var p := done + [name];
        if p !in ns then None
        else
          match ns[p]
          case Dir => Walk(ns, p, todo[1..], links)
          case File => if |todo| == 1 then Some(p) else None
          case Link(target) => if links == 0 then None else Walk(ns, done, target + todo[1..], links - 1)
  }

  function Named(p: Path): (r: seq<Component>)
    ensures |r| == |p| && forall i :: 0 <= i < |p| ==> r[i] == Normal(p[i])
  {
    seq(|p|, i requires 0 <= i < |p| => Normal(p[i]))
  }

  function Canonicalize(ns: Nodes, p: seq<Component>): Option<Path> {
    Walk(ns, [], p, MAX_SYMLINKS)
  }

  /** Every directory on the way is really one; the last name may be a file's. */
  predicate DirsTo(ns: Nodes, p: Path, k: nat)
    requires k <= |p|
  {
    forall i :: 0 <= i < k ==> p[..i] in ns && ns[p[..i]].Dir?
  }

  predicate IsDirPath(ns: Nodes, p: Path) {
    DirsTo(ns, p, |p|) && p in ns && ns[p].Dir?
  }

  predicate Canonical(ns: Nodes, p: Path) {
    DirsTo(ns, p, |p|) && p in ns && !ns[p].Link?
  }

  lemma DirPathParent(ns: Nodes, p: Path)
    requires IsDirPath(ns, p) && p != []
    ensures IsDirPath(ns, p[..|p| - 1])
  {
    var up := p[..|p| - 1];
    assert forall i :: 0 <= i <= |up| ==> p[..i] == (if i < |up| then up[..i] else up);
  }

  lemma DirPathChild(ns: Nodes, p: Path, name: string)
    requires IsDirPath(ns, p)
    ensures DirsTo(ns, p + [name], |p| + 1)
  {
    var q := p + [name];
    assert forall i :: 0 <= i <= |p| ==> q[..i] == (if i < |p| then p[..i] else p);
  }

  /** Resolution only ever ends at a path without symlinks. */
  lemma {:induction false} WalkIsCanonical(ns: Nodes, done: Path, todo: seq<Component>, links: nat)
    requires IsDirPath(ns, done) && IsDirPath(ns, [])
    requires Walk(ns, done, todo, links).Some?
    ensures Canonical(ns, Walk(ns, done, todo, links).value)
    decreases links, |todo|
  {
    if todo != [] {
      match todo[0]
      case RootDir => WalkIsCanonical(ns, [], todo[1..], links);
      case CurDir => WalkIsCanonical(ns, done, todo[1..], links);
      case ParentDir =>
        if done != [] { DirPathParent(ns, done); }
        WalkIsCanonical(ns, if done == [] then [] else done[..|done| - 1], todo[1..], links);
      case Normal(name) =>
        DirPathChild(ns, done, name);
        match ns[done + [name]]
        case Dir => WalkIsCanonical(ns, done + [name], todo[1..], links);
        case File =>
        case Link(target) => WalkIsCanonical(ns, done, target + todo[1..], links - 1);
    }
  }

  /** A path that is canonical already resolves to itself. */
  lemma {:induction false} WalkStays(ns: Nodes, p: Path, k: nat, links: nat)
    requires k <= |p| && Canonical(ns, p)
    ensures Walk(ns, p[..k], Named(p)[k..], links) == Some(p)
    decreases |p| - k
  {
    if k == |p| {
      assert p[..k] == p;
    } else {
      assert p[..k + 1] == p[..k] + [p[k]];
      assert Named(p)[k..][0] == Normal(p[k]) && Named(p)[k..][1..] == Named(p)[k + 1..];
      if k + 1 < |p| || ns[p].Dir? {
        assert ns[p[..k + 1]].Dir? by { assert k + 1 == |p| ==> p[..k + 1] == p; }
        WalkStays(ns, p, k + 1, links);
      } else {
        assert p[..k + 1] == p;
      }
    }
  }

  /** Resolution goes on from where a canonical directory leads. */
  lemma {:induction false} WalkFrom(ns: Nodes, p: Path, k: nat, rest: seq<Component>, links: nat)
    requires k <= |p| && IsDirPath(ns, p)
    ensures Walk(ns, p[..k], Named(p)[k..] + rest, links) == Walk(ns, p, rest, links)
    decreases |p| - k
  {
    if k == |p| {
      assert p[..k] == p && Named(p)[k..] + rest == rest;
    } else {
      var todo := Named(p)[k..] + rest;
      assert p[..k + 1] == p[..k] + [p[k]];
      assert todo[0] == Normal(p[k]) && todo[1..] == Named(p)[k + 1..] + rest;
      assert p[..k + 1] in ns && ns[p[..k + 1]].Dir? by { assert k + 1 == |p| ==> p[..k + 1] == p; }
      WalkFrom(ns, p, k + 1, rest, links);
    }
  }

  /** From a canonical directory: up to its parent, which the root is of itself; into a directory in it; and
      through a symlink in it to wherever the target leads from there, with one link fewer to spare. */
  lemma StepsFrom(ns: Nodes, p: Path, name: string)
    requires IsDirPath(ns, p)
    ensures Canonicalize(ns, Named(p) + [ParentDir]) == Some(if p == [] then [] else p[..|p| - 1])
    ensures var q := p + [name];
      Canonicalize(ns, Named(p) + [Normal(name)]) ==
      if q !in ns then None
      else match ns[q]
           case Dir => Some(q)
           case File => Some(q)
           case Link(target) => Walk(ns, p, target, MAX_SYMLINKS - 1)
  {
    WalkFrom(ns, p, 0, [ParentDir], MAX_SYMLINKS);
    WalkFrom(ns, p, 0, [Normal(name)], MAX_SYMLINKS);
    assert p[..0] == [] && Named(p)[0..] == Named(p);
    if p != [] {
      DirPathParent(ns, p);
    }
    if p + [name] in ns && ns[p + [name]].Link? {
      assert ns[p + [name]].target + [Normal(name)][1..] == ns[p + [name]].target;
    }
  }

  lemma ResolvedIsCanonical(ns: Nodes, p: seq<Component>)
    requires IsDirPath(ns, []) && Canonicalize(ns, p).Some?
    ensures Canonical(ns, Canonicalize(ns, p).value)
  {
    WalkIsCanonical(ns, [], p, MAX_SYMLINKS);
  }

  lemma CanonicalizeIdempotent(ns: Nodes, p: seq<Component>)
    requires IsDirPath(ns, []) && Canonicalize(ns, p).Some?
    ensures Canonical(ns, Canonicalize(ns, p).value)
    ensures Canonicalize(ns, Named(Canonicalize(ns, p).value)) == Canonicalize(ns, p)
  {
    WalkIsCanonical(ns, [], p, MAX_SYMLINKS);
    var q := Canonicalize(ns, p).value;
    WalkStays(ns, q, 0, MAX_SYMLINKS);
    assert q[..0] == [] && Named(q)[0..] == Named(q);
  }

  /** New directories do not change what resolved before. */
  lemma {:induction false} WalkKeeps(ns: Nodes, q: Path, done: Path, todo: seq<Component>, links: nat)
    requires q !in ns && Walk(ns, done, todo, links).Some?
    ensures Walk(ns[q := Dir], done, todo, links) == Walk(ns, done, todo, links)
    decreases links, |todo|
  {
    if todo != [] {
      match todo[0]
      case RootDir => WalkKeeps(ns, q, [], todo[1..], links);
      case CurDir => WalkKeeps(ns, q, done, todo[1..], links);
      case ParentDir => WalkKeeps(ns, q, if done == [] then [] else done[..|done| - 1], todo[1..], links);
      case Normal(name) =>
        match ns[done + [name]]
        case Dir => WalkKeeps(ns, q, done + [name], todo[1..], links);
        case File =>
        case Link(target) => WalkKeeps(ns, q, done, target + todo[1..], links - 1);
    }
  }

  /** Where the components lead from `at`, one name at a time, each resolved before the next. */
  function Follow(ns: Nodes, at: Path, components: seq<Component>): Option<Path> {
    if components == [] then Some(at)
    else
      match Follow(ns, at, components[..|components| - 1])
      case None => None
      case Some(p) =>
        match components[|components| - 1]
        case CurDir => Some(p)
        case Normal(name) => Canonicalize(ns, Named(p + [name]))
        case _ => None
  }

  lemma {:induction false} FollowKeeps(ns: Nodes, q: Path, at: Path, components: seq<Component>)
    requires q !in ns && Follow(ns, at, components).Some?
    ensures Follow(ns[q := Dir], at, components) == Follow(ns, at, components)
  {
    if components != [] {
      var before := components[..|components| - 1];
      FollowKeeps(ns, q, at, before);
      match components[|components| - 1]
      case Normal(name) => WalkKeeps(ns, q, [], Named(Follow(ns, at, before).value + [name]), MAX_SYMLINKS);
      case _ =>
    }
  }

  /** The names among the components. */
  function Names(components: seq<Component>): Path {
    if components == [] then []
    else
      Names(components[..|components| - 1])
      + if components[|components| - 1].Normal? then [components[|components| - 1].name] else []
  }

  lemma {:induction false} NamesCons(c: Component, rest: seq<Component>)
    ensures Names([c] + rest) == (if c.Normal? then [c.name] else []) + Names(rest)
  {
    if rest == [] {
      assert [c] + rest == [c] && [c][..0] == [];
    } else {
      var last := rest[|rest| - 1];
      assert ([c] + rest)[..|rest|] == [c] + rest[..|rest| - 1];
      NamesCons(c, rest[..|rest| - 1]);
    }
  }

  lemma {:induction false} PiecesNamed(pieces: seq<string>, first: bool)
    requires ".." !in pieces
    ensures Names(ComponentsOf(pieces, first)) == NamesIn(pieces)
  {
    if pieces != [] {
      PiecesNamed(pieces[1..], false);
      var rest := ComponentsOf(pieces[1..], false);
      assert pieces[0] != "..";
      assert [] + rest == rest;
      NamesCons(CurDir, rest);
      NamesCons(Normal(pieces[0]), rest);
      assert [] + Names(rest) == Names(rest);
    }
  }

  /** As text: the names of an accepted setting are its pieces, empty ones and dots aside. */
  lemma NamesText(dir: string)
    requires OutputDirAccepted(dir)
    ensures Names(Components(dir)) == NamesIn(Split(dir, '/'))
  {
    AcceptedText(dir);
    PiecesNamed(Split(dir, '/'), true);
  }

  /** Nothing but real directories, or nothing at all, where the names point below `at`. */
  predicate Plain(ns: Nodes, at: Path, names: Path) {
    forall k :: 0 <= k <= |names| && at + names[..k] in ns ==> ns[at + names[..k]].Dir?
  }

  // ----- creating ----------------------------------------------------------------------------

  datatype Problem = NoProject | EmptyDir | BadComponent | CannotCreate | CannotResolve | Outside

  /** `failed` records a call that failed for no reason of the filesystem's shape. */
  class HostFs {
    var nodes: Nodes
    ghost var failed: bool

    constructor (ns: Nodes)
      ensures nodes == ns && !failed
    {
      nodes, failed := ns, false;
    }

    /** `mkdir`: the last name is not followed, so anything there, a dangling symlink included, is
        "already exists". `Some(true)` made it. */
    method CreateDir(parent: Path, name: string) returns (r: Option<bool>)
      modifies this
      ensures r == Some(true) ==>
        && parent + [name] !in old(nodes) && IsDirPath(old(nodes), parent)
        && nodes == old(nodes)[parent + [name] := Dir]
      ensures r == Some(false) ==> parent + [name] in nodes
      ensures r != Some(true) ==> nodes == old(nodes)
      ensures r == None ==> failed || !IsDirPath(nodes, parent)
      ensures old(failed) ==> failed
    {
      if parent + [name] in nodes {
        return Some(false);
      }
      if !IsDirPath(nodes, parent) {
        return None;
      }
      var fails: bool := *;
      if fails {
        failed := true;
        return None;
      }
      nodes := nodes[parent + [name] := Dir];
      return Some(true);
    }
  }

  /** `now` has `was`'s nodes and new directories, each directly under a path that is canonical and
      inside the project. */
  predicate OnlyInside(was: Nodes, now: Nodes, project: Path) {
    && (forall p :: p in was ==> p in now && now[p] == was[p])
    && (forall p :: p in now && p !in was ==>
          now[p].Dir? && p != [] && project <= p[..|p| - 1] && IsDirPath(now, p[..|p| - 1]))
  }

  /** A new directory where nothing was changes no path that is there. */
  lemma NewDirKeeps(ns: Nodes, q: Path, p: Path)
    requires q !in ns
    ensures IsDirPath(ns, p) ==> IsDirPath(ns[q := Dir], p)
    ensures Canonical(ns, p) ==> Canonical(ns[q := Dir], p)
  {
  }

  lemma CreationInside(was: Nodes, ns: Nodes, project: Path, parent: Path, name: string)
    requires OnlyInside(was, ns, project) && parent + [name] !in ns && IsDirPath(ns, parent) && project <= parent
    ensures OnlyInside(was, ns[parent + [name] := Dir], project)
  {
    hide IsDirPath, Canonical;
    var q, now := parent + [name], ns[parent + [name] := Dir];
    assert q[..|q| - 1] == parent;
    forall p | p in now && p !in was
      ensures now[p].Dir? && p != [] && project <= p[..|p| - 1] && IsDirPath(now, p[..|p| - 1])
    {
      if p == q {
        NewDirKeeps(ns, q, parent);
      } else {
        NewDirKeeps(ns, q, p[..|p| - 1]);
      }
    }
  }

  lemma InsideNothing(ns: Nodes, project: Path)
    ensures OnlyInside(ns, ns, project)
  {
  }

  /** What the loop has established after some of the components. */
  ghost predicate Reached(was: Nodes, ns: Nodes, project: Path, done: seq<Component>, at: Path) {
    && OnlyInside(was, ns, project) && IsDirPath(ns, [])
    && Canonical(ns, at) && project <= at
    && Follow(ns, project, done) == Some(at)
    && (IsDirPath(was, project) && Plain(was, project, Names(done)) ==>
          IsDirPath(ns, at) && at == project + Names(done))
  }

  lemma ReachedStart(ns: Nodes, project: Path)
    requires Canonical(ns, project) && IsDirPath(ns, [])
    ensures Reached(ns, ns, project, [], project)
  {
    assert project + [] == project;
  }

  lemma ReachedMeans(was: Nodes, ns: Nodes, project: Path, done: seq<Component>, at: Path)
    requires Reached(was, ns, project, done, at)
    ensures OnlyInside(was, ns, project) && IsDirPath(ns, []) && Canonical(ns, at) && project <= at
    ensures Follow(ns, project, done) == Some(at)
    ensures IsDirPath(was, project) && Plain(was, project, Names(done)) ==> IsDirPath(ns, at) && at == project + Names(done)
  {
  }

  lemma PlainPrefix(was: Nodes, project: Path, done: seq<Component>, c: Component)
    ensures Names(done + [c]) == Names(done) + if c.Normal? then [c.name] else []
    ensures Plain(was, project, Names(done + [c])) ==> Plain(was, project, Names(done))
  {
    assert (done + [c])[..|done|] == done;
    var names, longer := Names(done), Names(done + [c]);
    assert forall k :: 0 <= k <= |names| ==> names[..k] == longer[..k];
  }

  lemma ReachedCurDir(was: Nodes, ns: Nodes, project: Path, done: seq<Component>, at: Path)
    requires Reached(was, ns, project, done, at)
    ensures Reached(was, ns, project, done + [CurDir], at)
  {
    hide OnlyInside, IsDirPath, Canonical, Plain;
    PlainPrefix(was, project, done, CurDir);
    assert (done + [CurDir])[..|done|] == done;
    assert Names(done) + [] == Names(done);
  }

  /** `mkdir` made the directory. */
  lemma ReachedCreated(was: Nodes, ns: Nodes, project: Path, done: seq<Component>, at: Path, name: string)
    requires Reached(was, ns, project, done, at) && at + [name] !in ns && IsDirPath(ns, at)
    ensures Reached(was, ns[at + [name] := Dir], project, done, at)
    ensures IsDirPath(ns[at + [name] := Dir], at + [name])
  {
    var q := at + [name];
    CreationInside(was, ns, project, at, name);
    NewDirKeeps(ns, q, []);
    NewDirKeeps(ns, q, at);
    FollowKeeps(ns, q, project, done);
    DirPathChild(ns[q := Dir], at, name);
  }

  lemma CanonicalOfDir(ns: Nodes, p: Path)
    requires Canonical(ns, p)
    ensures Canonicalize(ns, Named(p)) == Some(p)
  {
    WalkStays(ns, p, 0, MAX_SYMLINKS);
    assert p[..0] == [] && Named(p)[0..] == Named(p);
  }

  lemma FollowStep(ns: Nodes, project: Path, done: seq<Component>, at: Path, name: string)
    requires Follow(ns, project, done) == Some(at)
    ensures Follow(ns, project, done + [Normal(name)]) == Canonicalize(ns, Named(at + [name]))
  {
    assert (done + [Normal(name)])[..|done|] == done;
  }

  /** A name that is there and resolves to somewhere inside. */
  lemma ReachedNext(was: Nodes, ns: Nodes, project: Path, done: seq<Component>, at: Path, name: string, next: Path)
    requires Reached(was, ns, project, done, at) && at + [name] in ns
    requires Canonicalize(ns, Named(at + [name])) == Some(next) && project <= next
    ensures Reached(was, ns, project, done + [Normal(name)], next)
  {
    hide IsDirPath, Canonical, OnlyInside, Plain, Names, Canonicalize, Follow;
    FollowStep(ns, project, done, at, name);
    ResolvedIsCanonical(ns, Named(at + [name]));
    if IsDirPath(was, project) && Plain(was, project, Names(done + [Normal(name)])) {
      PlainStep(was, ns, project, done, at, name);
      CanonicalAt(ns, at + [name]);
      CanonicalOfDir(ns, at + [name]);
    }
  }

  lemma CanonicalAt(ns: Nodes, p: Path)
    requires IsDirPath(ns, p)
    ensures Canonical(ns, p)
  {
  }

  lemma PlainStep(was: Nodes, ns: Nodes, project: Path, done: seq<Component>, at: Path, name: string)
    requires Reached(was, ns, project, done, at) && at + [name] in ns
    requires IsDirPath(was, project) && Plain(was, project, Names(done + [Normal(name)]))
    ensures IsDirPath(ns, at + [name]) && at + [name] == project + Names(done + [Normal(name)])
  {
    PlainPrefix(was, project, done, Normal(name));
    var names := Names(done + [Normal(name)]);
    assert at + [name] == project + names;
    assert names[..|names|] == names;
    DirPathChild(ns, at, name);
  }

  /** Whatever symlinks there are: directories are only made directly under canonical paths inside the
      project, nothing else changes, and a path that is returned is where the components lead and lies
      inside the project. A setting the configuration check accepts is never turned down for its
      components, and where no symlink or file is in the way and no call fails, it gives the plain path. */
  method HostDistDir(fs: HostFs, dir: string, projectDir: seq<Component>) returns (r: Result<Path, Problem>)
    requires IsDirPath(fs.nodes, [])
    modifies fs
    ensures match Canonicalize(old(fs.nodes), projectDir)
            case None => r == Err(NoProject) && fs.nodes == old(fs.nodes)
            case Some(project) =>
              && OnlyInside(old(fs.nodes), fs.nodes, project)
              && (r.Ok? ==> Canonical(fs.nodes, r.value) && project <= r.value)
              && (r.Ok? ==> Follow(fs.nodes, project, Components(dir)) == Some(r.value))
              && (r.Ok? ==> OutputDirAccepted(dir))
              && (OutputDirAccepted(dir) && IsDirPath(old(fs.nodes), project)
                  && Plain(old(fs.nodes), project, Names(Components(dir))) && !fs.failed ==>
                  r == Ok(project + Names(Components(dir))))
    ensures OutputDirAccepted(dir) ==> r != Err(EmptyDir) && r != Err(BadComponent)
  {
    hide IsDirPath, Canonical, OnlyInside, Blank, Components, Plain, Names, Follow, Reached, OutputDirAccepted, Canonicalize;
    ghost var was := fs.nodes;
    var canonical := Canonicalize(fs.nodes, projectDir);
    if canonical.None? {
      return Err(NoProject);
    }
    var project := canonical.value;
    ResolvedIsCanonical(fs.nodes, projectDir);
    ReachedStart(fs.nodes, project);
    InsideNothing(fs.nodes, project);
    if Blank(dir) {
      Blanks(dir);
      return Err(EmptyDir);
    }
    var components := Components(dir);
    var outputDir := project;
    var i := 0;
    assert components[..0] == [];
    while i < |components|
      invariant 0 <= i <= |components|
      invariant Reached(was, fs.nodes, project, components[..i], outputDir)
      invariant forall k :: 0 <= k < i ==> Safe(components[k])
    {
      assert components[..i + 1] == components[..i] + [components[i]];
      var next := Descend(fs, outputDir, components[i], project, was, components, i);
      if next.Err? {
        if next == Err(BadComponent) {
          Rejected(dir, i);
        } else if OutputDirAccepted(dir) {
          SafeAt(dir, i);
        }
        return Err(next.error);
      }
      outputDir := next.value;
      i := i + 1;
    }
    assert components[..|components|] == components;
    ReachedMeans(was, fs.nodes, project, components, outputDir);
    Accepted(dir);
    r := Ok(outputDir);
  }

  /** One turn of the loop. */
  method Descend(fs: HostFs, at: Path, c: Component, project: Path, ghost was: Nodes,
                 ghost components: seq<Component>, ghost i: nat) returns (r: Result<Path, Problem>)
    requires i < |components| && components[i] == c
    requires Reached(was, fs.nodes, project, components[..i], at)
    modifies fs
    ensures OnlyInside(was, fs.nodes, project)
    ensures r.Ok? ==> Safe(c) && Reached(was, fs.nodes, project, components[..i + 1], r.value)
    ensures r == Err(BadComponent) ==> !Safe(c)
    ensures r != Err(NoProject) && r != Err(EmptyDir)
    ensures r.Err? && Safe(c) && IsDirPath(was, project) && Plain(was, project, Names(components)) ==> fs.failed
  {
    hide IsDirPath, Canonical, OnlyInside, Plain, Names, Follow, Reached, Canonicalize;
    assert components[..i + 1] == components[..i] + [c];
    ReachedMeans(was, fs.nodes, project, components[..i], at);
    PlainSoFar(was, project, components, i);
    match c {
      case CurDir =>
        ReachedCurDir(was, fs.nodes, project, components[..i], at);
        return Ok(at);
      case Normal(name) =>
        ghost var before := fs.nodes;
        var created := fs.CreateDir(at, name);
        if created.None? {
          return Err(CannotCreate);
        }
        if created.value {
          ReachedCreated(was, before, project, components[..i], at, name);
          ReachedMeans(was, fs.nodes, project, components[..i], at);
        }
        var resolved := Canonicalize(fs.nodes, Named(at + [name]));
        PlainResolves(was, fs.nodes, project, components, i, at, name);
        if resolved.None? {
          return Err(CannotResolve);
        }
        if !(project <= resolved.value) {
          return Err(Outside);
        }
        ReachedNext(was, fs.nodes, project, components[..i], at, name, resolved.value);
        return Ok(resolved.value);
      case _ =>
        return Err(BadComponent);
    }
  }

  lemma SafeAt(dir: string, i: nat)
    requires OutputDirAccepted(dir) && i < |Components(dir)|
    ensures Safe(Components(dir)[i])
  {
  }

  lemma Accepted(dir: string)
    requires !Blank(dir) && forall k :: 0 <= k < |Components(dir)| ==> Safe(Components(dir)[k])
    ensures OutputDirAccepted(dir)
  {
  }

  lemma Rejected(dir: string, i: nat)
    requires i < |Components(dir)| && !Safe(Components(dir)[i])
    ensures !OutputDirAccepted(dir)
  {
  }

  lemma Blanks(dir: string)
    requires Blank(dir)
    ensures !OutputDirAccepted(dir)
  {
  }

  lemma {:induction false} PlainSoFar(was: Nodes, project: Path, components: seq<Component>, i: nat)
    requires i <= |components|
    ensures Plain(was, project, Names(components)) ==> Plain(was, project, Names(components[..i]))
    decreases |components|
  {
    if i == |components| {
      assert components[..i] == components;
    } else {
      var before := components[..|components| - 1];
      assert components == before + [components[|components| - 1]];
      PlainPrefix(was, project, before, components[|components| - 1]);
      assert before[..i] == components[..i];
      PlainSoFar(was, project, before, i);
    }
  }

  lemma PlainResolves(was: Nodes, ns: Nodes, project: Path, components: seq<Component>, i: nat, at: Path, name: string)
    requires i < |components| && components[i] == Normal(name)
    requires Reached(was, ns, project, components[..i], at) && at + [name] in ns
    ensures IsDirPath(was, project) && Plain(was, project, Names(components)) ==>
      Canonicalize(ns, Named(at + [name])) == Some(at + [name]) && project <= at + [name]
  {
    hide IsDirPath, Plain, Names, Canonicalize, Reached, Canonical;
    if IsDirPath(was, project) && Plain(was, project, Names(components)) {
      PlainSoFar(was, project, components, i + 1);
      assert components[..i + 1] == components[..i] + [Normal(name)];
      PlainStep(was, ns, project, components[..i], at, name);
      CanonicalOfDir(ns, at + [name]);
    }
  }
}
