/** The scrub of writable directories before power-off: a recursive walk that changes files and
    directories in place. Any system call may fail; `failed` records whether a file's zeroing may
    have suffered from it and `stuck` whether an emptied directory stayed, so that what needs every
    call to succeed can be told apart from what holds regardless. A mount point is never removed,
    and that is no failure. */
module Scrub {
  import opened Bytes
  import opened DirGraph
  import opened Wrappers
  import opened ZeroWriter

  const MAX_SCRUB_DEPTH: nat := 64
  const SCRUB_CHUNK: nat := 16 * 1024

  /** `d_type`, as a directory listing reports it. */
  datatype FileType = Directory | RegularFile | SymbolicLink | Other | Unknown

  function TypeOf(ns: Nodes, e: Entry): FileType
    requires e.inode in ns
  {
    if !e.typed then Unknown
    else
      match ns[e.inode]
      case Dir(_) => Directory
      case File(_) => RegularFile
      case Symlink(_) => SymbolicLink
      case Special => Other
  }

  predicate Listed(listing: seq<(string, FileType)>, n: string) {
    exists k :: 0 <= k < |listing| && listing[k].0 == n
  }

  lemma ListedMore(listing: seq<(string, FileType)>, entry: (string, FileType))
    ensures Listed(listing + [entry], entry.0)
    ensures forall n :: Listed(listing, n) ==> Listed(listing + [entry], n)
  {
    var more := listing + [entry];
    assert more[|listing|].0 == entry.0;
    forall n | Listed(listing, n) ensures Listed(more, n) {
      var k :| 0 <= k < |listing| && listing[k].0 == n;
      assert more[k].0 == n;
    }
  }

  const SCRATCH_ROOTS: seq<string> := ["/var/tmp", "/tmp", "/run", "/dev/shm"]

  /** What gets scrubbed, in order: in persistent mode `/var` itself is kept. */
  function WipeRoots(persistent: bool): seq<string> {
    SCRATCH_ROOTS + if persistent then [] else ["/var"]
  }

  /** The four scratch directories always, and `/var`, last of all, exactly when nothing on it is to
      outlive the guest. */
  lemma RootsByMode(persistent: bool, path: string)
    ensures path in WipeRoots(persistent) <==>
      path == "/var/tmp" || path == "/tmp" || path == "/run" || path == "/dev/shm" || (path == "/var" && !persistent)
    ensures !persistent ==> WipeRoots(persistent)[|WipeRoots(persistent)| - 1] == "/var"
  {
    assert SCRATCH_ROOTS[0] == "/var/tmp" && SCRATCH_ROOTS[1] == "/tmp";
    assert SCRATCH_ROOTS[2] == "/run" && SCRATCH_ROOTS[3] == "/dev/shm";
  }

  /** How many levels of directories a walk at this depth still looks at. */
  function Levels(depth: nat): nat {
    if depth < MAX_SCRUB_DEPTH then MAX_SCRUB_DEPTH - depth else 0
  }

  /** What the walk owes each entry of a directory it reads, one level above the last `levels - 1`. */
  ghost predicate Handled(was: Nodes, now: Nodes, d: Inode, n: string, levels: nat, stuck: bool)
    requires levels > 0
  {
    Has(was, d, n) ==>
      && (IsFile(was, To(was, d, n)) ==> !Has(now, d, n))
      && (To(was, d, n) in was && was[To(was, d, n)].Symlink? && At(was, d, n).typed ==> !Has(now, d, n))
      && Swept(was, now, To(was, d, n), levels - 1)
      && (!stuck && !At(was, d, n).mounted && Removable(was, To(was, d, n), levels - 1) ==> !Has(now, d, n))
  }

  lemma HandledStays(was: Nodes, now: Nodes, later: Nodes, d: Inode, n: string, levels: nat, failed: bool,
                    s0: bool, s1: bool)
    requires levels > 0 && Closed(now) && Shrinks(now, later, failed) && Handled(was, now, d, n, levels, s0)
    requires s0 ==> s1
    ensures Handled(was, later, d, n, levels, s1)
  {
    if Has(was, d, n) {
      if Has(later, d, n) {
        HasBefore(now, later, d, n, failed);
      }
      forall x | Walks(was, To(was, d, n), levels - 1, x) ensures Clean(later, x) {
        CleanStays(now, later, x, failed);
      }
    }
  }

  /** What was owed earlier is owed no more than what is owed now: an entry gone since was released,
      and directories cut off since are empty. */
  lemma HandledSince(start: Nodes, was: Nodes, now: Nodes, d: Inode, n: string, levels: nat, before: bool, failed: bool,
                    stuck: bool)
    requires levels > 0 && Closed(start) && Closed(was)
    requires Shrinks(start, was, before) && Shrinks(was, now, failed) && Handled(was, now, d, n, levels, stuck)
    ensures Handled(start, now, d, n, levels, stuck)
  {
    if Has(start, d, n) {
      var x := To(start, d, n);
      assert Kept(start[x], was[x]);
      if Has(now, d, n) {
        HasBefore(was, now, d, n, failed);
      }
      if Has(was, d, n) {
        HasBefore(start, was, d, n, before);
        if Removable(start, x, levels - 1) {
          RemovableStays(start, was, x, levels - 1, before);
        }
      }
      forall y | Walks(start, x, levels - 1, y) ensures Clean(now, y) {
        WalksOrEmpty(start, was, x, levels - 1, y, before);
        if Empty(was, y) {
          CleanStays(was, now, y, failed);
        } else if Has(was, d, n) {
          HasBefore(start, was, d, n, before);
        }
      }
    }
  }

  lemma AllHandled(was: Nodes, now: Nodes, d: Inode, levels: nat, failed: bool, stuck: bool)
    requires levels > 0 && IsDir(was, d) && Closed(was) && Shrinks(was, now, failed)
    requires forall n :: Has(was, d, n) ==> Handled(was, now, d, n, levels, stuck)
    ensures Swept(was, now, d, levels)
    ensures !stuck && Removable(was, d, levels) ==> Empty(now, d)
  {
    assert Kept(was[d], now[d]);
    forall x | Walks(was, d, levels, x) ensures Clean(now, x) {
      if x == d {
        forall n | Has(now, d, n)
          ensures !IsFile(now, To(now, d, n))
          ensures !(To(now, d, n) in now && now[To(now, d, n)].Symlink? && At(now, d, n).typed)
        {
          HasBefore(was, now, d, n, failed);
          assert Kept(was[To(now, d, n)], now[To(now, d, n)]);
        }
      } else {
        var n :| Has(was, d, n) && Walks(was, To(was, d, n), levels - 1, x);
        assert Handled(was, now, d, n, levels, stuck);
      }
    }
    if !stuck && Removable(was, d, levels) {
      forall n | Has(was, d, n) ensures !Has(now, d, n) {
        assert Handled(was, now, d, n, levels, stuck);
      }
      assert forall n :: Has(now, d, n) ==> Has(was, d, n);
      assert forall n :: n in now[d].entries ==> Has(now, d, n);
    }
  }

  /** What every part of the walk promises: the graph only shrinks, only under `d`, and an error is
      never forgotten. */
  ghost predicate Progress(was: Nodes, now: Nodes, before: bool, failed: bool, d: Inode, levels: nat) {
    (before ==> failed) && Closed(now) && Shrinks(was, now, failed) && Within(was, now, d, levels)
  }

  lemma NoProgress(ns: Nodes, before: bool, failed: bool, d: Inode, levels: nat)
    requires Closed(ns) && (before ==> failed)
    ensures Progress(ns, ns, before, failed, d, levels)
  {
    ShrinksNot(ns, failed);
  }

  lemma ProgressTwice(a: Nodes, b: Nodes, c: Nodes, f0: bool, f1: bool, f2: bool, d: Inode, levels: nat)
    requires Closed(a) && Progress(a, b, f0, f1, d, levels) && Progress(b, c, f1, f2, d, levels)
    ensures Progress(a, c, f0, f2, d, levels)
  {
    ShrinksTwice(a, b, c, f1, f2);
    WithinTwice(a, b, c, d, levels, f1);
  }

  lemma RemovalProgress(ns: Nodes, d: Inode, n: string, levels: nat, failed: bool)
    requires Closed(ns) && levels > 0 && Has(ns, d, n) && Released(ns, To(ns, d, n), failed)
    ensures Progress(ns, WithoutEntry(ns, d, n), failed, failed, d, levels)
  {
    RemovalShrinks(ns, d, n, failed);
    RemovalWithin(ns, d, n, levels);
    ClosedShrinks(ns, WithoutEntry(ns, d, n), failed);
  }

  lemma OverwriteProgress(ns: Nodes, d: Inode, n: string, bytes: seq<byte>, levels: nat, before: bool, failed: bool)
    requires Closed(ns) && levels > 0 && Has(ns, d, n) && IsFile(ns, To(ns, d, n)) && (before ==> failed)
    requires Kept(ns[To(ns, d, n)], File(bytes))
    ensures Progress(ns, ns[To(ns, d, n) := File(bytes)], before, failed, d, levels)
  {
    OverwriteShrinks(ns, To(ns, d, n), bytes, failed);
    OverwriteWithin(ns, d, n, levels, bytes);
    ClosedShrinks(ns, ns[To(ns, d, n) := File(bytes)], failed);
  }

  lemma SubwalkProgress(was: Nodes, now: Nodes, before: bool, failed: bool, d: Inode, n: string, levels: nat)
    requires levels > 0 && Has(was, d, n) && Progress(was, now, before, failed, To(was, d, n), levels - 1)
    ensures Progress(was, now, before, failed, d, levels)
  {
    WithinUp(was, now, d, n, levels);
  }

  // ----- one entry, and one listing ----------------------------------------------------------

  /** An entry that is not a directory is handled once it is gone, if it had to go. */
  lemma NonDirHandled(was: Nodes, now: Nodes, d: Inode, n: string, levels: nat, stuck: bool)
    requires levels > 0
    requires Has(was, d, n) ==>
      var x := To(was, d, n);
      && !IsDir(was, x)
      && (IsFile(was, x) || (x in was && was[x].Symlink? && At(was, d, n).typed) ==> !Has(now, d, n))
    ensures Handled(was, now, d, n, levels, stuck)
  {
  }

  /** A directory is handled once it has been walked and, should that have emptied it, removed. */
  lemma SubwalkHandled(was: Nodes, between: Nodes, now: Nodes, d: Inode, n: string, levels: nat, before: bool, failed: bool,
                      stuck: bool)
    requires levels > 0 && Closed(between) && Has(was, d, n) && IsDir(was, To(was, d, n))
    requires Shrinks(was, between, before) && Shrinks(between, now, failed)
    requires Swept(was, between, To(was, d, n), levels - 1)
    requires !stuck && Removable(was, To(was, d, n), levels - 1) ==> Empty(between, To(was, d, n))
    requires !stuck && Has(between, d, n) && !At(between, d, n).mounted && Empty(between, To(between, d, n)) ==>
      !Has(now, d, n)
    ensures Handled(was, now, d, n, levels, stuck)
  {
    if Has(now, d, n) {
      HasBefore(between, now, d, n, failed);
      HasBefore(was, between, d, n, before);
    }
    forall x | Walks(was, To(was, d, n), levels - 1, x) ensures Clean(now, x) {
      CleanStays(between, now, x, failed);
    }
  }

  lemma DotHandled(ns: Nodes, d: Inode, n: string, levels: nat, stuck: bool)
    requires levels > 0 && Closed(ns) && (n == "." || n == "..")
    ensures Handled(ns, ns, d, n, levels, stuck)
  {
  }

  lemma TypeStays(was: Nodes, now: Nodes, d: Inode, n: string, failed: bool)
    requires Closed(was) && Closed(now) && Shrinks(was, now, failed) && Has(now, d, n)
    ensures Has(was, d, n) && TypeOf(now, At(now, d, n)) == TypeOf(was, At(was, d, n))
  {
    HasBefore(was, now, d, n, failed);
    assert Kept(was[To(was, d, n)], now[To(was, d, n)]);
  }

  ghost predicate AllOf(listing: seq<(string, FileType)>, i: nat, was: Nodes, now: Nodes, d: Inode, levels: nat,
                        stuck: bool)
    requires levels > 0 && i <= |listing|
  {
    forall k :: 0 <= k < i ==> Handled(was, now, d, listing[k].0, levels, stuck)
  }

  lemma OneMore(listing: seq<(string, FileType)>, i: nat, was: Nodes, before: Nodes, now: Nodes, d: Inode, levels: nat,
                f0: bool, f1: bool, s0: bool, s1: bool)
    requires levels > 0 && i < |listing| && Closed(was) && Closed(before) && (s0 ==> s1)
    requires Shrinks(was, before, f0) && Shrinks(before, now, f1)
    requires AllOf(listing, i, was, before, d, levels, s0) && Handled(before, now, d, listing[i].0, levels, s1)
    ensures AllOf(listing, i + 1, was, now, d, levels, s1)
  {
    hide Shrinks, Closed, Handled;
    forall k | 0 <= k < i + 1 ensures Handled(was, now, d, listing[k].0, levels, s1) {
      if k < i {
        HandledStays(was, before, now, d, listing[k].0, levels, f1, s0, s1);
      } else {
        HandledSince(was, before, now, d, listing[k].0, levels, f0, f1, s1);
      }
    }
  }

  lemma ListingDone(listing: seq<(string, FileType)>, was: Nodes, now: Nodes, d: Inode, levels: nat, failed: bool,
                   stuck: bool)
    requires levels > 0 && IsDir(was, d) && Closed(was) && Shrinks(was, now, failed)
    requires AllOf(listing, |listing|, was, now, d, levels, stuck) && forall n :: Has(was, d, n) ==> Listed(listing, n)
    ensures Swept(was, now, d, levels)
    ensures !stuck && Removable(was, d, levels) ==> Empty(now, d)
  {
    hide Shrinks, Closed, Handled, Removable, Swept;
    forall n | Has(was, d, n) ensures Handled(was, now, d, n, levels, stuck) {
      assert Listed(listing, n);
      var k :| 0 <= k < |listing| && listing[k].0 == n;
    }
    AllHandled(was, now, d, levels, failed, stuck);
  }

  // ----- several roots -----------------------------------------------------------------------

  ghost predicate AllSwept(was: Nodes, now: Nodes, roots: seq<string>, names: map<string, Inode>, stuck: bool) {
    forall p :: p in roots && p in names ==>
      && Swept(was, now, names[p], MAX_SCRUB_DEPTH)
      && (!stuck && Removable(was, names[p], MAX_SCRUB_DEPTH) ==> Empty(now, names[p]))
  }

  ghost predicate WithinRoots(was: Nodes, now: Nodes, roots: seq<string>, names: map<string, Inode>) {
    forall x :: x in was && x in now && now[x] != was[x] ==> exists p ::
      && p in roots && p in names
      && (Walks(was, names[p], MAX_SCRUB_DEPTH, x) || FileUnder(was, names[p], MAX_SCRUB_DEPTH, x))
  }

  /** Every file seen from a root is zeroed, and unless an emptied directory stayed a root of removable
      things is empty. */
  ghost predicate AllWiped(was: Nodes, now: Nodes, roots: seq<string>, names: map<string, Inode>, stuck: bool) {
    forall p :: p in roots && p in names ==>
      && FilesWiped(was, now, names[p], MAX_SCRUB_DEPTH)
      && (!stuck && Removable(was, names[p], MAX_SCRUB_DEPTH) ==> Empty(now, names[p]))
  }

  lemma NoRoots(ns: Nodes, names: map<string, Inode>, stuck: bool)
    ensures AllSwept(ns, ns, [], names, stuck) && WithinRoots(ns, ns, [], names)
  {
  }

  lemma SweptAllWiped(was: Nodes, now: Nodes, roots: seq<string>, names: map<string, Inode>, stuck: bool)
    requires Shrinks(was, now, false) && AllSwept(was, now, roots, names, stuck)
    ensures AllWiped(was, now, roots, names, stuck)
  {
    forall p | p in roots && p in names ensures FilesWiped(was, now, names[p], MAX_SCRUB_DEPTH) {
      SweptFilesWiped(was, now, names[p], MAX_SCRUB_DEPTH);
    }
  }

  lemma OneMoreRoot(was: Nodes, before: Nodes, now: Nodes, roots: seq<string>, path: string,
                    names: map<string, Inode>, f0: bool, f1: bool, s0: bool, s1: bool)
    requires Closed(was) && Closed(before) && (f0 ==> f1) && (s0 ==> s1)
    requires Shrinks(was, before, f0) && Shrinks(before, now, f1)
    requires !f0 ==> AllSwept(was, before, roots, names, s0)
    requires WithinRoots(was, before, roots, names)
    requires path !in names ==> now == before
    requires path in names ==> Within(before, now, names[path], MAX_SCRUB_DEPTH)
    requires path in names && !f1 ==> Swept(before, now, names[path], MAX_SCRUB_DEPTH)
    requires path in names && !f1 && !s1 && Removable(before, names[path], MAX_SCRUB_DEPTH) ==> Empty(now, names[path])
    ensures Shrinks(was, now, f1)
    ensures !f1 ==> AllSwept(was, now, roots + [path], names, s1)
    ensures WithinRoots(was, now, roots + [path], names)
  {
    ShrinksTwice(was, before, now, f0, f1);
    if !f1 {
      forall p | p in roots + [path] && p in names
        ensures Swept(was, now, names[p], MAX_SCRUB_DEPTH)
        ensures !s1 && Removable(was, names[p], MAX_SCRUB_DEPTH) ==> Empty(now, names[p])
      {
        SweptAtRoot(was, before, now, roots, path, p, names, s0, s1);
      }
    }
    forall x | x in was && x in now && now[x] != was[x]
      ensures exists p ::
        && p in roots + [path] && p in names
        && (Walks(was, names[p], MAX_SCRUB_DEPTH, x) || FileUnder(was, names[p], MAX_SCRUB_DEPTH, x))
    {
      if before[x] != was[x] {
        var p :| p in roots && p in names
          && (Walks(was, names[p], MAX_SCRUB_DEPTH, x) || FileUnder(was, names[p], MAX_SCRUB_DEPTH, x));
        assert p in roots + [path];
      } else {
        assert path in roots + [path];
        if Walks(before, names[path], MAX_SCRUB_DEPTH, x) {
          WalksBefore(was, before, names[path], MAX_SCRUB_DEPTH, x, f0);
        } else {
          FileUnderBefore(was, before, names[path], MAX_SCRUB_DEPTH, x, f0);
        }
      }
    }
  }

  lemma SweptAtRoot(was: Nodes, before: Nodes, now: Nodes, roots: seq<string>, path: string, p: string,
                    names: map<string, Inode>, s0: bool, s1: bool)
    requires (s0 ==> s1) && Closed(was) && Closed(before) && p in names && p in roots + [path]
    requires Shrinks(was, before, false) && Shrinks(before, now, false)
    requires AllSwept(was, before, roots, names, s0)
    requires path !in names ==> now == before
    requires path in names ==> Swept(before, now, names[path], MAX_SCRUB_DEPTH)
    requires path in names && !s1 && Removable(before, names[path], MAX_SCRUB_DEPTH) ==> Empty(now, names[path])
    ensures Swept(was, now, names[p], MAX_SCRUB_DEPTH)
    ensures !s1 && Removable(was, names[p], MAX_SCRUB_DEPTH) ==> Empty(now, names[p])
  {
    hide Removable, Swept, Walks;
    if p in roots {
      SweptStays(was, before, now, names[p], MAX_SCRUB_DEPTH, false);
      if !s1 && Removable(was, names[p], MAX_SCRUB_DEPTH) {
        assert Kept(before[names[p]], now[names[p]]);
      }
    } else {
      SweptSince(was, before, now, names[p], MAX_SCRUB_DEPTH, false, false);
      if !s1 && Removable(was, names[p], MAX_SCRUB_DEPTH) {
        RemovableStays(was, before, names[p], MAX_SCRUB_DEPTH, false);
      }
    }
  }

  class FileSystem {
    var nodes: Nodes
    ghost var failed: bool  // some open, read, write, sync or unlink was refused
    ghost var stuck: bool   // some empty directory that is no mount point was not removed

    constructor (ns: Nodes)
      ensures nodes == ns && !failed && !stuck
    {
      nodes, failed, stuck := ns, false, false;
    }

    // ----- system calls ----------------------------------------------------------------------

    /** A snapshot of the directory in no particular order; after an error some entries may be
        missing from it, or all. */
    method ReadDir(d: Inode) returns (listing: seq<(string, FileType)>)
      requires Closed(nodes)
      modifies this`failed
      ensures old(failed) ==> failed
      ensures forall k :: 0 <= k < |listing| ==>
        || listing[k].0 == "." || listing[k].0 == ".."
        || (Has(nodes, d, listing[k].0) && listing[k].1 == TypeOf(nodes, At(nodes, d, listing[k].0)))
      ensures !failed ==> forall n :: Has(nodes, d, n) ==> Listed(listing, n)
    {
      listing := [(".", Directory), ("..", Directory)];
      if !IsDir(nodes, d) {
        return;
      }
      var rest := nodes[d].entries.Keys;
      while rest != {}
        invariant rest <= nodes[d].entries.Keys
        invariant forall k :: 0 <= k < |listing| ==>
          || listing[k].0 == "." || listing[k].0 == ".."
          || (Has(nodes, d, listing[k].0) && listing[k].1 == TypeOf(nodes, At(nodes, d, listing[k].0)))
        invariant forall n :: Has(nodes, d, n) ==> n in rest || Listed(listing, n)
        invariant failed == old(failed)
      {
        var breaks: bool := *;
        if breaks {
          failed := true;
          return;
        }
        var n :| n in rest;
        assert Has(nodes, d, n);
        ListedMore(listing, (n, TypeOf(nodes, At(nodes, d, n))));
        listing := listing + [(n, TypeOf(nodes, At(nodes, d, n)))];
        rest := rest - {n};
      }
    }

    /** `openat` with `O_DIRECTORY | O_NOFOLLOW`. */
    method OpenDirAt(d: Inode, n: string) returns (r: Option<Inode>)
      modifies this`failed
      ensures r.Some? ==> Has(nodes, d, n) && To(nodes, d, n) == r.value && IsDir(nodes, r.value)
      ensures r.None? && Has(nodes, d, n) && IsDir(nodes, To(nodes, d, n)) ==> failed
      ensures r.Some? ==> failed == old(failed)
      ensures old(failed) ==> failed
    {
      var breaks: bool := *;
      if !Has(nodes, d, n) || !IsDir(nodes, To(nodes, d, n)) {
        return None;
      }
      if breaks {
        failed := true;
        return None;
      }
      r := Some(To(nodes, d, n));
    }

    /** `openat` with `O_WRONLY | O_NOFOLLOW | O_NONBLOCK`: never a directory nor a symlink; whether
        a device or a FIFO opens depends on who else has it open. */
    method OpenForWriteAt(d: Inode, n: string) returns (r: Option<Inode>)
      modifies this`failed
      ensures r.Some? ==> Has(nodes, d, n) && To(nodes, d, n) == r.value && r.value in nodes
      ensures r.Some? ==> nodes[r.value].File? || nodes[r.value].Special?
      ensures r.None? && Has(nodes, d, n) && IsFile(nodes, To(nodes, d, n)) ==> failed
      ensures r.Some? ==> failed == old(failed)
      ensures old(failed) ==> failed
    {
      var breaks: bool := *;
      if !Has(nodes, d, n) || To(nodes, d, n) !in nodes {
        return None;
      }
      var x := To(nodes, d, n);
      if nodes[x].Dir? || nodes[x].Symlink? || (nodes[x].Special? && breaks) {
        return None;
      }
      if breaks {
        failed := true;
        return None;
      }
      r := Some(x);
    }

    /** `unlinkat`: with `AT_REMOVEDIR` only an empty directory that is no mount point, without it
        anything but a directory. */
    method UnlinkAt(d: Inode, n: string, removeDir: bool)
      modifies this`nodes, this`failed, this`stuck
      ensures if removeDir then failed == old(failed) else stuck == old(stuck)
      ensures (old(failed) ==> failed) && (old(stuck) ==> stuck)
      ensures nodes == old(nodes) || (old(Has(nodes, d, n)) && nodes == WithoutEntry(old(nodes), d, n))
      ensures nodes != old(nodes) ==>
        var x := To(old(nodes), d, n);
        x in old(nodes) && if removeDir then Empty(old(nodes), x) else !IsDir(old(nodes), x)
      ensures removeDir && old(Has(nodes, d, n)) && At(old(nodes), d, n).mounted ==>
        nodes == old(nodes) && stuck == old(stuck)
      ensures old(Has(nodes, d, n)) && To(old(nodes), d, n) in old(nodes) ==>
        var x := To(old(nodes), d, n);
        (if removeDir then !stuck && Empty(old(nodes), x) && !At(old(nodes), d, n).mounted
         else !failed && !IsDir(old(nodes), x)) ==> nodes == WithoutEntry(old(nodes), d, n)
    {
      if Has(nodes, d, n) && To(nodes, d, n) in nodes {
        var x := To(nodes, d, n);
        var breaks: bool := *;
        if removeDir && Empty(nodes, x) && !At(nodes, d, n).mounted {
          stuck := stuck || breaks;
          nodes := if breaks then nodes else WithoutEntry(nodes, d, n);
        } else if !removeDir && !IsDir(nodes, x) {
          failed := failed || breaks;
          nodes := if breaks then nodes else WithoutEntry(nodes, d, n);
        }
      }
    }

    // ----- the scrub -------------------------------------------------------------------------

    /** Zeros for every byte the file has, in place; anything but a regular file is refused. */
    method OverwriteFile(x: Inode) returns (ok: bool)
      requires x in nodes
      modifies this`nodes, this`failed
      ensures old(failed) ==> failed
      ensures !IsFile(old(nodes), x) ==> !ok && nodes == old(nodes) && failed == old(failed)
      ensures IsFile(old(nodes), x) ==>
        && IsFile(nodes, x) && Kept(old(nodes)[x], nodes[x]) && nodes == old(nodes)[x := nodes[x]]
        && (if ok then Wiped(nodes, x) else failed)
    {
      if !nodes[x].File? {
        return false;
      }
      var file := new Handle(nodes[x].bytes);
      ghost var done: nat;
      ok, done := WriteZeros(file, |nodes[x].bytes|, Zeros(SCRUB_CHUNK));
      nodes := nodes[x := File(file.data)];
      var syncFails: bool := *;
      ok := ok && !syncFails;
      failed := failed || file.failed || syncFails;
    }

    /** The walk. Whatever fails, it stays under `d` and only ever zeroes files and removes entries
        that no longer lead to anything; if nothing that matters to a file fails, every directory it
        reaches is left without regular files and known symlinks, and unless some emptied directory
        would not go, a directory of removable things is emptied. */
    method ScrubOpenDir(d: Inode, depth: nat)
      requires Closed(nodes) && IsDir(nodes, d)
      modifies this
      ensures Progress(old(nodes), nodes, old(failed), failed, d, Levels(depth))
      ensures old(stuck) ==> stuck
      ensures !failed ==> Swept(old(nodes), nodes, d, Levels(depth))
      ensures !failed && !stuck && Removable(old(nodes), d, Levels(depth)) ==> Empty(nodes, d)
      decreases Levels(depth), 2
    {
      ghost var was, levels := nodes, Levels(depth);
      NoProgress(was, failed, failed, d, levels);
      if depth >= MAX_SCRUB_DEPTH {
        return;
      }
      hide Shrinks, Within, Walks, Removable, Handled, Closed, Swept;
      var listing := ReadDir(d);
      NoProgress(was, old(failed), failed, d, levels);
      ghost var complete := !failed;
      var i := 0;
      while i < |listing|
        invariant i <= |listing|
        invariant Progress(was, nodes, old(failed), failed, d, levels) && (!failed ==> complete)
        invariant old(stuck) ==> stuck
        invariant !failed ==> AllOf(listing, i, was, nodes, d, levels, stuck)
      {
        var (n, fileType) := listing[i];
        ghost var before, bad, full := nodes, failed, stuck;
        if n != "." && n != ".." {
          if Has(nodes, d, n) {
            TypeStays(was, before, d, n, bad);
          }
          ScrubEntry(d, n, fileType, depth);
          ProgressTwice(was, before, nodes, old(failed), bad, failed, d, levels);
        } else {
          DotHandled(before, d, n, levels, stuck);
          ShrinksNot(before, bad);
        }
        if !failed {
          OneMore(listing, i, was, before, nodes, d, levels, bad, failed, full, stuck);
        }
        i := i + 1;
      }
      if !failed {
        ListingDone(listing, was, nodes, d, levels, failed, stuck);
      }
    }

    method ScrubEntry(d: Inode, n: string, fileType: FileType, depth: nat)
      requires Closed(nodes) && depth < MAX_SCRUB_DEPTH
      requires Has(nodes, d, n) ==> fileType == TypeOf(nodes, At(nodes, d, n))
      modifies this
      ensures Progress(old(nodes), nodes, old(failed), failed, d, Levels(depth))
      ensures old(stuck) ==> stuck
      ensures !failed ==> Handled(old(nodes), nodes, d, n, Levels(depth), stuck)
      decreases Levels(depth), 1
    {
      hide Shrinks, Within, Walks, Removable, Handled, Swept;
      ghost var was, levels := nodes, Levels(depth);
      NoProgress(was, failed, failed, d, levels);
      var found := false;
      match fileType {
        case Directory =>
          found := ScrubSubdirectory(d, n, depth);
        case RegularFile =>
          found := ScrubFile(d, n, depth, true);
        case SymbolicLink =>
          RemoveEntry(d, n, false, levels);
        case Unknown =>
          found := ScrubSubdirectory(d, n, depth);
          if !found {
            ghost var bad := failed;
            var file := ScrubFile(d, n, depth, false);
            ProgressTwice(was, was, nodes, old(failed), bad, failed, d, levels);
          }
        case Other =>
      }
      if !failed && !(Has(was, d, n) && IsDir(was, To(was, d, n))) {
        NonDirHandled(was, nodes, d, n, levels, stuck);
      }
    }

    /** The branch a directory takes, known or probed for. */
    method ScrubSubdirectory(d: Inode, n: string, depth: nat) returns (found: bool)
      requires Closed(nodes) && depth < MAX_SCRUB_DEPTH
      modifies this
      ensures Progress(old(nodes), nodes, old(failed), failed, d, Levels(depth))
      ensures !found ==> nodes == old(nodes)
      ensures found ==> Has(old(nodes), d, n) && IsDir(old(nodes), To(old(nodes), d, n))
      ensures !found && Has(old(nodes), d, n) && IsDir(old(nodes), To(old(nodes), d, n)) ==> failed
      ensures old(stuck) ==> stuck
      ensures found && !failed ==> Handled(old(nodes), nodes, d, n, Levels(depth), stuck)
      decreases Levels(depth), 0
    {
      hide Shrinks, Within, Walks, Removable, Handled, Closed, Swept;
      ghost var was, levels := nodes, Levels(depth);
      var child := OpenDirAt(d, n);
      found := child.Some?;
      NoProgress(was, old(failed), failed, d, levels);
      if found {
        ghost var bad := failed;
        ScrubOpenDir(child.value, depth + 1);
        SubwalkProgress(was, nodes, bad, failed, d, n, levels);
        ghost var between, worse := nodes, failed;
        RemoveEntry(d, n, true, levels);
        ProgressTwice(was, between, nodes, bad, worse, failed, d, levels);
        if !failed {
          SubwalkHandled(was, between, nodes, d, n, levels, worse, failed, stuck);
        }
      }
    }

    /** The branch a regular file takes. `always`: unlink it even if it could not be overwritten. */
    method ScrubFile(d: Inode, n: string, depth: nat, always: bool) returns (found: bool)
      requires Closed(nodes) && depth < MAX_SCRUB_DEPTH
      requires always && Has(nodes, d, n) ==> IsFile(nodes, To(nodes, d, n))
      modifies this
      ensures stuck == old(stuck)
      ensures Progress(old(nodes), nodes, old(failed), failed, d, Levels(depth))
      ensures Has(old(nodes), d, n) && IsFile(old(nodes), To(old(nodes), d, n)) && !failed ==> !Has(nodes, d, n)
    {
      hide Shrinks, Within, Walks, Closed;
      ghost var was, levels := nodes, Levels(depth);
      var child := OpenForWriteAt(d, n);
      found := child.Some?;
      NoProgress(was, old(failed), failed, d, levels);
      if found {
        ghost var bad := failed;
        var ok := OverwriteFile(child.value);
        ghost var between, worse := nodes, failed;
        if IsFile(was, child.value) {
          OverwriteProgress(was, d, n, nodes[child.value].bytes, levels, bad, worse);
        }
        if always || ok {
          RemoveEntry(d, n, false, levels);
          ProgressTwice(was, between, nodes, bad, worse, failed, d, levels);
        }
      }
    }

    method RemoveEntry(d: Inode, n: string, removeDir: bool, ghost levels: nat)
      requires Closed(nodes) && levels > 0
      requires !removeDir && Has(nodes, d, n) && IsFile(nodes, To(nodes, d, n)) ==> failed || Wiped(nodes, To(nodes, d, n))
      modifies this
      ensures Progress(old(nodes), nodes, old(failed), failed, d, levels)
      ensures if removeDir then old(stuck) ==> stuck else stuck == old(stuck)
      ensures Has(old(nodes), d, n) ==>
        var x := To(old(nodes), d, n);
        (if removeDir then !stuck && Empty(old(nodes), x) && !At(old(nodes), d, n).mounted
         else !failed && !IsDir(old(nodes), x)) ==> !Has(nodes, d, n)
    {
      ghost var was := nodes;
      UnlinkAt(d, n, removeDir);
      NoProgress(was, old(failed), failed, d, levels);
      if nodes != was {
        RemovalProgress(was, d, n, levels, failed);
      }
    }

    /** The whole wipe: one walk from each root that is a directory, its path not followed through a
        symlink. If no open, read, write or unlink fails, every file a walk could see is zeroed in
        place, mount points in the way or not, and unless some emptied directory would not go every
        root of removable things is empty; and whatever fails, nothing else changes. */
    method WipeWritableState(persistent: bool, names: map<string, Inode>)
      requires Closed(nodes)
      modifies this
      ensures Shrinks(old(nodes), nodes, failed)
      ensures !failed ==> AllWiped(old(nodes), nodes, WipeRoots(persistent), names, stuck)
      ensures WithinRoots(old(nodes), nodes, WipeRoots(persistent), names)
    {
      hide Shrinks, Closed, Within, WithinRoots, AllSwept, AllWiped, Swept, Removable;
      var roots := WipeRoots(persistent);
      ghost var was := nodes;
      ShrinksNot(was, failed);
      NoRoots(was, names, stuck);
      assert roots[..0] == [];
      var i := 0;
      while i < |roots|
        invariant i <= |roots| && Closed(nodes) && Shrinks(was, nodes, failed)
        invariant !failed ==> AllSwept(was, nodes, roots[..i], names, stuck)
        invariant WithinRoots(was, nodes, roots[..i], names)
      {
        assert roots[..i + 1] == roots[..i] + [roots[i]];
        ghost var before, bad, full := nodes, failed, stuck;
        ScrubDir(roots[i], names);
        OneMoreRoot(was, before, nodes, roots[..i], roots[i], names, bad, failed, full, stuck);
        i := i + 1;
      }
      assert roots[..|roots|] == roots;
      if !failed {
        SweptAllWiped(was, nodes, roots, names, stuck);
      }
    }

    method ScrubDir(path: string, names: map<string, Inode>)
      requires Closed(nodes)
      modifies this
      ensures (old(failed) ==> failed) && (old(stuck) ==> stuck)
      ensures Closed(nodes) && Shrinks(old(nodes), nodes, failed)
      ensures path !in names || !IsDir(old(nodes), names[path]) ==> nodes == old(nodes)
      ensures path in names ==> Within(old(nodes), nodes, names[path], MAX_SCRUB_DEPTH)
      ensures path in names && !failed ==> Swept(old(nodes), nodes, names[path], MAX_SCRUB_DEPTH)
      ensures path in names && !failed && !stuck && Removable(old(nodes), names[path], MAX_SCRUB_DEPTH) ==>
        Empty(nodes, names[path])
    {
      ShrinksNot(nodes, failed);
      var breaks: bool := *;
      if path in names && IsDir(nodes, names[path]) {
        if breaks {
          failed := true;
        } else {
          ScrubOpenDir(names[path], 0);
        }
      }
    }
  }
}
