/** Inodes and the directory entries that link them, and what it means for one such graph to be
    what is left of another. Nothing is assumed about the shape of the graph: files and even
    directories may be linked many times, and cycles are allowed. */
module DirGraph {
  import opened Bytes

  type Inode = nat

  /** `typed`: the filesystem fills in `d_type` for this entry. `mounted`: the entry is a mount point,
      and `inode` the root of what is mounted there; only directories are. */
  datatype Entry = Entry(inode: Inode, typed: bool, mounted: bool)

  datatype Node =
    | Dir(entries: map<string, Entry>)
    | File(bytes: seq<byte>)
    | Symlink(target: string)
    | Special

  type Nodes = map<Inode, Node>

  predicate IsDir(ns: Nodes, d: Inode) {
    d in ns && ns[d].Dir?
  }

  predicate IsFile(ns: Nodes, x: Inode) {
    x in ns && ns[x].File?
  }

  predicate Has(ns: Nodes, d: Inode, n: string) {
    IsDir(ns, d) && n in ns[d].entries
  }

  function At(ns: Nodes, d: Inode, n: string): Entry
    requires Has(ns, d, n)
  {
    ns[d].entries[n]
  }

  function To(ns: Nodes, d: Inode, n: string): Inode
    requires Has(ns, d, n)
  {
    At(ns, d, n).inode
  }

  /** Every entry leads somewhere, and "." and ".." are left implicit. */
  ghost predicate Closed(ns: Nodes) {
    forall d, n :: Has(ns, d, n) ==> To(ns, d, n) in ns && n != "." && n != ".."
  }

  predicate Empty(ns: Nodes, d: Inode) {
    IsDir(ns, d) && ns[d].entries == map[]
  }

  predicate Wiped(ns: Nodes, x: Inode) {
    IsFile(ns, x) && ns[x].bytes == Zeros(|ns[x].bytes|)
  }

  // ----- what is reached from a directory ----------------------------------------------------

  /** `x` is a directory fewer than `levels` links below `d`. */
  ghost predicate Walks(ns: Nodes, d: Inode, levels: nat, x: Inode)
    decreases levels
  {
    levels > 0 && IsDir(ns, d) && (x == d || exists n :: Has(ns, d, n) && Walks(ns, To(ns, d, n), levels - 1, x))
  }

  /** `x` is a file some directory fewer than `levels` links below `d` has an entry for. */
  ghost predicate FileUnder(ns: Nodes, d: Inode, levels: nat, x: Inode) {
    IsFile(ns, x) && exists w, n :: Walks(ns, d, levels, w) && Has(ns, w, n) && To(ns, w, n) == x
  }

  /** Only entries a scrub can remove, down to the last level it looks at: a mount point is not one. */
  ghost predicate Removable(ns: Nodes, d: Inode, levels: nat)
    decreases levels
  {
    IsDir(ns, d) &&
    if levels == 0 then Empty(ns, d)
    else forall n :: Has(ns, d, n) ==>
      || IsFile(ns, To(ns, d, n))
      || (To(ns, d, n) in ns && ns[To(ns, d, n)].Symlink? && At(ns, d, n).typed)
      || (!At(ns, d, n).mounted && Removable(ns, To(ns, d, n), levels - 1))
  }

  /** Nothing in `x` that a scrub must not leave: no regular file, no symlink known to be one. */
  ghost predicate Clean(ns: Nodes, x: Inode) {
    forall n :: Has(ns, x, n) ==>
      && !IsFile(ns, To(ns, x, n))
      && !(To(ns, x, n) in ns && ns[To(ns, x, n)].Symlink? && At(ns, x, n).typed)
  }

  // ----- what a scrub may turn a graph into --------------------------------------------------

  /** Directories only lose entries, files keep their length and each byte is kept or zeroed, and
      nothing happens to the rest. */
  predicate Kept(was: Node, now: Node) {
    match was
    case Dir(entries) => now.Dir? && forall n :: n in now.entries ==> n in entries && now.entries[n] == entries[n]
    case File(bytes) =>
      && now.File? && |now.bytes| == |bytes|
      && forall i :: 0 <= i < |bytes| ==> now.bytes[i] == bytes[i] || now.bytes[i] == 0
    case _ => now == was
  }

  /** What must be true of an inode before an entry for it is removed. */
  predicate Released(ns: Nodes, x: Inode, failed: bool) {
    x in ns && (ns[x].Dir? ==> Empty(ns, x)) && (ns[x].File? && !failed ==> Wiped(ns, x))
  }

  ghost predicate Shrinks(was: Nodes, now: Nodes, failed: bool) {
    && now.Keys == was.Keys
    && (forall x :: x in was ==> Kept(was[x], now[x]))
    && (forall d, n :: Has(was, d, n) && !Has(now, d, n) ==> Released(now, To(was, d, n), failed))
  }

  /** Only directories fewer than `levels` links below `d`, and files they link, differ. */
  ghost predicate Within(was: Nodes, now: Nodes, d: Inode, levels: nat) {
    forall x :: x in was && x in now && now[x] != was[x] ==> Walks(was, d, levels, x) || FileUnder(was, d, levels, x)
  }

  /** Every directory fewer than `levels` links below `d` has been cleaned out. */
  ghost predicate Swept(was: Nodes, now: Nodes, d: Inode, levels: nat) {
    forall x :: Walks(was, d, levels, x) ==> Clean(now, x)
  }

  predicate WipedInPlace(was: Nodes, now: Nodes, x: Inode) {
    IsFile(was, x) && Wiped(now, x) && |now[x].bytes| == |was[x].bytes|
  }

  ghost predicate FilesWiped(was: Nodes, now: Nodes, d: Inode, levels: nat) {
    forall x :: FileUnder(was, d, levels, x) ==> WipedInPlace(was, now, x)
  }

  lemma KeptTwice(a: Node, b: Node, c: Node)
    requires Kept(a, b) && Kept(b, c)
    ensures Kept(a, c)
  {
  }

  lemma ReleasedStays(ns: Nodes, now: Nodes, x: Inode, before: bool, failed: bool)
    requires x in ns && x in now && Kept(ns[x], now[x]) && Released(ns, x, before) && (before ==> failed)
    ensures Released(now, x, failed)
  {
  }

  lemma ShrinksNot(ns: Nodes, failed: bool)
    ensures Shrinks(ns, ns, failed)
  {
  }

  lemma ShrinksTwice(a: Nodes, b: Nodes, c: Nodes, before: bool, failed: bool)
    requires Closed(a) && Shrinks(a, b, before) && Shrinks(b, c, failed) && (before ==> failed)
    ensures Shrinks(a, c, failed)
  {
    forall x | x in a ensures Kept(a[x], c[x]) {
      KeptTwice(a[x], b[x], c[x]);
    }
    forall d, n | Has(a, d, n) && !Has(c, d, n) ensures Released(c, To(a, d, n), failed) {
      if Has(b, d, n) {
        assert To(b, d, n) == To(a, d, n) by { assert Kept(a[d], b[d]); }
      } else {
        var x := To(a, d, n);
        ReleasedStays(b, c, x, before, failed);
      }
    }
  }

  lemma ClosedShrinks(was: Nodes, now: Nodes, failed: bool)
    requires Closed(was) && Shrinks(was, now, failed)
    ensures Closed(now)
  {
    forall d, n | Has(now, d, n) ensures To(now, d, n) in now && n != "." && n != ".." {
      assert Kept(was[d], now[d]);
      assert Has(was, d, n) && To(was, d, n) == To(now, d, n);
    }
  }

  /** What is linked now was linked before, by the same entry. */
  lemma HasBefore(was: Nodes, now: Nodes, d: Inode, n: string, failed: bool)
    requires Shrinks(was, now, failed) && Has(now, d, n)
    ensures Has(was, d, n) && At(was, d, n) == At(now, d, n)
  {
    assert Kept(was[d], now[d]);
  }

  lemma {:induction false} WalksBefore(was: Nodes, now: Nodes, d: Inode, levels: nat, x: Inode, failed: bool)
    requires Shrinks(was, now, failed) && Walks(now, d, levels, x)
    ensures Walks(was, d, levels, x)
    decreases levels
  {
    assert Kept(was[d], now[d]);
    if x != d {
      var n :| Has(now, d, n) && Walks(now, To(now, d, n), levels - 1, x);
      HasBefore(was, now, d, n, failed);
      WalksBefore(was, now, To(now, d, n), levels - 1, x, failed);
    }
  }

  /** A directory cut off since was emptied first. */
  lemma {:induction false} WalksOrEmpty(was: Nodes, now: Nodes, d: Inode, levels: nat, x: Inode, failed: bool)
    requires Shrinks(was, now, failed) && Walks(was, d, levels, x)
    ensures Walks(now, d, levels, x) || Empty(now, x)
    ensures Empty(now, d) ==> Empty(now, x)
    decreases levels
  {
    assert Kept(was[d], now[d]);
    if x != d {
      var n :| Has(was, d, n) && Walks(was, To(was, d, n), levels - 1, x);
      WalksOrEmpty(was, now, To(was, d, n), levels - 1, x, failed);
      if !Has(now, d, n) {
        assert Released(now, To(was, d, n), failed);
        assert IsDir(was, To(was, d, n)) && Kept(was[To(was, d, n)], now[To(was, d, n)]);
      } else {
        HasBefore(was, now, d, n, failed);
      }
    }
  }

  lemma CleanStays(was: Nodes, now: Nodes, x: Inode, failed: bool)
    requires Closed(was) && Shrinks(was, now, failed) && Clean(was, x)
    ensures Clean(now, x)
  {
    forall n | Has(now, x, n)
      ensures !IsFile(now, To(now, x, n))
      ensures !(To(now, x, n) in now && now[To(now, x, n)].Symlink? && At(now, x, n).typed)
    {
      HasBefore(was, now, x, n, failed);
      assert Kept(was[To(now, x, n)], now[To(now, x, n)]);
    }
  }

  lemma {:induction false} RemovableStays(was: Nodes, now: Nodes, d: Inode, levels: nat, failed: bool)
    requires Closed(was) && Shrinks(was, now, failed) && Removable(was, d, levels)
    ensures Removable(now, d, levels)
    decreases levels
  {
    assert Kept(was[d], now[d]);
    if levels > 0 {
      forall n | Has(now, d, n)
        ensures || IsFile(now, To(now, d, n))
                || (To(now, d, n) in now && now[To(now, d, n)].Symlink? && At(now, d, n).typed)
                || (!At(now, d, n).mounted && Removable(now, To(now, d, n), levels - 1))
      {
        HasBefore(was, now, d, n, failed);
        var x := To(now, d, n);
        assert Kept(was[x], now[x]);
        if was[x].Dir? {
          RemovableStays(was, now, x, levels - 1, failed);
        }
      }
    }
  }

  lemma FileUnderBefore(was: Nodes, now: Nodes, d: Inode, levels: nat, x: Inode, failed: bool)
    requires Shrinks(was, now, failed) && FileUnder(now, d, levels, x)
    ensures FileUnder(was, d, levels, x)
  {
    var w, n :| Walks(now, d, levels, w) && Has(now, w, n) && To(now, w, n) == x;
    WalksBefore(was, now, d, levels, w, failed);
    HasBefore(was, now, w, n, failed);
    assert Kept(was[x], now[x]);
  }

  lemma WithinTwice(a: Nodes, b: Nodes, c: Nodes, d: Inode, levels: nat, failed: bool)
    requires Shrinks(a, b, failed) && c.Keys == b.Keys && Within(a, b, d, levels) && Within(b, c, d, levels)
    ensures Within(a, c, d, levels)
  {
    forall x | x in a && x in c && c[x] != a[x] ensures Walks(a, d, levels, x) || FileUnder(a, d, levels, x) {
      if b[x] == a[x] {
        if Walks(b, d, levels, x) {
          WalksBefore(a, b, d, levels, x, failed);
        } else {
          FileUnderBefore(a, b, d, levels, x, failed);
        }
      }
    }
  }

  /** What stays under an entry of `d` stays under `d`. */
  lemma WithinUp(was: Nodes, now: Nodes, d: Inode, n: string, levels: nat)
    requires levels > 0 && Has(was, d, n) && Within(was, now, To(was, d, n), levels - 1)
    ensures Within(was, now, d, levels)
  {
    forall x | x in was && x in now && now[x] != was[x] ensures Walks(was, d, levels, x) || FileUnder(was, d, levels, x) {
      if !Walks(was, To(was, d, n), levels - 1, x) {
        var w, m :| Walks(was, To(was, d, n), levels - 1, w) && Has(was, w, m) && To(was, w, m) == x;
        assert Walks(was, d, levels, w);
      }
    }
  }

  lemma SweptStays(was: Nodes, now: Nodes, later: Nodes, d: Inode, levels: nat, failed: bool)
    requires Closed(now) && Shrinks(now, later, failed) && Swept(was, now, d, levels)
    ensures Swept(was, later, d, levels)
  {
    forall x | Walks(was, d, levels, x) ensures Clean(later, x) {
      CleanStays(now, later, x, failed);
    }
  }

  /** A sweep that starts later covers what was below `d` earlier: directories cut off in between
      are empty. */
  lemma SweptSince(start: Nodes, was: Nodes, now: Nodes, d: Inode, levels: nat, before: bool, failed: bool)
    requires Closed(was) && Shrinks(start, was, before) && Shrinks(was, now, failed) && Swept(was, now, d, levels)
    ensures Swept(start, now, d, levels)
  {
    forall x | Walks(start, d, levels, x) ensures Clean(now, x) {
      WalksOrEmpty(start, was, d, levels, x, before);
      if Empty(was, x) {
        CleanStays(was, now, x, failed);
      }
    }
  }

  /** Where a sweep went and no call failed, every file it could see holds nothing but zeros, as many
      as it had bytes, however often and wherever else it is linked. */
  lemma SweptFilesWiped(was: Nodes, now: Nodes, d: Inode, levels: nat)
    requires Shrinks(was, now, false) && Swept(was, now, d, levels)
    ensures FilesWiped(was, now, d, levels)
  {
    forall x | FileUnder(was, d, levels, x) ensures WipedInPlace(was, now, x) {
      var w, n :| Walks(was, d, levels, w) && Has(was, w, n) && To(was, w, n) == x;
      assert Kept(was[x], now[x]);
      assert Clean(now, w);
      if Has(now, w, n) {
        HasBefore(was, now, w, n, false);
      }
    }
  }

  // ----- the two changes a scrub makes -------------------------------------------------------

  function WithoutEntry(ns: Nodes, d: Inode, n: string): Nodes
    requires Has(ns, d, n)
  {
    ns[d := Dir(ns[d].entries - {n})]
  }

  lemma RemovalShrinks(ns: Nodes, d: Inode, n: string, failed: bool)
    requires Closed(ns) && Has(ns, d, n) && Released(ns, To(ns, d, n), failed)
    ensures Shrinks(ns, WithoutEntry(ns, d, n), failed)
  {
    var now := WithoutEntry(ns, d, n);
    assert now.Keys == ns.Keys;
    forall e, m | Has(ns, e, m) && !Has(now, e, m) ensures Released(now, To(ns, e, m), failed) {
      assert e == d && m == n;
      assert To(ns, d, n) != d;
    }
  }

  lemma RemovalWithin(ns: Nodes, d: Inode, n: string, levels: nat)
    requires levels > 0 && Has(ns, d, n)
    ensures Within(ns, WithoutEntry(ns, d, n), d, levels)
  {
    assert Walks(ns, d, levels, d);
  }

  lemma OverwriteShrinks(ns: Nodes, x: Inode, bytes: seq<byte>, failed: bool)
    requires IsFile(ns, x) && Kept(ns[x], File(bytes))
    ensures Shrinks(ns, ns[x := File(bytes)], failed)
  {
    var now := ns[x := File(bytes)];
    assert now.Keys == ns.Keys;
    assert forall d, n :: Has(ns, d, n) ==> Has(now, d, n);
  }

  lemma OverwriteWithin(ns: Nodes, d: Inode, n: string, levels: nat, bytes: seq<byte>)
    requires levels > 0 && Has(ns, d, n) && IsFile(ns, To(ns, d, n))
    ensures Within(ns, ns[To(ns, d, n) := File(bytes)], d, levels)
  {
    assert Walks(ns, d, levels, d);
    assert FileUnder(ns, d, levels, To(ns, d, n));
  }
}
