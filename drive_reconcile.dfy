/**
 * Obsolete-file reconciliation of the drive synchroniser
 * (`remove_obsolete` in src/sync_drive.py, lines 129-143).
 *
 * `Path(destination).rglob("*")` yields every entry below the destination,
 * a directory before its contents. Each entry not in the kept set is deleted:
 * a file with `unlink`, a directory with `rmtree` (taking its whole subtree
 * along), and reported. An entry that has already gone with a deleted
 * directory is neither a file nor a directory any more when its turn comes,
 * so it is not reported. What is reported is therefore exactly the set of
 * "obsolete roots": entries not kept whose ancestors below the destination
 * are all kept.
 */
module DriveReconcile {
  import opened Common
  import opened LocalFs

  /** `p` is deleted by its own turn of the loop: not kept, and every ancestor below `d` is kept. */
  predicate IsObsoleteRoot(e: map<Path, Entry>, d: Path, kept: set<Path>, p: Path)
  {
    p in e && Below(d, p) && p !in kept &&
    forall k :: |d| < k < |p| ==> p[..k] in kept
  }

  function ObsoleteRoots(e: map<Path, Entry>, d: Path, kept: set<Path>): (r: set<Path>)
    ensures forall p :: p in r <==> IsObsoleteRoot(e, d, kept, p)
  {
    set p | p in e && IsObsoleteRoot(e, d, kept, p)
  }

  /** `p` is one of the removed paths or lies below one. */
  ghost predicate UnderRemoved(removed: set<Path>, p: Path)
  {
    exists r :: r in removed && IsPrefix(r, p)
  }

  /** The disk after every removed path has gone together with its subtree. */
  ghost function Pruned(e: map<Path, Entry>, removed: set<Path>): (e': map<Path, Entry>)
    ensures forall p :: p in e' <==> p in e && !UnderRemoved(removed, p)
    ensures forall p :: p in e' ==> e'[p] == e[p]
  {
    map p | p in e && !UnderRemoved(removed, p) :: e[p]
  }

  /** The kept set contains, with every path, all of its ancestors below `d`. */
  ghost predicate KeptClosed(d: Path, kept: set<Path>)
  {
    (forall p :: p in kept ==> Below(d, p)) &&
    (forall p, k :: p in kept && |d| < k < |p| ==> p[..k] in kept)
  }

  // ---------------------------------------------------------------------
  // Facts the loop needs
  // ---------------------------------------------------------------------

  /** A non-empty set of paths has a shallowest element. */
  lemma {:induction false} ShallowestExists(s: set<Path>)
    requires s != {}
    ensures exists p :: p in s && forall q :: q in s ==> |p| <= |q|
    decreases |s|
  {
    var x :| x in s;
    if s != {x} {
      var rest := s - {x};
      ShallowestExists(rest);
      var m :| m in rest && forall q :: q in rest ==> |m| <= |q|;
      if |x| < |m| {
        assert forall q :: q in s ==> |x| <= |q|;
      } else {
        assert forall q :: q in s ==> |m| <= |q|;
      }
    } else {
      assert forall q :: q in s ==> |x| <= |q|;
    }
  }

  /** If some ancestor of `p` below `d` (or `p` itself, at `k == |p|`) is not kept, a topmost one exists. */
  lemma {:induction false} TopmostUnkept(d: Path, kept: set<Path>, p: Path, k: nat) returns (j: nat)
    requires |d| < k <= |p| && p[..k] !in kept
    ensures |d| < j <= k && p[..j] !in kept
    ensures forall i :: |d| < i < j ==> p[..i] in kept
    decreases k
  {
    if i :| |d| < i < k && p[..i] !in kept {
      j := TopmostUnkept(d, kept, p, i);
    } else {
      j := k;
    }
  }

  /** The topmost unkept ancestor found above is an obsolete root. */
  lemma TopmostIsRoot(e: map<Path, Entry>, d: Path, kept: set<Path>, p: Path, j: nat)
    requires WellFormed(e) && p in e && Below(d, p)
    requires |d| < j <= |p| && p[..j] !in kept && forall i :: |d| < i < j ==> p[..i] in kept
    ensures IsObsoleteRoot(e, d, kept, p[..j]) && IsPrefix(p[..j], p)
  {
    var a := p[..j];
    if j < |p| {
      assert a in e;
    } else {
      assert a == p;
    }
    assert a[..|d|] == d;
    forall i | |d| < i < |a| ensures a[..i] in kept
    {
      assert a[..i] == p[..i];
    }
  }

  /** One obsolete root never lies below another. */
  lemma RootsNotNested(e: map<Path, Entry>, d: Path, kept: set<Path>, r: Path, p: Path)
    ensures IsObsoleteRoot(e, d, kept, r) && IsObsoleteRoot(e, d, kept, p) && IsPrefix(r, p) ==> r == p
  {
    if IsObsoleteRoot(e, d, kept, r) && IsPrefix(r, p) && r != p {
      assert p[..|r|] == r;
    }
  }

  lemma UnderRemovedWitness(removed: set<Path>, r: Path, p: Path)
    ensures r in removed && IsPrefix(r, p) ==> UnderRemoved(removed, p)
  {
  }

  /**
   * When the loop takes a shallowest pending entry `p`, and the entries
   * reported so far are the obsolete roots already visited, `p` is an
   * obsolete root exactly when it is not kept and is still on disk.
   */
  lemma RootDecision(e: map<Path, Entry>, d: Path, kept: set<Path>, todo: set<Path>, removed: set<Path>, p: Path)
    requires WellFormed(e)
    requires todo <= Subtree(e, d) && p in todo
    requires forall q :: q in todo ==> |p| <= |q|
    requires removed == ObsoleteRoots(e, d, kept) - todo
    ensures IsObsoleteRoot(e, d, kept, p) <==> p !in kept && p in Pruned(e, removed)
  {
    if IsObsoleteRoot(e, d, kept, p) {
      if UnderRemoved(removed, p) {
        var r :| r in removed && IsPrefix(r, p);
        RootsNotNested(e, d, kept, r, p);
        assert false;
      }
    } else if p !in kept && p in Pruned(e, removed) {
      var k :| |d| < k < |p| && p[..k] !in kept;
      var j := TopmostUnkept(d, kept, p, k);
      TopmostIsRoot(e, d, kept, p, j);
      UnderRemovedWitness(removed, p[..j], p);
      assert false;
    }
  }

  /** Removing one more root prunes its subtree from what is left. */
  lemma PrunedStep(e: map<Path, Entry>, removed: set<Path>, p: Path)
    ensures Pruned(e, removed + {p}) == WithoutTree(Pruned(e, removed), p)
  {
    var a := Pruned(e, removed + {p});
    var b := WithoutTree(Pruned(e, removed), p);
    forall q ensures q in a <==> q in b
    {
      if UnderRemoved(removed + {p}, q) && !IsPrefix(p, q) {
        var r :| r in removed + {p} && IsPrefix(r, q);
        assert r in removed;
      }
    }
    assert a == b;
  }

  /** Removing whole subtrees leaves every remaining entry's parents in place. */
  lemma PrunedWellFormed(e: map<Path, Entry>, removed: set<Path>)
    requires WellFormed(e)
    ensures WellFormed(Pruned(e, removed))
  {
    var left := Pruned(e, removed);
    forall p, k | p in left && 0 < k < |p| ensures p[..k] in left && left[p[..k]].Dir?
    {
      if UnderRemoved(removed, p[..k]) {
        assert false;
      }
    }
  }

  /** Visiting `p` adds it to the reported set exactly when it is an obsolete root. */
  lemma RemovedStep(e: map<Path, Entry>, d: Path, kept: set<Path>, todo: set<Path>, removed: set<Path>, p: Path)
    requires p in todo && removed == ObsoleteRoots(e, d, kept) - todo
    ensures IsObsoleteRoot(e, d, kept, p) ==> removed + {p} == ObsoleteRoots(e, d, kept) - (todo - {p})
    ensures !IsObsoleteRoot(e, d, kept, p) ==> removed == ObsoleteRoots(e, d, kept) - (todo - {p})
  {
  }

  /**
   * `remove_obsolete(destination_path, files)`: deletes, below the
   * destination, every entry not kept, and returns the paths it reported.
   * Nothing happens when the destination is missing or there is no kept set.
   */
  method RemoveObsolete(dest: Option<Path>, files: Option<set<Path>>, disk: LocalDisk) returns (removed: set<Path>)
    requires disk.Valid()
    modifies disk
    ensures disk.Valid()
    ensures dest.None? || files.None? ==> removed == {} && disk.entries == old(disk.entries)
    ensures dest.Some? && files.Some? ==> removed == ObsoleteRoots(old(disk.entries), dest.value, files.value)
    ensures dest.Some? && files.Some? ==> disk.entries == Pruned(old(disk.entries), removed)
  {
    removed := {};
    if dest.None? || files.None? {
      return;
    }
    var d, kept := dest.value, files.value;
    ghost var e0 := disk.entries;
    var todo := Subtree(disk.entries, d);
    while todo != {}
      invariant disk.Valid()
      invariant todo <= Subtree(e0, d)
      invariant removed == ObsoleteRoots(e0, d, kept) - todo
      invariant disk.entries == Pruned(e0, removed)
      decreases |todo|
    {
      // rglob yields a directory before its contents: take a shallowest pending entry.
      ShallowestExists(todo);
      var p :| p in todo && forall q :: q in todo ==> |p| <= |q|;
      RootDecision(e0, d, kept, todo, removed, p);
      RemovedStep(e0, d, kept, todo, removed, p);
      if p !in kept {
        if IsFileAt(disk.entries, p) {
          PrunedStep(e0, removed, p);
          FileIsLeaf(disk.entries, p);
          disk.Unlink(p);
          removed := removed + {p};
        } else if IsDirAt(disk.entries, p) {
          PrunedStep(e0, removed, p);
          disk.RemoveTree(p);
          removed := removed + {p};
        }
      }
      todo := todo - {p};
    }
  }

  // ---------------------------------------------------------------------
  // What a reconciliation pass guarantees
  // ---------------------------------------------------------------------

  /** Nothing outside the destination is touched. */
  lemma ReconcileStaysInside(e: map<Path, Entry>, d: Path, kept: set<Path>, p: Path)
    requires p in e && !Below(d, p)
    ensures p in Pruned(e, ObsoleteRoots(e, d, kept))
  {
  }

  lemma KeptNotUnderRoot(e: map<Path, Entry>, d: Path, kept: set<Path>, r: Path, p: Path)
    ensures KeptClosed(d, kept) && p in kept && IsObsoleteRoot(e, d, kept, r) ==> !IsPrefix(r, p)
  {
    if KeptClosed(d, kept) && IsObsoleteRoot(e, d, kept, r) && IsPrefix(r, p) && r != p {
      assert p[..|r|] == r;
    }
  }

  /** No kept path is reported, and none is deleted as long as every ancestor of a kept path is kept too. */
  lemma ReconcileKeepsKept(e: map<Path, Entry>, d: Path, kept: set<Path>, p: Path)
    requires KeptClosed(d, kept) && p in e && p in kept
    ensures p !in ObsoleteRoots(e, d, kept)
    ensures p in Pruned(e, ObsoleteRoots(e, d, kept))
  {
    if UnderRemoved(ObsoleteRoots(e, d, kept), p) {
      var r :| r in ObsoleteRoots(e, d, kept) && IsPrefix(r, p);
      KeptNotUnderRoot(e, d, kept, r, p);
      assert false;
    }
  }

  /** After the pass, everything left below the destination is kept. */
  lemma ReconcileLeavesOnlyKept(e: map<Path, Entry>, d: Path, kept: set<Path>, p: Path)
    requires WellFormed(e)
    requires p in Pruned(e, ObsoleteRoots(e, d, kept)) && Below(d, p)
    ensures p in kept
  {
    if p !in kept {
      assert p[..|p|] == p;
      var j := TopmostUnkept(d, kept, p, |p|);
      TopmostIsRoot(e, d, kept, p, j);
      assert UnderRemoved(ObsoleteRoots(e, d, kept), p);
    }
  }

  /** Destination {A, B, C} with kept set {A, C}: exactly B is deleted and reported. */
  lemma ReconcileExample(d: Path)
    ensures var e := map[d + ["A"] := File(1, 0), d + ["B"] := File(2, 0), d + ["C"] := File(3, 0)];
            var kept := {d + ["A"], d + ["C"]};
            ObsoleteRoots(e, d, kept) == {d + ["B"]} &&
            Pruned(e, ObsoleteRoots(e, d, kept)).Keys == {d + ["A"], d + ["C"]}
  {
    var a, b, c := d + ["A"], d + ["B"], d + ["C"];
    var e := map[a := File(1, 0), b := File(2, 0), c := File(3, 0)];
    var kept := {a, c};
    assert a[..|d|] == d && b[..|d|] == d && c[..|d|] == d;
    assert IsObsoleteRoot(e, d, kept, b);
    assert ObsoleteRoots(e, d, kept) == {b};
    assert !IsPrefix(b, a) by { assert a[|d|] != b[|d|]; }
    assert !IsPrefix(b, c) by { assert c[|d|] != b[|d|]; }
    assert IsPrefix(b, b);
  }
}
