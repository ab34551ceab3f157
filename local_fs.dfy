/**
 * The local filesystem as the synchronisers see it, and the set of local
 * paths a sync pass keeps.
 *
 * The disk is a map from absolute paths to entries. It is well formed when
 * every ancestor of an entry exists and is a directory, which is what a real
 * directory tree guarantees. The operations the synchronisers call
 * (`os.makedirs`, `Path.unlink`, `shutil.rmtree`, `os.rename`, and writing a
 * streamed download) are given here by their effect on that map.
 */
module LocalFs {
  import opened Common

  /** A local entry; `mtime` is in nanoseconds since the epoch (`st_mtime_ns`). */
  datatype Entry = File(size: nat, mtime: int) | Dir

  predicate WellFormed(e: map<Path, Entry>)
  {
    [] !in e &&
    forall p, k :: p in e && 0 < k < |p| ==> p[..k] in e && e[p[..k]].Dir?
  }

  /** The directory holding `p` exists: the root always does. */
  predicate ParentIsDir(e: map<Path, Entry>, p: Path)
    requires p != []
  {
    |p| == 1 || (Parent(p) in e && e[Parent(p)].Dir?)
  }

  predicate IsFileAt(e: map<Path, Entry>, p: Path)
  {
    p in e && e[p].File?
  }

  predicate IsDirAt(e: map<Path, Entry>, p: Path)
  {
    p in e && e[p].Dir?
  }

  /** The entries `rglob("*")` yields for directory `d`. */
  function Subtree(e: map<Path, Entry>, d: Path): (s: set<Path>)
    ensures forall p :: p in s <==> p in e && Below(d, p)
  {
    set p | p in e && Below(d, p)
  }

  /** Every directory of `e` is still a directory in `e'`. */
  ghost predicate DirsKept(e: map<Path, Entry>, e': map<Path, Entry>)
  {
    forall p :: IsDirAt(e, p) ==> IsDirAt(e', p)
  }

  lemma DirsKeptTrans(e: map<Path, Entry>, e': map<Path, Entry>, e'': map<Path, Entry>)
    requires DirsKept(e, e') && DirsKept(e', e'')
    ensures DirsKept(e, e'')
  {
  }

  // ---------------------------------------------------------------------
  // os.makedirs(p, exist_ok=True)
  // ---------------------------------------------------------------------

  function Prefixes(p: Path): (ps: set<Path>)
    ensures forall q :: q in ps <==> IsPrefix(q, p) && q != []
  {
    set k | 1 <= k <= |p| :: p[..k]
  }

  /** `makedirs` succeeds unless a regular file stands where one of the directories should be. */
  predicate MakeDirsSucceeds(e: map<Path, Entry>, p: Path)
  {
    forall q :: q in Prefixes(p) ==> !IsFileAt(e, q)
  }

  /** The disk after `makedirs`: every missing directory along `p` is created. */
  function WithDirs(e: map<Path, Entry>, p: Path): (e': map<Path, Entry>)
    ensures e'.Keys == e.Keys + Prefixes(p)
    ensures forall q :: q in e ==> e'[q] == e[q]
    ensures forall q :: q in Prefixes(p) && q !in e ==> e'[q] == Dir
  {
    map q | q in e.Keys + Prefixes(p) :: if q in e then e[q] else Dir
  }

  lemma WithDirsWellFormed(e: map<Path, Entry>, p: Path)
    requires WellFormed(e) && MakeDirsSucceeds(e, p)
    ensures WellFormed(WithDirs(e, p))
    ensures p != [] ==> IsDirAt(WithDirs(e, p), p)
    ensures DirsKept(e, WithDirs(e, p))
  {
    var e' := WithDirs(e, p);
    forall q, k | q in e' && 0 < k < |q|
      ensures q[..k] in e' && e'[q[..k]].Dir?
    {
      if q !in e {
        assert q in Prefixes(p);
        assert q[..k] == p[..k];
        assert q[..k] in Prefixes(p);
      }
    }
    if p != [] {
      assert p[..|p|] == p;
      assert p in Prefixes(p);
    }
  }

  /** Creating `a` and then its extension `b` is creating `b`: it fails and succeeds alike. */
  lemma WithDirsTwice(e: map<Path, Entry>, a: Path, b: Path)
    requires IsPrefix(a, b)
    ensures MakeDirsSucceeds(e, a) && MakeDirsSucceeds(WithDirs(e, a), b) <==> MakeDirsSucceeds(e, b)
    ensures MakeDirsSucceeds(e, a) ==> WithDirs(WithDirs(e, a), b) == WithDirs(e, b)
  {
    forall q | q in Prefixes(a) ensures q in Prefixes(b)
    {
      assert q == b[..|q|];
    }
  }

  // ---------------------------------------------------------------------
  // shutil.rmtree(p) and Path.unlink(missing_ok=True)
  // ---------------------------------------------------------------------

  /** The disk without `p` and everything below it. */
  function WithoutTree(e: map<Path, Entry>, p: Path): (e': map<Path, Entry>)
    ensures forall q :: q in e' <==> q in e && !IsPrefix(p, q)
    ensures forall q :: q in e' ==> e'[q] == e[q]
  {
    map q | q in e && !IsPrefix(p, q) :: e[q]
  }

  lemma WithoutTreeWellFormed(e: map<Path, Entry>, p: Path)
    requires WellFormed(e)
    ensures WellFormed(WithoutTree(e, p))
  {
    var e' := WithoutTree(e, p);
    forall q, k | q in e' && 0 < k < |q|
      ensures q[..k] in e' && e'[q[..k]].Dir?
    {
    }
  }

  /** A regular file has nothing below it, so unlinking it removes exactly one entry. */
  lemma FileIsLeaf(e: map<Path, Entry>, p: Path)
    requires WellFormed(e) && IsFileAt(e, p)
    ensures WithoutTree(e, p) == e - {p}
  {
    forall q | q in e && IsPrefix(p, q) ensures q == p
    {
      if q != p {
        assert false;
      }
    }
  }

  // ---------------------------------------------------------------------
  // os.rename(src, dst) of a regular file
  // ---------------------------------------------------------------------

  /** `os.rename` of a file fails when the target's directory is missing or the target is a directory. */
  predicate RenameSucceeds(e: map<Path, Entry>, src: Path, dst: Path)
    requires dst != []
  {
    ParentIsDir(e, dst) && !IsDirAt(e, dst)
  }

  function Renamed(e: map<Path, Entry>, src: Path, dst: Path): (e': map<Path, Entry>)
    requires src in e
    ensures dst in e' && e'[dst] == e[src]
    ensures forall q :: q in e && q != src && q != dst ==> q in e' && e'[q] == e[q]
  {
    (e - {src})[dst := e[src]]
  }

  /** `os.rename` of a file into an existing directory keeps the disk well formed. */
  lemma RenamedWellFormed(e: map<Path, Entry>, src: Path, dst: Path)
    requires WellFormed(e) && IsFileAt(e, src) && dst != [] && RenameSucceeds(e, src, dst)
    ensures WellFormed(Renamed(e, src, dst))
    ensures DirsKept(e, Renamed(e, src, dst))
  {
    var e' := Renamed(e, src, dst);
    forall q, k | q in e' && 0 < k < |q|
      ensures q[..k] in e' && e'[q[..k]].Dir?
    {
      if q == dst {
        assert q[..k] == Parent(dst)[..k];
      } else {
        assert q in e;
        assert q[..k] != src;
      }
    }
  }

  // ---------------------------------------------------------------------
  // Writing a streamed download: open(p, "wb"), copy, os.utime
  // ---------------------------------------------------------------------

  /**
   * How the remote stream behaved: it delivered everything, failed before the
   * local file was opened, or failed after `written` bytes had been written at
   * local time `now` (leaving a truncated file behind).
   */
  datatype Transfer = Completed | FailedBeforeWrite | FailedDuringWrite(written: nat, now: int)

  /** `open(p, "wb")` fails when `p` is a directory or its directory is missing. */
  predicate CanOpenForWrite(e: map<Path, Entry>, p: Path)
  {
    p != [] && ParentIsDir(e, p) && !IsDirAt(e, p)
  }

  /** The download reports success only when the stream completed and the file could be written. */
  predicate TransferSucceeds(e: map<Path, Entry>, p: Path, t: Transfer)
  {
    t.Completed? && CanOpenForWrite(e, p)
  }

  /** The disk after a download of a `size`-byte file stamped with modification time `stamp`. */
  function AfterTransfer(e: map<Path, Entry>, p: Path, t: Transfer, size: nat, stamp: int): (e': map<Path, Entry>)
    ensures TransferSucceeds(e, p, t) ==> e' == e[p := File(size, stamp)]
    ensures !CanOpenForWrite(e, p) || t.FailedBeforeWrite? ==> e' == e
    ensures e.Keys <= e'.Keys <= e.Keys + {p}
  {
    if t.FailedBeforeWrite? || !CanOpenForWrite(e, p) then e
    else if t.Completed? then e[p := File(size, stamp)]
    else e[p := File(t.written, t.now)]
  }

  lemma AfterTransferWellFormed(e: map<Path, Entry>, p: Path, t: Transfer, size: nat, stamp: int)
    requires WellFormed(e)
    ensures WellFormed(AfterTransfer(e, p, t, size, stamp))
    ensures DirsKept(e, AfterTransfer(e, p, t, size, stamp))
  {
    var e' := AfterTransfer(e, p, t, size, stamp);
    if e' != e {
      forall q, k | q in e' && 0 < k < |q|
        ensures q[..k] in e' && e'[q[..k]].Dir?
      {
        if q == p {
          assert q[..k] == Parent(p)[..k];
          if k < |p| - 1 {
            assert Parent(p)[..k] == q[..k];
          }
        }
      }
    }
  }

  /** An existing directory is made again without change. */
  lemma ExistingDirMade(e: map<Path, Entry>, p: Path)
    requires WellFormed(e) && IsDirAt(e, p)
    ensures MakeDirsSucceeds(e, p) && WithDirs(e, p) == e
  {
    forall q | q in Prefixes(p) ensures q in e && e[q].Dir?
    {
      if |q| < |p| {
        assert q == p[..|q|];
      } else {
        assert q == p;
      }
    }
  }

  /** Directories made once, and none removed since, are made again without change. */
  lemma MadeDirsStay(e: map<Path, Entry>, e': map<Path, Entry>, p: Path)
    requires MakeDirsSucceeds(e, p) && DirsKept(WithDirs(e, p), e')
    ensures MakeDirsSucceeds(e', p) && WithDirs(e', p) == e'
  {
    forall q | q in Prefixes(p) ensures q in e' && e'[q].Dir?
    {
      assert IsDirAt(WithDirs(e, p), q);
    }
  }

  // ---------------------------------------------------------------------
  // What a sync step does to the disk
  // ---------------------------------------------------------------------

  /**
   * A sync step as a value: the disk it leaves, whether it raised, the local
   * paths it started a download for, and those of them whose download did
   * not store the file.
   */
  datatype Outcome = Outcome(entries: map<Path, Entry>, raised: bool, fetched: set<Path>, failed: set<Path>)

  /** A step that did nothing. */
  function Idle(e: map<Path, Entry>): Outcome
  {
    Outcome(e, false, {}, {})
  }

  /** Step `second`, taken on the disk `first` left, after `first`; nothing runs after a raise. */
  function Then(first: Outcome, second: Outcome): (r: Outcome)
    ensures first.raised ==> r == first
    ensures !first.raised ==> r.entries == second.entries && r.raised == second.raised
    ensures r.fetched == first.fetched + (if first.raised then {} else second.fetched)
    ensures r.failed == first.failed + (if first.raised then {} else second.failed)
  {
    if first.raised then first
    else Outcome(second.entries, second.raised, first.fetched + second.fetched, first.failed + second.failed)
  }

  /** Steps compose associatively. */
  lemma ThenAssoc(a: Outcome, b: Outcome, c: Outcome)
    ensures Then(Then(a, b), c) == Then(a, Then(b, c))
  {
  }

  /**
   * `e'` differs from `e` only at `d` and below it, apart from directories
   * created on the way to `d`: every entry outside `d` is left as it was.
   */
  ghost predicate ChangesWithin(e: map<Path, Entry>, e': map<Path, Entry>, d: Path)
  {
    (forall q :: q in e && !IsPrefix(d, q) ==> q in e' && e'[q] == e[q]) &&
    (forall q :: q in e' && q !in e ==> IsPrefix(q, d) || IsPrefix(d, q))
  }

  /** `e` and `e'` agree at `d` and everywhere below it. */
  ghost predicate SameBelow(e: map<Path, Entry>, e': map<Path, Entry>, d: Path)
  {
    forall q :: IsPrefix(d, q) ==> (q in e <==> q in e') && (q in e ==> e'[q] == e[q])
  }

  lemma ChangesWithinTrans(e1: map<Path, Entry>, e2: map<Path, Entry>, e3: map<Path, Entry>, d: Path)
    requires ChangesWithin(e1, e2, d) && ChangesWithin(e2, e3, d)
    ensures ChangesWithin(e1, e3, d)
  {
  }

  /** A change confined to a directory is confined to every directory above it. */
  lemma ChangesWithinWider(e: map<Path, Entry>, e': map<Path, Entry>, d: Path, inner: Path)
    requires IsPrefix(d, inner) && ChangesWithin(e, e', inner)
    ensures ChangesWithin(e, e', d)
  {
    forall q | q in e' && q !in e ensures IsPrefix(q, d) || IsPrefix(d, q)
    {
      if IsPrefix(q, inner) {
        if |q| <= |d| {
          assert q == inner[..|q|] == d[..|q|];
        } else {
          assert d == inner[..|d|] == q[..|d|];
        }
      } else {
        assert d == inner[..|d|] == q[..|d|];
      }
    }
  }

  /** A change confined to one entry of a directory leaves its siblings alone. */
  lemma ChangesWithinSparesSibling(e: map<Path, Entry>, e': map<Path, Entry>, d: Path, a: string, b: string)
    requires a != b && ChangesWithin(e, e', d + [a])
    ensures SameBelow(e, e', d + [b])
  {
    forall q | IsPrefix(d + [b], q) ensures (q in e <==> q in e') && (q in e ==> e'[q] == e[q])
    {
      assert q[|d|] == b;
      assert (d + [a])[|d|] == a;
    }
  }

  lemma WithDirsChangesWithin(e: map<Path, Entry>, p: Path)
    ensures ChangesWithin(e, WithDirs(e, p), p)
  {
  }

  lemma AfterTransferChangesWithin(e: map<Path, Entry>, p: Path, t: Transfer, size: nat, stamp: int)
    ensures ChangesWithin(e, AfterTransfer(e, p, t, size, stamp), p)
  {
    assert IsPrefix(p, p);
  }

  /** The local filesystem, updated in place by the synchronisers. */
  class LocalDisk {
    var entries: map<Path, Entry>

    ghost predicate Valid()
      reads this
    {
      WellFormed(entries)
    }

    constructor (initial: map<Path, Entry>)
      requires WellFormed(initial)
      ensures Valid() && entries == initial
    {
      entries := initial;
    }

    /** `os.makedirs(p, exist_ok=True)`; `ok` is false where it raises. */
    method MakeDirs(p: Path) returns (ok: bool)
      requires Valid()
      modifies this
      ensures Valid()
      ensures ok == MakeDirsSucceeds(old(entries), p)
      ensures entries == if ok then WithDirs(old(entries), p) else old(entries)
      ensures ok && p != [] ==> IsDirAt(entries, p)
      ensures DirsKept(old(entries), entries)
    {
      ok := MakeDirsSucceeds(entries, p);
      if ok {
        WithDirsWellFormed(entries, p);
        entries := WithDirs(entries, p);
      }
    }

    /** `Path.unlink(missing_ok=True)` on a path that is not a directory. */
    method Unlink(p: Path)
      requires Valid() && !IsDirAt(entries, p)
      modifies this
      ensures Valid()
      ensures entries == old(entries) - {p}
    {
      if p in entries {
        FileIsLeaf(entries, p);
        WithoutTreeWellFormed(entries, p);
      }
      entries := entries - {p};
    }

    /** `shutil.rmtree(p)` on a directory. */
    method RemoveTree(p: Path)
      requires Valid() && IsDirAt(entries, p)
      modifies this
      ensures Valid()
      ensures entries == WithoutTree(old(entries), p)
    {
      WithoutTreeWellFormed(entries, p);
      entries := WithoutTree(entries, p);
    }

    /** `os.rename(src, dst)` of a regular file; `ok` is false where it raises. */
    method Rename(src: Path, dst: Path) returns (ok: bool)
      requires Valid() && IsFileAt(entries, src) && dst != []
      modifies this
      ensures Valid()
      ensures ok == RenameSucceeds(old(entries), src, dst)
      ensures entries == if ok then Renamed(old(entries), src, dst) else old(entries)
    {
      ok := RenameSucceeds(entries, src, dst);
      if ok {
        RenamedWellFormed(entries, src, dst);
        entries := Renamed(entries, src, dst);
      }
    }

    /**
     * Writes the stream of a download to `p` and stamps it with `stamp`;
     * `ok` is the downloader's success flag (all failures are caught).
     */
    method Store(p: Path, t: Transfer, size: nat, stamp: int) returns (ok: bool)
      requires Valid()
      modifies this
      ensures Valid()
      ensures ok == TransferSucceeds(old(entries), p, t)
      ensures entries == AfterTransfer(old(entries), p, t, size, stamp)
      ensures DirsKept(old(entries), entries)
    {
      AfterTransferWellFormed(entries, p, t, size, stamp);
      ok := TransferSucceeds(entries, p, t);
      entries := AfterTransfer(entries, p, t, size, stamp);
    }
  }

  /** The set of local paths one sync pass keeps (the source's shared `files` set). */
  class KeptSet {
    var paths: set<Path>

    constructor ()
      ensures paths == {}
    {
      paths := {};
    }

    /** `files.add(p)` */
    method Add(p: Path)
      modifies this
      ensures paths == old(paths) + {p}
    {
      paths := paths + {p};
    }

    /** `files.update(s)` */
    method Update(s: set<Path>)
      modifies this
      ensures paths == old(paths) + s
    {
      paths := paths + s;
    }
  }
}
