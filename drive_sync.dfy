/**
 * The drive synchroniser (src/sync_drive.py).
 *
 * A sync pass walks the remote drive listing. Each folder the folder filters
 * want is created locally and walked in turn. Each file whose folder and
 * extension are wanted is recorded in the kept set and downloaded unless the
 * local copy already matches it. At the top level, when removal is enabled,
 * everything below the destination that is not in the kept set is then
 * deleted.
 *
 * The traversal is specified by the set of paths it keeps (`KeptBy`,
 * `KeptByAll`); the methods are proved against it and against the
 * reconciliation pass of module DriveReconcile.
 */
module DriveSync {
  import opened Common
  import opened LocalFs
  import opened Chunks
  import opened DriveFilters
  import opened DriveReconcile

  /** `sync_directory` hands the items to the workers in batches of this many. */
  const DriveChunkSize: nat := 100

  /**
   * A remote drive node as the synchroniser reads it: its `type`, its `name`,
   * its `size` (absent for some nodes), its `date_modified` in nanoseconds
   * since the epoch, and, for a folder, the nodes its `dir()` lists.
   */
  datatype Item = Item(kind: string, name: string, size: Option<nat>, modified: int, children: seq<Item>)

  /** The node types the synchroniser walks into. */
  predicate IsFolderKind(kind: string)
  {
    kind == "folder" || kind == "app_library"
  }

  /** The `folders` and `file_extensions` drive filters; a missing key is `None`. */
  datatype Filters = Filters(folders: Option<seq<string>>, fileExtensions: Option<seq<string>>)

  // ---------------------------------------------------------------------
  // Times and sizes
  // ---------------------------------------------------------------------

  /** `int(t)` of a time `t` in seconds, given in nanoseconds: truncation toward zero. */
  function TruncatedSeconds(ns: int): (s: int)
    ensures ns >= 0 ==> 0 <= s && s * NanosPerSecond <= ns < (s + 1) * NanosPerSecond
    ensures ns < 0 ==> s <= 0 && (s - 1) * NanosPerSecond < ns <= s * NanosPerSecond
  {
    if ns >= 0 then ns / NanosPerSecond else -((-ns) / NanosPerSecond)
  }

  /** The whole second that contains `ns`, which is what `timetuple()` keeps. */
  function FloorSeconds(ns: int): (s: int)
    ensures s * NanosPerSecond <= ns < (s + 1) * NanosPerSecond
  {
    ns / NanosPerSecond
  }

  /** The modification time `download_file` gives the local copy: `mktime(date_modified.timetuple())`. */
  function DownloadStamp(modified: int): (stamp: int)
    ensures stamp % NanosPerSecond == 0
    ensures stamp <= modified < stamp + NanosPerSecond
  {
    FloorSeconds(modified) * NanosPerSecond
  }

  /** The number of bytes a download writes: the reported size, none when no size is reported. */
  function DownloadedSize(size: Option<nat>): nat
  {
    if size.Some? then size.value else 0
  }

  /** The size test of `file_exists`: equal sizes, or an empty local file for a node without a size. */
  predicate SizesAgree(local: nat, remote: Option<nat>)
  {
    remote == Some(local) || (local == 0 && remote.None?)
  }

  /**
   * `file_exists`: the local path is a regular file whose modification time
   * falls in the same whole second as the remote one and whose size agrees.
   */
  predicate FileExists(item: Item, localFile: Path, e: map<Path, Entry>)
  {
    IsFileAt(e, localFile) &&
    TruncatedSeconds(e[localFile].mtime) == TruncatedSeconds(item.modified) &&
    SizesAgree(e[localFile].size, item.size)
  }

  /** The size test accepts exactly the size a download of the node writes. */
  lemma SizesAgreeWithDownload(local: nat, remote: Option<nat>)
    ensures SizesAgree(local, remote) <==> local == DownloadedSize(remote)
  {
  }

  /**
   * A local copy is taken as current exactly when it is a regular file of the
   * size a download would write, stamped within the remote second; any other
   * change is detected.
   */
  lemma FileExistsMeans(item: Item, localFile: Path, e: map<Path, Entry>)
    ensures FileExists(item, localFile, e) <==>
              IsFileAt(e, localFile) &&
              e[localFile].size == DownloadedSize(item.size) &&
              TruncatedSeconds(e[localFile].mtime) == TruncatedSeconds(item.modified)
  {
    if IsFileAt(e, localFile) {
      SizesAgreeWithDownload(e[localFile].size, item.size);
    }
  }

  /** A whole-second stamp reads back as that second. */
  lemma TruncatedWholeSeconds(s: int)
    ensures TruncatedSeconds(s * NanosPerSecond) == s
  {
    if s < 0 {
      assert -(s * NanosPerSecond) == (-s) * NanosPerSecond;
    }
  }

  /**
   * After a successful download the local copy is current: the next pass
   * does not fetch it again. This holds for every time from the epoch on, and
   * for whole-second times before it.
   */
  lemma DownloadMakesCurrent(item: Item, p: Path, e: map<Path, Entry>, t: Transfer)
    requires item.modified >= 0 || item.modified % NanosPerSecond == 0
    requires TransferSucceeds(e, p, t)
    ensures FileExists(item, p, AfterTransfer(e, p, t, DownloadedSize(item.size), DownloadStamp(item.modified)))
  {
    var s := FloorSeconds(item.modified);
    TruncatedWholeSeconds(s);
    if item.modified < 0 {
      assert item.modified == s * NanosPerSecond;
    }
  }

  /**
   * Before the epoch the stamp and the comparison round in opposite
   * directions: a node modified one nanosecond before the epoch is stamped a
   * full second earlier, and its fresh copy is seen as changed.
   */
  lemma DownloadBeforeEpochLooksChanged(name: string, t: Transfer)
    requires name != "" && t.Completed?
    ensures var item := Item("file", name, Some(1), -1, []);
            var e := AfterTransfer(map[], [name], t, DownloadedSize(item.size), DownloadStamp(item.modified));
            !FileExists(item, [name], e)
  {
    assert DownloadStamp(-1) == -NanosPerSecond;
    TruncatedWholeSeconds(-1);
  }

  // ---------------------------------------------------------------------
  // The kept set a traversal produces
  // ---------------------------------------------------------------------

  /** `process_folder` creates the folder: a destination and a root are given and the folder filters want it. */
  predicate FolderWanted(item: Item, dest: Option<Path>, folders: Option<seq<string>>, root: Option<Path>)
  {
    dest.Some? && root.Some? && WantedFolder(folders, root, Some(dest.value + [item.name]))
  }

  /** `process_file` keeps the file: a destination is given and the extension filters want it. */
  predicate FileWanted(item: Item, dest: Option<Path>, extensions: Option<seq<string>>)
  {
    dest.Some? && WantedFile(extensions, PathString(dest.value + [item.name]))
  }

  /**
   * The local paths `sync_items` adds to the kept set for one node listed in
   * directory `dest`: a wanted folder and everything kept inside it, or a
   * file in a wanted parent folder with a wanted extension. Other node types
   * keep nothing.
   */
  function KeptBy(item: Item, dest: Path, filters: Filters, root: Path): (kept: set<Path>)
    ensures forall p :: p in kept ==> Below(dest, p)
    decreases item
  {
    if IsFolderKind(item.kind) then
      var nd := dest + [item.name];
      if FolderWanted(item, Some(dest), filters.folders, Some(root)) then
        var inner := KeptByAll(item.children, nd, filters, root);
        assert forall p :: p in inner ==> p[..|dest|] == nd[..|dest|];
        {nd} + inner
      else {}
    else if item.kind == "file" then
      if WantedParentFolder(filters.folders, Some(root), Some(dest)) &&
         FileWanted(item, Some(dest), filters.fileExtensions)
      then {dest + [item.name]}
      else {}
    else {}
  }

  /** The kept set of a whole listing: the union over its nodes. */
  function KeptByAll(items: seq<Item>, dest: Path, filters: Filters, root: Path): (kept: set<Path>)
    ensures forall p :: p in kept ==> Below(dest, p)
    decreases items
  {
    if items == [] then {}
    else KeptByAll(items[..|items| - 1], dest, filters, root) + KeptBy(items[|items| - 1], dest, filters, root)
  }

  /** Listings concatenate: the kept set does not depend on how the listing is batched. */
  lemma {:induction false} KeptByAllAppend(a: seq<Item>, b: seq<Item>, dest: Path, filters: Filters, root: Path)
    ensures KeptByAll(a + b, dest, filters, root) == KeptByAll(a, dest, filters, root) + KeptByAll(b, dest, filters, root)
    decreases |b|
  {
    if b == [] {
      assert a + b == a;
    } else {
      var b' := b[..|b| - 1];
      assert (a + b)[..|a + b| - 1] == a + b';
      KeptByAllAppend(a, b', dest, filters, root);
    }
  }

  /** A path is kept by a listing exactly when it is kept by one of its nodes. */
  lemma {:induction false} KeptByAllMembers(items: seq<Item>, dest: Path, filters: Filters, root: Path, p: Path)
    ensures p in KeptByAll(items, dest, filters, root) <==>
              exists i :: 0 <= i < |items| && p in KeptBy(items[i], dest, filters, root)
    decreases |items|
  {
    if items != [] {
      var front := items[..|items| - 1];
      KeptByAllMembers(front, dest, filters, root, p);
      if p in KeptByAll(front, dest, filters, root) {
        var i :| 0 <= i < |front| && p in KeptBy(front[i], dest, filters, root);
        assert front[i] == items[i];
      } else if p !in KeptBy(items[|items| - 1], dest, filters, root) {
        forall i | 0 <= i < |items| ensures p !in KeptBy(items[i], dest, filters, root)
        {
          if i < |front| {
            assert items[i] == front[i];
          }
        }
      }
    }
  }

  /** Walking one more node of a batch adds what that node keeps. */
  lemma ItemRecorded(chunk: seq<Item>, j: nat, next: nat, dest: Path, filters: Filters, root: Path,
                     before: set<Path>, after: set<Path>)
    requires next == j + 1 <= |chunk|
    requires before == KeptByAll(chunk[..j], dest, filters, root)
    requires after == before + KeptBy(chunk[j], dest, filters, root)
    ensures after == KeptByAll(chunk[..next], dest, filters, root)
  {
    assert chunk[..next][..j] == chunk[..j];
  }

  /**
   * The kept set contains every ancestor below the destination of each of
   * its paths: a file is only kept inside a folder that is kept. This is what
   * protects the kept paths from the reconciliation pass.
   */
  lemma {:induction false} KeptByClosed(item: Item, dest: Path, filters: Filters, root: Path)
    ensures KeptClosed(dest, KeptBy(item, dest, filters, root))
    decreases item
  {
    var kept := KeptBy(item, dest, filters, root);
    if IsFolderKind(item.kind) && FolderWanted(item, Some(dest), filters.folders, Some(root)) {
      var nd := dest + [item.name];
      var inner := KeptByAll(item.children, nd, filters, root);
      KeptByAllClosed(item.children, nd, filters, root);
      forall p, k | p in kept && |dest| < k < |p| ensures p[..k] in kept
      {
        if p != nd {
          assert p in inner;
          if k == |nd| {
            assert p[..k] == nd;
          } else {
            assert p[..k] in inner;
          }
        }
      }
    }
  }

  lemma {:induction false} KeptByAllClosed(items: seq<Item>, dest: Path, filters: Filters, root: Path)
    ensures KeptClosed(dest, KeptByAll(items, dest, filters, root))
    decreases items
  {
    if items != [] {
      KeptByAllClosed(items[..|items| - 1], dest, filters, root);
      KeptByClosed(items[|items| - 1], dest, filters, root);
    }
  }

  /** After reconciling against a closed kept set, exactly the kept entries below `d` are left. */
  lemma ReconcileOutcome(e: map<Path, Entry>, d: Path, kept: set<Path>)
    requires WellFormed(e) && KeptClosed(d, kept)
    ensures forall p :: p in Pruned(e, ObsoleteRoots(e, d, kept)) && Below(d, p) ==> p in kept
    ensures forall p :: p in kept && p in e ==> p in Pruned(e, ObsoleteRoots(e, d, kept))
  {
    forall p | p in Pruned(e, ObsoleteRoots(e, d, kept)) && Below(d, p) ensures p in kept
    {
      ReconcileLeavesOnlyKept(e, d, kept, p);
    }
    forall p | p in kept && p in e ensures p in Pruned(e, ObsoleteRoots(e, d, kept))
    {
      ReconcileKeepsKept(e, d, kept, p);
    }
  }

  // ---------------------------------------------------------------------
  // The disk a traversal leaves
  // ---------------------------------------------------------------------

  /**
   * What `sync_items` does to the disk for one node listed in directory
   * `dest`, as a value. A wanted folder is created and walked; when
   * `makedirs` fails the pass raises. A wanted file in a wanted folder whose
   * local copy is not current is downloaded, with the outcome `transfer`
   * gives for its local path. Anything else leaves the disk alone.
   */
  function WalkItem(e: map<Path, Entry>, item: Item, dest: Path, filters: Filters, root: Path,
                    transfer: Path -> Transfer): Outcome
    decreases item
  {
    var p := dest + [item.name];
    if IsFolderKind(item.kind) then
      if !FolderWanted(item, Some(dest), filters.folders, Some(root)) then Idle(e)
      else if !MakeDirsSucceeds(e, p) then Outcome(e, true, {}, {})
      else WalkAll(WithDirs(e, p), item.children, p, filters, root, transfer)
    else if item.kind == "file" && WantedParentFolder(filters.folders, Some(root), Some(dest)) &&
            FileWanted(item, Some(dest), filters.fileExtensions) && !FileExists(item, p, e) then
      Outcome(AfterTransfer(e, p, transfer(p), DownloadedSize(item.size), DownloadStamp(item.modified)), false,
              {p}, if TransferSucceeds(e, p, transfer(p)) then {} else {p})
    else Idle(e)
  }

  /** A listing walked node after node; the walk stops at the first raise. */
  function WalkAll(e: map<Path, Entry>, items: seq<Item>, dest: Path, filters: Filters, root: Path,
                   transfer: Path -> Transfer): Outcome
    decreases items
  {
    if items == [] then Idle(e)
    else
      var before := WalkAll(e, items[..|items| - 1], dest, filters, root, transfer);
      Then(before, WalkItem(before.entries, items[|items| - 1], dest, filters, root, transfer))
  }

  /** Walking one more node of a batch. */
  lemma WalkedOneMore(e: map<Path, Entry>, chunk: seq<Item>, j: nat, next: nat, dest: Path, filters: Filters,
                      root: Path, transfer: Path -> Transfer)
    requires next == j + 1 <= |chunk|
    ensures var before := WalkAll(e, chunk[..j], dest, filters, root, transfer);
            WalkAll(e, chunk[..next], dest, filters, root, transfer) ==
              Then(before, WalkItem(before.entries, chunk[j], dest, filters, root, transfer))
  {
    assert chunk[..next][..j] == chunk[..j];
  }

  /** Listings concatenate: walking `a + b` is walking `a`, then `b` on the disk it left. */
  lemma {:induction false} WalkAllAppend(e: map<Path, Entry>, a: seq<Item>, b: seq<Item>, dest: Path,
                                         filters: Filters, root: Path, transfer: Path -> Transfer)
    ensures var first := WalkAll(e, a, dest, filters, root, transfer);
            WalkAll(e, a + b, dest, filters, root, transfer) ==
              Then(first, WalkAll(first.entries, b, dest, filters, root, transfer))
    decreases |b|
  {
    if b == [] {
      assert a + b == a;
    } else {
      var b', last := b[..|b| - 1], b[|b| - 1];
      assert (a + b)[..|a + b| - 1] == a + b' && (a + b)[|a + b| - 1] == last;
      WalkAllAppend(e, a, b', dest, filters, root, transfer);
      var first := WalkAll(e, a, dest, filters, root, transfer);
      var mid := WalkAll(first.entries, b', dest, filters, root, transfer);
      var front := WalkAll(e, a + b', dest, filters, root, transfer);
      assert WalkAll(e, a + b, dest, filters, root, transfer) ==
             Then(front, WalkItem(front.entries, last, dest, filters, root, transfer));
      assert WalkAll(first.entries, b, dest, filters, root, transfer) ==
             Then(mid, WalkItem(mid.entries, last, dest, filters, root, transfer));
      ThenAssoc(first, mid, WalkItem(mid.entries, last, dest, filters, root, transfer));
    }
  }

  /** Once a walk has raised, the nodes after it change nothing. */
  lemma {:induction false} WalkAllStops(e: map<Path, Entry>, a: seq<Item>, b: seq<Item>, dest: Path,
                                        filters: Filters, root: Path, transfer: Path -> Transfer)
    requires WalkAll(e, a, dest, filters, root, transfer).raised
    ensures WalkAll(e, a + b, dest, filters, root, transfer) == WalkAll(e, a, dest, filters, root, transfer)
    decreases |b|
  {
    if b == [] {
      assert a + b == a;
    } else {
      var b' := b[..|b| - 1];
      assert (a + b)[..|a + b| - 1] == a + b';
      WalkAllStops(e, a, b', dest, filters, root, transfer);
    }
  }

  /** A raise at the `k`-th node is the outcome of the whole listing. */
  lemma WalkStopAt(e: map<Path, Entry>, items: seq<Item>, k: nat, dest: Path, filters: Filters, root: Path,
                   transfer: Path -> Transfer)
    requires k <= |items| && WalkAll(e, items[..k], dest, filters, root, transfer).raised
    ensures WalkAll(e, items, dest, filters, root, transfer) == WalkAll(e, items[..k], dest, filters, root, transfer)
  {
    assert items[..k] + items[k..] == items;
    WalkAllStops(e, items[..k], items[k..], dest, filters, root, transfer);
  }

  /** A loop that went through all nodes has the whole outcome and kept set. */
  lemma WalkDone(e: map<Path, Entry>, items: seq<Item>, k: nat, dest: Path, filters: Filters, root: Path,
                 transfer: Path -> Transfer)
    requires k == |items|
    ensures WalkAll(e, items[..k], dest, filters, root, transfer) == WalkAll(e, items, dest, filters, root, transfer)
    ensures KeptByAll(items[..k], dest, filters, root) == KeptByAll(items, dest, filters, root)
  {
    assert items[..k] == items;
  }

  /** A raise in a batch is the outcome of the walk over all batches. */
  lemma WalkStopsAtChunk(e: map<Path, Entry>, cs: seq<seq<Item>>, next: nat, dest: Path, filters: Filters,
                         root: Path, transfer: Path -> Transfer)
    requires next <= |cs| && WalkAll(e, Flatten(cs[..next]), dest, filters, root, transfer).raised
    ensures WalkAll(e, Flatten(cs), dest, filters, root, transfer) ==
              WalkAll(e, Flatten(cs[..next]), dest, filters, root, transfer)
  {
    assert cs[..next] + cs[next..] == cs;
    FlattenAppend(cs[..next], cs[next..]);
    WalkAllStops(e, Flatten(cs[..next]), Flatten(cs[next..]), dest, filters, root, transfer);
  }

  /** A raise in a batch is the outcome of the walk over the whole listing. */
  lemma WalkStopsAtBatch(e: map<Path, Entry>, items: seq<Item>, next: nat, dest: Path, filters: Filters,
                         root: Path, transfer: Path -> Transfer)
    requires next <= |Chunked(items, DriveChunkSize)|
    requires WalkAll(e, Flatten(Chunked(items, DriveChunkSize)[..next]), dest, filters, root, transfer).raised
    ensures WalkAll(e, items, dest, filters, root, transfer) ==
              WalkAll(e, Flatten(Chunked(items, DriveChunkSize)[..next]), dest, filters, root, transfer)
  {
    FlattenChunked(items, DriveChunkSize);
    WalkStopsAtChunk(e, Chunked(items, DriveChunkSize), next, dest, filters, root, transfer);
  }

  /**
   * A walk changes the disk only inside the directory it walks: a node only
   * inside its own local path, a listing only inside its directory (and the
   * directories created on the way there).
   */
  lemma {:induction false} WalkItemStaysInside(e: map<Path, Entry>, item: Item, dest: Path, filters: Filters,
                                               root: Path, transfer: Path -> Transfer)
    ensures ChangesWithin(e, WalkItem(e, item, dest, filters, root, transfer).entries, dest + [item.name])
    decreases item
  {
    var p := dest + [item.name];
    if IsFolderKind(item.kind) {
      if FolderWanted(item, Some(dest), filters.folders, Some(root)) && MakeDirsSucceeds(e, p) {
        WithDirsChangesWithin(e, p);
        WalkAllStaysInside(WithDirs(e, p), item.children, p, filters, root, transfer);
        ChangesWithinTrans(e, WithDirs(e, p), WalkAll(WithDirs(e, p), item.children, p, filters, root, transfer).entries, p);
      }
    } else {
      AfterTransferChangesWithin(e, p, transfer(p), DownloadedSize(item.size), DownloadStamp(item.modified));
    }
  }

  lemma {:induction false} WalkAllStaysInside(e: map<Path, Entry>, items: seq<Item>, dest: Path, filters: Filters,
                                              root: Path, transfer: Path -> Transfer)
    ensures ChangesWithin(e, WalkAll(e, items, dest, filters, root, transfer).entries, dest)
    decreases items
  {
    if items != [] {
      var last := items[|items| - 1];
      var before := WalkAll(e, items[..|items| - 1], dest, filters, root, transfer);
      WalkAllStaysInside(e, items[..|items| - 1], dest, filters, root, transfer);
      if !before.raised {
        var after := WalkItem(before.entries, last, dest, filters, root, transfer);
        WalkItemStaysInside(before.entries, last, dest, filters, root, transfer);
        ChangesWithinWider(before.entries, after.entries, dest, dest + [last.name]);
        ChangesWithinTrans(e, before.entries, after.entries, dest);
      }
    }
  }

  /** A walk keeps the disk well formed and removes no directory. */
  lemma {:induction false} WalkItemWellFormed(e: map<Path, Entry>, item: Item, dest: Path, filters: Filters,
                                              root: Path, transfer: Path -> Transfer)
    requires WellFormed(e)
    ensures WellFormed(WalkItem(e, item, dest, filters, root, transfer).entries)
    ensures DirsKept(e, WalkItem(e, item, dest, filters, root, transfer).entries)
    decreases item
  {
    var p := dest + [item.name];
    if IsFolderKind(item.kind) {
      if FolderWanted(item, Some(dest), filters.folders, Some(root)) && MakeDirsSucceeds(e, p) {
        WithDirsWellFormed(e, p);
        WalkAllWellFormed(WithDirs(e, p), item.children, p, filters, root, transfer);
      }
    } else {
      AfterTransferWellFormed(e, p, transfer(p), DownloadedSize(item.size), DownloadStamp(item.modified));
    }
  }

  lemma {:induction false} WalkAllWellFormed(e: map<Path, Entry>, items: seq<Item>, dest: Path, filters: Filters,
                                             root: Path, transfer: Path -> Transfer)
    requires WellFormed(e)
    ensures WellFormed(WalkAll(e, items, dest, filters, root, transfer).entries)
    ensures DirsKept(e, WalkAll(e, items, dest, filters, root, transfer).entries)
    decreases items
  {
    if items != [] {
      var before := WalkAll(e, items[..|items| - 1], dest, filters, root, transfer);
      WalkAllWellFormed(e, items[..|items| - 1], dest, filters, root, transfer);
      if !before.raised {
        WalkItemWellFormed(before.entries, items[|items| - 1], dest, filters, root, transfer);
      }
    }
  }

  /**
   * The disk already reflects a node: a wanted folder is a directory and
   * everything listed in it is settled, and a wanted file in a wanted folder
   * has a current local copy.
   */
  ghost predicate SettledItem(e: map<Path, Entry>, item: Item, dest: Path, filters: Filters, root: Path)
    decreases item
  {
    var p := dest + [item.name];
    if IsFolderKind(item.kind) then
      FolderWanted(item, Some(dest), filters.folders, Some(root)) ==>
        IsDirAt(e, p) && SettledAll(e, item.children, p, filters, root)
    else if item.kind == "file" then
      (WantedParentFolder(filters.folders, Some(root), Some(dest)) &&
       FileWanted(item, Some(dest), filters.fileExtensions)) ==> FileExists(item, p, e)
    else true
  }

  ghost predicate SettledAll(e: map<Path, Entry>, items: seq<Item>, dest: Path, filters: Filters, root: Path)
    decreases items
  {
    forall i :: 0 <= i < |items| ==> SettledItem(e, items[i], dest, filters, root)
  }

  /**
   * A listing a pass can settle: the names in each folder are distinct, and
   * each modification time reads back unchanged from the stamp the download
   * gives it (it is not before the epoch, or is a whole second).
   */
  predicate WellListed(items: seq<Item>)
    decreases items
  {
    (forall i, j :: 0 <= i < j < |items| ==> items[i].name != items[j].name) &&
    (forall i :: 0 <= i < |items| ==>
       (items[i].modified >= 0 || items[i].modified % NanosPerSecond == 0) && WellListed(items[i].children))
  }

  /** Whether a node is settled depends only on the disk at and below its own path. */
  lemma {:induction false} SettledItemLocal(e: map<Path, Entry>, e': map<Path, Entry>, item: Item, dest: Path,
                                            filters: Filters, root: Path)
    requires SettledItem(e, item, dest, filters, root) && SameBelow(e, e', dest + [item.name])
    ensures SettledItem(e', item, dest, filters, root)
    decreases item
  {
    var p := dest + [item.name];
    assert IsPrefix(p, p);
    if IsFolderKind(item.kind) && FolderWanted(item, Some(dest), filters.folders, Some(root)) {
      SettledAllLocal(e, e', item.children, p, filters, root);
    }
  }

  lemma {:induction false} SettledAllLocal(e: map<Path, Entry>, e': map<Path, Entry>, items: seq<Item>, dest: Path,
                                           filters: Filters, root: Path)
    requires SettledAll(e, items, dest, filters, root) && SameBelow(e, e', dest)
    ensures SettledAll(e', items, dest, filters, root)
    decreases items
  {
    forall i | 0 <= i < |items| ensures SettledItem(e', items[i], dest, filters, root)
    {
      var p := dest + [items[i].name];
      forall q | IsPrefix(p, q) ensures IsPrefix(dest, q)
      {
        assert q[..|dest|] == p[..|dest|];
      }
      SettledItemLocal(e, e', items[i], dest, filters, root);
    }
  }

  /** Walking a settled node or listing changes nothing, downloads nothing and does not raise. */
  lemma {:induction false} SettledItemIdle(e: map<Path, Entry>, item: Item, dest: Path, filters: Filters, root: Path,
                                           transfer: Path -> Transfer)
    requires WellFormed(e) && SettledItem(e, item, dest, filters, root)
    ensures WalkItem(e, item, dest, filters, root, transfer) == Idle(e)
    decreases item
  {
    var p := dest + [item.name];
    if IsFolderKind(item.kind) && FolderWanted(item, Some(dest), filters.folders, Some(root)) {
      ExistingDirMade(e, p);
      SettledAllIdle(e, item.children, p, filters, root, transfer);
    }
  }

  lemma {:induction false} SettledAllIdle(e: map<Path, Entry>, items: seq<Item>, dest: Path, filters: Filters,
                                          root: Path, transfer: Path -> Transfer)
    requires WellFormed(e) && SettledAll(e, items, dest, filters, root)
    ensures WalkAll(e, items, dest, filters, root, transfer) == Idle(e)
    decreases items
  {
    if items != [] {
      var front := items[..|items| - 1];
      assert SettledAll(e, front, dest, filters, root) by {
        forall i | 0 <= i < |front| ensures SettledItem(e, front[i], dest, filters, root)
        {
          assert front[i] == items[i];
        }
      }
      SettledAllIdle(e, front, dest, filters, root, transfer);
      SettledItemIdle(e, items[|items| - 1], dest, filters, root, transfer);
    }
  }

  /**
   * A walk that did not raise and whose downloads all stored their file
   * leaves the node settled.
   */
  lemma {:induction false} WalkItemSettles(e: map<Path, Entry>, item: Item, dest: Path, filters: Filters, root: Path,
                                           transfer: Path -> Transfer)
    requires WellFormed(e) && WellListed(item.children)
    requires item.modified >= 0 || item.modified % NanosPerSecond == 0
    requires !WalkItem(e, item, dest, filters, root, transfer).raised
    requires WalkItem(e, item, dest, filters, root, transfer).failed == {}
    ensures SettledItem(WalkItem(e, item, dest, filters, root, transfer).entries, item, dest, filters, root)
    decreases item
  {
    var p := dest + [item.name];
    if IsFolderKind(item.kind) {
      if FolderWanted(item, Some(dest), filters.folders, Some(root)) {
        var e1 := WithDirs(e, p);
        WithDirsWellFormed(e, p);
        WalkAllSettles(e1, item.children, p, filters, root, transfer);
        WalkAllWellFormed(e1, item.children, p, filters, root, transfer);
      }
    } else if item.kind == "file" && WantedParentFolder(filters.folders, Some(root), Some(dest)) &&
              FileWanted(item, Some(dest), filters.fileExtensions) && !FileExists(item, p, e) {
      assert p in WalkItem(e, item, dest, filters, root, transfer).fetched;
      DownloadMakesCurrent(item, p, e, transfer(p));
    }
  }

  lemma {:induction false} WalkAllSettles(e: map<Path, Entry>, items: seq<Item>, dest: Path, filters: Filters,
                                          root: Path, transfer: Path -> Transfer)
    requires WellFormed(e) && WellListed(items)
    requires !WalkAll(e, items, dest, filters, root, transfer).raised
    requires WalkAll(e, items, dest, filters, root, transfer).failed == {}
    ensures SettledAll(WalkAll(e, items, dest, filters, root, transfer).entries, items, dest, filters, root)
    decreases items
  {
    if items != [] {
      var front, last := items[..|items| - 1], items[|items| - 1];
      assert WellListed(front) by {
        forall i | 0 <= i < |front| ensures front[i] == items[i] {}
      }
      var before := WalkAll(e, front, dest, filters, root, transfer);
      WalkAllSettles(e, front, dest, filters, root, transfer);
      WalkAllWellFormed(e, front, dest, filters, root, transfer);
      var after := WalkItem(before.entries, last, dest, filters, root, transfer);
      WalkItemSettles(before.entries, last, dest, filters, root, transfer);
      WalkItemStaysInside(before.entries, last, dest, filters, root, transfer);
      forall i | 0 <= i < |items| ensures SettledItem(after.entries, items[i], dest, filters, root)
      {
        if i < |front| {
          assert items[i] == front[i];
          ChangesWithinSparesSibling(before.entries, after.entries, dest, last.name, items[i].name);
          SettledItemLocal(before.entries, after.entries, items[i], dest, filters, root);
        }
      }
    }
  }

  /**
   * A second pass over the same listing does nothing, whatever its
   * transfers would do, once the first pass finished without raising and
   * every download it started stored its file.
   */
  lemma SecondPassIdle(e: map<Path, Entry>, items: seq<Item>, dest: Path, filters: Filters, root: Path,
                       transfer: Path -> Transfer, again: Path -> Transfer)
    requires WellFormed(e) && WellListed(items)
    requires !WalkAll(e, items, dest, filters, root, transfer).raised
    requires WalkAll(e, items, dest, filters, root, transfer).failed == {}
    ensures var first := WalkAll(e, items, dest, filters, root, transfer).entries;
            WalkAll(first, items, dest, filters, root, again) == Idle(first)
  {
    var first := WalkAll(e, items, dest, filters, root, transfer).entries;
    WalkAllSettles(e, items, dest, filters, root, transfer);
    WalkAllWellFormed(e, items, dest, filters, root, transfer);
    SettledAllIdle(first, items, dest, filters, root, again);
  }

  /** `e'` holds every path of `kept` that `e` holds, with the same entry. */
  ghost predicate HoldsOn(e: map<Path, Entry>, e': map<Path, Entry>, kept: set<Path>)
  {
    forall p :: p in kept && p in e ==> p in e' && e'[p] == e[p]
  }

  /** Whether a node is settled depends only on the entries at the paths it keeps. */
  lemma {:induction false} SettledItemOnKept(e: map<Path, Entry>, e': map<Path, Entry>, item: Item, dest: Path,
                                             filters: Filters, root: Path)
    requires SettledItem(e, item, dest, filters, root) && HoldsOn(e, e', KeptBy(item, dest, filters, root))
    ensures SettledItem(e', item, dest, filters, root)
    decreases item
  {
    var p := dest + [item.name];
    if IsFolderKind(item.kind) && FolderWanted(item, Some(dest), filters.folders, Some(root)) {
      assert p in KeptBy(item, dest, filters, root);
      SettledAllOnKept(e, e', item.children, p, filters, root);
    }
  }

  lemma {:induction false} SettledAllOnKept(e: map<Path, Entry>, e': map<Path, Entry>, items: seq<Item>, dest: Path,
                                            filters: Filters, root: Path)
    requires SettledAll(e, items, dest, filters, root) && HoldsOn(e, e', KeptByAll(items, dest, filters, root))
    ensures SettledAll(e', items, dest, filters, root)
    decreases items
  {
    forall i | 0 <= i < |items| ensures SettledItem(e', items[i], dest, filters, root)
    {
      forall p | p in KeptBy(items[i], dest, filters, root) ensures p in KeptByAll(items, dest, filters, root)
      {
        KeptByAllMembers(items, dest, filters, root, p);
      }
      SettledItemOnKept(e, e', items[i], dest, filters, root);
    }
  }

  /**
   * With removal on, a second `sync_drive` over the disk the first one left
   * (walked, then pruned against the kept set) changes nothing, downloads
   * nothing and finds nothing to remove, once the first did not raise and
   * every download it started stored its file.
   */
  lemma SecondDrivePassIdle(e: map<Path, Entry>, items: seq<Item>, dest: Path, filters: Filters,
                            transfer: Path -> Transfer, again: Path -> Transfer)
    requires WellFormed(e) && WellListed(items)
    requires !WalkAll(e, items, dest, filters, dest, transfer).raised
    requires WalkAll(e, items, dest, filters, dest, transfer).failed == {}
    ensures var walked := WalkAll(e, items, dest, filters, dest, transfer).entries;
            var kept := KeptByAll(items, dest, filters, dest);
            var left := Pruned(walked, ObsoleteRoots(walked, dest, kept));
            WalkAll(left, items, dest, filters, dest, again) == Idle(left) &&
            ObsoleteRoots(left, dest, kept) == {}
  {
    var walked := WalkAll(e, items, dest, filters, dest, transfer).entries;
    var kept := KeptByAll(items, dest, filters, dest);
    var left := Pruned(walked, ObsoleteRoots(walked, dest, kept));
    WalkAllSettles(e, items, dest, filters, dest, transfer);
    WalkAllWellFormed(e, items, dest, filters, dest, transfer);
    KeptByAllClosed(items, dest, filters, dest);
    ReconcileOutcome(walked, dest, kept);
    SettledAllOnKept(walked, left, items, dest, filters, dest);
    PrunedWellFormed(walked, ObsoleteRoots(walked, dest, kept));
    SettledAllIdle(left, items, dest, filters, dest, again);
  }

  /** On a settled disk every path of the kept set exists, so reconciling keeps all of it. */
  lemma {:induction false} SettledItemHoldsKept(e: map<Path, Entry>, item: Item, dest: Path, filters: Filters, root: Path)
    requires SettledItem(e, item, dest, filters, root)
    ensures forall p :: p in KeptBy(item, dest, filters, root) ==> p in e
    decreases item
  {
    if IsFolderKind(item.kind) && FolderWanted(item, Some(dest), filters.folders, Some(root)) {
      SettledAllHoldsKept(e, item.children, dest + [item.name], filters, root);
    }
  }

  lemma {:induction false} SettledAllHoldsKept(e: map<Path, Entry>, items: seq<Item>, dest: Path, filters: Filters,
                                               root: Path)
    requires SettledAll(e, items, dest, filters, root)
    ensures forall p :: p in KeptByAll(items, dest, filters, root) ==> p in e
    decreases items
  {
    forall p | p in KeptByAll(items, dest, filters, root) ensures p in e
    {
      KeptByAllMembers(items, dest, filters, root, p);
      var i :| 0 <= i < |items| && p in KeptBy(items[i], dest, filters, root);
      SettledItemHoldsKept(e, items[i], dest, filters, root);
    }
  }

  // ---------------------------------------------------------------------
  // Operations on one node
  // ---------------------------------------------------------------------

  /** `download_file`: streams the node to `localFile` and stamps it; `ok` reports success. */
  method DownloadFile(item: Item, localFile: Path, disk: LocalDisk, t: Transfer) returns (ok: bool)
    requires disk.Valid()
    modifies disk
    ensures disk.Valid() && DirsKept(old(disk.entries), disk.entries)
    ensures ok == TransferSucceeds(old(disk.entries), localFile, t)
    ensures disk.entries == AfterTransfer(old(disk.entries), localFile, t, DownloadedSize(item.size), DownloadStamp(item.modified))
  {
    ok := disk.Store(localFile, t, DownloadedSize(item.size), DownloadStamp(item.modified));
  }

  /** What `process_folder` did: skipped the folder, created (or found) it, or raised in `makedirs`. */
  datatype FolderStep = Skipped | Entered(dir: Path) | Raised

  /** `process_folder`: creates the local folder for a wanted remote folder. */
  method ProcessFolder(item: Item, dest: Option<Path>, folders: Option<seq<string>>, root: Option<Path>, disk: LocalDisk)
    returns (step: FolderStep)
    requires disk.Valid()
    modifies disk
    ensures disk.Valid() && DirsKept(old(disk.entries), disk.entries)
    ensures step.Entered? <==>
              FolderWanted(item, dest, folders, root) && MakeDirsSucceeds(old(disk.entries), dest.value + [item.name])
    ensures step.Raised? <==>
              FolderWanted(item, dest, folders, root) && !MakeDirsSucceeds(old(disk.entries), dest.value + [item.name])
    ensures step.Entered? ==> step.dir == dest.value + [item.name] && IsDirAt(disk.entries, step.dir)
    ensures step.Entered? ==> disk.entries == WithDirs(old(disk.entries), step.dir)
    ensures !step.Entered? ==> disk.entries == old(disk.entries)
  {
    if !FolderWanted(item, dest, folders, root) {
      return Skipped;
    }
    var newDirectory := dest.value + [item.name];
    var ok := disk.MakeDirs(newDirectory);
    step := if ok then Entered(newDirectory) else Raised;
  }

  /**
   * `process_file`: records a wanted file in the kept set and downloads it
   * unless the local copy is current; `attempted` says whether a download
   * was started.
   */
  method ProcessFile(item: Item, dest: Option<Path>, extensions: Option<seq<string>>, files: KeptSet,
                     disk: LocalDisk, t: Transfer) returns (attempted: bool)
    requires disk.Valid()
    modifies files, disk
    ensures disk.Valid() && DirsKept(old(disk.entries), disk.entries)
    ensures old(disk.entries).Keys <= disk.entries.Keys
    ensures files.paths == old(files.paths) + (if FileWanted(item, dest, extensions) then {dest.value + [item.name]} else {})
    ensures attempted <==> FileWanted(item, dest, extensions) && !FileExists(item, dest.value + [item.name], old(disk.entries))
    ensures attempted ==>
              disk.entries == AfterTransfer(old(disk.entries), dest.value + [item.name], t, DownloadedSize(item.size), DownloadStamp(item.modified))
    ensures !attempted ==> disk.entries == old(disk.entries)
    ensures FileWanted(item, dest, extensions) && item.modified >= 0 &&
            (!attempted || TransferSucceeds(old(disk.entries), dest.value + [item.name], t)) ==>
              FileExists(item, dest.value + [item.name], disk.entries)
  {
    attempted := false;
    if dest.None? {
      return;
    }
    var localFile := dest.value + [item.name];
    if !WantedFile(extensions, PathString(localFile)) {
      return;
    }
    files.Add(localFile);
    if FileExists(item, localFile, disk.entries) {
      return;
    }
    if item.modified >= 0 && TransferSucceeds(disk.entries, localFile, t) {
      DownloadMakesCurrent(item, localFile, disk.entries, t);
    }
    var downloaded := DownloadFile(item, localFile, disk, t);
    attempted := true;
  }

  // ---------------------------------------------------------------------
  // The traversal
  // ---------------------------------------------------------------------

  /**
   * `sync_items` for one node listed in directory `dest`. A folder the
   * filters want is created, recorded and walked; a file is processed when
   * its folder is wanted; other node types are ignored. `raised` is set when
   * `makedirs` raises somewhere below, which ends the pass.
   */
  method SyncItem(item: Item, dest: Path, root: Path, filters: Filters, files: KeptSet, disk: LocalDisk,
                  transfer: Path -> Transfer) returns (raised: bool)
    requires disk.Valid()
    modifies files, disk
    ensures disk.Valid()
    ensures old(disk.entries).Keys <= disk.entries.Keys
    ensures !raised ==> files.paths == old(files.paths) + KeptBy(item, dest, filters, root)
    ensures disk.entries == WalkItem(old(disk.entries), item, dest, filters, root, transfer).entries
    ensures raised == WalkItem(old(disk.entries), item, dest, filters, root, transfer).raised
    ensures !IsFolderKind(item.kind) && item.kind != "file" ==> !raised && disk.entries == old(disk.entries)
    decreases item, 0
  {
    raised := false;
    if IsFolderKind(item.kind) {
      var step := ProcessFolder(item, Some(dest), filters.folders, Some(root), disk);
      if step.Skipped? {
        return;
      } else if step.Raised? {
        return true;
      }
      var newFolder := step.dir;
      files.Add(newFolder);
      var inner, innerRaised, _, _ := SyncDirectory(item.children, Some(newFolder), Some(root), false, filters, false, disk, transfer);
      if innerRaised {
        return true;
      }
      files.Update(inner.paths);
    } else if item.kind == "file" {
      if WantedParentFolder(filters.folders, Some(root), Some(dest)) {
        var attempted := ProcessFile(item, Some(dest), filters.fileExtensions, files, disk, transfer(dest + [item.name]));
      }
    }
  }

  /**
   * One batch of `sync_directory`: a `sync_items` task per node, gathered
   * before the next batch starts; here the calls run one after the other.
   * `raised` is set when `makedirs` raised, which ends the pass. `listing`
   * is the listing the batch was cut from.
   */
  method SyncChunk(chunk: seq<Item>, dest: Path, root: Path, filters: Filters, files: KeptSet, disk: LocalDisk,
                   transfer: Path -> Transfer, ghost listing: seq<Item>) returns (raised: bool)
    requires disk.Valid()
    requires forall x :: x in chunk ==> x in listing
    modifies files, disk
    ensures disk.Valid()
    ensures old(disk.entries).Keys <= disk.entries.Keys
    ensures !raised ==> files.paths == old(files.paths) + KeptByAll(chunk, dest, filters, root)
    ensures disk.entries == WalkAll(old(disk.entries), chunk, dest, filters, root, transfer).entries
    ensures raised == WalkAll(old(disk.entries), chunk, dest, filters, root, transfer).raised
    decreases listing, 0
  {
    raised := false;
    var j := 0;
    while j < |chunk| && !raised
      invariant 0 <= j <= |chunk|
      invariant disk.Valid()
      invariant old(disk.entries).Keys <= disk.entries.Keys
      invariant !raised ==> files.paths == old(files.paths) + KeptByAll(chunk[..j], dest, filters, root)
      invariant disk.entries == WalkAll(old(disk.entries), chunk[..j], dest, filters, root, transfer).entries
      invariant raised == WalkAll(old(disk.entries), chunk[..j], dest, filters, root, transfer).raised
      decreases |chunk| - j
    {
      ghost var kept := KeptByAll(chunk[..j], dest, filters, root);
      assert chunk[j] in listing;
      raised := SyncItem(chunk[j], dest, root, filters, files, disk, transfer);
      WalkedOneMore(old(disk.entries), chunk, j, j + 1, dest, filters, root, transfer);
      ItemRecorded(chunk, j, j + 1, dest, filters, root, kept, kept + KeptBy(chunk[j], dest, filters, root));
      j := j + 1;
    }
    if raised {
      WalkStopAt(old(disk.entries), chunk, j, dest, filters, root, transfer);
    } else {
      WalkDone(old(disk.entries), chunk, j, dest, filters, root, transfer);
    }
  }

  /** `sync_directory` walks a listing: there is one, a destination and a root. */
  predicate Proceeds(items: seq<Item>, dest: Option<Path>, root: Option<Path>)
  {
    items != [] && dest.Some? && root.Some?
  }

  /**
   * `sync_directory`: walks the listing batch by batch, then, at the top
   * level with removal enabled, removes what the pass did not keep. It
   * returns the kept set; `traversed` is the disk between the walk and the
   * removal, `removed` what the removal reported.
   */
  method SyncDirectory(items: seq<Item>, dest: Option<Path>, root: Option<Path>, top: bool, filters: Filters,
                       remove: bool, disk: LocalDisk, transfer: Path -> Transfer)
    returns (files: KeptSet, raised: bool, ghost traversed: map<Path, Entry>, ghost removed: set<Path>)
    requires disk.Valid()
    modifies disk
    ensures fresh(files) && disk.Valid()
    ensures !Proceeds(items, dest, root) ==> files.paths == {} && !raised && disk.entries == old(disk.entries)
    ensures Proceeds(items, dest, root) && !raised ==> files.paths == KeptByAll(items, dest.value, filters, root.value)
    ensures Proceeds(items, dest, root) ==>
              traversed == WalkAll(old(disk.entries), items, dest.value, filters, root.value, transfer).entries &&
              raised == WalkAll(old(disk.entries), items, dest.value, filters, root.value, transfer).raised
    ensures old(disk.entries).Keys <= traversed.Keys
    ensures !(top && remove) || raised ==> removed == {} && disk.entries == traversed
    ensures Proceeds(items, dest, root) && top && remove && !raised ==>
              removed == ObsoleteRoots(traversed, dest.value, files.paths) && disk.entries == Pruned(traversed, removed)
    ensures Proceeds(items, dest, root) && top && remove && !raised ==>
              forall p :: p in disk.entries && Below(dest.value, p) ==> p in files.paths
    ensures Proceeds(items, dest, root) && top && remove && !raised ==>
              forall p :: p in files.paths && p in traversed ==> p in disk.entries
    decreases items, 1
  {
    files := new KeptSet();
    raised := false;
    traversed := disk.entries;
    removed := {};
    if !Proceeds(items, dest, root) {
      return;
    }
    var d, r := dest.value, root.value;
    var chunks := Chunked(items, DriveChunkSize);
    var c := 0;
    while c < |chunks|
      invariant 0 <= c <= |chunks|
      invariant disk.Valid() && fresh(files)
      invariant old(disk.entries).Keys <= disk.entries.Keys
      invariant files.paths == KeptByAll(Flatten(chunks[..c]), d, filters, r)
      invariant disk.entries == WalkAll(old(disk.entries), Flatten(chunks[..c]), d, filters, r, transfer).entries
      invariant !WalkAll(old(disk.entries), Flatten(chunks[..c]), d, filters, r, transfer).raised
      decreases |chunks| - c
    {
      forall j | 0 <= j < |chunks[c]| ensures chunks[c][j] in items
      {
        ChunkedMember(items, DriveChunkSize, c, j);
      }
      raised := SyncChunk(chunks[c], d, r, filters, files, disk, transfer, items);
      var next := c + 1;
      WalkAllAppend(old(disk.entries), Flatten(chunks[..c]), chunks[c], d, filters, r, transfer);
      FlattenSnoc(chunks, c);
      if raised {
        WalkStopsAtBatch(old(disk.entries), items, next, d, filters, r, transfer);
        traversed := disk.entries;
        return;
      }
      KeptByAllAppend(Flatten(chunks[..c]), chunks[c], d, filters, r);
      c := next;
    }
    assert chunks[..c] == chunks;
    FlattenChunked(items, DriveChunkSize);
    traversed := disk.entries;
    if top && remove {
      removed := RemoveObsolete(dest, Some(files.paths), disk);
      KeptByAllClosed(items, d, filters, r);
      ReconcileOutcome(traversed, d, files.paths);
    }
  }

  /**
   * `sync_drive`: one pass over the whole drive, with the prepared
   * destination as both destination and filter root.
   */
  method SyncDrive(dest: Path, items: seq<Item>, filters: Filters, remove: bool, disk: LocalDisk,
                   transfer: Path -> Transfer) returns (files: KeptSet, raised: bool)
    requires disk.Valid()
    modifies disk
    ensures fresh(files) && disk.Valid()
    ensures !raised ==> files.paths == KeptByAll(items, dest, filters, dest)
    ensures !remove || raised ==> old(disk.entries).Keys <= disk.entries.Keys
    ensures remove && !raised && items != [] ==> forall p :: p in disk.entries && Below(dest, p) ==> p in files.paths
    ensures raised == WalkAll(old(disk.entries), items, dest, filters, dest, transfer).raised
    ensures !remove || raised || items == [] ==>
              disk.entries == WalkAll(old(disk.entries), items, dest, filters, dest, transfer).entries
    ensures remove && !raised && items != [] ==>
              var walked := WalkAll(old(disk.entries), items, dest, filters, dest, transfer).entries;
              disk.entries == Pruned(walked, ObsoleteRoots(walked, dest, files.paths))
  {
    ghost var traversed, removed;
    files, raised, traversed, removed := SyncDirectory(items, Some(dest), Some(dest), true, filters, remove, disk, transfer);
  }
}
