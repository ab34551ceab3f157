/**
 * The photo synchroniser (src/sync_photos.py): processing of one photo,
 * albums processed batch by batch, and the removal of obsolete photo files.
 *
 * Each rendition of each photo is named (module PhotoNaming), recorded in
 * the kept set when the photo has that rendition, and downloaded unless a
 * local file of the same size is already there. With removal enabled, every
 * regular file below the destination that is not in the kept set is then
 * deleted; directories are never removed.
 */
module PhotoSync {
  import opened Common
  import opened LocalFs
  import opened Chunks
  import opened PhotoNaming

  /** Workers used when the configuration names none. */
  const DefaultWorkers: int := 10

  /** Each batch holds this many photos per worker. */
  const PhotosPerWorker: int := 20

  /** The modification time a downloaded rendition gets: the photo's `added_date`. */
  function PhotoStamp(photo: Photo): int
  {
    photo.addedSeconds * NanosPerSecond
  }

  // ---------------------------------------------------------------------
  // photo_exists and download_photo
  // ---------------------------------------------------------------------

  /** `photo_exists`: a regular file of the rendition's size is there. Times are not compared. */
  predicate PhotoExists(photo: Photo, rendition: string, localPath: Path, e: map<Path, Entry>)
    requires rendition in photo.versions
  {
    IsFileAt(e, localPath) && e[localPath].size == photo.versions[rendition]
  }

  /** A local copy of the right size counts as current whatever its modification time. */
  lemma PhotoExistsIgnoresTime(photo: Photo, rendition: string, p: Path, e: map<Path, Entry>, mtime: int)
    requires rendition in photo.versions && IsFileAt(e, p)
    ensures PhotoExists(photo, rendition, p, e[p := File(e[p].size, mtime)]) == PhotoExists(photo, rendition, p, e)
  {
  }

  /** After a successful download the rendition is current: the next pass does not fetch it again. */
  lemma PhotoDownloadMakesCurrent(photo: Photo, rendition: string, p: Path, e: map<Path, Entry>, t: Transfer)
    requires rendition in photo.versions && TransferSucceeds(e, p, t)
    ensures PhotoExists(photo, rendition, p, AfterTransfer(e, p, t, photo.versions[rendition], PhotoStamp(photo)))
  {
  }

  /**
   * `download_photo`: nothing happens without a rendition name, and a
   * rendition the photo does not have fails on the server before anything is
   * written. Otherwise the stream is written to `path` and stamped.
   */
  method DownloadPhoto(photo: Photo, rendition: string, path: Path, disk: LocalDisk, t: Transfer) returns (ok: bool)
    requires disk.Valid()
    modifies disk
    ensures disk.Valid() && DirsKept(old(disk.entries), disk.entries)
    ensures ok <==> rendition != "" && rendition in photo.versions && TransferSucceeds(old(disk.entries), path, t)
    ensures rendition == "" || rendition !in photo.versions ==> disk.entries == old(disk.entries)
    ensures rendition != "" && rendition in photo.versions ==>
              disk.entries == AfterTransfer(old(disk.entries), path, t, photo.versions[rendition], PhotoStamp(photo))
  {
    if rendition == "" || rendition !in photo.versions {
      return false;
    }
    ok := disk.Store(path, t, photo.versions[rendition], PhotoStamp(photo));
  }

  // ---------------------------------------------------------------------
  // process_photo and process_photos
  // ---------------------------------------------------------------------

  /**
   * What `process_photo` does to the disk, as a value. The rendition is
   * named; when the photo has it, its path is recorded, which raises a
   * `NameError` when no kept set is in scope (`inScope` false), and it is
   * downloaded unless it is current. A download without a rendition name
   * writes nothing and fails. `fetched` and `failed` are the downloads
   * started and those that did not store the file.
   */
  function PhotoOutcome(e: map<Path, Entry>, photo: Photo, rendition: string, dest: Path, inScope: bool,
                        t: Transfer): Outcome
  {
    if NamingRaises(e, photo, rendition, dest) then Outcome(RaisedNaming(e, photo, rendition, dest), true, {}, {})
    else
      var named := Named(e, photo, rendition, dest);
      var p := PhotoPath(photo, rendition, dest);
      if rendition !in photo.versions then Idle(named)
      else if !inScope then Outcome(named, true, {}, {})
      else if PhotoExists(photo, rendition, p, named) then Idle(named)
      else if rendition == "" then Outcome(named, false, {p}, {p})
      else
        Outcome(AfterTransfer(named, p, t, photo.versions[rendition], PhotoStamp(photo)), false,
                {p}, if TransferSucceeds(named, p, t) then {} else {p})
  }

  /**
   * `process_photo` with the kept set passed in: names the rendition (which
   * may create directories and rename a legacy original), and, when the
   * photo has the rendition, records its path and downloads it unless it is
   * current. With `inScope` false it is the function as written, whose
   * `files` is not defined there: recording raises a `NameError`.
   * `downloaded` is the source's return value.
   */
  method ProcessPhoto(photo: Photo, rendition: string, dest: Path, inScope: bool, files: KeptSet, disk: LocalDisk,
                      t: Transfer) returns (downloaded: bool, raised: bool)
    requires disk.Valid()
    modifies files, disk
    ensures disk.Valid() && DirsKept(old(disk.entries), disk.entries)
    ensures raised <==>
              NamingRaises(old(disk.entries), photo, rendition, dest) || (!inScope && rendition in photo.versions)
    ensures disk.entries == PhotoOutcome(old(disk.entries), photo, rendition, dest, inScope, t).entries
    ensures raised == PhotoOutcome(old(disk.entries), photo, rendition, dest, inScope, t).raised
    ensures NamingRaises(old(disk.entries), photo, rendition, dest) ==>
              disk.entries == RaisedNaming(old(disk.entries), photo, rendition, dest)
    ensures files.paths == old(files.paths) +
              (if !raised && rendition in photo.versions then {PhotoPath(photo, rendition, dest)} else {})
    ensures rendition !in photo.versions ==> !downloaded
    ensures downloaded <==>
              !raised && rendition in photo.versions &&
              !PhotoExists(photo, rendition, PhotoPath(photo, rendition, dest), Named(old(disk.entries), photo, rendition, dest))
    ensures !NamingRaises(old(disk.entries), photo, rendition, dest) && !(downloaded && rendition != "") ==>
              disk.entries == Named(old(disk.entries), photo, rendition, dest)
    ensures downloaded && rendition != "" ==>
              disk.entries == AfterTransfer(Named(old(disk.entries), photo, rendition, dest), PhotoPath(photo, rendition, dest),
                                            t, photo.versions[rendition], PhotoStamp(photo))
    ensures !raised && rendition in photo.versions && rendition != "" &&
            (downloaded ==> TransferSucceeds(Named(old(disk.entries), photo, rendition, dest), PhotoPath(photo, rendition, dest), t)) ==>
              PhotoExists(photo, rendition, PhotoPath(photo, rendition, dest), disk.entries)
  {
    ghost var e0 := disk.entries;
    var photoPath;
    photoPath, raised := GenerateFileName(photo, rendition, dest, disk);
    downloaded := false;
    if raised {
      return;
    }
    NamedMeans(e0, photo, rendition, dest);
    if rendition !in photo.versions {
      return;
    }
    if !inScope {
      // `files` is not defined in `process_photo`.
      return false, true;
    }
    files.Add(photoPath);
    if PhotoExists(photo, rendition, photoPath, disk.entries) {
      return;
    }
    var ok := DownloadPhoto(photo, rendition, photoPath, disk, t);
    downloaded := true;
  }

  /** Processing one rendition keeps the disk well formed and keeps every directory. */
  lemma PhotoOutcomeWellFormed(e: map<Path, Entry>, photo: Photo, rendition: string, dest: Path, inScope: bool,
                               t: Transfer)
    requires WellFormed(e)
    ensures WellFormed(PhotoOutcome(e, photo, rendition, dest, inScope, t).entries)
    ensures DirsKept(e, PhotoOutcome(e, photo, rendition, dest, inScope, t).entries)
  {
    if NamingRaises(e, photo, rendition, dest) {
      RaisedNamingOnlyAddsDirs(e, photo, rendition, dest);
    } else {
      var named := Named(e, photo, rendition, dest);
      var p := PhotoPath(photo, rendition, dest);
      NamedMeans(e, photo, rendition, dest);
      if rendition in photo.versions && inScope && !PhotoExists(photo, rendition, p, named) && rendition != "" {
        AfterTransferWellFormed(named, p, t, photo.versions[rendition], PhotoStamp(photo));
        DirsKeptTrans(e, named, AfterTransfer(named, p, t, photo.versions[rendition], PhotoStamp(photo)));
      }
    }
  }

  /** The paths recorded for the renditions of one photo: those the photo has. */
  function RenditionPaths(photo: Photo, renditions: seq<string>, dest: Path): set<Path>
  {
    if renditions == [] then {}
    else
      var last := renditions[|renditions| - 1];
      RenditionPaths(photo, renditions[..|renditions| - 1], dest) +
      (if last in photo.versions then {PhotoPath(photo, last, dest)} else {})
  }

  /** A path is recorded for a photo exactly when it is the path of a listed rendition the photo has. */
  lemma {:induction false} RenditionPathsMembers(photo: Photo, renditions: seq<string>, dest: Path, q: Path)
    ensures q in RenditionPaths(photo, renditions, dest) <==>
              exists i :: 0 <= i < |renditions| && renditions[i] in photo.versions && q == PhotoPath(photo, renditions[i], dest)
    decreases |renditions|
  {
    if renditions != [] {
      var front := renditions[..|renditions| - 1];
      RenditionPathsMembers(photo, front, dest, q);
      if i :| 0 <= i < |renditions| && renditions[i] in photo.versions && q == PhotoPath(photo, renditions[i], dest) {
        if i < |front| {
          assert renditions[i] == front[i];
        }
      }
      if i :| 0 <= i < |front| && front[i] in photo.versions && q == PhotoPath(photo, front[i], dest) {
        assert front[i] == renditions[i];
      }
    }
  }

  /** What `process_photos` does to the disk: the renditions in order, until one raises. */
  function RenditionsOutcome(e: map<Path, Entry>, photo: Photo, renditions: seq<string>, dest: Path, inScope: bool,
                             transfer: Path -> Transfer): Outcome
    decreases |renditions|
  {
    if renditions == [] then Idle(e)
    else
      var before := RenditionsOutcome(e, photo, renditions[..|renditions| - 1], dest, inScope, transfer);
      var last := renditions[|renditions| - 1];
      Then(before, PhotoOutcome(before.entries, photo, last, dest, inScope, transfer(PhotoPath(photo, last, dest))))
  }

  /** Once a rendition has raised, the renditions after it change nothing. */
  lemma {:induction false} RenditionsStop(e: map<Path, Entry>, photo: Photo, a: seq<string>, b: seq<string>, dest: Path,
                                          inScope: bool, transfer: Path -> Transfer)
    requires RenditionsOutcome(e, photo, a, dest, inScope, transfer).raised
    ensures RenditionsOutcome(e, photo, a + b, dest, inScope, transfer) == RenditionsOutcome(e, photo, a, dest, inScope, transfer)
    decreases |b|
  {
    if b == [] {
      assert a + b == a;
    } else {
      var b' := b[..|b| - 1];
      assert (a + b)[..|a + b| - 1] == a + b';
      RenditionsStop(e, photo, a, b', dest, inScope, transfer);
    }
  }

  /** A raise at the `k`-th rendition is the outcome of them all. */
  lemma RenditionsStopAt(e: map<Path, Entry>, photo: Photo, renditions: seq<string>, k: nat, dest: Path, inScope: bool,
                         transfer: Path -> Transfer)
    requires k <= |renditions| && RenditionsOutcome(e, photo, renditions[..k], dest, inScope, transfer).raised
    ensures RenditionsOutcome(e, photo, renditions, dest, inScope, transfer) ==
            RenditionsOutcome(e, photo, renditions[..k], dest, inScope, transfer)
  {
    assert renditions[..k] + renditions[k..] == renditions;
    RenditionsStop(e, photo, renditions[..k], renditions[k..], dest, inScope, transfer);
  }

  /** A loop that went through all renditions has the whole outcome and recorded every path. */
  lemma RenditionsDone(e: map<Path, Entry>, photo: Photo, renditions: seq<string>, k: nat, dest: Path, inScope: bool,
                       transfer: Path -> Transfer)
    requires k == |renditions|
    ensures RenditionsOutcome(e, photo, renditions[..k], dest, inScope, transfer) ==
            RenditionsOutcome(e, photo, renditions, dest, inScope, transfer)
    ensures RenditionPaths(photo, renditions[..k], dest) == RenditionPaths(photo, renditions, dest)
  {
    assert renditions[..k] == renditions;
  }

  /** Processing renditions keeps the disk well formed and keeps every directory. */
  lemma {:induction false} RenditionsWellFormed(e: map<Path, Entry>, photo: Photo, renditions: seq<string>, dest: Path,
                                                inScope: bool, transfer: Path -> Transfer)
    requires WellFormed(e)
    ensures WellFormed(RenditionsOutcome(e, photo, renditions, dest, inScope, transfer).entries)
    ensures DirsKept(e, RenditionsOutcome(e, photo, renditions, dest, inScope, transfer).entries)
    decreases |renditions|
  {
    if renditions != [] {
      var front, last := renditions[..|renditions| - 1], renditions[|renditions| - 1];
      RenditionsWellFormed(e, photo, front, dest, inScope, transfer);
      var before := RenditionsOutcome(e, photo, front, dest, inScope, transfer);
      var t := transfer(PhotoPath(photo, last, dest));
      PhotoOutcomeWellFormed(before.entries, photo, last, dest, inScope, t);
      DirsKeptTrans(e, before.entries, PhotoOutcome(before.entries, photo, last, dest, inScope, t).entries);
    }
  }

  /**
   * One turn of the loop of `process_photos`: the `k`-th rendition is
   * processed on the disk the renditions before it left. `e` is the disk
   * before the loop.
   */
  method ProcessListedRendition(photo: Photo, renditions: seq<string>, k: nat, dest: Path, inScope: bool, files: KeptSet,
                                disk: LocalDisk, transfer: Path -> Transfer, ghost e: map<Path, Entry>,
                                ghost recorded: set<Path>)
    returns (raised: bool)
    requires k < |renditions| && WellFormed(e)
    requires disk.entries == RenditionsOutcome(e, photo, renditions[..k], dest, inScope, transfer).entries
    requires !RenditionsOutcome(e, photo, renditions[..k], dest, inScope, transfer).raised
    requires files.paths == recorded + RenditionPaths(photo, renditions[..k], dest)
    modifies files, disk
    ensures disk.entries == RenditionsOutcome(e, photo, renditions[..k + 1], dest, inScope, transfer).entries
    ensures raised == RenditionsOutcome(e, photo, renditions[..k + 1], dest, inScope, transfer).raised
    ensures !raised ==> files.paths == recorded + RenditionPaths(photo, renditions[..k + 1], dest)
    ensures !inScope ==> files.paths == old(files.paths)
  {
    assert renditions[..k + 1][..k] == renditions[..k];
    RenditionsWellFormed(e, photo, renditions[..k], dest, inScope, transfer);
    var downloaded;
    downloaded, raised := ProcessPhoto(photo, renditions[k], dest, inScope, files, disk,
                                       transfer(PhotoPath(photo, renditions[k], dest)));
  }

  /** `process_photos`: processes the renditions of one photo in order. */
  method ProcessPhotos(photo: Photo, renditions: seq<string>, dest: Path, inScope: bool, files: KeptSet, disk: LocalDisk,
                       transfer: Path -> Transfer) returns (raised: bool)
    requires disk.Valid()
    modifies files, disk
    ensures disk.Valid() && DirsKept(old(disk.entries), disk.entries)
    ensures disk.entries == RenditionsOutcome(old(disk.entries), photo, renditions, dest, inScope, transfer).entries
    ensures raised == RenditionsOutcome(old(disk.entries), photo, renditions, dest, inScope, transfer).raised
    ensures !raised ==> files.paths == old(files.paths) + RenditionPaths(photo, renditions, dest)
    ensures !inScope ==> files.paths == old(files.paths)
  {
    raised := false;
    ghost var e0 := disk.entries;
    var k := 0;
    while k < |renditions| && !raised
      invariant 0 <= k <= |renditions|
      invariant !raised ==> files.paths == old(files.paths) + RenditionPaths(photo, renditions[..k], dest)
      invariant !inScope ==> files.paths == old(files.paths)
      invariant disk.entries == RenditionsOutcome(e0, photo, renditions[..k], dest, inScope, transfer).entries
      invariant raised == RenditionsOutcome(e0, photo, renditions[..k], dest, inScope, transfer).raised
    {
      raised := ProcessListedRendition(photo, renditions, k, dest, inScope, files, disk, transfer, e0, old(files.paths));
      k := k + 1;
    }
    if raised {
      RenditionsStopAt(e0, photo, renditions, k, dest, inScope, transfer);
    } else {
      RenditionsDone(e0, photo, renditions, k, dest, inScope, transfer);
    }
    RenditionsWellFormed(e0, photo, renditions, dest, inScope, transfer);
  }

  // ---------------------------------------------------------------------
  // sync_album
  // ---------------------------------------------------------------------

  /** The paths recorded for a list of photos. */
  function AlbumPaths(album: seq<Photo>, renditions: seq<string>, dest: Path): set<Path>
  {
    FirstPhotosPaths(album, |album|, renditions, dest)
  }

  /** The paths recorded for the first `k` photos of the album. */
  function FirstPhotosPaths(album: seq<Photo>, k: nat, renditions: seq<string>, dest: Path): set<Path>
    requires k <= |album|
  {
    if k == 0 then {}
    else FirstPhotosPaths(album, k - 1, renditions, dest) + RenditionPaths(album[k - 1], renditions, dest)
  }

  /** A path is recorded for an album exactly when it is recorded for one of its photos. */
  lemma {:induction false} AlbumPathsMembers(album: seq<Photo>, renditions: seq<string>, dest: Path, q: Path)
    ensures q in AlbumPaths(album, renditions, dest) <==>
              exists i :: 0 <= i < |album| && q in RenditionPaths(album[i], renditions, dest)
  {
    FirstPhotosPathsMembers(album, |album|, renditions, dest, q);
  }

  lemma {:induction false} FirstPhotosPathsMembers(album: seq<Photo>, k: nat, renditions: seq<string>, dest: Path, q: Path)
    requires k <= |album|
    ensures q in FirstPhotosPaths(album, k, renditions, dest) <==>
              exists i :: 0 <= i < k && q in RenditionPaths(album[i], renditions, dest)
    decreases k
  {
    if k > 0 {
      FirstPhotosPathsMembers(album, k - 1, renditions, dest, q);
    }
  }

  /** The paths of the first `offset + k` photos: those of the first `offset`, then those of the next `k`. */
  lemma {:induction false} FirstPhotosPathsSplit(album: seq<Photo>, offset: nat, batch: seq<Photo>, k: nat,
                                                  renditions: seq<string>, dest: Path)
    requires k <= |batch| && offset + |batch| <= |album| && batch == album[offset..offset + |batch|]
    ensures FirstPhotosPaths(album, offset + k, renditions, dest) ==
            FirstPhotosPaths(album, offset, renditions, dest) + FirstPhotosPaths(batch, k, renditions, dest)
    decreases k
  {
    if k > 0 {
      FirstPhotosPathsSplit(album, offset, batch, k - 1, renditions, dest);
      assert batch[k - 1] == album[offset + k - 1];
    }
  }

  /** The paths of two lists of photos put together are those of each. */
  lemma AlbumPathsAppend(a: seq<Photo>, b: seq<Photo>, renditions: seq<string>, dest: Path)
    ensures AlbumPaths(a + b, renditions, dest) == AlbumPaths(a, renditions, dest) + AlbumPaths(b, renditions, dest)
  {
    FirstPhotosPathsSplit(a + b, |a|, b, |b|, renditions, dest);
    FirstPhotosPathsPrefix(a + b, a, |a|, renditions, dest);
  }

  /** The paths of the first `k` photos depend only on those photos. */
  lemma {:induction false} FirstPhotosPathsPrefix(album: seq<Photo>, prefix: seq<Photo>, k: nat, renditions: seq<string>, dest: Path)
    requires k <= |prefix| <= |album| && prefix == album[..|prefix|]
    ensures FirstPhotosPaths(album, k, renditions, dest) == FirstPhotosPaths(prefix, k, renditions, dest)
    decreases k
  {
    if k > 0 {
      FirstPhotosPathsPrefix(album, prefix, k - 1, renditions, dest);
      assert album[k - 1] == prefix[k - 1];
    }
  }

  /** Recording one more batch extends the recorded part of the album by that batch. */
  lemma BatchRecorded(chunks: seq<seq<Photo>>, c: nat, next: nat, renditions: seq<string>, dest: Path,
                      kept0: set<Path>, before: set<Path>, after: set<Path>)
    requires next == c + 1 <= |chunks|
    requires before == kept0 + AlbumPaths(Flatten(chunks[..c]), renditions, dest)
    requires after == before + AlbumPaths(chunks[c], renditions, dest)
    ensures after == kept0 + AlbumPaths(Flatten(chunks[..next]), renditions, dest)
  {
    FlattenSnoc(chunks, c);
    AlbumPathsAppend(Flatten(chunks[..c]), chunks[c], renditions, dest);
  }

  /** What processing a list of photos does to the disk: each photo's renditions in turn, until one raises. */
  function PhotosOutcome(e: map<Path, Entry>, photos: seq<Photo>, renditions: seq<string>, dest: Path, inScope: bool,
                         transfer: Path -> Transfer): Outcome
    decreases |photos|
  {
    if photos == [] then Idle(e)
    else
      var before := PhotosOutcome(e, photos[..|photos| - 1], renditions, dest, inScope, transfer);
      Then(before, RenditionsOutcome(before.entries, photos[|photos| - 1], renditions, dest, inScope, transfer))
  }

  /** Lists of photos concatenate: `a + b` is `a`, then `b` on the disk it left. */
  lemma {:induction false} PhotosAppend(e: map<Path, Entry>, a: seq<Photo>, b: seq<Photo>, renditions: seq<string>,
                                        dest: Path, inScope: bool, transfer: Path -> Transfer)
    ensures var first := PhotosOutcome(e, a, renditions, dest, inScope, transfer);
            PhotosOutcome(e, a + b, renditions, dest, inScope, transfer) ==
              Then(first, PhotosOutcome(first.entries, b, renditions, dest, inScope, transfer))
    decreases |b|
  {
    if b == [] {
      assert a + b == a;
    } else {
      var b', last := b[..|b| - 1], b[|b| - 1];
      assert (a + b)[..|a + b| - 1] == a + b' && (a + b)[|a + b| - 1] == last;
      PhotosAppend(e, a, b', renditions, dest, inScope, transfer);
      var first := PhotosOutcome(e, a, renditions, dest, inScope, transfer);
      var mid := PhotosOutcome(first.entries, b', renditions, dest, inScope, transfer);
      var front := PhotosOutcome(e, a + b', renditions, dest, inScope, transfer);
      assert PhotosOutcome(e, a + b, renditions, dest, inScope, transfer) ==
             Then(front, RenditionsOutcome(front.entries, last, renditions, dest, inScope, transfer));
      assert PhotosOutcome(first.entries, b, renditions, dest, inScope, transfer) ==
             Then(mid, RenditionsOutcome(mid.entries, last, renditions, dest, inScope, transfer));
      ThenAssoc(first, mid, RenditionsOutcome(mid.entries, last, renditions, dest, inScope, transfer));
    }
  }

  /** A loop that stopped after `k` photos, because one raised or none was left, has the whole outcome. */
  lemma PhotosStopAt(e: map<Path, Entry>, photos: seq<Photo>, k: nat, renditions: seq<string>, dest: Path, inScope: bool,
                     transfer: Path -> Transfer)
    requires k <= |photos|
    requires k == |photos| || PhotosOutcome(e, photos[..k], renditions, dest, inScope, transfer).raised
    ensures PhotosOutcome(e, photos, renditions, dest, inScope, transfer) ==
            PhotosOutcome(e, photos[..k], renditions, dest, inScope, transfer)
    ensures k == |photos| ==> FirstPhotosPaths(photos, k, renditions, dest) == AlbumPaths(photos, renditions, dest)
  {
    if k == |photos| {
      assert photos[..k] == photos;
    } else {
      assert photos[..k] + photos[k..] == photos;
      PhotosAppend(e, photos[..k], photos[k..], renditions, dest, inScope, transfer);
    }
  }

  /** Processing photos keeps the disk well formed and keeps every directory. */
  lemma {:induction false} PhotosWellFormed(e: map<Path, Entry>, photos: seq<Photo>, renditions: seq<string>, dest: Path,
                                            inScope: bool, transfer: Path -> Transfer)
    requires WellFormed(e)
    ensures WellFormed(PhotosOutcome(e, photos, renditions, dest, inScope, transfer).entries)
    ensures DirsKept(e, PhotosOutcome(e, photos, renditions, dest, inScope, transfer).entries)
    decreases |photos|
  {
    if photos != [] {
      var front, last := photos[..|photos| - 1], photos[|photos| - 1];
      PhotosWellFormed(e, front, renditions, dest, inScope, transfer);
      var before := PhotosOutcome(e, front, renditions, dest, inScope, transfer);
      RenditionsWellFormed(before.entries, last, renditions, dest, inScope, transfer);
      DirsKeptTrans(e, before.entries, RenditionsOutcome(before.entries, last, renditions, dest, inScope, transfer).entries);
    }
  }

  /** A raise in a batch is the outcome of the whole album. */
  lemma PhotosStopAtBatch(e: map<Path, Entry>, album: seq<Photo>, n: nat, next: nat, renditions: seq<string>, dest: Path,
                          inScope: bool, transfer: Path -> Transfer)
    requires n > 0 && next <= |Chunked(album, n)|
    requires PhotosOutcome(e, Flatten(Chunked(album, n)[..next]), renditions, dest, inScope, transfer).raised
    ensures PhotosOutcome(e, album, renditions, dest, inScope, transfer) ==
              PhotosOutcome(e, Flatten(Chunked(album, n)[..next]), renditions, dest, inScope, transfer)
  {
    var cs := Chunked(album, n);
    FlattenChunked(album, n);
    assert cs == cs[..next] + cs[next..];
    FlattenAppend(cs[..next], cs[next..]);
    PhotosAppend(e, Flatten(cs[..next]), Flatten(cs[next..]), renditions, dest, inScope, transfer);
  }

  /**
   * One turn of the loop over a batch: the `j`-th photo is processed on the
   * disk the photos before it left. `e` is the disk before the batch.
   */
  method ProcessListedPhoto(batch: seq<Photo>, j: nat, renditions: seq<string>, dest: Path, inScope: bool,
                            files: KeptSet, disk: LocalDisk, transfer: Path -> Transfer, ghost e: map<Path, Entry>,
                            ghost recorded: set<Path>)
    returns (raised: bool)
    requires j < |batch| && WellFormed(e)
    requires disk.entries == PhotosOutcome(e, batch[..j], renditions, dest, inScope, transfer).entries
    requires !PhotosOutcome(e, batch[..j], renditions, dest, inScope, transfer).raised
    requires files.paths == recorded + FirstPhotosPaths(batch, j, renditions, dest)
    modifies files, disk
    ensures disk.entries == PhotosOutcome(e, batch[..j + 1], renditions, dest, inScope, transfer).entries
    ensures raised == PhotosOutcome(e, batch[..j + 1], renditions, dest, inScope, transfer).raised
    ensures !raised ==> files.paths == recorded + FirstPhotosPaths(batch, j + 1, renditions, dest)
    ensures !inScope ==> files.paths == old(files.paths)
  {
    assert batch[..j + 1][..j] == batch[..j];
    PhotosWellFormed(e, batch[..j], renditions, dest, inScope, transfer);
    raised := ProcessPhotos(batch[j], renditions, dest, inScope, files, disk, transfer);
  }

  /** One batch of an album: every photo of it is processed, one after the other. */
  method ProcessBatch(batch: seq<Photo>, renditions: seq<string>, dest: Path, inScope: bool, files: KeptSet,
                      disk: LocalDisk, transfer: Path -> Transfer) returns (raised: bool)
    requires disk.Valid()
    modifies files, disk
    ensures disk.Valid() && DirsKept(old(disk.entries), disk.entries)
    ensures disk.entries == PhotosOutcome(old(disk.entries), batch, renditions, dest, inScope, transfer).entries
    ensures raised == PhotosOutcome(old(disk.entries), batch, renditions, dest, inScope, transfer).raised
    ensures !raised ==> files.paths == old(files.paths) + AlbumPaths(batch, renditions, dest)
    ensures !inScope ==> files.paths == old(files.paths)
  {
    raised := false;
    ghost var e0 := disk.entries;
    var j := 0;
    while j < |batch| && !raised
      invariant 0 <= j <= |batch|
      invariant !raised ==> files.paths == old(files.paths) + FirstPhotosPaths(batch, j, renditions, dest)
      invariant !inScope ==> files.paths == old(files.paths)
      invariant disk.entries == PhotosOutcome(e0, batch[..j], renditions, dest, inScope, transfer).entries
      invariant raised == PhotosOutcome(e0, batch[..j], renditions, dest, inScope, transfer).raised
    {
      raised := ProcessListedPhoto(batch, j, renditions, dest, inScope, files, disk, transfer, e0, old(files.paths));
      j := j + 1;
    }
    PhotosStopAt(e0, batch, j, renditions, dest, inScope, transfer);
    PhotosWellFormed(e0, batch, renditions, dest, inScope, transfer);
  }

  /** The batch size `sync_album` uses: twenty photos per worker, ten workers by default. */
  function ChunkSize(workers: Option<int>): int
  {
    (if workers.Some? then workers.value else DefaultWorkers) * PhotosPerWorker
  }

  /** `sync_album` goes ahead with an album, a destination and renditions to fetch. */
  predicate AlbumProceeds(album: seq<Photo>, dest: Option<Path>, renditions: seq<string>)
  {
    album != [] && dest.Some? && renditions != []
  }

  /**
   * What `sync_album` records: every rendition each photo has, or nothing
   * when there is nothing to do or the batch size is zero (batching by zero
   * yields no batch).
   */
  function AlbumKept(album: seq<Photo>, dest: Path, renditions: seq<string>, workers: Option<int>): set<Path>
  {
    if album != [] && renditions != [] && ChunkSize(workers) > 0 then AlbumPaths(album, renditions, dest) else {}
  }

  /**
   * What `sync_album` records, photo by photo: the path of every listed
   * rendition that a photo of the album has, provided batches are taken at all.
   */
  lemma AlbumKeptMembers(album: seq<Photo>, dest: Path, renditions: seq<string>, workers: Option<int>, q: Path)
    ensures q in AlbumKept(album, dest, renditions, workers) <==>
              ChunkSize(workers) > 0 &&
              exists i, j :: 0 <= i < |album| && 0 <= j < |renditions| &&
                             renditions[j] in album[i].versions && q == PhotoPath(album[i], renditions[j], dest)
  {
    AlbumPathsMembers(album, renditions, dest, q);
    forall i | 0 <= i < |album| {
      RenditionPathsMembers(album[i], renditions, dest, q);
    }
  }

  /**
   * What `sync_album` does to the disk: nothing without an album, a
   * destination and renditions; otherwise the destination is made (a failed
   * `makedirs` raises), a negative batch size raises at the first batch, a
   * zero batch size takes no batch, and the photos are processed in order.
   */
  function AlbumOutcome(e: map<Path, Entry>, album: seq<Photo>, dest: Option<Path>, renditions: seq<string>,
                        workers: Option<int>, inScope: bool, transfer: Path -> Transfer): Outcome
  {
    if !AlbumProceeds(album, dest, renditions) then Idle(e)
    else if !MakeDirsSucceeds(e, dest.value) then Outcome(e, true, {}, {})
    else
      var made := WithDirs(e, dest.value);
      if ChunkSize(workers) < 0 then Outcome(made, true, {}, {})
      else if ChunkSize(workers) == 0 then Idle(made)
      else PhotosOutcome(made, album, renditions, dest.value, inScope, transfer)
  }

  /**
   * `sync_album`: creates the destination and processes the album batch by
   * batch. A negative batch size raises when the first batch is taken.
   */
  method SyncAlbum(album: seq<Photo>, dest: Option<Path>, renditions: seq<string>, workers: Option<int>, inScope: bool,
                   files: KeptSet, disk: LocalDisk, transfer: Path -> Transfer) returns (raised: bool)
    requires disk.Valid()
    modifies files, disk
    ensures disk.Valid() && DirsKept(old(disk.entries), disk.entries)
    ensures disk.entries == AlbumOutcome(old(disk.entries), album, dest, renditions, workers, inScope, transfer).entries
    ensures raised == AlbumOutcome(old(disk.entries), album, dest, renditions, workers, inScope, transfer).raised
    ensures !AlbumProceeds(album, dest, renditions) ==>
              !raised && files.paths == old(files.paths) && disk.entries == old(disk.entries)
    ensures dest.Some? && !raised ==>
              files.paths == old(files.paths) + AlbumKept(album, dest.value, renditions, workers)
    ensures !inScope ==> files.paths == old(files.paths)
    ensures AlbumProceeds(album, dest, renditions) && !MakeDirsSucceeds(old(disk.entries), dest.value) ==> raised
    ensures AlbumProceeds(album, dest, renditions) && ChunkSize(workers) < 0 ==> raised
    ensures AlbumProceeds(album, dest, renditions) && MakeDirsSucceeds(old(disk.entries), dest.value) &&
            ChunkSize(workers) == 0 ==>
              !raised && files.paths == old(files.paths) && disk.entries == WithDirs(old(disk.entries), dest.value)
  {
    raised := false;
    if !AlbumProceeds(album, dest, renditions) {
      return;
    }
    var ok := disk.MakeDirs(dest.value);
    if !ok {
      return true;
    }
    var n := ChunkSize(workers);
    if n < 0 {
      return true;
    }
    raised := ProcessBatches(album, n, renditions, dest.value, inScope, files, disk, transfer);
  }

  /**
   * The batch loop of `sync_album`: the album split into batches of `n`
   * photos, each batch processed before the next one starts.
   */
  method ProcessBatches(album: seq<Photo>, n: nat, renditions: seq<string>, d: Path, inScope: bool, files: KeptSet,
                        disk: LocalDisk, transfer: Path -> Transfer) returns (raised: bool)
    requires disk.Valid()
    modifies files, disk
    ensures disk.Valid() && DirsKept(old(disk.entries), disk.entries)
    ensures n == 0 ==> !raised && files.paths == old(files.paths) && disk.entries == old(disk.entries)
    ensures n > 0 ==>
              disk.entries == PhotosOutcome(old(disk.entries), album, renditions, d, inScope, transfer).entries &&
              raised == PhotosOutcome(old(disk.entries), album, renditions, d, inScope, transfer).raised
    ensures !raised ==> files.paths == old(files.paths) + (if n > 0 then AlbumPaths(album, renditions, d) else {})
    ensures !inScope ==> files.paths == old(files.paths)
  {
    raised := false;
    if n == 0 {
      // Batching by zero yields no batch.
      return;
    }
    ghost var kept0 := files.paths;
    var chunks := Chunked(album, n);
    var c := 0;
    while c < |chunks|
      invariant 0 <= c <= |chunks|
      invariant disk.Valid() && DirsKept(old(disk.entries), disk.entries)
      invariant files.paths == kept0 + AlbumPaths(Flatten(chunks[..c]), renditions, d)
      invariant !inScope ==> files.paths == kept0
      invariant disk.entries == PhotosOutcome(old(disk.entries), Flatten(chunks[..c]), renditions, d, inScope, transfer).entries
      invariant !PhotosOutcome(old(disk.entries), Flatten(chunks[..c]), renditions, d, inScope, transfer).raised
      decreases |chunks| - c
    {
      ghost var before := files.paths;
      raised := ProcessBatch(chunks[c], renditions, d, inScope, files, disk, transfer);
      var next := c + 1;
      PhotosAppend(old(disk.entries), Flatten(chunks[..c]), chunks[c], renditions, d, inScope, transfer);
      FlattenSnoc(chunks, c);
      if raised {
        PhotosStopAtBatch(old(disk.entries), album, n, next, renditions, d, inScope, transfer);
        return;
      }
      BatchRecorded(chunks, c, next, renditions, d, kept0, before, files.paths);
      c := next;
    }
    assert chunks[..c] == chunks;
    FlattenChunked(album, n);
  }

  // ---------------------------------------------------------------------
  // remove_obsolete
  // ---------------------------------------------------------------------

  /** The regular files below `d` that are not kept: what `remove_obsolete` deletes. */
  function ObsoletePhotoFiles(e: map<Path, Entry>, d: Path, kept: set<Path>): (r: set<Path>)
    ensures forall p :: p in r <==> IsFileAt(e, p) && Below(d, p) && p !in kept
  {
    set p | p in e && IsFileAt(e, p) && Below(d, p) && p !in kept
  }

  /** Visiting `p` deletes and reports it exactly when it is an obsolete file. */
  lemma ObsoleteFilesStep(e: map<Path, Entry>, d: Path, kept: set<Path>, todo: set<Path>, removed: set<Path>, p: Path)
    requires todo <= Subtree(e, d) && p in todo && removed == ObsoletePhotoFiles(e, d, kept) - todo
    ensures p !in kept && IsFileAt(e - removed, p) ==>
              removed + {p} == ObsoletePhotoFiles(e, d, kept) - (todo - {p}) && (e - removed) - {p} == e - (removed + {p})
    ensures !(p !in kept && IsFileAt(e - removed, p)) ==> removed == ObsoletePhotoFiles(e, d, kept) - (todo - {p})
  {
  }

  /**
   * `remove_obsolete(destination_path, files)` of the photo synchroniser:
   * below the destination, every regular file that is not kept is deleted
   * and reported. Directories are left in place, so the order of the walk
   * does not matter. Nothing happens without a destination or a kept set.
   */
  method RemoveObsoletePhotos(dest: Option<Path>, files: Option<set<Path>>, disk: LocalDisk) returns (removed: set<Path>)
    requires disk.Valid()
    modifies disk
    ensures disk.Valid()
    ensures dest.None? || files.None? ==> removed == {} && disk.entries == old(disk.entries)
    ensures dest.Some? && files.Some? ==> removed == ObsoletePhotoFiles(old(disk.entries), dest.value, files.value)
    ensures disk.entries == old(disk.entries) - removed
  {
    removed := {};
    if dest.None? || files.None? {
      return;
    }
    var d, kept := dest.value, files.value;
    ghost var e0 := disk.entries;
    var todo := Subtree(disk.entries, d);
    while todo != {}
      invariant disk.Valid()
      invariant todo <= Subtree(e0, d)
      invariant removed == ObsoletePhotoFiles(e0, d, kept) - todo
      invariant disk.entries == e0 - removed
      decreases |todo|
    {
      var p :| p in todo;
      ObsoleteFilesStep(e0, d, kept, todo, removed, p);
      if p !in kept && IsFileAt(disk.entries, p) {
        disk.Unlink(p);
        removed := removed + {p};
      }
      todo := todo - {p};
    }
  }

  /**
   * After the removal pass, the regular files left below the destination are
   * exactly the kept ones that were there, every kept entry is untouched,
   * and so is every directory and everything outside the destination.
   */
  lemma PhotoRemovalOutcome(e: map<Path, Entry>, d: Path, kept: set<Path>, p: Path)
    ensures var e' := e - ObsoletePhotoFiles(e, d, kept);
            (IsFileAt(e', p) && Below(d, p) <==> IsFileAt(e, p) && Below(d, p) && p in kept) &&
            (p in e && (p in kept || !Below(d, p) || IsDirAt(e, p)) ==> p in e' && e'[p] == e[p])
  {
  }

  // ---------------------------------------------------------------------
  // sync_photos
  // ---------------------------------------------------------------------

  /** The photo library as the synchroniser reads it: every photo, and the albums by name. */
  datatype Library = Library(all: seq<Photo>, albums: map<string, seq<Photo>>)

  /** The directory an album is stored in: `os.path.join(destination, name)`. */
  function AlbumDir(dest: Path, name: string): (p: Path)
    ensures IsPrefix(dest, p)
  {
    dest + Components(name)
  }

  /** The first `k` listed albums exist in the library. */
  predicate FirstAlbumsExist(library: Library, names: seq<string>, k: nat)
  {
    k <= |names| && forall i :: 0 <= i < k ==> names[i] in library.albums
  }

  /** Every listed album exists in the library. */
  predicate AlbumsExist(library: Library, names: seq<string>)
  {
    FirstAlbumsExist(library, names, |names|)
  }

  /** What syncing the first `k` listed albums records. */
  function FirstAlbumsKept(library: Library, dest: Path, names: seq<string>, k: nat, renditions: seq<string>,
                           workers: Option<int>): set<Path>
    requires FirstAlbumsExist(library, names, k)
  {
    if k == 0 then {}
    else
      FirstAlbumsKept(library, dest, names, k - 1, renditions, workers) +
      AlbumKept(library.albums[names[k - 1]], AlbumDir(dest, names[k - 1]), renditions, workers)
  }

  /** What syncing the listed albums records. */
  function AlbumsKept(library: Library, dest: Path, names: seq<string>, renditions: seq<string>, workers: Option<int>): set<Path>
    requires AlbumsExist(library, names)
  {
    FirstAlbumsKept(library, dest, names, |names|, renditions, workers)
  }

  /** Syncing one more album adds what that album records. */
  lemma AlbumRecorded(library: Library, dest: Path, names: seq<string>, k: nat, next: nat, renditions: seq<string>,
                      workers: Option<int>, kept0: set<Path>, before: set<Path>, after: set<Path>)
    requires next == k + 1 && FirstAlbumsExist(library, names, next)
    requires before == kept0 + FirstAlbumsKept(library, dest, names, k, renditions, workers)
    requires after == before + AlbumKept(library.albums[names[k]], AlbumDir(dest, names[k]), renditions, workers)
    ensures after == kept0 + FirstAlbumsKept(library, dest, names, next, renditions, workers)
  {
  }

  /**
   * What `sync_photos` records: the listed albums, each in a directory of
   * its own, or the whole library directly under the destination.
   */
  function PhotosKept(library: Library, dest: Path, names: seq<string>, renditions: seq<string>, workers: Option<int>): set<Path>
    requires AlbumsExist(library, names)
  {
    if names == [] then AlbumKept(library.all, dest, renditions, workers)
    else AlbumsKept(library, dest, names, renditions, workers)
  }

  /** Everything recorded lies below the destination. */
  lemma {:induction false} FirstAlbumsKeptBelow(library: Library, dest: Path, names: seq<string>, k: nat,
                                                renditions: seq<string>, workers: Option<int>, q: Path)
    requires FirstAlbumsExist(library, names, k)
    ensures q in FirstAlbumsKept(library, dest, names, k, renditions, workers) ==> Below(dest, q)
    decreases k
  {
    if k > 0 {
      FirstAlbumsKeptBelow(library, dest, names, k - 1, renditions, workers, q);
      var album, dir := library.albums[names[k - 1]], AlbumDir(dest, names[k - 1]);
      if q in AlbumKept(album, dir, renditions, workers) {
        AlbumKeptMembers(album, dir, renditions, workers, q);
        var i, j :| 0 <= i < |album| && 0 <= j < |renditions| &&
                    renditions[j] in album[i].versions && q == PhotoPath(album[i], renditions[j], dir);
        PhotoPathBelow(album[i], renditions[j], dir);
        assert q[..|dest|] == dir[..|dest|];
      }
    }
  }

  /** Whatever `sync_photos` records lies below its destination, so removal never spares a path outside it by accident. */
  lemma PhotosKeptBelow(library: Library, dest: Path, names: seq<string>, renditions: seq<string>,
                        workers: Option<int>, q: Path)
    requires AlbumsExist(library, names)
    ensures q in PhotosKept(library, dest, names, renditions, workers) ==> Below(dest, q)
  {
    if names != [] {
      FirstAlbumsKeptBelow(library, dest, names, |names|, renditions, workers, q);
    } else if q in AlbumKept(library.all, dest, renditions, workers) {
      AlbumKeptMembers(library.all, dest, renditions, workers, q);
      var i, j :| 0 <= i < |library.all| && 0 <= j < |renditions| &&
                  renditions[j] in library.all[i].versions && q == PhotoPath(library.all[i], renditions[j], dest);
      PhotoPathBelow(library.all[i], renditions[j], dest);
    }
  }

  /** A rendition is stored strictly below the destination, three levels down. */
  lemma PhotoPathBelow(photo: Photo, rendition: string, dest: Path)
    ensures Below(dest, PhotoPath(photo, rendition, dest))
  {
    var p := PhotoPath(photo, rendition, dest);
    assert p[..|dest|] == MonthDir(photo, dest)[..|dest|] == YearDir(photo, dest)[..|dest|] == dest;
  }

  /**
   * What the album loop of `sync_photos` does to the disk: each listed album
   * in its own directory, in order, until one raises; looking up a name the
   * library does not have raises.
   */
  function AlbumsOutcome(e: map<Path, Entry>, library: Library, dest: Path, names: seq<string>, renditions: seq<string>,
                         workers: Option<int>, inScope: bool, transfer: Path -> Transfer): Outcome
    decreases |names|
  {
    if names == [] then Idle(e)
    else
      var before := AlbumsOutcome(e, library, dest, names[..|names| - 1], renditions, workers, inScope, transfer);
      var name := names[|names| - 1];
      Then(before,
           if name in library.albums
           then AlbumOutcome(before.entries, library.albums[name], Some(AlbumDir(dest, name)), renditions, workers, inScope, transfer)
           else Outcome(before.entries, true, {}, {}))
  }

  /** Once an album has raised, the albums after it change nothing. */
  lemma {:induction false} AlbumsStop(e: map<Path, Entry>, library: Library, dest: Path, a: seq<string>, b: seq<string>,
                                      renditions: seq<string>, workers: Option<int>, inScope: bool, transfer: Path -> Transfer)
    requires AlbumsOutcome(e, library, dest, a, renditions, workers, inScope, transfer).raised
    ensures AlbumsOutcome(e, library, dest, a + b, renditions, workers, inScope, transfer) ==
            AlbumsOutcome(e, library, dest, a, renditions, workers, inScope, transfer)
    decreases |b|
  {
    if b == [] {
      assert a + b == a;
    } else {
      var b' := b[..|b| - 1];
      assert (a + b)[..|a + b| - 1] == a + b';
      AlbumsStop(e, library, dest, a, b', renditions, workers, inScope, transfer);
    }
  }

  /** A raise at the `k`-th listed album is the outcome of them all. */
  lemma AlbumsStopAt(e: map<Path, Entry>, library: Library, dest: Path, names: seq<string>, k: nat, renditions: seq<string>,
                     workers: Option<int>, inScope: bool, transfer: Path -> Transfer)
    requires k <= |names| && AlbumsOutcome(e, library, dest, names[..k], renditions, workers, inScope, transfer).raised
    ensures AlbumsOutcome(e, library, dest, names, renditions, workers, inScope, transfer) ==
            AlbumsOutcome(e, library, dest, names[..k], renditions, workers, inScope, transfer)
  {
    assert names[..k] + names[k..] == names;
    AlbumsStop(e, library, dest, names[..k], names[k..], renditions, workers, inScope, transfer);
  }

  /** What the sync part of `sync_photos` does to the disk: the listed albums, or the whole library. */
  function PassOutcome(e: map<Path, Entry>, library: Library, dest: Path, names: seq<string>, renditions: seq<string>,
                       workers: Option<int>, inScope: bool, transfer: Path -> Transfer): Outcome
  {
    if names != [] then AlbumsOutcome(e, library, dest, names, renditions, workers, inScope, transfer)
    else AlbumOutcome(e, library.all, Some(dest), renditions, workers, inScope, transfer)
  }

  /**
   * One turn of the album loop of `sync_photos`: the `k`-th listed album is
   * looked up, which raises for a name the library does not have, and synced
   * into its own directory. `e` is the disk before the loop.
   */
  method SyncListedAlbum(library: Library, dest: Path, names: seq<string>, k: nat, renditions: seq<string>,
                         workers: Option<int>, inScope: bool, files: KeptSet, disk: LocalDisk, transfer: Path -> Transfer,
                         ghost e: map<Path, Entry>) returns (raised: bool)
    requires k < |names| && disk.Valid()
    requires disk.entries == AlbumsOutcome(e, library, dest, names[..k], renditions, workers, inScope, transfer).entries
    requires !AlbumsOutcome(e, library, dest, names[..k], renditions, workers, inScope, transfer).raised
    modifies files, disk
    ensures disk.Valid() && DirsKept(old(disk.entries), disk.entries)
    ensures disk.entries == AlbumsOutcome(e, library, dest, names[..k + 1], renditions, workers, inScope, transfer).entries
    ensures raised == AlbumsOutcome(e, library, dest, names[..k + 1], renditions, workers, inScope, transfer).raised
    ensures names[k] !in library.albums ==> raised
    ensures !raised ==>
              files.paths == old(files.paths) +
                             AlbumKept(library.albums[names[k]], AlbumDir(dest, names[k]), renditions, workers)
    ensures !inScope ==> files.paths == old(files.paths)
  {
    var name := names[k];
    assert names[..k + 1][..k] == names[..k];
    if name !in library.albums {
      // photos.albums[name] raises for an unknown album.
      return true;
    }
    raised := SyncAlbum(library.albums[name], Some(AlbumDir(dest, name)), renditions, workers, inScope, files, disk, transfer);
  }

  /**
   * The album loop of `sync_photos`: the listed albums in order, each in a
   * directory of its own, until one raises.
   */
  method SyncAlbums(library: Library, dest: Path, names: seq<string>, renditions: seq<string>, workers: Option<int>,
                    inScope: bool, files: KeptSet, disk: LocalDisk, transfer: Path -> Transfer) returns (raised: bool)
    requires disk.Valid()
    modifies files, disk
    ensures disk.Valid() && DirsKept(old(disk.entries), disk.entries)
    ensures disk.entries == AlbumsOutcome(old(disk.entries), library, dest, names, renditions, workers, inScope, transfer).entries
    ensures raised == AlbumsOutcome(old(disk.entries), library, dest, names, renditions, workers, inScope, transfer).raised
    ensures !AlbumsExist(library, names) ==> raised
    ensures !raised ==>
              AlbumsExist(library, names) &&
              files.paths == old(files.paths) + AlbumsKept(library, dest, names, renditions, workers)
    ensures !inScope ==> files.paths == old(files.paths)
  {
    raised := false;
    ghost var e0, kept0 := disk.entries, files.paths;
    var k: nat := 0;
    while k < |names|
      invariant k <= |names| && FirstAlbumsExist(library, names, k)
      invariant disk.Valid() && DirsKept(e0, disk.entries)
      invariant files.paths == kept0 + FirstAlbumsKept(library, dest, names, k, renditions, workers)
      invariant !inScope ==> files.paths == kept0
      invariant disk.entries == AlbumsOutcome(e0, library, dest, names[..k], renditions, workers, inScope, transfer).entries
      invariant !AlbumsOutcome(e0, library, dest, names[..k], renditions, workers, inScope, transfer).raised
    {
      ghost var before, mid := files.paths, disk.entries;
      raised := SyncListedAlbum(library, dest, names, k, renditions, workers, inScope, files, disk, transfer, e0);
      DirsKeptTrans(e0, mid, disk.entries);
      if raised {
        AlbumsStopAt(e0, library, dest, names, k + 1, renditions, workers, inScope, transfer);
        return;
      }
      var next := k + 1;
      AlbumRecorded(library, dest, names, k, next, renditions, workers, kept0, before, files.paths);
      k := next;
    }
    assert names[..k] == names;
  }

  /**
   * `sync_photos` with the kept set threaded through: syncs the listed
   * albums, or the whole library when none is listed, into a fresh kept set,
   * and with removal enabled deletes every regular file below the
   * destination that the sync did not record. `synced` is the disk between
   * the two steps.
   */
  method SyncPhotos(library: Library, dest: Path, names: seq<string>, renditions: seq<string>, workers: Option<int>,
                    remove: bool, disk: LocalDisk, transfer: Path -> Transfer)
    returns (files: KeptSet, raised: bool, ghost synced: map<Path, Entry>)
    requires disk.Valid()
    modifies disk
    ensures fresh(files) && disk.Valid()
    ensures DirsKept(old(disk.entries), synced) && DirsKept(synced, disk.entries)
    ensures synced == PassOutcome(old(disk.entries), library, dest, names, renditions, workers, true, transfer).entries
    ensures raised == PassOutcome(old(disk.entries), library, dest, names, renditions, workers, true, transfer).raised
    ensures names != [] && !AlbumsExist(library, names) ==> raised
    ensures !raised ==>
              AlbumsExist(library, names) && files.paths == PhotosKept(library, dest, names, renditions, workers)
    ensures raised || !remove ==> disk.entries == synced
    ensures !raised && remove ==> disk.entries == synced - ObsoletePhotoFiles(synced, dest, files.paths)
    ensures !raised && remove ==>
              forall p :: IsFileAt(disk.entries, p) && Below(dest, p) ==> p in files.paths
  {
    files := new KeptSet();
    if names != [] {
      raised := SyncAlbums(library, dest, names, renditions, workers, true, files, disk, transfer);
    } else {
      raised := SyncAlbum(library.all, Some(dest), renditions, workers, true, files, disk, transfer);
    }
    synced := disk.entries;
    if raised || !remove {
      return;
    }
    var removed := RemoveObsoletePhotos(Some(dest), Some(files.paths), disk);
  }

  /**
   * `sync_photos` as written: `process_photo` refers to a `files` that is
   * not in its scope, so every rendition a photo has raises a `NameError`
   * right after it is named, before anything is downloaded. The pass
   * reaches the removal only when no requested rendition was present, and
   * then hands it the empty set created in `sync_photos`.
   */
  method SyncPhotosAsWritten(library: Library, dest: Path, names: seq<string>, renditions: seq<string>,
                             workers: Option<int>, remove: bool, disk: LocalDisk, transfer: Path -> Transfer)
    returns (raised: bool, ghost synced: map<Path, Entry>)
    requires disk.Valid()
    modifies disk
    ensures disk.Valid()
    ensures synced == PassOutcome(old(disk.entries), library, dest, names, renditions, workers, false, transfer).entries
    ensures raised == PassOutcome(old(disk.entries), library, dest, names, renditions, workers, false, transfer).raised
    ensures !raised ==> AlbumsExist(library, names) && PhotosKept(library, dest, names, renditions, workers) == {}
    ensures raised || !remove ==> disk.entries == synced
    ensures !raised && remove ==> disk.entries == synced - ObsoletePhotoFiles(synced, dest, {})
    ensures !raised && remove ==> forall p :: Below(dest, p) ==> !IsFileAt(disk.entries, p)
  {
    ghost var e0 := disk.entries;
    var files := new KeptSet();
    if names != [] {
      raised := SyncAlbums(library, dest, names, renditions, workers, false, files, disk, transfer);
    } else {
      raised := SyncAlbum(library.all, Some(dest), renditions, workers, false, files, disk, transfer);
    }
    PassAsWritten(e0, library, dest, names, renditions, workers, transfer);
    synced := disk.entries;
    if raised || !remove {
      return;
    }
    var removed := RemoveObsoletePhotos(Some(dest), Some(files.paths), disk);
  }

  // ---------------------------------------------------------------------
  // The pass as written
  // ---------------------------------------------------------------------

  /**
   * As written, a rendition the photo has raises right after it is named and
   * is never downloaded; a rendition it lacks is skipped exactly as in the
   * corrected pass.
   */
  lemma PhotoAsWritten(e: map<Path, Entry>, photo: Photo, rendition: string, dest: Path, t: Transfer)
    ensures var o := PhotoOutcome(e, photo, rendition, dest, false, t);
            o.fetched == {} &&
            (!NamingRaises(e, photo, rendition, dest) && rendition in photo.versions ==> o.raised) &&
            (!o.raised ==> rendition !in photo.versions && o == PhotoOutcome(e, photo, rendition, dest, true, t))
  {
  }

  lemma {:induction false} RenditionsAsWritten(e: map<Path, Entry>, photo: Photo, renditions: seq<string>, dest: Path,
                                               transfer: Path -> Transfer)
    ensures var o := RenditionsOutcome(e, photo, renditions, dest, false, transfer);
            o.fetched == {} &&
            (!o.raised ==> RenditionPaths(photo, renditions, dest) == {} &&
                           o == RenditionsOutcome(e, photo, renditions, dest, true, transfer))
    decreases |renditions|
  {
    if renditions != [] {
      var front, last := renditions[..|renditions| - 1], renditions[|renditions| - 1];
      RenditionsAsWritten(e, photo, front, dest, transfer);
      var before := RenditionsOutcome(e, photo, front, dest, false, transfer);
      PhotoAsWritten(before.entries, photo, last, dest, transfer(PhotoPath(photo, last, dest)));
    }
  }

  lemma {:induction false} PhotosAsWritten(e: map<Path, Entry>, photos: seq<Photo>, renditions: seq<string>, dest: Path,
                                           transfer: Path -> Transfer)
    ensures var o := PhotosOutcome(e, photos, renditions, dest, false, transfer);
            o.fetched == {} &&
            (!o.raised ==> AlbumPaths(photos, renditions, dest) == {} &&
                           o == PhotosOutcome(e, photos, renditions, dest, true, transfer))
    decreases |photos|
  {
    if photos != [] {
      var front, last := photos[..|photos| - 1], photos[|photos| - 1];
      PhotosAsWritten(e, front, renditions, dest, transfer);
      var before := PhotosOutcome(e, front, renditions, dest, false, transfer);
      var step := RenditionsOutcome(before.entries, last, renditions, dest, false, transfer);
      assert PhotosOutcome(e, photos, renditions, dest, false, transfer) == Then(before, step);
      RenditionsAsWritten(before.entries, last, renditions, dest, transfer);
      if !Then(before, step).raised {
        assert PhotosOutcome(e, photos, renditions, dest, true, transfer) ==
               Then(PhotosOutcome(e, front, renditions, dest, true, transfer),
                    RenditionsOutcome(before.entries, last, renditions, dest, true, transfer));
        assert photos == front + [last];
        AlbumPathsAppend(front, [last], renditions, dest);
        AlbumPathsOfOne(last, renditions, dest);
      }
    }
  }

  /** The paths recorded for a single photo are those of its renditions. */
  lemma AlbumPathsOfOne(photo: Photo, renditions: seq<string>, dest: Path)
    ensures AlbumPaths([photo], renditions, dest) == RenditionPaths(photo, renditions, dest)
  {
    assert FirstPhotosPaths([photo], 0, renditions, dest) == {};
  }

  lemma AlbumAsWritten(e: map<Path, Entry>, album: seq<Photo>, dest: Option<Path>, renditions: seq<string>,
                       workers: Option<int>, transfer: Path -> Transfer)
    ensures var o := AlbumOutcome(e, album, dest, renditions, workers, false, transfer);
            o.fetched == {} &&
            (!o.raised ==> (dest.Some? ==> AlbumKept(album, dest.value, renditions, workers) == {}) &&
                           o == AlbumOutcome(e, album, dest, renditions, workers, true, transfer))
  {
    if AlbumProceeds(album, dest, renditions) && MakeDirsSucceeds(e, dest.value) && ChunkSize(workers) > 0 {
      PhotosAsWritten(WithDirs(e, dest.value), album, renditions, dest.value, transfer);
    }
  }

  lemma {:induction false} FirstAlbumsAsWritten(e: map<Path, Entry>, library: Library, dest: Path, names: seq<string>,
                                                k: nat, renditions: seq<string>, workers: Option<int>,
                                                transfer: Path -> Transfer)
    requires k <= |names|
    ensures var o := AlbumsOutcome(e, library, dest, names[..k], renditions, workers, false, transfer);
            o.fetched == {} &&
            (!o.raised ==> FirstAlbumsExist(library, names, k) &&
                           FirstAlbumsKept(library, dest, names, k, renditions, workers) == {} &&
                           o == AlbumsOutcome(e, library, dest, names[..k], renditions, workers, true, transfer))
    decreases k
  {
    if k > 0 {
      FirstAlbumsAsWritten(e, library, dest, names, k - 1, renditions, workers, transfer);
      assert names[..k][..k - 1] == names[..k - 1];
      var before := AlbumsOutcome(e, library, dest, names[..k - 1], renditions, workers, false, transfer);
      var name := names[k - 1];
      if !before.raised && name in library.albums {
        var album, d := library.albums[name], AlbumDir(dest, name);
        AlbumAsWritten(before.entries, album, Some(d), renditions, workers, transfer);
        assert AlbumsOutcome(e, library, dest, names[..k], renditions, workers, false, transfer) ==
               Then(before, AlbumOutcome(before.entries, album, Some(d), renditions, workers, false, transfer));
        assert AlbumsOutcome(e, library, dest, names[..k], renditions, workers, true, transfer) ==
               Then(before, AlbumOutcome(before.entries, album, Some(d), renditions, workers, true, transfer));
      }
    }
  }

  /**
   * The pass as written downloads nothing, and it gets past the albums only
   * when the corrected pass would record nothing either; it then left the
   * disk exactly as the corrected pass would have.
   */
  lemma PassAsWritten(e: map<Path, Entry>, library: Library, dest: Path, names: seq<string>, renditions: seq<string>,
                      workers: Option<int>, transfer: Path -> Transfer)
    ensures var o := PassOutcome(e, library, dest, names, renditions, workers, false, transfer);
            o.fetched == {} &&
            (!o.raised ==> AlbumsExist(library, names) &&
                           PhotosKept(library, dest, names, renditions, workers) == {} &&
                           o == PassOutcome(e, library, dest, names, renditions, workers, true, transfer))
  {
    if names != [] {
      FirstAlbumsAsWritten(e, library, dest, names, |names|, renditions, workers, transfer);
      assert names[..|names|] == names;
    } else {
      AlbumAsWritten(e, library.all, Some(dest), renditions, workers, transfer);
    }
  }

  /**
   * The defect on one photo: with a rendition the photo has, the album pass
   * as written raises after naming and fetches nothing, while the corrected
   * pass goes through, records the rendition's path and fetches it unless
   * it is already current.
   */
  lemma AsWrittenRaisesOnPresentRendition(e: map<Path, Entry>, photo: Photo, rendition: string, dest: Path,
                                          workers: Option<int>, transfer: Path -> Transfer)
    requires rendition in photo.versions && ChunkSize(workers) > 0 && MakeDirsSucceeds(e, dest)
    requires !NamingRaises(WithDirs(e, dest), photo, rendition, dest)
    ensures var o := AlbumOutcome(e, [photo], Some(dest), [rendition], workers, false, transfer);
            o.raised && o.fetched == {}
    ensures var o := AlbumOutcome(e, [photo], Some(dest), [rendition], workers, true, transfer);
            var p := PhotoPath(photo, rendition, dest);
            !o.raised && p in AlbumKept([photo], dest, [rendition], workers) &&
            (p in o.fetched <==> !PhotoExists(photo, rendition, p, Named(WithDirs(e, dest), photo, rendition, dest)))
  {
    var made := WithDirs(e, dest);
    assert [photo][..0] == [] && [rendition][..0] == [];
    assert PhotosOutcome(made, [photo], [rendition], dest, false, transfer) ==
           RenditionsOutcome(made, photo, [rendition], dest, false, transfer);
    assert PhotosOutcome(made, [photo], [rendition], dest, true, transfer) ==
           RenditionsOutcome(made, photo, [rendition], dest, true, transfer);
    var t := transfer(PhotoPath(photo, rendition, dest));
    assert RenditionsOutcome(made, photo, [rendition], dest, false, transfer) ==
           Then(Idle(made), PhotoOutcome(made, photo, rendition, dest, false, t));
    assert RenditionsOutcome(made, photo, [rendition], dest, true, transfer) ==
           Then(Idle(made), PhotoOutcome(made, photo, rendition, dest, true, t));
    AlbumPathsOfOne(photo, [rendition], dest);
  }

}
