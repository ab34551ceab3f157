/**
 * A second album pass (src/sync_photos.py) over the disk the first one left.
 * Once a pass finished without raising and every download it started stored
 * its file, running it again renames nothing, creates nothing and downloads
 * nothing, whatever its transfers would do.
 */
module PhotoSecondPass {
  import opened Common
  import opened LocalFs
  import opened PhotoNaming
  import opened PhotoSync

  /**
   * An album a pass can settle: distinct photo and rendition pairs get
   * distinct paths, and no rendition is stored where a photo's legacy
   * original would be.
   */
  predicate DistinctPaths(album: seq<Photo>, renditions: seq<string>, dest: Path)
  {
    (forall p1, p2, r1, r2 ::
       p1 in album && p2 in album && r1 in renditions && r2 in renditions &&
       PhotoPath(p1, r1, dest) == PhotoPath(p2, r2, dest)
       ==> p1 == p2 && r1 == r2) &&
    (forall p1, p2, r :: p1 in album && p2 in album && r in renditions ==> PhotoPath(p1, r, dest) != LegacyPath(p2, dest))
  }

  /**
   * The disk already reflects one rendition of a photo: its month directory
   * is there, no legacy original is left to rename, and a rendition the
   * photo has is stored at its size.
   */
  predicate Settled(e: map<Path, Entry>, photo: Photo, rendition: string, dest: Path)
  {
    IsDirAt(e, MonthDir(photo, dest)) &&
    (rendition == Original ==> !IsFileAt(e, LegacyPath(photo, dest))) &&
    (rendition in photo.versions ==> PhotoExists(photo, rendition, PhotoPath(photo, rendition, dest), e))
  }

  // ---------------------------------------------------------------------
  // A settled disk is left alone
  // ---------------------------------------------------------------------

  /** Processing a settled rendition changes nothing, downloads nothing and does not raise. */
  lemma SettledPhotoIdle(e: map<Path, Entry>, photo: Photo, rendition: string, dest: Path, t: Transfer)
    requires WellFormed(e) && Settled(e, photo, rendition, dest)
    ensures PhotoOutcome(e, photo, rendition, dest, true, t) == Idle(e)
  {
    ExistingDirMade(e, MonthDir(photo, dest));
  }

  lemma {:induction false} SettledRenditionsIdle(e: map<Path, Entry>, photo: Photo, renditions: seq<string>, dest: Path,
                                                 transfer: Path -> Transfer)
    requires WellFormed(e) && forall r :: r in renditions ==> Settled(e, photo, r, dest)
    ensures RenditionsOutcome(e, photo, renditions, dest, true, transfer) == Idle(e)
    decreases |renditions|
  {
    if renditions != [] {
      var front, last := renditions[..|renditions| - 1], renditions[|renditions| - 1];
      assert forall r :: r in front ==> r in renditions;
      SettledRenditionsIdle(e, photo, front, dest, transfer);
      SettledPhotoIdle(e, photo, last, dest, transfer(PhotoPath(photo, last, dest)));
    }
  }

  lemma {:induction false} SettledPhotosIdle(e: map<Path, Entry>, photos: seq<Photo>, renditions: seq<string>, dest: Path,
                                             transfer: Path -> Transfer)
    requires WellFormed(e) && forall p, r :: p in photos && r in renditions ==> Settled(e, p, r, dest)
    ensures PhotosOutcome(e, photos, renditions, dest, true, transfer) == Idle(e)
    decreases |photos|
  {
    if photos != [] {
      var front, last := photos[..|photos| - 1], photos[|photos| - 1];
      assert forall p :: p in front ==> p in photos;
      SettledPhotosIdle(e, front, renditions, dest, transfer);
      SettledRenditionsIdle(e, last, renditions, dest, transfer);
    }
  }

  // ---------------------------------------------------------------------
  // A pass settles what it processes and keeps what is settled
  // ---------------------------------------------------------------------

  /**
   * Processing a rendition writes no regular file other than at the
   * rendition's own path, and leaves every other file but the legacy
   * original as it was.
   */
  lemma StepElsewhere(e: map<Path, Entry>, photo: Photo, rendition: string, dest: Path, t: Transfer, q: Path)
    requires !NamingRaises(e, photo, rendition, dest) && q != PhotoPath(photo, rendition, dest)
    ensures var e' := PhotoOutcome(e, photo, rendition, dest, true, t).entries;
            (IsFileAt(e', q) ==> IsFileAt(e, q) && e'[q] == e[q]) &&
            (IsFileAt(e, q) && q != LegacyPath(photo, dest) ==> IsFileAt(e', q) && e'[q] == e[q])
  {
  }

  /**
   * One step of a pass that neither raised nor failed a download settles
   * its own rendition and keeps every other settled rendition of the album
   * settled.
   */
  lemma PhotoStepKeeps(e: map<Path, Entry>, photo: Photo, rendition: string, dest: Path, t: Transfer,
                       album: seq<Photo>, renditions: seq<string>, qp: Photo, qr: string)
    requires WellFormed(e) && DistinctPaths(album, renditions, dest)
    requires photo in album && rendition in renditions && qp in album && qr in renditions
    requires Settled(e, qp, qr, dest) || (qp == photo && qr == rendition)
    requires !PhotoOutcome(e, photo, rendition, dest, true, t).raised
    requires PhotoOutcome(e, photo, rendition, dest, true, t).failed == {}
    ensures Settled(PhotoOutcome(e, photo, rendition, dest, true, t).entries, qp, qr, dest)
  {
    var named := Named(e, photo, rendition, dest);
    var p := PhotoPath(photo, rendition, dest);
    var e' := PhotoOutcome(e, photo, rendition, dest, true, t).entries;
    NamedMeans(e, photo, rendition, dest);
    PhotoOutcomeWellFormed(e, photo, rendition, dest, true, t);
    var legacy := LegacyPath(qp, dest);
    assert p != legacy;
    StepElsewhere(e, photo, rendition, dest, t, legacy);
    if qp == photo && qr == rendition {
      if rendition in photo.versions && !PhotoExists(photo, rendition, p, named) {
        assert p in PhotoOutcome(e, photo, rendition, dest, true, t).fetched;
        PhotoDownloadMakesCurrent(photo, rendition, p, named, t);
        AfterTransferWellFormed(named, p, t, photo.versions[rendition], PhotoStamp(photo));
      }
    } else {
      var x := PhotoPath(qp, qr, dest);
      assert x != p && x != LegacyPath(photo, dest);
      StepElsewhere(e, photo, rendition, dest, t, x);
    }
  }

  /** The renditions of one photo, processed without a raise or a failed download, are settled. */
  lemma {:induction false} RenditionsKeep(e: map<Path, Entry>, photo: Photo, rs: seq<string>, dest: Path,
                                          transfer: Path -> Transfer, album: seq<Photo>, renditions: seq<string>,
                                          qp: Photo, qr: string)
    requires WellFormed(e) && DistinctPaths(album, renditions, dest)
    requires photo in album && (forall r :: r in rs ==> r in renditions) && qp in album && qr in renditions
    requires Settled(e, qp, qr, dest) || (qp == photo && qr in rs)
    requires !RenditionsOutcome(e, photo, rs, dest, true, transfer).raised
    requires RenditionsOutcome(e, photo, rs, dest, true, transfer).failed == {}
    ensures Settled(RenditionsOutcome(e, photo, rs, dest, true, transfer).entries, qp, qr, dest)
    decreases |rs|
  {
    if rs != [] {
      var front, last := rs[..|rs| - 1], rs[|rs| - 1];
      assert rs == front + [last];
      var before := RenditionsOutcome(e, photo, front, dest, true, transfer);
      RenditionsWellFormed(e, photo, front, dest, true, transfer);
      var t := transfer(PhotoPath(photo, last, dest));
      if !(qp == photo && qr == last) {
        RenditionsKeep(e, photo, front, dest, transfer, album, renditions, qp, qr);
      }
      PhotoStepKeeps(before.entries, photo, last, dest, t, album, renditions, qp, qr);
    }
  }

  /** The photos of an album, processed without a raise or a failed download, are settled. */
  lemma {:induction false} PhotosKeep(e: map<Path, Entry>, photos: seq<Photo>, renditions: seq<string>, dest: Path,
                                      transfer: Path -> Transfer, album: seq<Photo>, qp: Photo, qr: string)
    requires WellFormed(e) && DistinctPaths(album, renditions, dest)
    requires (forall p :: p in photos ==> p in album) && qp in album && qr in renditions
    requires Settled(e, qp, qr, dest) || qp in photos
    requires !PhotosOutcome(e, photos, renditions, dest, true, transfer).raised
    requires PhotosOutcome(e, photos, renditions, dest, true, transfer).failed == {}
    ensures Settled(PhotosOutcome(e, photos, renditions, dest, true, transfer).entries, qp, qr, dest)
    decreases |photos|
  {
    if photos != [] {
      var front, last := photos[..|photos| - 1], photos[|photos| - 1];
      assert photos == front + [last];
      var before := PhotosOutcome(e, front, renditions, dest, true, transfer);
      PhotosWellFormed(e, front, renditions, dest, true, transfer);
      if qp != last {
        PhotosKeep(e, front, renditions, dest, transfer, album, qp, qr);
      }
      RenditionsKeep(before.entries, last, renditions, dest, transfer, album, renditions, qp, qr);
    }
  }

  /**
   * A second `sync_album` over the disk a first one left, once the first
   * finished without raising and every download it started stored its
   * file, changes nothing and downloads nothing, whatever its transfers
   * would do.
   */
  lemma SecondAlbumPassIdle(e: map<Path, Entry>, album: seq<Photo>, dest: Path, renditions: seq<string>,
                            workers: Option<int>, transfer: Path -> Transfer, again: Path -> Transfer)
    requires WellFormed(e) && DistinctPaths(album, renditions, dest)
    requires !AlbumOutcome(e, album, Some(dest), renditions, workers, true, transfer).raised
    requires AlbumOutcome(e, album, Some(dest), renditions, workers, true, transfer).failed == {}
    ensures var first := AlbumOutcome(e, album, Some(dest), renditions, workers, true, transfer).entries;
            AlbumOutcome(first, album, Some(dest), renditions, workers, true, again) == Idle(first)
  {
    if AlbumProceeds(album, Some(dest), renditions) {
      var made := WithDirs(e, dest);
      WithDirsWellFormed(e, dest);
      if ChunkSize(workers) == 0 {
        MadeDirsStay(e, made, dest);
      } else {
        var first := PhotosOutcome(made, album, renditions, dest, true, transfer).entries;
        PhotosWellFormed(made, album, renditions, dest, true, transfer);
        MadeDirsStay(e, first, dest);
        forall qp, qr | qp in album && qr in renditions ensures Settled(first, qp, qr, dest)
        {
          PhotosKeep(made, album, renditions, dest, transfer, album, qp, qr);
        }
        SettledPhotosIdle(first, album, renditions, dest, again);
      }
    }
  }
}
