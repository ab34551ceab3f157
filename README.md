# icloud-drive-docker synchronisers in Dafny

This project models the two synchronisers of icloud-drive-docker: the
iCloud Drive synchroniser (`src/sync_drive.py`) and the iCloud Photos
synchroniser (`src/sync_photos.py`). Both copy a remote tree into a local
destination directory. Both record every local path they mean to keep in a
kept set (`files`). When removal is enabled, both then delete what lies
below the destination and is not in that set.

The local file system is a map from absolute paths (lists of components) to
entries, regular files with a size and a modification time, or directories.
It is the state of class `LocalFs.LocalDisk`, whose methods are the
`os`/`shutil`/`pathlib` calls the synchronisers make:
- `makedirs(exist_ok=True)`, which raises over a regular file;
- `unlink` and `rmtree`;
- `rename`, which raises onto a directory;
- a download that writes a file and stamps it.

The kept set is class `LocalFs.KeptSet`. Exceptions the source lets escape
are an explicit `raised` result, and each operation states what holds when
nothing raised.

The modules are:
- `Common`: paths, ASCII case folding, suffix tests, decimal rendering.
- `LocalFs`: the disk and the kept set.
- `Chunks`: `more_itertools.chunked`.
- `DriveFilters`: `wanted_file`, `wanted_folder`, `wanted_parent_folder`.
- `DriveReconcile`: the drive's `remove_obsolete`.
- `DriveSync`: `file_exists`, the downloads, `process_folder`, `process_file`, `sync_items`, `sync_directory`, `sync_drive`.
- `PhotoNaming`: `photo_wanted`, `generate_file_name`.
- `PhotoSync`: `photo_exists`, `download_photo`, `process_photo(s)`, `sync_album`, the photo `remove_obsolete`, `sync_photos`.
- `PhotoSecondPass`: a second `sync_album` over the disk a first one left.

Each traversal is specified by the set of paths it keeps. For the drive this
is `DriveSync.KeptBy` and `DriveSync.KeptByAll`. For the photos it is
`PhotoSync.AlbumKept` and `PhotoSync.PhotosKept`. The methods are proved
against these sets, and the sets against the removal passes:
- After a drive pass with removal, everything left below the destination was kept, and nothing kept was deleted.
- After a photo pass with removal, every regular file left below the destination is the path of a rendition a synced photo has.

What a traversal does to the disk is a function as well: `DriveSync.WalkAll`
for the drive, and `PhotoSync.RenditionsOutcome`, `PhotosOutcome`,
`AlbumOutcome` and `PassOutcome` for the photos. Each gives the disk left
behind, whether the pass raised, the downloads started and those that failed.
The methods end in exactly that disk. The lemmas about these functions state:
- what a pass may touch;
- that a completed download is current;
- that a second pass over a settled disk does nothing.

## Model

| member | source | states |
|---|---|---|
| DriveFilters.WantedFile | src/sync_drive.py:17-26 | an empty path is never wanted; an absent or empty extension list wants every file; otherwise a file is wanted iff one of the extensions ends its path, ignoring case |
| DriveFilters.WantedFileIgnoresCase | src/sync_drive.py:23 | whether a file is wanted does not depend on the case of its path |
| DriveFilters.WantedFileExamples | src/sync_drive.py:17-26 | `FILE.TXT` is wanted for `.txt`, `file.md` is not; every file is wanted without filters |
| DriveFilters.WantedFileAsWritten | src/sync_drive.py:17-26 | the regular-expression search as written: the extension is unescaped, so its '.' matches any character but a newline, and `$` also matches before a final newline |
| DriveFilters.WantedFileWithinAsWritten | src/sync_drive.py:22-24 | every file the literal test wants is also wanted by the code as written |
| DriveFilters.AsWrittenDotMatchesAnyCharacter | src/sync_drive.py:23 | as written, `.txt` wants `/dest/notatxt`, which the literal suffix test rejects |
| DriveFilters.FilterFolderPath | src/sync_drive.py:36-40 | when the filter, stripped of one leading and one trailing '/', does not start with '/', it names a path at or below the root whose added parts are path components; when it still does, every part of the path is a path component |
| DriveFilters.FilterFolderPathOfName | src/sync_drive.py:36-40 | a plain folder name names that folder directly below the root |
| DriveFilters.FilterFolderPathSlashes | src/sync_drive.py:38 | one leading and one trailing '/' do not change the folder a filter names |
| DriveFilters.FilterFolderPathIgnoresRoot | src/sync_drive.py:36-40 | when the stripped filter still starts with '/', it names the same path for every root, because `os.path.join` drops the root |
| DriveFilters.FilterFolderPathDoubleSlash | src/sync_drive.py:36-40 | for every root and every component name, `//name` keeps a '/' after stripping and names `/name`: the root is dropped |
| DriveFilters.WantedFolder | src/sync_drive.py:29-47 | permissive when the filters, the root or the folder is missing or empty; otherwise the folder is wanted iff it is a configured folder, one of its parents, or inside one |
| DriveFilters.WantedParentFolder | src/sync_drive.py:50-62 | permissive in the same cases; otherwise the folder is wanted iff it is a configured folder or inside one |
| DriveFilters.WantedParentImpliesWanted | src/sync_drive.py:29-62 | a folder whose files are wanted is itself descended into |
| DriveFilters.WantedParentInherited | src/sync_drive.py:50-62 | once inside a configured folder, every folder below it keeps its files |
| DriveFilters.AncestorOnlyFolder | src/sync_drive.py:41-45 | a parent of every configured folder is descended into, but its own files are not wanted |
| DriveFilters.WantedFolderExamples | src/sync_drive.py:29-47 | with filter `Photos` and root `/dest`, `/dest/Photos/2024` and `/dest` are wanted and `/dest/Docs` is not; `/Photos/` names the same folder |
| Chunks.Chunked | src/sync_drive.py:175 | batches are non-empty and hold at most n items; every batch but the last holds exactly n; there are none for an empty list or n = 0 |
| Chunks.FlattenChunked | src/sync_photos.py:140 | the batches put back together are the list: every item is in exactly one batch, in order |
| Chunks.ChunkedMember | src/sync_drive.py:175 | every item of a batch is an item of the batched list |
| LocalFs.LocalDisk.MakeDirs | src/sync_drive.py:72 | `makedirs(exist_ok=True)` succeeds iff no regular file stands on the path; it then adds the missing directories and changes nothing else |
| LocalFs.LocalDisk.Unlink | src/sync_drive.py:138 | `unlink(missing_ok=True)` removes exactly that entry |
| LocalFs.LocalDisk.RemoveTree | src/sync_drive.py:141 | `rmtree` removes the directory and everything below it, nothing else |
| LocalFs.LocalDisk.Rename | src/sync_photos.py:49 | `rename` of a file fails onto a directory or into a missing directory; otherwise the file moves to the new name, replacing a file there |
| LocalFs.LocalDisk.Store | src/sync_drive.py:104-109 | a download that opens its file writes the size and stamp on success, or leaves what it wrote when the stream fails; the disk stays well formed |
| LocalFs.KeptSet.Add | src/sync_drive.py:122 | `files.add` adds exactly that path |
| LocalFs.KeptSet.Update | src/sync_drive.py:211-221 | `files.update` adds exactly those paths |
| DriveSync.TruncatedSeconds | src/sync_drive.py:78-79 | `int()` of a time truncates toward zero: the result is the whole second at or below a positive time and at or above a negative one |
| DriveSync.DownloadStamp | src/sync_drive.py:108-109 | the stamp `mktime(timetuple())` is a whole second, at most the remote time and within one second of it |
| DriveSync.SizesAgreeWithDownload | src/sync_drive.py:84-85 | the size test accepts a local size iff it is the size a download of the node writes (0 for a node without a size) |
| DriveSync.FileExistsMeans | src/sync_drive.py:76-97 | a local copy is current iff it is a regular file of the size a download writes and its whole-second time equals the remote one |
| DriveSync.DownloadMakesCurrent | src/sync_drive.py:100-113 | after a successful download the copy is current, for times from the epoch on and whole-second times before it |
| DriveSync.DownloadBeforeEpochLooksChanged | src/sync_drive.py:78-79 | a node modified one nanosecond before the epoch is stamped a second earlier and its fresh copy looks changed |
| DriveSync.DownloadFile | src/sync_drive.py:100-113 | the disk after the download is the stored file with the node's size and stamp; `ok` iff the transfer succeeded |
| DriveSync.ProcessFolder | src/sync_drive.py:65-73 | the folder is created iff a destination and root are given and it is wanted; it raises iff a file blocks it; else nothing changes |
| DriveSync.ProcessFile | src/sync_drive.py:116-126 | a wanted file is added to the kept set; a download is started iff the file is wanted and its copy is not current; afterwards it is current unless the download failed |
| DriveSync.KeptBy | src/sync_drive.py:196-238 | every path kept for a node lies below the directory it is listed in |
| DriveSync.KeptByAll | src/sync_drive.py:146-193 | every path kept for a listing lies below its directory |
| DriveSync.KeptByAllAppend | src/sync_drive.py:175-181 | the kept set of a listing is the union over any split into batches |
| DriveSync.KeptByAllMembers | src/sync_drive.py:175-178 | a path is kept by a listing iff it is kept by one of its nodes |
| DriveSync.KeptByClosed | src/sync_drive.py:199-237 | with every kept path, all its ancestors below the destination are kept |
| DriveSync.KeptByAllClosed | src/sync_drive.py:175-178 | the same for a whole listing |
| DriveSync.ReconcileOutcome | src/sync_drive.py:191-192 | after reconciling against a closed kept set, exactly the kept entries are left below the destination |
| DriveSync.SyncItem | src/sync_drive.py:196-238 | a node adds exactly its kept paths to the kept set unless `makedirs` raised; the disk it leaves and whether it raised are those of `WalkItem`; a node of another type changes nothing |
| DriveSync.SyncDirectory | src/sync_drive.py:146-193 | without a listing, destination or root nothing happens; otherwise the disk after the batches and the raise are those of `WalkAll` over the listing, and the returned set is the listing's kept set; removal runs only when `top and remove`, and then leaves exactly the kept entries below the destination |
| DriveSync.SyncChunk | src/sync_drive.py:175-181 | the nodes of one batch are walked in order until one raises; the disk and the raise are those of `WalkAll` over the batch, and without a raise the batch's kept paths are added |
| DriveSync.SyncDrive | src/sync_drive.py:241-256 | one pass with the destination as root: the disk after the walk is `WalkAll` of the drive listing and the kept set is the drive's; with removal, the walked disk is pruned of the unkept entries, so everything left below the destination is kept |
| DriveSync.WalkAllAppend | src/sync_drive.py:175-181 | walking two consecutive runs of nodes is walking the first, then the second on the disk the first left |
| DriveSync.WalkAllStops | src/sync_drive.py:175-181 | once a node has raised, the nodes after it change nothing |
| DriveSync.WalkStopsAtBatch | src/sync_drive.py:175-181 | a raise in a batch is the outcome of the whole listing: later batches do not run |
| DriveSync.WalkItemStaysInside | src/sync_drive.py:196-238 | a node changes the disk only at and below its own local path |
| DriveSync.WalkAllStaysInside | src/sync_drive.py:146-193 | a listing changes the disk only below its directory |
| DriveSync.WalkItemWellFormed | src/sync_drive.py:196-238 | a node keeps the disk well formed and removes no directory |
| DriveSync.WalkAllWellFormed | src/sync_drive.py:146-193 | a listing keeps the disk well formed and removes no directory |
| DriveSync.WalkItemSettles | src/sync_drive.py:196-238 | a node walked without a raise or a failed download is settled: a wanted folder exists with its contents settled, and a wanted file is current |
| DriveSync.WalkAllSettles | src/sync_drive.py:146-193 | the same for every node of a listing with distinct names |
| DriveSync.SettledItemIdle | src/sync_drive.py:65-126 | walking a settled node changes nothing, downloads nothing and does not raise |
| DriveSync.SettledAllIdle | src/sync_drive.py:146-193 | the same for a settled listing |
| DriveSync.SecondPassIdle | src/sync_drive.py:146-238 | a second walk over the disk a first walk left, before any removal, changes nothing and downloads nothing, whatever its transfers do, once the first did not raise and every download it started stored its file |
| DriveSync.SettledItemOnKept | src/sync_drive.py:196-238 | whether a node is settled depends only on the entries at the paths it keeps |
| DriveSync.SettledAllOnKept | src/sync_drive.py:146-193 | the same for a listing |
| DriveSync.SecondDrivePassIdle | src/sync_drive.py:241-253 | with removal on, a second `sync_drive` over the disk the first left after walking and removing changes nothing, downloads nothing and finds nothing to remove, once the first did not raise and every download it started stored its file |
| DriveSync.SettledAllHoldsKept | src/sync_drive.py:191-192 | on a settled disk every kept path exists, so removal keeps all of it |
| DriveReconcile.RemoveObsolete | src/sync_drive.py:129-143 | nothing happens without a destination or kept set; otherwise it reports exactly the unkept entries whose ancestors below the destination are kept, and deletes them with their subtrees |
| DriveReconcile.RootDecision | src/sync_drive.py:133-142 | when the walk reaches an entry, it is deleted and reported iff it is not kept and has not gone with a deleted directory |
| DriveReconcile.PrunedWellFormed | src/sync_drive.py:137-142 | deleting entries together with their subtrees leaves every remaining entry's parent directories in place |
| DriveReconcile.PrunedStep | src/sync_drive.py:137-142 | deleting one more reported entry removes its subtree from what is left |
| DriveReconcile.ReconcileStaysInside | src/sync_drive.py:133 | nothing outside the destination is deleted |
| DriveReconcile.ReconcileKeepsKept | src/sync_drive.py:135 | with a closed kept set, no kept path is reported or deleted |
| DriveReconcile.ReconcileLeavesOnlyKept | src/sync_drive.py:133-142 | everything left below the destination is kept |
| DriveReconcile.ReconcileExample | src/sync_drive.py:129-143 | for {A, B, C} with kept set {A, C}, exactly B is reported and deleted |
| PhotoNaming.PhotoWanted | src/sync_photos.py:21-28 | without extensions every photo is wanted; otherwise a photo is wanted iff one of them ends its filename, ignoring case |
| PhotoNaming.PhotoWantedAgreesWithDrive | src/sync_photos.py:21-28 | for a named photo the answer is the drive's extension test on the filename |
| PhotoNaming.RenditionName | src/sync_photos.py:39-46 | a filename without a dot becomes `<rendition>.<filename>`; one with a dot is split at its last dot into `<base>__<rendition>.<ext>` |
| PhotoNaming.PhotoFileName | src/sync_photos.py:36-46 | the original is named `<date stamp>_<filename>`; every other rendition gets its rendition name |
| PhotoNaming.RenditionNameExamples | src/sync_photos.py:39-42 | `foo.jpg` becomes `foo__medium.jpg`, `foo` becomes `medium.foo` |
| PhotoNaming.RenditionNameLastDotExample | src/sync_photos.py:40-42 | only the last dot separates the extension: `a.b.png` becomes `a.b__thumb.png` |
| PhotoNaming.RenditionNameInjective | src/sync_photos.py:39-42 | distinct renditions of one filename get distinct names |
| PhotoNaming.RenditionPathsDistinct | src/sync_photos.py:31-50 | two non-original renditions of one photo are stored at different paths |
| PhotoNaming.MonthDirsDistinct | src/sync_photos.py:32-35 | photos of different months are stored in different directories |
| PhotoNaming.PhotoPath | src/sync_photos.py:31-50 | a rendition is stored directly in `<destination>/<year>/<month>` |
| PhotoNaming.LegacyPath | src/sync_photos.py:44-47 | the earlier name of an original lies in the same month directory |
| PhotoNaming.NamedMeans | src/sync_photos.py:31-50 | naming creates the month directory and keeps every directory; a legacy original moves to the new name, and no other entry changes |
| PhotoNaming.GenerateFileName | src/sync_photos.py:31-50 | returns the rendition's path; raises exactly when `makedirs` or the legacy rename fails; otherwise the disk is the named disk; when it raises, the disk holds the directories made before the failure and no rename |
| PhotoNaming.RaisedNamingOnlyAddsDirs | src/sync_photos.py:32-35 | a naming that raises only adds directories on the way to the month directory: every entry stays, and the disk stays well formed |
| PhotoSync.PhotoExistsIgnoresTime | src/sync_photos.py:54-71 | whether a copy is current does not depend on its modification time |
| PhotoSync.PhotoDownloadMakesCurrent | src/sync_photos.py:74-92 | after a successful download the rendition is current |
| PhotoSync.DownloadPhoto | src/sync_photos.py:74-92 | nothing happens without a rendition name or for a rendition the photo lacks; otherwise the stored file has the rendition's size and the photo's stamp; `ok` iff that succeeded |
| PhotoSync.ProcessPhoto | src/sync_photos.py:102-117 | a rendition the photo lacks returns false and records nothing; otherwise its path is recorded, and a download happens iff the local copy is not current; the disk is `PhotoOutcome`'s, the directories made before a failure when naming raises, and the rendition is current after a completed download |
| PhotoSync.PhotoOutcomeWellFormed | src/sync_photos.py:102-117 | processing a rendition keeps the disk well formed and removes no directory |
| PhotoSync.RenditionPathsMembers | src/sync_photos.py:96-98 | a photo records exactly the paths of the listed renditions it has |
| PhotoSync.ProcessPhotos | src/sync_photos.py:95-99 | the renditions are processed in order until one raises; the disk and the raise are those of `RenditionsOutcome`, and without a raise exactly the photo's recorded paths are added |
| PhotoSync.ProcessListedRendition | src/sync_photos.py:97-98 | one turn of the loop: the disk and the raise after the `k`-th rendition are those of the first `k + 1` renditions |
| PhotoSync.RenditionsWellFormed | src/sync_photos.py:95-99 | processing renditions keeps the disk well formed and removes no directory |
| PhotoSync.AlbumPathsMembers | src/sync_photos.py:140-143 | an album records a path iff one of its photos records it |
| PhotoSync.FirstPhotosPathsSplit | src/sync_photos.py:140 | the paths of an album prefix are those of the prefix before a batch plus those of the batch |
| PhotoSync.AlbumPathsAppend | src/sync_photos.py:139-147 | the paths of two consecutive runs of photos are the union of each run's paths |
| PhotoSync.ProcessBatch | src/sync_photos.py:141-146 | the photos of a batch are processed in order until one raises; the disk and the raise are those of `PhotosOutcome` over the batch, and without a raise exactly its photos' paths are added |
| PhotoSync.ProcessListedPhoto | src/sync_photos.py:142-143 | one turn of the loop: the disk and the raise after the `j`-th photo are those of the first `j + 1` photos |
| PhotoSync.PhotosAppend | src/sync_photos.py:140-146 | processing two consecutive runs of photos is processing the first, then the second on the disk it left |
| PhotoSync.PhotosWellFormed | src/sync_photos.py:140-146 | processing photos keeps the disk well formed and removes no directory |
| PhotoSync.ProcessBatches | src/sync_photos.py:139-147 | batches of `n` photos leave the disk and the raise of `PhotosOutcome` over the album and add the album's paths; with `n = 0` nothing happens |
| PhotoSync.AlbumKeptMembers | src/sync_photos.py:120-147 | `sync_album` records exactly the paths of the listed renditions each photo has, provided the batch size is positive |
| PhotoSync.SyncAlbum | src/sync_photos.py:120-147 | nothing happens without an album, a destination or renditions; a failing `makedirs` or a negative batch size raises; the disk and the raise are those of `AlbumOutcome`, and without a raise the album's paths are recorded |
| PhotoSync.RemoveObsoletePhotos | src/sync_photos.py:153-165 | nothing happens without a destination or kept set; otherwise exactly the unkept regular files below the destination are deleted and reported |
| PhotoSync.PhotoRemovalOutcome | src/sync_photos.py:153-165 | afterwards the regular files below the destination are exactly the kept ones; kept entries, directories and everything outside stay |
| PhotoSync.FirstAlbumsKeptBelow | src/sync_photos.py:174-180 | every path recorded for the listed albums lies below the destination |
| PhotoSync.PhotosKeptBelow | src/sync_photos.py:168-187 | every path `sync_photos` records lies below the destination |
| PhotoSync.SyncAlbums | src/sync_photos.py:173-180 | an album name the library lacks raises; otherwise each album is synced into its own directory and its paths recorded; the disk and the raise are those of `AlbumsOutcome` |
| PhotoSync.SyncListedAlbum | src/sync_photos.py:174-180 | one turn of the loop: the `k`-th album is looked up, raising for an unknown name, and synced into its own directory |
| PhotoSync.SyncPhotos | src/sync_photos.py:168-190 | with the kept set passed through: the disk after the albums is `PassOutcome`'s and the recorded set is the photos' paths; with removal, exactly the unrecorded regular files below the destination are deleted |
| PhotoSync.SyncPhotosAsWritten | src/sync_photos.py:168-190 | as written, the pass downloads nothing; it gets past the albums only when no requested rendition was present, and then removal, receiving the empty set, leaves no regular file below the destination |
| PhotoSync.PhotoAsWritten | src/sync_photos.py:104-113 | as written, a rendition the photo has raises right after naming and fetches nothing; a rendition it lacks is skipped as in the corrected code |
| PhotoSync.PassAsWritten | src/sync_photos.py:112-187 | as written, the album pass fetches nothing, and when it does not raise it recorded nothing and left the disk the corrected pass leaves |
| PhotoSync.AsWrittenRaisesOnPresentRendition | src/sync_photos.py:104-116 | one photo with the requested rendition: as written the album raises and fetches nothing; corrected, it records the path and fetches it unless current |
| PhotoSecondPass.SettledPhotoIdle | src/sync_photos.py:102-117 | a settled rendition is processed without change, download or raise: its month directory exists, no legacy original is left, and its copy has the right size |
| PhotoSecondPass.SettledPhotosIdle | src/sync_photos.py:95-99 | photos whose renditions are all settled are processed without change, download or raise |
| PhotoSecondPass.StepElsewhere | src/sync_photos.py:104-116 | processing a rendition writes no regular file but at its own path, and changes no other file but the legacy original |
| PhotoSecondPass.PhotoStepKeeps | src/sync_photos.py:102-117 | a rendition processed without a raise or a failed download is settled, and every other settled rendition of the album stays settled |
| PhotoSecondPass.RenditionsKeep | src/sync_photos.py:95-99 | processing a photo's renditions without a raise or a failed download settles them and keeps the album's other settled renditions |
| PhotoSecondPass.PhotosKeep | src/sync_photos.py:140-146 | processing photos without a raise or a failed download settles all their renditions and keeps the others |
| PhotoSecondPass.SecondAlbumPassIdle | src/sync_photos.py:120-147 | a second `sync_album` over the disk a first one left changes nothing and downloads nothing, whatever its transfers do, once the first did not raise and every download it started stored its file |

## Left out

- Concurrency. `src/tools.py` is not part of this model. `background` runs each task in a thread pool, and `gather_with_concurrency` awaits them under a semaphore. The model processes each batch's items one after the other.
- Both batch loops pass the item count and the list of jobs to `gather_with_concurrency` as two awaitables rather than spreading the jobs: `gather_with_concurrency(concurrent_workers, __total, __tasks)` at src/sync_drive.py:180 and `gather_with_concurrency(concurrent_workers, total, tasks)` at src/sync_photos.py:145. As written, `gather_with_concurrency` awaits the count, an `int`, and raises `TypeError`. Because `background` submits each job to the thread pool when it is called, the first batch's jobs still run, but `sync_directory` and `sync_album` raise after their first batch, and neither later batches nor removal are reached. The model runs every job of each batch and goes on to removal, as the batching evidently intends.
- A raise ends the pass at the step that raised. In the source, jobs of the same batch that the thread pool has already started run on; the model does not run them.
- The event loop set-up in `sync_directory` and `sync_album` is not modelled.
- Streaming of bytes is not modelled. A completed download stores a file of the reported size (0 when the node reports none). A stream that fails part-way leaves the bytes written so far.
- Time zones are not modelled. `mktime(timetuple())` is modelled as the whole second that contains the remote time, with time zone and daylight saving left out.
- Floating point is not modelled. Times are integers in nanoseconds.
- Case folding is ASCII only. Python's `lower()` also folds non-ASCII letters.
- `DriveFilters.WantedFileAsWritten`: extensions containing regular-expression characters other than '.' are outside its precondition.
- `drive[i]`, the lookup of a node by its listing entry, is not modelled. The model is handed the nodes themselves.
- Names are path components. A name containing '/' or equal to '.', and path strings that `os.path.abspath` would normalise, are not modelled. Neither are symbolic links.
- `DriveSync.DownloadMakesCurrent`: weaker than the intended promise. It requires a remote time from the epoch on, or a whole-second time before it. The counterexample for other times is `DriveSync.DownloadBeforeEpochLooksChanged`.
- `DriveSync.SyncDrive`: its removal guarantee assumes a non-empty drive listing. An empty listing skips removal entirely, because `sync_directory` tests `items` before walking.
- The `local_file_size is None` case of `file_exists` cannot happen, since `getsize` returns an int. It is not modelled.
- `photo_exists` returns `None` for a missing file, which the model treats as false.
- `PhotoNaming.PhotoFileName`: the date stamp `added_date.strftime("%Y-%m-%d_%H-%M-%S")` is a parameter of the photo (`dateStamp`). Its format and its agreement with `year` and `month` are not modelled.
- `photo_wanted` is modelled, but `sync_photos` never calls it.
- `PhotoSync.DownloadPhoto`: a rendition the photo lacks is modelled as failing before the file is opened. `process_photo` never downloads such a rendition.
- `PhotoSync.SyncAlbums`: an album name is joined as relative path components. An absolute album name, which `os.path.join` would put in place of the destination, is not modelled.
- `PhotoSync.SyncPhotosAsWritten`: the `NameError` at src/sync_photos.py:112 is modelled as a raise that leaves the pass, as it does through `process_photos` and the gather. Everything else is as in the corrected pass.
- `DriveSync.FileWanted`, `DriveSync.ProcessFile` and `DriveSync.KeptBy` use the corrected literal suffix test `DriveFilters.WantedFile`, not the regular expression as written. With filter `.txt` the source also downloads and keeps `/dest/notatxt`; the model skips it, and removal then deletes such a file. The test as written is `DriveFilters.WantedFileAsWritten` (see Findings).
- `DriveSync.SecondPassIdle`: needs distinct names within each listed folder, and remote times that read back unchanged from the stamp a download gives (from the epoch on, or whole seconds). It is about the walk alone; the pass with removal is `DriveSync.SecondDrivePassIdle`.
- `DriveSync.SecondDrivePassIdle`: needs the same distinct names and remote times as `DriveSync.SecondPassIdle`, and a non-empty listing for removal to run at all.
- `PhotoSecondPass.SecondAlbumPassIdle`: needs distinct paths for distinct photo and rendition pairs, and no rendition stored where a photo's legacy original would be. It is stated for one `sync_album` with the kept set in scope, not for the whole `sync_photos` pass.
- Configuration parsing, the preparation of the destinations, logging and the iCloud API are not modelled. Their results are parameters: destination, filters, renditions, workers, remove flag, listings and transfer outcomes.

## Findings

| source | as written | input that shows it | evidently intended | confidence | as-written member | corrected member |
|---|---|---|---|---|---|---|
| src/sync_drive.py:23 | the extension goes into a regular expression unescaped, so its '.' matches any character | filter `.txt`, file `/dest/notatxt`: wanted | the extension is a literal, case-insensitive suffix | high; not executed | DriveFilters.WantedFileAsWritten, DriveFilters.AsWrittenDotMatchesAnyCharacter | DriveFilters.WantedFile |
| src/sync_photos.py:104-113, 172, 190 | `process_photo` refers to a `files` that is not in its scope, so the first rendition a photo has raises `NameError` right after it is named; the set created at line 172 is never filled | one photo with the requested rendition: the pass raises after creating the month directory and stores nothing; removal at line 190 is reached only when no requested rendition is present | the kept set is passed to `process_photo`, so every present rendition is recorded, downloaded unless current, and kept by removal | high; not executed | PhotoSync.SyncPhotosAsWritten, PhotoSync.AsWrittenRaisesOnPresentRendition | PhotoSync.SyncPhotos |
