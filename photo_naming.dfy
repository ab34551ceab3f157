/**
 * Naming of the local photo files (src/sync_photos.py, `photo_wanted` and
 * `generate_file_name`).
 *
 * A photo is stored under `<destination>/<year>/<month>/`. The original
 * rendition is named `<date stamp>_<filename>`; every other rendition is
 * named by inserting `__<rendition>` before the last extension of the
 * filename, or by prefixing `<rendition>.` to a filename without a dot.
 * Originals stored under the earlier `<base>__original.<ext>` name are
 * renamed to the current one.
 */
module PhotoNaming {
  import opened Common
  import opened LocalFs
  import opened DriveFilters

  /**
   * A photo as the synchroniser reads it: its `filename`, the year and month
   * of `added_date`, the `added_date.strftime("%Y-%m-%d_%H-%M-%S")` stamp,
   * `mktime(added_date.timetuple())` in whole seconds, and the size of each
   * rendition listed in `versions`. The stamp is taken as given: its format
   * and its agreement with `year` and `month` are not modelled.
   */
  datatype Photo = Photo(filename: string, year: nat, month: nat, dateStamp: string, addedSeconds: int,
                         versions: map<string, nat>)

  /** The rendition stored under the date-stamped name. */
  const Original: string := "original"

  // ---------------------------------------------------------------------
  // photo_wanted
  // ---------------------------------------------------------------------

  /** Some extension ends the filename, ignoring case. */
  function EndsWithAnyExtension(filename: string, extensions: seq<string>): (r: bool)
    ensures r <==> exists i :: 0 <= i < |extensions| && EndsWith(Lower(filename), Lower(extensions[i]))
  {
    if extensions == [] then false
    else
      EndsWithAnyExtension(filename, extensions[..|extensions| - 1]) ||
      EndsWith(Lower(filename), Lower(extensions[|extensions| - 1]))
  }

  /** `photo_wanted`: every photo is wanted without extensions, otherwise those with a listed extension. */
  function PhotoWanted(photo: Photo, extensions: Option<seq<string>>): (r: bool)
    ensures extensions.None? || extensions.value == [] ==> r
    ensures extensions.Some? && extensions.value != [] ==>
              (r <==> exists i :: 0 <= i < |extensions.value| &&
                                 EndsWith(Lower(photo.filename), Lower(extensions.value[i])))
  {
    extensions.None? || extensions.value == [] || EndsWithAnyExtension(photo.filename, extensions.value)
  }

  /** For a named photo, `photo_wanted` gives the drive's extension test on the filename. */
  lemma PhotoWantedAgreesWithDrive(photo: Photo, extensions: Option<seq<string>>)
    requires photo.filename != ""
    ensures PhotoWanted(photo, extensions) == WantedFile(extensions, photo.filename)
  {
  }

  // ---------------------------------------------------------------------
  // Names
  // ---------------------------------------------------------------------

  /**
   * The name of a non-original rendition: `foo.jpg` becomes
   * `foo__medium.jpg`, and a filename without a dot, `foo`, becomes
   * `medium.foo` (what `rsplit(".", 1)`, the insertion and the joins build).
   */
  function RenditionName(filename: string, rendition: string): (name: string)
    ensures '.' !in filename ==> name == rendition + "." + filename
    ensures '.' in filename ==>
              exists i :: 0 <= i < |filename| && filename[i] == '.' && '.' !in filename[i + 1..] &&
                          name == filename[..i] + "__" + rendition + "." + filename[i + 1..]
  {
    match LastIndexOf(filename, '.')
    case Some(i) => filename[..i] + "__" + rendition + "." + filename[i + 1..]
    case None => rendition + "." + filename
  }

  /** The file name of a rendition: date-stamped for the original. */
  function PhotoFileName(photo: Photo, rendition: string): (name: string)
    ensures rendition == Original ==> name == photo.dateStamp + "_" + photo.filename
    ensures rendition != Original ==> name == RenditionName(photo.filename, rendition)
  {
    if rendition == Original then photo.dateStamp + "_" + photo.filename
    else RenditionName(photo.filename, rendition)
  }

  function YearDir(photo: Photo, dest: Path): (p: Path)
    ensures IsStrictPrefix(dest, p)
  {
    dest + [DecimalString(photo.year)]
  }

  function MonthDir(photo: Photo, dest: Path): (p: Path)
    ensures IsStrictPrefix(YearDir(photo, dest), p)
  {
    YearDir(photo, dest) + [DecimalString(photo.month)]
  }

  /** Where a rendition is stored. */
  function PhotoPath(photo: Photo, rendition: string, dest: Path): (p: Path)
    ensures p != [] && Parent(p) == MonthDir(photo, dest)
  {
    MonthDir(photo, dest) + [PhotoFileName(photo, rendition)]
  }

  /** Where an original was stored under the earlier naming. */
  function LegacyPath(photo: Photo, dest: Path): (p: Path)
    ensures p != [] && Parent(p) == MonthDir(photo, dest)
  {
    MonthDir(photo, dest) + [RenditionName(photo.filename, Original)]
  }

  /** Distinct renditions of one photo get distinct names, so they never overwrite each other. */
  lemma RenditionNameInjective(filename: string, r1: string, r2: string)
    requires RenditionName(filename, r1) == RenditionName(filename, r2)
    ensures r1 == r2
  {
    match LastIndexOf(filename, '.')
    case Some(i) =>
      var n1, n2 := RenditionName(filename, r1), RenditionName(filename, r2);
      assert |r1| == |r2|;
      assert r1 == n1[i + 2..i + 2 + |r1|];
      assert r2 == n2[i + 2..i + 2 + |r2|];
    case None =>
      var n1, n2 := RenditionName(filename, r1), RenditionName(filename, r2);
      assert r1 == n1[..|r1|];
      assert |r1| == |r2|;
      assert r2 == n2[..|r2|];
  }

  /** Two non-original renditions of one photo are stored at different paths. */
  lemma RenditionPathsDistinct(photo: Photo, r1: string, r2: string, dest: Path)
    requires r1 != r2 && r1 != Original && r2 != Original
    ensures PhotoPath(photo, r1, dest) != PhotoPath(photo, r2, dest)
  {
    var p1, p2 := PhotoPath(photo, r1, dest), PhotoPath(photo, r2, dest);
    if p1 == p2 {
      assert p1[|p1| - 1] == p2[|p2| - 1];
      RenditionNameInjective(photo.filename, r1, r2);
    }
  }

  /** Photos added in different months are stored in different directories. */
  lemma MonthDirsDistinct(a: Photo, b: Photo, dest: Path)
    requires a.year != b.year || a.month != b.month
    ensures MonthDir(a, dest) != MonthDir(b, dest)
  {
    if MonthDir(a, dest) == MonthDir(b, dest) {
      assert MonthDir(a, dest)[|dest|] == MonthDir(b, dest)[|dest|];
      assert MonthDir(a, dest)[|dest| + 1] == MonthDir(b, dest)[|dest| + 1];
      DecimalStringInjective(a.year, b.year);
      DecimalStringInjective(a.month, b.month);
    }
  }

  lemma RenditionNameExamples()
    ensures RenditionName("foo.jpg", "medium") == "foo__medium.jpg"
    ensures RenditionName("foo", "medium") == "medium.foo"
  {
    assert LastIndexOf("foo.jpg", '.') == Some(3);
    assert "foo.jpg"[..3] == "foo" && "foo.jpg"[4..] == "jpg";
  }

  /** Only the last dot separates the extension. */
  lemma RenditionNameLastDotExample()
    ensures RenditionName("a.b.png", "thumb") == "a.b__thumb.png"
  {
    assert LastIndexOf("a.b.png", '.') == Some(3);
    assert "a.b.png"[..3] == "a.b" && "a.b.png"[4..] == "png";
  }

  // ---------------------------------------------------------------------
  // generate_file_name
  // ---------------------------------------------------------------------

  /**
   * `generate_file_name` raises when `makedirs` meets a regular file on the
   * way to the month directory, or when the legacy original cannot be
   * renamed because a directory stands at the new name.
   */
  predicate NamingRaises(e: map<Path, Entry>, photo: Photo, rendition: string, dest: Path)
  {
    var month := MonthDir(photo, dest);
    !MakeDirsSucceeds(e, month) ||
    (rendition == Original && IsFileAt(WithDirs(e, month), LegacyPath(photo, dest)) &&
     !RenameSucceeds(WithDirs(e, month), LegacyPath(photo, dest), PhotoPath(photo, rendition, dest)))
  }

  /**
   * The disk `generate_file_name` leaves behind when it raises: the
   * directories `makedirs` created before the failure, and no rename.
   */
  function RaisedNaming(e: map<Path, Entry>, photo: Photo, rendition: string, dest: Path): map<Path, Entry>
  {
    var year, month := YearDir(photo, dest), MonthDir(photo, dest);
    if !MakeDirsSucceeds(e, year) then e
    else if !MakeDirsSucceeds(WithDirs(e, year), month) then WithDirs(e, year)
    else WithDirs(e, month)
  }

  /**
   * A naming that raises moves and overwrites nothing: it only adds
   * directories on the way to the month directory, and the disk stays well
   * formed.
   */
  lemma RaisedNamingOnlyAddsDirs(e: map<Path, Entry>, photo: Photo, rendition: string, dest: Path)
    requires WellFormed(e)
    ensures var e' := RaisedNaming(e, photo, rendition, dest);
            WellFormed(e') && DirsKept(e, e') &&
            (forall q :: q in e ==> q in e' && e'[q] == e[q]) &&
            (forall q :: q in e' && q !in e ==> IsPrefix(q, MonthDir(photo, dest)) && e'[q] == Dir)
  {
    var year, month := YearDir(photo, dest), MonthDir(photo, dest);
    WithDirsTwice(e, year, month);
    if MakeDirsSucceeds(e, year) {
      WithDirsWellFormed(e, year);
      forall q | q in Prefixes(year) ensures IsPrefix(q, month)
      {
        assert month[..|year|] == year;
        assert q == month[..|q|];
      }
      if MakeDirsSucceeds(WithDirs(e, year), month) {
        WithDirsWellFormed(WithDirs(e, year), month);
      }
    }
  }

  /** The disk after `generate_file_name` returns normally. */
  function Named(e: map<Path, Entry>, photo: Photo, rendition: string, dest: Path): map<Path, Entry>
  {
    var e1 := WithDirs(e, MonthDir(photo, dest));
    if rendition == Original && IsFileAt(e1, LegacyPath(photo, dest)) then
      Renamed(e1, LegacyPath(photo, dest), PhotoPath(photo, rendition, dest))
    else e1
  }

  /**
   * Naming a rendition creates its month directory, changes no other entry
   * than the legacy original and its new name, and carries a legacy original
   * over to the new name.
   */
  lemma NamedMeans(e: map<Path, Entry>, photo: Photo, rendition: string, dest: Path)
    requires WellFormed(e) && !NamingRaises(e, photo, rendition, dest)
    ensures WellFormed(Named(e, photo, rendition, dest))
    ensures IsDirAt(Named(e, photo, rendition, dest), MonthDir(photo, dest))
    ensures DirsKept(e, Named(e, photo, rendition, dest))
    ensures forall q :: q in e && q != LegacyPath(photo, dest) && q != PhotoPath(photo, rendition, dest) ==>
              q in Named(e, photo, rendition, dest) && Named(e, photo, rendition, dest)[q] == e[q]
    ensures rendition == Original && IsFileAt(e, LegacyPath(photo, dest)) ==>
              Named(e, photo, rendition, dest)[PhotoPath(photo, rendition, dest)] == e[LegacyPath(photo, dest)]
    ensures rendition == Original && IsFileAt(e, LegacyPath(photo, dest)) &&
            LegacyPath(photo, dest) != PhotoPath(photo, rendition, dest) ==>
              LegacyPath(photo, dest) !in Named(e, photo, rendition, dest)
    ensures !(rendition == Original && IsFileAt(e, LegacyPath(photo, dest))) ==>
              Named(e, photo, rendition, dest) == WithDirs(e, MonthDir(photo, dest))
  {
    var month := MonthDir(photo, dest);
    WithDirsWellFormed(e, month);
    var e1 := WithDirs(e, month);
    var legacy, path := LegacyPath(photo, dest), PhotoPath(photo, rendition, dest);
    assert IsFileAt(e1, legacy) <==> IsFileAt(e, legacy);
    if rendition == Original && IsFileAt(e1, legacy) {
      RenamedWellFormed(e1, legacy, path);
      assert path[..|path| - 1] == month;
    }
  }

  /**
   * `generate_file_name`: creates the year and month directories, renames a
   * legacy original, and returns the path of the rendition. `raised` is set
   * where the source raises.
   */
  method GenerateFileName(photo: Photo, rendition: string, dest: Path, disk: LocalDisk) returns (path: Path, raised: bool)
    requires disk.Valid()
    modifies disk
    ensures disk.Valid() && DirsKept(old(disk.entries), disk.entries)
    ensures path == PhotoPath(photo, rendition, dest)
    ensures raised == NamingRaises(old(disk.entries), photo, rendition, dest)
    ensures !raised ==> disk.entries == Named(old(disk.entries), photo, rendition, dest)
    ensures raised ==> disk.entries == RaisedNaming(old(disk.entries), photo, rendition, dest)
  {
    ghost var e0 := disk.entries;
    path := PhotoPath(photo, rendition, dest);
    WithDirsTwice(disk.entries, YearDir(photo, dest), MonthDir(photo, dest));
    var ok := disk.MakeDirs(YearDir(photo, dest));
    if !ok {
      return path, true;
    }
    var fullPath := MonthDir(photo, dest);
    ok := disk.MakeDirs(fullPath);
    if !ok {
      return path, true;
    }
    raised := false;
    if rendition == Original {
      var legacy := fullPath + [RenditionName(photo.filename, rendition)];
      if IsFileAt(disk.entries, legacy) {
        ok := disk.Rename(legacy, path);
        raised := !ok;
      }
    }
  }
}
