/**
 * The drive synchroniser's filter policy (src/sync_drive.py, lines 17-62):
 * which files are wanted by their extension, which folders are descended
 * into, and in which folders files are considered at all.
 *
 * Each filter is a list searched in order with an early return; the search
 * is a recursive function here, and its contract gives the same answer as an
 * existential over the list.
 */
module DriveFilters {
  import opened Common

  // ---------------------------------------------------------------------
  // wanted_file
  // ---------------------------------------------------------------------

  /** The search over the extension list for one that ends the path, ignoring case. */
  function AnyExtensionMatches(exts: seq<string>, filePath: string): (r: bool)
    ensures r <==> exists i :: 0 <= i < |exts| && EndsWithIgnoreCase(filePath, exts[i])
  {
    if exts == [] then false
    else EndsWithIgnoreCase(filePath, exts[0]) || AnyExtensionMatches(exts[1..], filePath)
  }

  /**
   * `wanted_file(filters, file_path)`: an empty path is never wanted, an
   * absent or empty extension list wants everything, and otherwise the path
   * must end with one of the extensions, ignoring case. Each extension is
   * taken literally, which is what the source evidently means (see
   * WantedFileAsWritten for what its regular expression does instead).
   */
  function WantedFile(filters: Option<seq<string>>, filePath: string): (r: bool)
    ensures filePath == "" ==> !r
    ensures filePath != "" && (filters.None? || filters.value == []) ==> r
    ensures filePath != "" && filters.Some? && filters.value != [] ==>
              (r <==> exists e :: e in filters.value && EndsWithIgnoreCase(filePath, e))
  {
    if filePath == "" then false
    else if filters.None? || |filters.value| == 0 then true
    else AnyExtensionMatches(filters.value, filePath)
  }

  /** The ASCII case folding used by the filter is idempotent. */
  lemma LowerIdempotent(s: string)
    ensures Lower(Lower(s)) == Lower(s)
  {
  }

  /** Whether a file is wanted does not depend on the case of its path. */
  lemma WantedFileIgnoresCase(filters: Option<seq<string>>, filePath: string)
    ensures WantedFile(filters, Lower(filePath)) == WantedFile(filters, filePath)
  {
    LowerIdempotent(filePath);
    if filePath != "" && filters.Some? && filters.value != [] {
      forall e | e in filters.value
        ensures EndsWithIgnoreCase(Lower(filePath), e) == EndsWithIgnoreCase(filePath, e)
      {
      }
    }
  }

  /** A file in upper case matches a lower-case extension; another extension does not match. */
  lemma WantedFileExamples()
    ensures WantedFile(Some([".txt"]), "a/b/FILE.TXT")
    ensures !WantedFile(Some([".txt"]), "a/b/file.md")
    ensures WantedFile(None, "a/b/file.md") && WantedFile(Some([]), "a/b/file.md")
  {
    assert EndsWithIgnoreCase("a/b/FILE.TXT", ".txt") by {
      assert Lower("a/b/FILE.TXT")[8..] == ".txt";
    }
    assert !EndsWithIgnoreCase("a/b/file.md", ".txt") by {
      assert Lower("a/b/file.md")[7..][0] == 'e';
    }
  }

  // ---------------------------------------------------------------------
  // wanted_file as written: `re.search(f"{file_extension}$", file_path, re.IGNORECASE)`
  // ---------------------------------------------------------------------

  /** Characters that would make an extension a different regular expression; '.' is handled. */
  predicate IsRegexSpecial(c: char)
  {
    c in "\\^$*+?{}[]|()"
  }

  predicate PlainPattern(ext: string)
  {
    forall i :: 0 <= i < |ext| ==> !IsRegexSpecial(ext[i])
  }

  /** One pattern character against one text character: '.' is any character but a newline. */
  predicate PatternCharMatches(p: char, c: char)
  {
    if p == '.' then c != '\n' else LowerChar(p) == LowerChar(c)
  }

  /** The pattern matches the text of the same length, character by character. */
  predicate PatternMatches(pattern: string, text: string)
  {
    |pattern| == |text| &&
    forall i :: 0 <= i < |text| ==> PatternCharMatches(pattern[i], text[i])
  }

  /** `re.search(pattern + "$", text)`: `$` matches at the end, or just before a final newline. */
  predicate RegexEndMatch(pattern: string, text: string)
  {
    (|pattern| <= |text| && PatternMatches(pattern, text[|text| - |pattern|..])) ||
    (|text| > 0 && text[|text| - 1] == '\n' && |pattern| <= |text| - 1 &&
     PatternMatches(pattern, text[|text| - 1 - |pattern|..|text| - 1]))
  }

  function AnyPatternMatches(exts: seq<string>, filePath: string): (r: bool)
    ensures r <==> exists i :: 0 <= i < |exts| && RegexEndMatch(exts[i], filePath)
  {
    if exts == [] then false
    else RegexEndMatch(exts[0], filePath) || AnyPatternMatches(exts[1..], filePath)
  }

  /**
   * `wanted_file` exactly as written: the extension is put into a regular
   * expression unescaped, so its '.' matches any character. Extensions with
   * other special characters are outside this model.
   */
  function WantedFileAsWritten(filters: Option<seq<string>>, filePath: string): (r: bool)
    requires filters.Some? ==> forall e :: e in filters.value ==> PlainPattern(e)
    ensures filePath == "" ==> !r
    ensures filePath != "" && (filters.None? || filters.value == []) ==> r
    ensures filePath != "" && filters.Some? && filters.value != [] ==>
              (r <==> exists e :: e in filters.value && RegexEndMatch(e, filePath))
  {
    if filePath == "" then false
    else if filters.None? || |filters.value| == 0 then true
    else AnyPatternMatches(filters.value, filePath)
  }

  /** A literal match is also a regular-expression match: the source never rejects what the intended test accepts. */
  lemma WantedFileWithinAsWritten(filters: Option<seq<string>>, filePath: string)
    requires filters.Some? ==> forall e :: e in filters.value ==> PlainPattern(e)
    ensures WantedFile(filters, filePath) ==> WantedFileAsWritten(filters, filePath)
  {
    if WantedFile(filters, filePath) && filePath != "" && filters.Some? && filters.value != [] {
      var e :| e in filters.value && EndsWithIgnoreCase(filePath, e);
      var tail := filePath[|filePath| - |e|..];
      assert Lower(filePath)[|filePath| - |e|..] == Lower(tail);
      forall i | 0 <= i < |tail| ensures PatternCharMatches(e[i], tail[i])
      {
        assert Lower(tail)[i] == Lower(e)[i];
        if e[i] == '.' {
          assert LowerChar(tail[i]) == '.';
        }
      }
      assert RegexEndMatch(e, filePath);
    }
  }

  /** The discrepancy: ".txt" as written accepts a name that merely ends in "txt" after any character. */
  lemma AsWrittenDotMatchesAnyCharacter()
    ensures WantedFileAsWritten(Some([".txt"]), "/dest/notatxt")
    ensures !WantedFile(Some([".txt"]), "/dest/notatxt")
  {
    var path := "/dest/notatxt";
    assert PlainPattern(".txt");
    assert path[|path| - 4..] == "atxt";
    assert PatternMatches(".txt", "atxt");
    assert RegexEndMatch(".txt", path);
    assert Lower(path)[|path| - 4..][0] == 'a';
    assert !EndsWithIgnoreCase(path, ".txt");
  }

  // ---------------------------------------------------------------------
  // wanted_folder and wanted_parent_folder
  // ---------------------------------------------------------------------

  /** The remainder of a filter once one leading and one trailing '/' are stripped. */
  function StrippedFilter(folder: string): string
  {
    RemoveSuffixChar(RemovePrefixChar(folder, '/'), '/')
  }

  /**
   * The path a folder filter names:
   * `Path(os.path.join(os.path.abspath(root), folder.removeprefix("/").removesuffix("/")))`.
   * `os.path.join` drops the root when the remainder still starts with '/'.
   */
  function FilterFolderPath(root: Path, folder: string): (p: Path)
    ensures var rel := StrippedFilter(folder);
            if |rel| > 0 && rel[0] == '/' then forall c :: c in p ==> IsComponent(c)
            else IsPrefix(root, p) && forall c :: c in p[|root|..] ==> IsComponent(c)
  {
    var rel := StrippedFilter(folder);
    if |rel| > 0 && rel[0] == '/' then Components(rel) else root + Components(rel)
  }

  /** A filter that is a plain folder name names that folder directly below the root. */
  lemma FilterFolderPathOfName(root: Path, name: string)
    requires IsComponent(name)
    ensures FilterFolderPath(root, name) == root + [name]
  {
    ComponentsOfName(name);
  }

  /** One leading and one trailing '/' do not change the folder a filter names. */
  lemma FilterFolderPathSlashes(root: Path, folder: string)
    requires !(|folder| > 0 && folder[0] == '/') && !(|folder| > 0 && folder[|folder| - 1] == '/')
    ensures FilterFolderPath(root, "/" + folder) == FilterFolderPath(root, folder)
    ensures FilterFolderPath(root, folder + "/") == FilterFolderPath(root, folder)
    ensures FilterFolderPath(root, "/" + folder + "/") == FilterFolderPath(root, folder)
  {
    assert StrippedFilter(folder) == folder;
    assert StrippedFilter("/" + folder) == folder by {
      assert ("/" + folder)[1..] == folder;
    }
    assert StrippedFilter("/" + folder + "/") == folder by {
      assert ("/" + folder + "/")[1..] == folder + "/";
      assert (folder + "/")[..|folder|] == folder;
    }
    assert StrippedFilter(folder + "/") == folder by {
      if folder != [] {
        assert (folder + "/")[0] == folder[0];
        assert (folder + "/")[..|folder|] == folder;
      }
    }
  }

  /**
   * When the stripped filter still starts with '/', `os.path.join` drops the
   * root: the filter names the same path whatever the root.
   */
  lemma FilterFolderPathIgnoresRoot(root: Path, other: Path, folder: string)
    requires var rel := StrippedFilter(folder); |rel| > 0 && rel[0] == '/'
    ensures FilterFolderPath(root, folder) == FilterFolderPath(other, folder)
  {
  }

  /** A second leading '/' survives the stripping, so `//name` names `/name` whatever the root. */
  lemma FilterFolderPathDoubleSlash(root: Path, name: string)
    requires IsComponent(name)
    ensures FilterFolderPath(root, "//" + name) == [name]
  {
    var rel := "/" + name;
    assert ("//" + name)[1..] == rel;
    assert rel[|rel| - 1] == name[|name| - 1];
    assert StrippedFilter("//" + name) == rel;
    assert IndexOf(rel, '/') == 0;
    assert rel[1..] == name;
    ComponentsOfName(name);
    assert rel[..0] == "";
  }

  /** The two paths are equal or one is a parent of the other. */
  predicate OnOneBranch(a: Path, b: Path)
  {
    IsStrictPrefix(a, b) || IsStrictPrefix(b, a) || a == b
  }

  function AnyFolderOnBranch(folders: seq<string>, root: Path, candidate: Path): (r: bool)
    ensures r <==> exists i :: 0 <= i < |folders| && OnOneBranch(candidate, FilterFolderPath(root, folders[i]))
  {
    if folders == [] then false
    else OnOneBranch(candidate, FilterFolderPath(root, folders[0])) ||
         AnyFolderOnBranch(folders[1..], root, candidate)
  }

  /**
   * `wanted_folder(filters, root, folder_path)`: permissive when any input
   * is missing or empty; otherwise the folder must be a configured folder, a
   * parent of one (so the traversal can reach it) or inside one.
   */
  function WantedFolder(filters: Option<seq<string>>, root: Option<Path>, folderPath: Option<Path>): (r: bool)
    ensures filters.None? || filters.value == [] || root.None? || folderPath.None? ==> r
    ensures filters.Some? && filters.value != [] && root.Some? && folderPath.Some? ==>
              (r <==> exists f :: f in filters.value &&
                        OnOneBranch(folderPath.value, FilterFolderPath(root.value, f)))
  {
    if filters.None? || folderPath.None? || root.None? || |filters.value| == 0 then true
    else AnyFolderOnBranch(filters.value, root.value, folderPath.value)
  }

  function AnyFolderContains(folders: seq<string>, root: Path, candidate: Path): (r: bool)
    ensures r <==> exists i :: 0 <= i < |folders| && IsPrefix(FilterFolderPath(root, folders[i]), candidate)
  {
    if folders == [] then false
    else IsPrefix(FilterFolderPath(root, folders[0]), candidate) ||
         AnyFolderContains(folders[1..], root, candidate)
  }

  /**
   * `wanted_parent_folder(filters, root, folder_path)`: permissive when any
   * input is missing or empty; otherwise the folder must be a configured
   * folder or lie inside one.
   */
  function WantedParentFolder(filters: Option<seq<string>>, root: Option<Path>, folderPath: Option<Path>): (r: bool)
    ensures filters.None? || filters.value == [] || root.None? || folderPath.None? ==> r
    ensures filters.Some? && filters.value != [] && root.Some? && folderPath.Some? ==>
              (r <==> exists f :: f in filters.value &&
                        IsPrefix(FilterFolderPath(root.value, f), folderPath.value))
  {
    if filters.None? || folderPath.None? || root.None? || |filters.value| == 0 then true
    else AnyFolderContains(filters.value, root.value, folderPath.value)
  }

  /** The one-way test is stricter: a folder whose files are wanted is itself wanted. */
  lemma WantedParentImpliesWanted(filters: Option<seq<string>>, root: Option<Path>, folderPath: Option<Path>)
    ensures WantedParentFolder(filters, root, folderPath) ==> WantedFolder(filters, root, folderPath)
  {
    if WantedParentFolder(filters, root, folderPath) && filters.Some? && filters.value != [] && root.Some? && folderPath.Some? {
      var f :| f in filters.value && IsPrefix(FilterFolderPath(root.value, f), folderPath.value);
      assert OnOneBranch(folderPath.value, FilterFolderPath(root.value, f));
    }
  }

  /** Once inside a configured folder, every deeper folder is inside it too. */
  lemma WantedParentInherited(filters: Option<seq<string>>, root: Option<Path>, folder: Path, name: string)
    requires WantedParentFolder(filters, root, Some(folder))
    ensures WantedParentFolder(filters, root, Some(folder + [name]))
  {
    if filters.Some? && filters.value != [] && root.Some? {
      var f :| f in filters.value && IsPrefix(FilterFolderPath(root.value, f), folder);
      PrefixOfChild(FilterFolderPath(root.value, f), folder, name);
    }
  }

  lemma PrefixOfChild(a: Path, folder: Path, name: string)
    requires IsPrefix(a, folder)
    ensures IsPrefix(a, folder + [name])
  {
    assert (folder + [name])[..|a|] == folder[..|a|];
  }

  /** A parent of a configured folder is descended into, but its own files are not wanted. */
  lemma AncestorOnlyFolder(filters: seq<string>, root: Path, folder: Path)
    requires filters != []
    requires forall f :: f in filters ==> IsStrictPrefix(folder, FilterFolderPath(root, f))
    ensures WantedFolder(Some(filters), Some(root), Some(folder))
    ensures !WantedParentFolder(Some(filters), Some(root), Some(folder))
  {
    assert OnOneBranch(folder, FilterFolderPath(root, filters[0]));
  }

  /** With the folder filter ["Photos"] and root /dest: /dest/Photos/2024 is wanted, /dest/Docs is not. */
  lemma WantedFolderExamples()
    ensures WantedFolder(Some(["Photos"]), Some(["dest"]), Some(["dest", "Photos", "2024"]))
    ensures !WantedFolder(Some(["Photos"]), Some(["dest"]), Some(["dest", "Docs"]))
    ensures WantedFolder(Some(["/Photos/"]), Some(["dest"]), Some(["dest"]))
  {
    PhotosFilterPath();
    assert ["dest", "Photos", "2024"][..2] == ["dest", "Photos"];
    assert ["dest", "Photos"][..1] == ["dest"];
  }

  /** The filter "Photos" names the same folder with or without its slashes. */
  lemma PhotosFilterPath()
    ensures FilterFolderPath(["dest"], "Photos") == ["dest", "Photos"]
    ensures FilterFolderPath(["dest"], "/Photos/") == ["dest", "Photos"]
  {
    ComponentsOfName("Photos");
    assert StrippedFilter("/Photos/") == "Photos";
  }
}
