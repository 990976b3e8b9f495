/**
 * The helpers of src/utils/fileSystem.ts that differ from src/utils/fileService.ts:
 * its two-way `getFileType` and the checks and steps of `saveBlobUrlToLocal`. Its
 * `sortedFiles` and `generateUniqueFilePath` are the same code as in fileService.ts
 * and are `FileService.SortedFiles` and `FileService.GenerateUniqueFilePath` here.
 * The file system is a map from paths to contents plus a set of directories.
 */
module FileSystem {
  import opened Wrappers
  import opened FileService
  import ClassEngine

  /** `getFileType`: `img` for the seven image extensions, otherwise `file`. */
  function GetFileType(name: string): (t: EntryType)
    ensures t == Img || t == File
  {
    if Extension(name) in ImageExtensions then Img else File
  }

  /** The two `getFileType`s agree on images; this one calls PDFs plain files. */
  lemma FileTypesAgree(name: string)
    ensures GetFileType(name) == Img <==> FileService.GetFileType(name) == Img
    ensures FileService.GetFileType(name) == Pdf ==> GetFileType(name) == File
  {
  }

  /** `s.trim() === ''`: nothing but white space. */
  predicate Blank(s: string) {
    forall i :: 0 <= i < |s| ==> ClassEngine.IsWhitespace(s[i])
  }

  /** The two input checks of `saveBlobUrlToLocal`: a `blob:` URL and a file name that is not blank. */
  predicate ValidSaveInput(blobUrl: string, fileName: string) {
    |blobUrl| >= 5 && blobUrl[..5] == "blob:" && !Blank(fileName)
  }

  /**
   * The directories `mkdir(path, { recursive: true })` makes sure of: every non-empty
   * prefix of `path` that ends just before a `/`, and `path` itself.
   */
  function DirChain(path: string): (r: set<string>)
    ensures path != "" ==> path in r
    ensures forall k :: 0 < k < |path| && path[k] == '/' ==> path[..k] in r
    ensures forall d :: d in r ==> d != "" && |d| <= |path| && d == path[..|d|]
                                   && (|d| == |path| || path[|d|] == '/')
  {
    assert path[..|path|] == path;
    set k | 0 < k <= |path| && (k == |path| || path[k] == '/') :: path[..k]
  }

  /** The directories and files under the base directory. */
  class LocalFiles {
    var files: map<string, seq<bv8>>
    var dirs: set<string>

    constructor (files: map<string, seq<bv8>>, dirs: set<string>)
      ensures this.files == files && this.dirs == dirs
    {
      this.files := files;
      this.dirs := dirs;
    }

    /** The paths `exists` reports. */
    function Existing(): set<string>
      reads this
    {
      files.Keys + dirs
    }

    /** `exists(targetPath)` is false, so the target directory is created. */
    predicate MustCreate(targetPath: string)
      reads this
    {
      targetPath != "" && targetPath !in Existing()
    }

    /** Creating the target directory fails: it or a directory above it is a file. */
    predicate MkdirFails(targetPath: string)
      reads this
    {
      MustCreate(targetPath) && DirChain(targetPath) * files.Keys != {}
    }

    /**
     * `saveBlobUrlToLocal(blobUrl, fileName, targetPath)`, where `fetched` is the data
     * behind the URL, or `None` when the request failed. It gives up, writing nothing,
     * on a URL not starting with `blob:`, a blank file name, a failed request or empty
     * data. Otherwise it creates a missing target directory with the directories above
     * it, picks a free path as `generateUniqueFilePath` does and writes the data there,
     * or gives up when the directory cannot be made or no name is free.
     */
    method SaveBlobUrlToLocal(blobUrl: string, fileName: string, targetPath: string, fetched: Option<seq<bv8>>)
      returns (saved: Option<string>)
      modifies this
      ensures !ValidSaveInput(blobUrl, fileName) || fetched.None? || |fetched.value| == 0 ==>
        saved == None && files == old(files) && dirs == old(dirs)
      ensures ValidSaveInput(blobUrl, fileName) && fetched.Some? && |fetched.value| > 0 ==>
        dirs == old(dirs) + (if old(MustCreate(targetPath)) && !old(MkdirFails(targetPath)) then DirChain(targetPath) else {})
      ensures saved.None? ==> files == old(files)
      ensures saved.Some? ==>
        && fetched.Some? && !old(MkdirFails(targetPath))
        && Ok(saved.value) == UniquePath(fileName, targetPath, old(files).Keys + dirs)
        && saved.value !in old(files).Keys + dirs
        && files == old(files)[saved.value := fetched.value]
      ensures ValidSaveInput(blobUrl, fileName) && fetched.Some? && |fetched.value| > 0 ==>
        (saved.None? <==> (old(MkdirFails(targetPath)) || (JoinPath(targetPath, fileName) in old(files).Keys + dirs
          && forall n :: 1 <= n <= 9998 ==> CandidatePath(fileName, targetPath, n) in old(files).Keys + dirs)))
    {
      if !(|blobUrl| >= 5 && blobUrl[..5] == "blob:") {
        return None;
      }
      if Blank(fileName) {
        return None;
      }
      if fetched.None? {
        return None;
      }
      var data := fetched.value;
      if |data| == 0 {
        return None;
      }
      saved := WriteUnique(data, fileName, targetPath);
    }

    /**
     * `if (targetPath)`, `exists` and `mkdir(targetPath, { recursive: true })`: a named,
     * missing target directory is created with every missing directory above it; this
     * fails, changing nothing, when one of them is already a file.
     */
    method EnsureDir(targetPath: string) returns (made: bool)
      modifies this
      ensures made <==> !old(MkdirFails(targetPath))
      ensures files == old(files)
      ensures dirs == old(dirs) + (if made && old(MustCreate(targetPath)) then DirChain(targetPath) else {})
    {
      made := true;
      if targetPath != "" {
        var dirExists := targetPath in files.Keys + dirs;
        if !dirExists {
          var chain := DirChain(targetPath);
          if chain * files.Keys != {} {
            return false;
          }
          dirs := dirs + chain;
        }
      }
    }

    /**
     * The steps of `saveBlobUrlToLocal` after its checks: creates a missing target
     * directory and every missing directory above it, picks a free path as
     * `generateUniqueFilePath` does and writes `data` there. It gives up, changing
     * nothing, when a directory to be made is already a file, and writes nothing when
     * no name is free.
     */
    method WriteUnique(data: seq<bv8>, fileName: string, targetPath: string) returns (saved: Option<string>)
      modifies this
      ensures old(MkdirFails(targetPath)) ==> saved == None && files == old(files) && dirs == old(dirs)
      ensures !old(MkdirFails(targetPath)) ==>
        dirs == old(dirs) + (if old(MustCreate(targetPath)) then DirChain(targetPath) else {})
      ensures saved.None? ==> files == old(files)
      ensures saved.Some? ==>
        && Ok(saved.value) == UniquePath(fileName, targetPath, old(files).Keys + dirs)
        && saved.value !in old(files).Keys + dirs
        && files == old(files)[saved.value := data]
      ensures saved.None? <==> (old(MkdirFails(targetPath)) || (JoinPath(targetPath, fileName) in old(files).Keys + dirs
        && forall n :: 1 <= n <= 9998 ==> CandidatePath(fileName, targetPath, n) in old(files).Keys + dirs))
    {
      var made := EnsureDir(targetPath);
      if !made {
        return None;
      }
      var fullPath := GenerateUniqueFilePath(fileName, targetPath, files.Keys + dirs);
      UniquePathCorrect(fileName, targetPath, files.Keys + dirs);
      if fullPath.Err? {
        return None;
      }
      files := files[fullPath.value := data];
      return Some(fullPath.value);
    }
  }
}
