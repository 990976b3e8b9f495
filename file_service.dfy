/**
 * The pure helpers and the unique-name search of src/utils/fileService.ts. Dates are
 * their `getTime()` timestamps, `localeCompare` on names is a rank function given by
 * the caller, and the file system's `exists` is membership in a set of taken paths.
 */
module FileService {
  import opened Wrappers
  import ClassEngine

  // ---------------------------------------------------------------------------
  // Strings
  // ---------------------------------------------------------------------------

  /** `toLowerCase`, on ASCII letters. */
  function Lower(s: string): (r: string)
    ensures |r| == |s| && forall i :: 0 <= i < |s| ==> r[i] == ClassEngine.LowerChar(s[i])
  {
    seq(|s|, i requires 0 <= i < |s| => ClassEngine.LowerChar(s[i]))
  }

  /** `c` occurs nowhere in `s` after position `r`. */
  predicate NoneAfter(s: string, c: char, r: int) {
    forall i :: 0 <= i < |s| && r < i ==> s[i] != c
  }

  /** `lastIndexOf(c)`: the last position of `c` in `s`, or -1 when there is none. */
  function LastIndexOf(s: string, c: char): (r: int)
    ensures -1 <= r < |s| && NoneAfter(s, c, r)
    ensures r >= 0 ==> s[r] == c
  {
    if |s| == 0 then -1
    else if s[|s| - 1] == c then |s| - 1
    else LastIndexOf(s[..|s| - 1], c)
  }

  /** The last occurrence is the only one with no occurrence after it. */
  lemma LastIndexOfUnique(s: string, c: char, r: int)
    requires -1 <= r < |s| && NoneAfter(s, c, r) && (r >= 0 ==> s[r] == c)
    ensures LastIndexOf(s, c) == r
  {
    var q := LastIndexOf(s, c);
    assert q <= r by {
      assert q >= 0 ==> s[q] == c;
    }
  }

  /** The last `c` of `a + b` is the last one of `b` when `b` has one, else the last one of `a`. */
  lemma LastIndexOfConcat(a: string, b: string, c: char)
    ensures LastIndexOf(a + b, c) ==
      if LastIndexOf(b, c) >= 0 then |a| + LastIndexOf(b, c) else LastIndexOf(a, c)
  {
    var s := a + b;
    var rb := LastIndexOf(b, c);
    var ra := LastIndexOf(a, c);
    if rb >= 0 {
      assert s[|a| + rb] == b[rb];
      assert forall i :: |a| + rb < i < |s| ==> s[i] == b[i - |a|];
      LastIndexOfUnique(s, c, |a| + rb);
    } else {
      assert forall i :: ra < i < |s| ==> s[i] == if i < |a| then a[i] else b[i - |a|];
      LastIndexOfUnique(s, c, ra);
    }
  }

  /** `${n}`: the decimal digits of `n`. */
  function Decimal(n: nat): (r: string)
    ensures |r| >= 1 && forall i :: 0 <= i < |r| ==> '0' <= r[i] <= '9'
  {
    var digit := ['0' + ((n % 10) as char)];
    if n < 10 then digit else Decimal(n / 10) + digit
  }

  // ---------------------------------------------------------------------------
  // getFileType
  // ---------------------------------------------------------------------------

  /** The `type` of a directory entry. */
  datatype EntryType = Dir | File | Img | Pdf

  const ImageExtensions: seq<string> := [".jpg", ".jpeg", ".png", ".gif", ".bmp", ".webp", ".svg"]

  /** Lower-casing keeps dots where they are and puts none anywhere else. */
  lemma LowerKeepsDots(s: string)
    ensures forall i :: 0 <= i < |s| ==> (Lower(s)[i] == '.' <==> s[i] == '.')
    ensures LastIndexOf(Lower(s), '.') == LastIndexOf(s, '.')
  {
    LastIndexOfUnique(Lower(s), '.', LastIndexOf(s, '.'));
  }

  /**
   * `name.toLowerCase().substring(name.lastIndexOf('.'))`: the lower-cased suffix from
   * the last dot, or the whole lower-cased name (a negative start counts as 0).
   */
  function Extension(name: string): (e: string)
    ensures LastIndexOf(name, '.') >= 0 ==> |e| >= 1 && e[0] == '.' && NoneAfter(e, '.', 0)
    ensures LastIndexOf(name, '.') < 0 ==> e == Lower(name)
  {
    var dot := LastIndexOf(name, '.');
    LowerKeepsDots(name);
    Lower(name)[if dot < 0 then 0 else dot..]
  }

  /** `getFileType`: `img` for the seven image extensions, `pdf` for `.pdf`, else `file`. */
  function GetFileType(name: string): (t: EntryType)
    ensures t != Dir
  {
    var e := Extension(name);
    if e in ImageExtensions then Img else if e == ".pdf" then Pdf else File
  }

  /** Every listed extension starts with a dot. */
  lemma ExtensionsStartWithDot(e: string)
    requires e in ImageExtensions || e == ".pdf"
    ensures |e| >= 1 && e[0] == '.'
  {
  }

  /** A name without a dot is a plain file, since every listed extension starts with one. */
  lemma NoDotIsFile(name: string)
    requires LastIndexOf(name, '.') == -1
    ensures GetFileType(name) == File
  {
    var e := Extension(name);
    if e in ImageExtensions || e == ".pdf" {
      ExtensionsStartWithDot(e);
      assert false;
    }
  }

  /** The type ignores letter case. */
  lemma TypeIgnoresCase(name: string)
    ensures GetFileType(Lower(name)) == GetFileType(name)
  {
    LowerKeepsDots(name);
    LastIndexOfUnique(Lower(name), '.', LastIndexOf(name, '.'));
    assert Lower(Lower(name)) == Lower(name);
  }

  /** A dot followed by no further dot. */
  predicate ExtensionAt(ext: string) {
    |ext| >= 1 && ext[0] == '.' && NoneAfter(ext, '.', 0)
  }

  /** The extension of `stem + ext` is that of `ext`. */
  lemma ExtensionOfSuffix(stem: string, ext: string)
    requires ExtensionAt(ext)
    ensures Extension(stem + ext) == Extension(ext) == Lower(ext)
  {
    LastIndexOfUnique(ext, '.', 0);
    LastIndexOfConcat(stem, ext, '.');
    assert Lower(stem + ext)[|stem|..] == Lower(ext);
  }

  /** The type depends only on the suffix from the last dot: `stem + ext` has the type of `ext`. */
  lemma TypeOfSuffix(stem: string, ext: string)
    requires ExtensionAt(ext)
    ensures GetFileType(stem + ext) == GetFileType(ext)
  {
    ExtensionOfSuffix(stem, ext);
  }

  /** A lower-case extension: a dot, then no further dot and no upper-case letter. */
  predicate PlainExtension(e: string) {
    ExtensionAt(e) && forall i :: 0 <= i < |e| ==> !('A' <= e[i] <= 'Z')
  }

  /** A name ending in a lower-case extension has that extension's type. */
  lemma TypeOfPlainSuffix(stem: string, e: string)
    requires PlainExtension(e)
    ensures GetFileType(stem + e) == if e in ImageExtensions then Img else if e == ".pdf" then Pdf else File
  {
    TypeOfSuffix(stem, e);
    LastIndexOfUnique(e, '.', 0);
    assert Lower(e) == e;
  }

  /** Every name ending in one of the seven image extensions is an image. */
  lemma ImagesAreImages(stem: string, i: int)
    requires 0 <= i < |ImageExtensions|
    ensures GetFileType(stem + ImageExtensions[i]) == Img
  {
    ListedExtensionsPlain(i);
    TypeOfPlainSuffix(stem, ImageExtensions[i]);
  }

  /** Every name ending in `.pdf` is a PDF. */
  lemma PdfsArePdfs(stem: string)
    ensures GetFileType(stem + ".pdf") == Pdf
  {
    ListedExtensionsPlain(0);
    assert ".pdf" !in ImageExtensions;
    TypeOfPlainSuffix(stem, ".pdf");
  }

  /** The listed extensions are lower-case extensions. */
  lemma ListedExtensionsPlain(i: int)
    requires 0 <= i < |ImageExtensions|
    ensures PlainExtension(ImageExtensions[i]) && PlainExtension(".pdf")
  {
    var e := ImageExtensions[i];
    assert e[0] == '.' && forall j :: 1 <= j < |e| ==> 'a' <= e[j] <= 'z';
  }

  // ---------------------------------------------------------------------------
  // sortedFiles
  // ---------------------------------------------------------------------------

  /** A directory entry: its name, type and the `getTime()` of its three dates. */
  datatype Entry = Entry(name: string, kind: EntryType, atime: int, mtime: int, birthtime: int)

  /** `s` is non-decreasing under `key`. */
  predicate SortedBy(s: seq<Entry>, key: Entry -> int) {
    forall i, j :: 0 <= i < j < |s| ==> key(s[i]) <= key(s[j])
  }

  /** The elements of `s` whose key is `k`, in order. */
  function WithKey(s: seq<Entry>, key: Entry -> int, k: int): seq<Entry> {
    if s == [] then [] else (if key(s[0]) == k then [s[0]] else []) + WithKey(s[1..], key, k)
  }

  /** Places `x` before the first element whose key is not below its own. */
  function InsertBy(x: Entry, s: seq<Entry>, key: Entry -> int): (r: seq<Entry>)
    ensures multiset(r) == multiset(s) + multiset{x}
  {
    if s == [] then [x]
    else if key(x) <= key(s[0]) then [x] + s
    else
      assert s == [s[0]] + s[1..];
      [s[0]] + InsertBy(x, s[1..], key)
  }

  /** `Array.prototype.sort` with a comparator `key(a) - key(b)`, which is stable: an insertion sort. */
  function SortBy(s: seq<Entry>, key: Entry -> int): (r: seq<Entry>)
    ensures multiset(r) == multiset(s) && |r| == |s|
  {
    if s == [] then []
    else
      assert s == [s[0]] + s[1..];
      var r := InsertBy(s[0], SortBy(s[1..], key), key);
      assert |r| == |multiset(r)|;
      r
  }

  lemma {:induction false} InsertBySorted(x: Entry, s: seq<Entry>, key: Entry -> int)
    requires SortedBy(s, key)
    ensures SortedBy(InsertBy(x, s, key), key)
  {
    if s != [] && key(x) > key(s[0]) {
      var t := s[1..];
      InsertBySorted(x, t, key);
      InsertByLowerBound(x, t, key, key(s[0]));
      assert InsertBy(x, s, key) == [s[0]] + InsertBy(x, t, key);
    }
  }

  /** A lower bound on the keys of `x` and of `s` bounds the keys after the insertion. */
  lemma {:induction false} InsertByLowerBound(x: Entry, s: seq<Entry>, key: Entry -> int, b: int)
    requires b <= key(x) && forall i :: 0 <= i < |s| ==> b <= key(s[i])
    ensures forall i :: 0 <= i < |InsertBy(x, s, key)| ==> b <= key(InsertBy(x, s, key)[i])
  {
    if s != [] && key(x) > key(s[0]) {
      InsertByLowerBound(x, s[1..], key, b);
    }
  }

  lemma {:induction false} InsertByWithKey(x: Entry, s: seq<Entry>, key: Entry -> int, k: int)
    ensures WithKey(InsertBy(x, s, key), key, k) == (if key(x) == k then [x] else []) + WithKey(s, key, k)
  {
    if s == [] {
      assert WithKey([x], key, k) == (if key(x) == k then [x] else []) + WithKey([], key, k);
    } else if key(x) <= key(s[0]) {
      WithKeyCons(x, s, key, k);
    } else {
      var t := InsertBy(x, s[1..], key);
      assert InsertBy(x, s, key) == [s[0]] + t;
      InsertByWithKey(x, s[1..], key, k);
      WithKeyCons(s[0], t, key, k);
      WithKeyCons(s[0], s[1..], key, k);
      assert [s[0]] + s[1..] == s;
      if key(x) == k {
        assert key(s[0]) != k;
        assert WithKey(s, key, k) == WithKey(s[1..], key, k);
      } else if key(s[0]) == k {
        assert WithKey(t, key, k) == WithKey(s[1..], key, k);
      }
    }
  }

  /** `WithKey` of an element placed in front. */
  lemma WithKeyCons(x: Entry, s: seq<Entry>, key: Entry -> int, k: int)
    ensures WithKey([x] + s, key, k) == (if key(x) == k then [x] else []) + WithKey(s, key, k)
  {
    assert ([x] + s)[0] == x && ([x] + s)[1..] == s;
  }

  /**
   * The sort is a permutation, orders by non-decreasing key, and keeps elements of
   * equal key in their input order.
   */
  lemma {:induction false} SortByCorrect(s: seq<Entry>, key: Entry -> int)
    ensures multiset(SortBy(s, key)) == multiset(s)
    ensures SortedBy(SortBy(s, key), key)
    ensures forall k :: WithKey(SortBy(s, key), key, k) == WithKey(s, key, k)
  {
    if s != [] {
      SortByCorrect(s[1..], key);
      InsertBySorted(s[0], SortBy(s[1..], key), key);
      assert s == [s[0]] + s[1..];
      forall k
        ensures WithKey(SortBy(s, key), key, k) == WithKey(s, key, k)
      {
        InsertByWithKey(s[0], SortBy(s[1..], key), key, k);
      }
    }
  }

  /** `sortType.split('-')`'s first two fields: the text before the first `-` and the field after it. */
  function SortFields(sortType: string): (string, string) {
    var i := IndexOf(sortType, '-');
    if i < 0 then (sortType, "")
    else
      var rest := sortType[i + 1..];
      var j := IndexOf(rest, '-');
      (sortType[..i], if j < 0 then rest else rest[..j])
  }

  /** The first position of `c` in `s`, or -1. */
  function IndexOf(s: string, c: char): (r: int)
    ensures -1 <= r < |s|
    ensures r == -1 <==> c !in s
    ensures r >= 0 ==> s[r] == c && c !in s[..r]
  {
    if |s| == 0 then -1
    else if s[0] == c then 0
    else
      var r := IndexOf(s[1..], c);
      assert r >= 0 ==> s[..r + 1] == [s[0]] + s[1..][..r];
      if r < 0 then -1 else r + 1
  }

  /**
   * The comparator `getSortFunction` picks, as a sort key: names by `rank` (the order
   * `localeCompare` puts them in) or modification times, ascending for `asc` and
   * descending otherwise. Any other field gives no comparator; the default sort then
   * compares the entries' identical string forms and keeps their order, as the constant
   * key does.
   */
  function SortKey(sortType: string, rank: string -> int): Entry -> int {
    var (sortBy, order) := SortFields(sortType);
    var asc := order == "asc";
    if sortBy == "name" then (e: Entry) => if asc then rank(e.name) else -rank(e.name)
    else if sortBy == "mtime" then (e: Entry) => if asc then e.mtime else -e.mtime
    else (e: Entry) => 0
  }

  function Dirs(s: seq<Entry>): (r: seq<Entry>)
    ensures forall i :: 0 <= i < |r| ==> r[i].kind == Dir
  {
    if s == [] then [] else (if s[0].kind == Dir then [s[0]] else []) + Dirs(s[1..])
  }

  function NonDirs(s: seq<Entry>): (r: seq<Entry>)
    ensures forall i :: 0 <= i < |r| ==> r[i].kind != Dir
  {
    if s == [] then [] else (if s[0].kind != Dir then [s[0]] else []) + NonDirs(s[1..])
  }

  lemma {:induction false} SplitMultiset(s: seq<Entry>)
    ensures multiset(Dirs(s)) + multiset(NonDirs(s)) == multiset(s)
  {
    if s != [] {
      SplitMultiset(s[1..]);
      assert s == [s[0]] + s[1..];
    }
  }

  /** `sortedFiles`: the directories, sorted, then the other entries, sorted. */
  function SortedFiles(files: seq<Entry>, sortType: string, rank: string -> int): seq<Entry> {
    var key := SortKey(sortType, rank);
    SortBy(Dirs(files), key) + SortBy(NonDirs(files), key)
  }

  /**
   * `sortedFiles` is a permutation of the listing with every directory before every
   * other entry, and each group sorted by the chosen key, stably.
   */
  lemma SortedFilesCorrect(files: seq<Entry>, sortType: string, rank: string -> int)
    ensures var r := SortedFiles(files, sortType, rank);
      && multiset(r) == multiset(files)
      && (forall i, j :: 0 <= i < j < |r| && r[j].kind == Dir ==> r[i].kind == Dir)
      && SortedBy(r[..|Dirs(files)|], SortKey(sortType, rank))
      && SortedBy(r[|Dirs(files)|..], SortKey(sortType, rank))
      && forall k :: WithKey(r[..|Dirs(files)|], SortKey(sortType, rank), k) == WithKey(Dirs(files), SortKey(sortType, rank), k)
  {
    var key := SortKey(sortType, rank);
    var d := SortBy(Dirs(files), key);
    var n := SortBy(NonDirs(files), key);
    SortByCorrect(Dirs(files), key);
    SortByCorrect(NonDirs(files), key);
    SplitMultiset(files);
    var r := d + n;
    assert r[..|Dirs(files)|] == d && r[|Dirs(files)|..] == n;
    SortKeepsKind(Dirs(files), key, true);
    SortKeepsKind(NonDirs(files), key, false);
    DirsFirst(d, n);
  }

  /** Directories followed by other entries: no directory comes after another entry. */
  lemma DirsFirst(d: seq<Entry>, n: seq<Entry>)
    requires forall i :: 0 <= i < |d| ==> d[i].kind == Dir
    requires forall i :: 0 <= i < |n| ==> n[i].kind != Dir
    ensures forall i, j :: 0 <= i < j < |d + n| && (d + n)[j].kind == Dir ==> (d + n)[i].kind == Dir
  {
  }

  /** Sorting a group of entries that all are, or all are not, directories keeps it so. */
  lemma SortKeepsKind(s: seq<Entry>, key: Entry -> int, dir: bool)
    requires forall i :: 0 <= i < |s| ==> (s[i].kind == Dir <==> dir)
    ensures forall i :: 0 <= i < |SortBy(s, key)| ==> (SortBy(s, key)[i].kind == Dir <==> dir)
  {
    var r := SortBy(s, key);
    forall i | 0 <= i < |r|
      ensures r[i].kind == Dir <==> dir
    {
      assert r[i] in multiset(s);
    }
  }

  // ---------------------------------------------------------------------------
  // getRecentFiles
  // ---------------------------------------------------------------------------

  /** The latest of a file's access, modification and creation times. */
  function Latest(e: Entry): (t: int)
    ensures t >= e.atime && t >= e.mtime && t >= e.birthtime
    ensures t == e.atime || t == e.mtime || t == e.birthtime
  {
    if e.atime >= e.mtime && e.atime >= e.birthtime then e.atime
    else if e.mtime >= e.birthtime then e.mtime
    else e.birthtime
  }

  /** The filter of `getRecentFiles`: the files touched at or after `threshold`, in order. */
  function Recent(files: seq<Entry>, threshold: int): (r: seq<Entry>)
    ensures forall i :: 0 <= i < |r| ==> Latest(r[i]) >= threshold
  {
    if files == [] then []
    else (if Latest(files[0]) >= threshold then [files[0]] else []) + Recent(files[1..], threshold)
  }

  /** `slice(0, limit)`: a negative limit counts back from the end. */
  function SliceTo(s: seq<Entry>, limit: int): (r: seq<Entry>)
    ensures limit >= 0 ==> r == s[..if limit < |s| then limit else |s|]
    ensures limit < 0 ==> r == s[..if |s| + limit > 0 then |s| + limit else 0]
  {
    var end := if limit < 0 then |s| + limit else limit;
    s[..if end < 0 then 0 else if end > |s| then |s| else end]
  }

  /** The sort key of `(a, b) => b.latestTime - a.latestTime`: later times first. */
  function NewestFirst(e: Entry): int {
    -Latest(e)
  }

  const DayMillis := 24 * 60 * 60 * 1000

  /** `timeThreshold`: `day` days before `now`, in milliseconds. */
  function TimeThreshold(now: int, day: int): int {
    now - day * DayMillis
  }

  /**
   * The filter/sort/slice pipeline of `getRecentFiles` on the listing `files` with the
   * `TimeThreshold` of the current time: the files touched at or after `threshold`,
   * newest first, at most `limit`.
   */
  function RecentFiles(files: seq<Entry>, threshold: int, limit: int): seq<Entry> {
    SliceTo(SortBy(Recent(files, threshold), NewestFirst), limit)
  }

  lemma {:induction false} RecentMultiset(files: seq<Entry>, threshold: int)
    ensures multiset(Recent(files, threshold)) <= multiset(files)
  {
    if files != [] {
      RecentMultiset(files[1..], threshold);
      assert files == [files[0]] + files[1..];
    }
  }

  /** The filter keeps every file touched at or after `threshold`, as often as it is listed, and no other. */
  lemma {:induction false} RecentExactly(files: seq<Entry>, threshold: int)
    ensures forall e :: multiset(Recent(files, threshold))[e] == if Latest(e) >= threshold then multiset(files)[e] else 0
  {
    if files != [] {
      RecentExactly(files[1..], threshold);
      assert files == [files[0]] + files[1..];
    }
  }

  /** A prefix of a sorted sequence is sorted and holds no more of anything than the sequence. */
  lemma PrefixOfSorted(s: seq<Entry>, m: nat, key: Entry -> int)
    requires m <= |s| && SortedBy(s, key)
    ensures SortedBy(s[..m], key) && multiset(s[..m]) <= multiset(s)
  {
    assert s == s[..m] + s[m..];
  }

  /**
   * `getRecentFiles` returns only files touched at or after the threshold, each at most
   * as often as it was listed, newest first; with a non-negative limit it returns
   * `limit` of them, or all when there are fewer; and every recent file it leaves
   * out is no newer than every file it returns.
   */
  lemma RecentFilesCorrect(files: seq<Entry>, threshold: int, limit: int)
    ensures var r := RecentFiles(files, threshold, limit);
      && (forall i :: 0 <= i < |r| ==> Latest(r[i]) >= threshold)
      && multiset(r) <= multiset(files)
      && (forall i, j :: 0 <= i < j < |r| ==> Latest(r[i]) >= Latest(r[j]))
      && (limit >= 0 ==> |r| == if limit < |Recent(files, threshold)| then limit else |Recent(files, threshold)|)
      && (forall e, i :: e in multiset(Recent(files, threshold)) - multiset(r) && 0 <= i < |r| ==> Latest(e) <= Latest(r[i]))
  {
    RecentFilesOrdered(files, threshold, limit);
    SliceKeepsNewest(files, threshold, limit);
  }

  /** The returned files are recent, drawn from the listing, newest first, and `limit` of them when there are enough. */
  lemma RecentFilesOrdered(files: seq<Entry>, threshold: int, limit: int)
    ensures var r := RecentFiles(files, threshold, limit);
      && (forall i :: 0 <= i < |r| ==> Latest(r[i]) >= threshold)
      && multiset(r) <= multiset(files)
      && (forall i, j :: 0 <= i < j < |r| ==> Latest(r[i]) >= Latest(r[j]))
      && (limit >= 0 ==> |r| == if limit < |Recent(files, threshold)| then limit else |Recent(files, threshold)|)
  {
    var recent := Recent(files, threshold);
    var sorted := SortBy(recent, NewestFirst);
    SortByCorrect(recent, NewestFirst);
    RecentMultiset(files, threshold);
    var r := RecentFiles(files, threshold, limit);
    assert r == sorted[..|r|];
    PrefixOfSorted(sorted, |r|, NewestFirst);
    SubmultisetRecent(r, recent, threshold);
    NewestFirstOrder(r);
  }

  /** Sorting newest first and slicing leaves out only files no newer than every one kept. */
  lemma SliceKeepsNewest(files: seq<Entry>, threshold: int, limit: int)
    ensures var r := RecentFiles(files, threshold, limit);
      forall e, i :: e in multiset(Recent(files, threshold)) - multiset(r) && 0 <= i < |r| ==> Latest(e) <= Latest(r[i])
  {
    var recent := Recent(files, threshold);
    var sorted := SortBy(recent, NewestFirst);
    SortByCorrect(recent, NewestFirst);
    var r := SliceTo(sorted, limit);
    assert r == sorted[..|r|];
    DroppedNoNewer(sorted, |r|);
  }

  /** What a prefix of a newest-first sequence leaves out is no newer than anything it keeps. */
  lemma DroppedNoNewer(s: seq<Entry>, m: nat)
    requires m <= |s| && SortedBy(s, NewestFirst)
    ensures forall e, i :: e in multiset(s) - multiset(s[..m]) && 0 <= i < m ==> Latest(e) <= Latest(s[i])
  {
    assert s == s[..m] + s[m..];
    assert multiset(s) - multiset(s[..m]) == multiset(s[m..]);
    forall e, i | e in multiset(s) - multiset(s[..m]) && 0 <= i < m
      ensures Latest(e) <= Latest(s[i])
    {
      assert e in s[m..];
      var k :| 0 <= k < |s[m..]| && s[m..][k] == e;
      assert s[m + k] == e;
      assert NewestFirst(s[i]) <= NewestFirst(s[m + k]);
    }
  }

  /** Entries drawn from the recent ones are recent. */
  lemma SubmultisetRecent(r: seq<Entry>, recent: seq<Entry>, threshold: int)
    requires multiset(r) <= multiset(recent)
    requires forall i :: 0 <= i < |recent| ==> Latest(recent[i]) >= threshold
    ensures forall i :: 0 <= i < |r| ==> Latest(r[i]) >= threshold
  {
    forall i | 0 <= i < |r|
      ensures Latest(r[i]) >= threshold
    {
      assert r[i] in multiset(recent);
    }
  }

  /** Sorted by `NewestFirst` means non-increasing latest time. */
  lemma NewestFirstOrder(r: seq<Entry>)
    requires SortedBy(r, NewestFirst)
    ensures forall i, j :: 0 <= i < j < |r| ==> Latest(r[i]) >= Latest(r[j])
  {
    forall i, j | 0 <= i < j < |r|
      ensures Latest(r[i]) >= Latest(r[j])
    {
      assert NewestFirst(r[i]) <= NewestFirst(r[j]);
    }
  }

  // ---------------------------------------------------------------------------
  // generateUniqueFilePath
  // ---------------------------------------------------------------------------

  /** `targetPath ? `${targetPath}/${name}` : name`. */
  function JoinPath(targetPath: string, name: string): string {
    if targetPath != "" then targetPath + "/" + name else name
  }

  /**
   * The `counter`-th candidate name: `stem(counter).ext` when the last dot is neither
   * the first nor the last character, otherwise `fileName(counter)`.
   */
  function CandidateName(fileName: string, counter: nat): string {
    var dot := LastIndexOf(fileName, '.');
    if 0 < dot < |fileName| - 1 then fileName[..dot] + "(" + Decimal(counter) + ")" + fileName[dot..]
    else fileName + "(" + Decimal(counter) + ")"
  }

  function CandidatePath(fileName: string, targetPath: string, counter: nat): string {
    JoinPath(targetPath, CandidateName(fileName, counter))
  }

  /** A renamed duplicate keeps its extension, and so its type. */
  lemma CandidateKeepsType(fileName: string, counter: nat)
    requires 0 < LastIndexOf(fileName, '.') < |fileName| - 1
    ensures GetFileType(CandidateName(fileName, counter)) == GetFileType(fileName)
  {
    var dot := LastIndexOf(fileName, '.');
    LastDotStartsExtension(fileName);
    CandidateSplit(fileName, counter);
    TypeOfRenamed(fileName[..dot], fileName[..dot] + "(" + Decimal(counter) + ")", fileName[dot..]);
  }

  /** A name and its renamed duplicate share the suffix from the last dot. */
  lemma CandidateSplit(fileName: string, counter: nat)
    requires 0 < LastIndexOf(fileName, '.') < |fileName| - 1
    ensures var dot := LastIndexOf(fileName, '.');
      && fileName == fileName[..dot] + fileName[dot..]
      && CandidateName(fileName, counter) == (fileName[..dot] + "(" + Decimal(counter) + ")") + fileName[dot..]
  {
  }

  /** Two names with the same extension after different stems have the same type. */
  lemma TypeOfRenamed(stem: string, renamed: string, ext: string)
    requires ExtensionAt(ext)
    ensures GetFileType(renamed + ext) == GetFileType(stem + ext)
  {
    ExtensionOfSuffix(renamed, ext);
    ExtensionOfSuffix(stem, ext);
  }

  /** The suffix from the last dot is an extension. */
  lemma LastDotStartsExtension(fileName: string)
    requires LastIndexOf(fileName, '.') >= 0
    ensures ExtensionAt(fileName[LastIndexOf(fileName, '.')..])
  {
    var dot := LastIndexOf(fileName, '.');
    var ext := fileName[dot..];
    assert forall i :: 0 <= i < |ext| ==> ext[i] == fileName[dot + i];
  }

  /** The body of the search loop: the path of the `counter`-th renamed duplicate. */
  method NextCandidate(fileName: string, targetPath: string, counter: nat) returns (fullPath: string)
    ensures fullPath == CandidatePath(fileName, targetPath, counter)
  {
    var lastDotIndex := LastIndexOf(fileName, '.');
    if 0 < lastDotIndex < |fileName| - 1 {
      var nameWithoutExt := fileName[..lastDotIndex];
      var ext := fileName[lastDotIndex..];
      var newFileName := nameWithoutExt + "(" + Decimal(counter) + ")" + ext;
      fullPath := JoinPath(targetPath, newFileName);
    } else {
      var newFileName := fileName + "(" + Decimal(counter) + ")";
      fullPath := JoinPath(targetPath, newFileName);
    }
  }

  /** The error `generateUniqueFilePath` throws once the counter passes 9999. */
  const TooManyDuplicates := "no unique file name"

  /** The renamed candidates, numbered from 1. */
  function Candidates(fileName: string, targetPath: string): nat -> string {
    (n: nat) => CandidatePath(fileName, targetPath, n)
  }

  /**
   * The candidates from the `n`-th on: the first free one, or the error once the
   * search passes candidate 9998.
   */
  function SearchFrom(candidate: nat -> string, taken: set<string>, n: nat): Result<string, string>
    requires n >= 1
    decreases 9999 - n
  {
    if n > 9998 then Err(TooManyDuplicates)
    else if candidate(n) !in taken then Ok(candidate(n))
    else SearchFrom(candidate, taken, n + 1)
  }

  /** What `generateUniqueFilePath` yields: the path itself when free, else the search. */
  function UniquePath(fileName: string, targetPath: string, taken: set<string>): Result<string, string> {
    var basePath := JoinPath(targetPath, fileName);
    if basePath !in taken then Ok(basePath) else SearchFrom(Candidates(fileName, targetPath), taken, 1)
  }

  /** `path` is candidate `m` for some `m` from `n` to 9998, all candidates before it from `n` on being taken. */
  predicate FirstFreeFrom(candidate: nat -> string, taken: set<string>, n: nat, path: string) {
    exists m: nat :: n <= m <= 9998 && path == candidate(m)
      && forall k: nat :: n <= k < m ==> candidate(k) in taken
  }

  /**
   * The search from `n` finds the first free candidate `m` with `n <= m <= 9998`, every
   * candidate before it being taken, and fails exactly when all of them are taken.
   */
  lemma {:induction false} SearchFromCorrect(candidate: nat -> string, taken: set<string>, n: nat)
    requires n >= 1
    ensures var r := SearchFrom(candidate, taken, n);
      && (r.Ok? ==> r.value !in taken && FirstFreeFrom(candidate, taken, n, r.value))
      && (r.Err? <==> forall k: nat :: n <= k <= 9998 ==> candidate(k) in taken)
    decreases 9999 - n
  {
    var r := SearchFrom(candidate, taken, n);
    if n <= 9998 {
      if candidate(n) !in taken {
        assert r == Ok(candidate(n));
      } else {
        assert r == SearchFrom(candidate, taken, n + 1);
        SearchFromCorrect(candidate, taken, n + 1);
        if r.Ok? {
          var m: nat :| n + 1 <= m <= 9998 && r.value == candidate(m)
            && forall k: nat :: n + 1 <= k < m ==> candidate(k) in taken;
          assert forall k: nat :: n <= k < m ==> candidate(k) in taken;
        }
      }
    }
  }

  /**
   * The unique path is free; it is the path itself whenever that is free; otherwise it
   * is the first free renamed candidate, numbered 1 to 9998; and the search fails
   * exactly when the path and all 9998 candidates are taken.
   */
  lemma UniquePathCorrect(fileName: string, targetPath: string, taken: set<string>)
    ensures var r := UniquePath(fileName, targetPath, taken);
      && (r.Ok? ==> r.value !in taken)
      && (JoinPath(targetPath, fileName) !in taken ==> r == Ok(JoinPath(targetPath, fileName)))
      && (r.Ok? && JoinPath(targetPath, fileName) in taken ==>
            FirstFreeFrom(Candidates(fileName, targetPath), taken, 1, r.value))
      && (r.Err? <==> (JoinPath(targetPath, fileName) in taken
            && forall n: nat :: 1 <= n <= 9998 ==> CandidatePath(fileName, targetPath, n) in taken))
  {
    var candidate := Candidates(fileName, targetPath);
    SearchFromCorrect(candidate, taken, 1);
    assert forall n: nat :: candidate(n) == CandidatePath(fileName, targetPath, n);
  }

  /**
   * `generateUniqueFilePath` with `exists` answered by `taken`: tries the path, then the
   * candidates `1, 2, ...`, and throws once the counter passes 9999.
   */
  method GenerateUniqueFilePath(fileName: string, targetPath: string, taken: set<string>) returns (r: Result<string, string>)
    ensures r == UniquePath(fileName, targetPath, taken)
  {
    var basePath := JoinPath(targetPath, fileName);
    var fullPath := basePath;
    var counter := 1;
    while fullPath in taken
      invariant 1 <= counter <= 9999
      invariant UniquePath(fileName, targetPath, taken)
        == if fullPath !in taken then Ok(fullPath) else SearchFrom(Candidates(fileName, targetPath), taken, counter)
      decreases 9999 - counter
    {
      fullPath := NextCandidate(fileName, targetPath, counter);
      counter := counter + 1;
      if counter > 9999 {
        return Err(TooManyDuplicates);
      }
    }
    return Ok(fullPath);
  }
}
