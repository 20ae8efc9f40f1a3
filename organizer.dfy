/** The organizer: scans the entries of a source directory, buckets them by
    file extension or by console, and sends every bucketed entry to
    `target / key / file_name`. A directory entry is bucketed only when it is
    a directory-level title, under that title's console. */
module Organizer {
  import opened Outcomes
  import opened Paths
  import opened Grouping
  import FileTypes

  datatype SortMethod = Console | FileExtension

  /** One entry of the source directory: its path, whether it is a
      directory, the console a directory-level title check reports for it,
      and what opening it as a file yields. */
  datatype DirEntry = DirEntry(path: Path, isDir: bool, dirRomId: Option<string>, probe: FileTypes.FileProbe)

  /** The bucket key of one entry, absent when the entry is skipped. A file
      is only ever keyed when it has an extension. */
  function EntryKey(e: DirEntry, sortMethod: SortMethod): (r: Option<string>)
    ensures r.Some? && !e.isDir ==> Extension(e.path).Some?
  {
    if e.isDir then e.dirRomId
    else match Extension(e.path)
      case None => None
      case Some(ext) =>
        match sortMethod
        case FileExtension => Some(ext)
        case Console => FileTypes.GetConsoleId(e.path, e.probe)
  }

  function KeyOf(sortMethod: SortMethod): DirEntry -> Option<string>
  {
    e => EntryKey(e, sortMethod)
  }

  function EntryPath(e: DirEntry): Path
  {
    e.path
  }

  /** The bucketing loop of `organize`. */
  method BucketEntries(entries: seq<DirEntry>, sortMethod: SortMethod) returns (outputMap: Buckets)
    ensures outputMap == BucketsOf(entries, KeyOf(sortMethod), EntryPath)
  {
    outputMap := map[];
    for i := 0 to |entries|
      invariant outputMap == BucketsOf(entries[..i], KeyOf(sortMethod), EntryPath)
    {
      var entry := entries[i];
      BucketsSnoc(entries[..i], entry, KeyOf(sortMethod), EntryPath);
      assert entries[..i + 1] == entries[..i] + [entry];

      if entry.isDir {
        if entry.dirRomId.Some? {
          outputMap := Push(outputMap, entry.dirRomId.value, entry.path);
        }
        continue;
      }

      var extension := Extension(entry.path);
      if extension.None? {
        continue;
      }

      var mapKey: string;
      match sortMethod {
        case FileExtension =>
          mapKey := extension.value;
        case Console =>
          var console := FileTypes.GetConsoleId(entry.path, entry.probe);
          if console.None? {
            continue;
          }
          mapKey := console.value;
      }

      outputMap := Push(outputMap, mapKey, entry.path);
    }
    assert entries[..|entries|] == entries;
  }

  /** `organize`: a missing source directory and a failed listing are
      errors; otherwise the entries are bucketed and every bucketed entry is
      planned to move under the target directory, which is `dest` when given
      and `src` otherwise. */
  method Organize(src: Path, dest: Option<Path>, sortMethod: SortMethod, srcExists: bool,
                  listing: Option<seq<DirEntry>>) returns (r: Result<Plan, IoError>)
    requires listing.Some? ==> forall e :: e in listing.value ==> FileName(e.path).Some?
    ensures !srcExists ==> r == Err(NotFound(src))
    ensures srcExists && listing.None? ==> r == Err(ListingFailed)
    ensures srcExists && listing.Some? ==> r.Ok?
    ensures r.Ok? ==> listing.Some?
                      && r.value.target == (if dest.Some? then dest.value else src)
                      && r.value.buckets == BucketsOf(listing.value, KeyOf(sortMethod), EntryPath)
                      && AllNamed(r.value.buckets)
                      && forall m :: m in r.value.moves
                                     <==> PlannedFor(r.value.target, r.value.buckets, r.value.buckets.Keys, m)
  {
    var targetDir := if dest.Some? then dest.value else src;

    if !srcExists {
      return Err(NotFound(src));
    }

    if listing.None? {
      return Err(ListingFailed);
    }
    var entries := listing.value;

    var outputMap := BucketEntries(entries, sortMethod);

    forall k, p | k in outputMap && p in outputMap[k] ensures FileName(p).Some? {
      BucketedPathsAreScanned(entries, KeyOf(sortMethod), EntryPath, k, p);
    }
    var moves := PlanMoves(targetDir, outputMap);
    return Ok(Plan(targetDir, outputMap, moves));
  }

  /** A directory is bucketed under the console of its directory-level
      title and nowhere else, whatever the sort method: never under its
      extension. */
  lemma DirectoriesBucketedByTitleOnly(entries: seq<DirEntry>, sortMethod: SortMethod, i: nat)
    requires i < |entries| && DistinctPaths(entries, EntryPath) && entries[i].isDir
    ensures var b := BucketsOf(entries, KeyOf(sortMethod), EntryPath);
            (entries[i].dirRomId.Some? ==> entries[i].dirRomId.value in b && entries[i].path in b[entries[i].dirRomId.value])
            && forall k :: k in b && entries[i].dirRomId != Some(k) ==> entries[i].path !in b[k]
  {
    ExactlyOneBucket(entries, KeyOf(sortMethod), EntryPath, i);
  }

  /** A file without an extension is in no bucket. */
  lemma ExtensionlessFilesSkipped(entries: seq<DirEntry>, sortMethod: SortMethod, i: nat)
    requires i < |entries| && DistinctPaths(entries, EntryPath)
    requires !entries[i].isDir && Extension(entries[i].path).None?
    ensures var b := BucketsOf(entries, KeyOf(sortMethod), EntryPath);
            forall k :: k in b ==> entries[i].path !in b[k]
  {
    ExactlyOneBucket(entries, KeyOf(sortMethod), EntryPath, i);
  }

  /** Sorting by extension puts a file with an extension in the bucket of
      exactly that extension and in no other. */
  lemma FilesBucketedByExtension(entries: seq<DirEntry>, i: nat)
    requires i < |entries| && DistinctPaths(entries, EntryPath)
    requires !entries[i].isDir && Extension(entries[i].path).Some?
    ensures var b := BucketsOf(entries, KeyOf(FileExtension), EntryPath);
            var ext := Extension(entries[i].path).value;
            ext in b && entries[i].path in b[ext]
            && forall k :: k in b && k != ext ==> entries[i].path !in b[k]
  {
    ExactlyOneBucket(entries, KeyOf(FileExtension), EntryPath, i);
  }

  /** Sorting by console skips a file the classifier cannot place and puts
      every other file in the bucket of its console and in no other. */
  lemma FilesBucketedByConsole(entries: seq<DirEntry>, i: nat)
    requires i < |entries| && DistinctPaths(entries, EntryPath) && !entries[i].isDir
    ensures var b := BucketsOf(entries, KeyOf(Console), EntryPath);
            var id := FileTypes.GetConsoleId(entries[i].path, entries[i].probe);
            (id.Some? ==> id.value in b && entries[i].path in b[id.value])
            && forall k :: k in b && id != Some(k) ==> entries[i].path !in b[k]
  {
    ExactlyOneBucket(entries, KeyOf(Console), EntryPath, i);
    assert EntryKey(entries[i], Console) == FileTypes.GetConsoleId(entries[i].path, entries[i].probe);
  }

  /** An entry that is bucketed under `k` is planned to move to
      `target / k / file_name`. */
  lemma BucketedEntryDestination(entries: seq<DirEntry>, sortMethod: SortMethod, target: Path, i: nat)
    requires i < |entries| && DistinctPaths(entries, EntryPath)
    requires forall e :: e in entries ==> FileName(e.path).Some?
    requires EntryKey(entries[i], sortMethod).Some?
    ensures var b := BucketsOf(entries, KeyOf(sortMethod), EntryPath);
            AllNamed(b)
            && PlannedFor(target, b, b.Keys,
                          Move(entries[i].path, Destination(target, EntryKey(entries[i], sortMethod).value, entries[i].path)))
  {
    var b := BucketsOf(entries, KeyOf(sortMethod), EntryPath);
    forall k, p | k in b && p in b[k] ensures FileName(p).Some? {
      BucketedPathsAreScanned(entries, KeyOf(sortMethod), EntryPath, k, p);
    }
    ExactlyOneBucket(entries, KeyOf(sortMethod), EntryPath, i);
  }
}
