/** The older organizer: every entry of the source directory that has an
    extension, directory or not, is bucketed by that extension and sent to
    `target / extension / file_name`. */
module LegacyOrganizer {
  import opened Outcomes
  import opened Paths
  import opened Grouping

  /** The bucketing loop of the older `organize`. */
  method BucketByExtension(entries: seq<Path>) returns (extensionMap: Buckets)
    ensures extensionMap == BucketsOf(entries, Extension, p => p)
  {
    extensionMap := map[];
    for i := 0 to |entries|
      invariant extensionMap == BucketsOf(entries[..i], Extension, p => p)
    {
      var entry := entries[i];
      BucketsSnoc(entries[..i], entry, Extension, p => p);
      assert entries[..i + 1] == entries[..i] + [entry];

      var extension := Extension(entry);
      if extension.None? {
        continue;
      }
      extensionMap := Push(extensionMap, extension.value, entry);
    }
    assert entries[..|entries|] == entries;
  }

  /** The older `organize`: a missing source directory and a failed listing
      are errors; otherwise every entry with an extension is planned to move
      under the target directory, which is `dest` when given and `src`
      otherwise. */
  method Organize(src: Path, dest: Option<Path>, srcExists: bool, listing: Option<seq<Path>>)
    returns (r: Result<Plan, IoError>)
    requires listing.Some? ==> forall p :: p in listing.value ==> FileName(p).Some?
    ensures !srcExists ==> r == Err(NotFound(src))
    ensures srcExists && listing.None? ==> r == Err(ListingFailed)
    ensures srcExists && listing.Some? ==> r.Ok?
    ensures r.Ok? ==> listing.Some?
                      && r.value.target == (if dest.Some? then dest.value else src)
                      && r.value.buckets == BucketsOf(listing.value, Extension, p => p)
                      && AllNamed(r.value.buckets)
                      && forall m :: m in r.value.moves
                                     <==> PlannedFor(r.value.target, r.value.buckets, r.value.buckets.Keys, m)
  {
    var targetDir := if dest.Some? then dest.value else src;

    if !srcExists {
      return Err(NotFound(src));
    }

    if listing.None? {
      return Err(ListingFailed);
    }
    var entries := listing.value;

    var extensionMap := BucketByExtension(entries);

    forall k, p | k in extensionMap && p in extensionMap[k] ensures FileName(p).Some? {
      BucketedPathsAreScanned(entries, Extension, p => p, k, p);
    }
    var moves := PlanMoves(targetDir, extensionMap);
    return Ok(Plan(targetDir, extensionMap, moves));
  }

  /** Bucket keys are the extensions of the paths inside them. */
  lemma BucketKeysAreExtensions(entries: seq<Path>, k: string, p: Path)
    requires k in BucketsOf(entries, Extension, p => p) && p in BucketsOf(entries, Extension, p => p)[k]
    ensures p in entries && Extension(p) == Some(k)
  {
    BucketedPathsAreScanned(entries, Extension, p => p, k, p);
  }

  /** Of distinct paths, one with an extension is in the bucket of that
      extension and no other; one without is in no bucket. */
  lemma EntryInOneBucket(entries: seq<Path>, i: nat)
    requires i < |entries|
    requires DistinctPaths(entries, p => p)
    ensures var b := BucketsOf(entries, Extension, p => p);
            (Extension(entries[i]).Some? ==> Extension(entries[i]).value in b
                                             && entries[i] in b[Extension(entries[i]).value])
            && forall k :: k in b && Extension(entries[i]) != Some(k) ==> entries[i] !in b[k]
  {
    ExactlyOneBucket(entries, Extension, p => p, i);
  }
}
