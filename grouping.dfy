/** Bucketing of directory entries by a key, and the destination of every
    bucketed file: the part both organizers share. A bucket map plays the
    role of the organizers' `HashMap<String, Vec<PathBuf>>`. */
module Grouping {
  import opened Outcomes
  import opened Paths

  type Buckets = map<string, seq<Path>>

  /** The errors an organize run reports: the source directory is missing,
      or listing it failed. */
  datatype IoError = NotFound(path: Path) | ListingFailed

  /** The outcome of a successful organize: the target directory, the
      bucket map and the relocations, in the order they are made. */
  datatype Plan = Plan(target: Path, buckets: Buckets, moves: seq<Move>)

  /** `map.entry(key).or_default().push(path)`. */
  function Push(m: Buckets, key: string, path: Path): (r: Buckets)
    ensures r.Keys == m.Keys + {key}
    ensures r[key] == (if key in m then m[key] else []) + [path]
    ensures forall k :: k in m && k != key ==> r[k] == m[k]
  {
    m[key := (if key in m then m[key] else []) + [path]]
  }

  /** The paths of the entries of `s` whose key is `k`, in scan order. */
  function Bucket<T>(s: seq<T>, key: T -> Option<string>, path: T -> Path, k: string): seq<Path>
  {
    if s == [] then []
    else Bucket(s[..|s| - 1], key, path, k)
         + (if key(s[|s| - 1]) == Some(k) then [path(s[|s| - 1])] else [])
  }

  /** The keys some entry of `s` has. */
  function KeysOf<T>(s: seq<T>, key: T -> Option<string>): set<string>
  {
    set i | 0 <= i < |s| && key(s[i]).Some? :: key(s[i]).value
  }

  /** The bucket map that scanning `s` produces: one bucket per key some
      entry has, holding those entries' paths in scan order. Entries without
      a key are skipped. */
  function BucketsOf<T>(s: seq<T>, key: T -> Option<string>, path: T -> Path): Buckets
  {
    map k | k in KeysOf(s, key) :: Bucket(s, key, path, k)
  }

  lemma {:induction false} BucketOfAbsentKey<T>(s: seq<T>, key: T -> Option<string>, path: T -> Path, k: string)
    requires k !in KeysOf(s, key)
    ensures Bucket(s, key, path, k) == []
  {
    if s != [] {
      var t := s[..|s| - 1];
      assert KeysOf(t, key) <= KeysOf(s, key) by {
        forall x | x in KeysOf(t, key) ensures x in KeysOf(s, key) {
          var i :| 0 <= i < |t| && key(t[i]).Some? && key(t[i]).value == x;
          assert s[i] == t[i];
        }
      }
      BucketOfAbsentKey(t, key, path, k);
      assert key(s[|s| - 1]) != Some(k);
    }
  }

  /** Scanning one more entry pushes its path onto the bucket of its key,
      or changes nothing when it has none: the step the organizers' loops
      take. */
  lemma BucketsSnoc<T>(s: seq<T>, e: T, key: T -> Option<string>, path: T -> Path)
    ensures BucketsOf(s + [e], key, path)
            == match key(e)
               case None => BucketsOf(s, key, path)
               case Some(k) => Push(BucketsOf(s, key, path), k, path(e))
  {
    var t := s + [e];
    assert t[..|t| - 1] == s;
    var extra := if key(e).Some? then {key(e).value} else {};
    assert KeysOf(t, key) == KeysOf(s, key) + extra by {
      forall x | x in KeysOf(t, key) ensures x in KeysOf(s, key) + extra {
        var i :| 0 <= i < |t| && key(t[i]).Some? && key(t[i]).value == x;
        if i < |s| {
          assert t[i] == s[i];
        }
      }
      forall x | x in KeysOf(s, key) ensures x in KeysOf(t, key) {
        var i :| 0 <= i < |s| && key(s[i]).Some? && key(s[i]).value == x;
        assert t[i] == s[i];
      }
      if key(e).Some? {
        assert t[|s|] == e;
      }
    }
    var before := BucketsOf(s, key, path);
    var after := BucketsOf(t, key, path);
    match key(e)
    case None =>
      forall k | k in after.Keys ensures after[k] == before[k] {
        assert Bucket(t, key, path, k) == Bucket(s, key, path, k);
      }
    case Some(ek) =>
      var pushed := Push(before, ek, path(e));
      forall k | k in after.Keys ensures after[k] == pushed[k] {
        if k == ek && ek !in KeysOf(s, key) {
          BucketOfAbsentKey(s, key, path, k);
        }
      }
  }

  /** A path is in bucket `k` exactly when some entry with key `k` has it. */
  lemma {:induction false} BucketMembership<T>(s: seq<T>, key: T -> Option<string>, path: T -> Path, k: string, p: Path)
    ensures p in Bucket(s, key, path, k) <==> exists i :: 0 <= i < |s| && key(s[i]) == Some(k) && path(s[i]) == p
  {
    if s != [] {
      var t := s[..|s| - 1];
      BucketMembership(t, key, path, k, p);
      if p in Bucket(s, key, path, k) && p !in Bucket(t, key, path, k) {
        assert key(s[|s| - 1]) == Some(k) && path(s[|s| - 1]) == p;
      }
      if exists i :: 0 <= i < |s| && key(s[i]) == Some(k) && path(s[i]) == p {
        var i :| 0 <= i < |s| && key(s[i]) == Some(k) && path(s[i]) == p;
        if i < |t| {
          assert t[i] == s[i];
        }
      }
    }
  }

  /** No two scanned entries share a path, as in one directory listing. */
  predicate DistinctPaths<T>(s: seq<T>, path: T -> Path)
  {
    forall a, b :: 0 <= a < b < |s| ==> path(s[a]) != path(s[b])
  }

  /** When the scanned paths are distinct (as those of one directory are),
      an entry with a key is in the bucket of that key and in no other, and
      an entry without one is in no bucket. */
  lemma ExactlyOneBucket<T>(s: seq<T>, key: T -> Option<string>, path: T -> Path, i: nat)
    requires i < |s|
    requires DistinctPaths(s, path)
    ensures key(s[i]).Some? ==> key(s[i]).value in BucketsOf(s, key, path)
                                && path(s[i]) in BucketsOf(s, key, path)[key(s[i]).value]
    ensures forall k :: k in BucketsOf(s, key, path) && key(s[i]) != Some(k)
                        ==> path(s[i]) !in BucketsOf(s, key, path)[k]
  {
    if key(s[i]).Some? {
      BucketMembership(s, key, path, key(s[i]).value, path(s[i]));
    }
    forall k | k in BucketsOf(s, key, path) && key(s[i]) != Some(k)
      ensures path(s[i]) !in BucketsOf(s, key, path)[k]
    {
      BucketMembership(s, key, path, k, path(s[i]));
    }
  }

  /** Every bucketed path is the path of a scanned entry carrying that key. */
  lemma BucketedPathsAreScanned<T>(s: seq<T>, key: T -> Option<string>, path: T -> Path, k: string, p: Path)
    requires k in BucketsOf(s, key, path) && p in BucketsOf(s, key, path)[k]
    ensures exists i :: 0 <= i < |s| && key(s[i]) == Some(k) && path(s[i]) == p
  {
    BucketMembership(s, key, path, k, p);
  }

  /** One relocation: the file at `from` goes to `to`. */
  datatype Move = Move(from: Path, to: Path)

  /** Every bucketed path has a file name, as every path a directory
      listing yields does. */
  predicate AllNamed(buckets: Buckets)
  {
    forall k, p :: k in buckets && p in buckets[k] ==> FileName(p).Some?
  }

  /** `target_dir / key / file_name`. */
  function Destination(target: Path, key: string, file: Path): (r: Path)
    requires FileName(file).Some?
    ensures |r| == |target| + 2 && r[..|target|] == target
    ensures r[|target|] == key && FileName(r) == FileName(file)
  {
    Join(Join(target, key), FileName(file).value)
  }

  /** `m` sends a file of one of the buckets in `done` to the folder named
      after that bucket's key under `target`. */
  ghost predicate PlannedFor(target: Path, buckets: Buckets, done: set<string>, m: Move)
    requires AllNamed(buckets)
  {
    exists k :: k in done && k in buckets && m.from in buckets[k] && m.to == Destination(target, k, m.from)
  }

  /** The relocation loop: every file of every bucket, in whatever order the
      map yields its keys, is sent to `target / key / file_name`, and
      nothing else is moved. */
  method PlanMoves(target: Path, buckets: Buckets) returns (moves: seq<Move>)
    requires AllNamed(buckets)
    ensures forall m :: m in moves <==> PlannedFor(target, buckets, buckets.Keys, m)
  {
    moves := [];
    var pending := buckets.Keys;
    while pending != {}
      invariant pending <= buckets.Keys
      invariant forall m :: m in moves <==> PlannedFor(target, buckets, buckets.Keys - pending, m)
      decreases |pending|
    {
      var key :| key in pending;
      var files := buckets[key];
      ghost var done := buckets.Keys - pending;
      for j := 0 to |files|
        invariant forall m :: m in moves <==> (PlannedFor(target, buckets, done, m)
                                               || (m.from in files[..j] && m.to == Destination(target, key, m.from)))
      {
        var newFileDest := Join(target, key);
        newFileDest := Join(newFileDest, FileName(files[j]).value);
        moves := moves + [Move(files[j], newFileDest)];
      }
      pending := pending - {key};
    }
  }
}
