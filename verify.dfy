/** Verification of a ROM file against a parsed catalog (a "dat" file): the
    first catalog game whose ROM has the file's base name is looked up, then
    the sizes and then the MD5 digests are compared, each step stopping with
    an error message. A `Rom` records whether it has been verified. */
module Verification {
  import opened Outcomes
  import opened Paths
  import opened Numerals
  import opened Ascii
  import FileTypes

  datatype GameStatus = Verified | Unverified

  datatype Category = Category(value: string)

  /** A catalog ROM record: its canonical file name, its size as a decimal
      string and its MD5 digest as stored in the catalog. */
  datatype Entry = Entry(name: string, size: string, md5: string)

  datatype Game = Game(category: Category, rom: Entry)

  datatype DatFile = DatFile(games: seq<Game>)

  const NotInCatalogMessage := "Unable to find ROM in dat file"
  const MissingFileMessage := "File does not exist"
  const UnknownConsoleMessage := "Unable to determine console ID"
  const SizeMismatchPrefix := "File sizes don't match "
  const DigestMismatchPrefix := "File hashes don't match "

  predicate StartsWith(s: string, prefix: string)
  {
    |prefix| <= |s| && s[..|prefix|] == prefix
  }

  /** Game `i` is the first, in document order, whose ROM is named `name`. */
  predicate IsFirstNamed(games: seq<Game>, name: string, i: int)
  {
    0 <= i < |games| && games[i].rom.name == name
    && forall j :: 0 <= j < i ==> games[j].rom.name != name
  }

  /** The ROM record of the first game named `name`. */
  function FindRom(games: seq<Game>, name: string): (r: Option<Entry>)
    ensures r.None? <==> forall i :: 0 <= i < |games| ==> games[i].rom.name != name
    ensures r.Some? ==> exists i :: IsFirstNamed(games, name, i) && games[i].rom == r.value
  {
    if games == [] then None
    else if games[0].rom.name == name then
      assert IsFirstNamed(games, name, 0);
      Some(games[0].rom)
    else
      var r := FindRom(games[1..], name);
      if r.Some? then
        var i :| IsFirstNamed(games[1..], name, i) && games[1..][i].rom == r.value;
        assert IsFirstNamed(games, name, i + 1);
        r
      else
        assert forall i :: 1 <= i < |games| ==> games[i].rom.name == games[1..][i - 1].rom.name;
        r
  }

  lemma FirstNamedIsUnique(games: seq<Game>, name: string, i: int, j: int)
    requires IsFirstNamed(games, name, i) && IsFirstNamed(games, name, j)
    ensures i == j
  {
  }

  /** `str::to_lowercase` on the ASCII letters a hex digest is made of. */
  function ToLower(s: string): (r: string)
    ensures |r| == |s|
    ensures forall i :: 0 <= i < |s| ==> !IsUpperAscii(r[i]) && (IsUpperAscii(s[i]) || r[i] == s[i])
    ensures forall i :: 0 <= i < |s| && IsUpperAscii(s[i]) ==> r[i] as int == s[i] as int + 32
  {
    seq(|s|, i requires 0 <= i < |s| => LowerChar(s[i]))
  }

  /** The size of the ROM record that verification would select parses as a
      `u64`; for any other record the code panics. */
  predicate SizeParses(games: seq<Game>, name: string)
  {
    FindRom(games, name).Some? ==> ParseU64(FindRom(games, name).value.size).Some?
  }

  /** What verifying a file with base name `name`, size `fileSize` and
      computed MD5 `digest` against the catalog returns. Every failure is
      one of three: not in the catalog, a size mismatch, a digest mismatch. */
  function VerifyOutcome(games: seq<Game>, name: string, fileSize: nat, digest: string): (r: Result<Unit, string>)
    requires SizeParses(games, name)
    ensures FindRom(games, name).None? ==> r == Err(NotInCatalogMessage)
    ensures r.Err? ==> r.error == NotInCatalogMessage
                       || StartsWith(r.error, SizeMismatchPrefix)
                       || StartsWith(r.error, DigestMismatchPrefix)
  {
    match FindRom(games, name)
    case None => Err(NotInCatalogMessage)
    case Some(rom) =>
      var romSize := ParseU64(rom.size).value;
      if fileSize != romSize then
        Err(SizeMismatchPrefix + Decimal(fileSize) + " " + Decimal(romSize))
      else
        var md5 := ToLower(digest);
        if md5 != rom.md5 then Err(DigestMismatchPrefix + md5 + " " + rom.md5)
        else Ok(Unit)
  }

  /** `verify`: a scan for the first record with the file's base name, then
      the size check, then the digest check. */
  method VerifyFile(dat: DatFile, filePath: Path, fileSize: nat, digest: string) returns (r: Result<Unit, string>)
    requires FileName(filePath).Some?
    requires SizeParses(dat.games, FileName(filePath).value)
    ensures r == VerifyOutcome(dat.games, FileName(filePath).value, fileSize, digest)
  {
    var fileName := FileName(filePath).value;
    var tryRom: Option<Entry> := None;
    for i := 0 to |dat.games|
      invariant tryRom.None?
      invariant FindRom(dat.games, fileName) == FindRom(dat.games[i..], fileName)
    {
      if dat.games[i].rom.name == fileName {
        tryRom := Some(dat.games[i].rom);
        break;
      }
      assert dat.games[i..][1..] == dat.games[i + 1..];
    }

    if tryRom.None? {
      return Err(NotInCatalogMessage);
    }

    var rom := tryRom.value;
    var romSize := ParseU64(rom.size).value;

    if fileSize != romSize {
      return Err(SizeMismatchPrefix + Decimal(fileSize) + " " + Decimal(romSize));
    }

    var md5 := ToLower(digest);

    if md5 != rom.md5 {
      return Err(DigestMismatchPrefix + md5 + " " + rom.md5);
    }

    return Ok(Unit);
  }

  /** Verification succeeds exactly when the first record with the file's
      name has the file's size and a stored digest equal to the lower-cased
      computed one. */
  lemma VerifyOkExactly(games: seq<Game>, name: string, fileSize: nat, digest: string)
    requires SizeParses(games, name)
    ensures VerifyOutcome(games, name, fileSize, digest).Ok?
            <==> exists i :: IsFirstNamed(games, name, i)
                             && ParseU64(games[i].rom.size) == Some(fileSize)
                             && games[i].rom.md5 == ToLower(digest)
  {
    var found := FindRom(games, name);
    if found.Some? {
      var i :| IsFirstNamed(games, name, i) && games[i].rom == found.value;
      forall j | IsFirstNamed(games, name, j) ensures j == i {
        FirstNamedIsUnique(games, name, i, j);
      }
    }
  }

  /** A file whose name no record carries is reported as missing from the
      catalog, whatever its size and digest: neither is examined. */
  lemma UnknownNameIsNotInCatalog(games: seq<Game>, name: string, fileSize: nat, digest: string)
    requires forall i :: 0 <= i < |games| ==> games[i].rom.name != name
    ensures VerifyOutcome(games, name, fileSize, digest) == Err(NotInCatalogMessage)
  {
  }

  /** A size mismatch is reported with both sizes, and the digest is never
      consulted: the outcome is the same for every digest. */
  lemma SizeMismatchSkipsDigest(games: seq<Game>, name: string, fileSize: nat, digest: string, other: string)
    requires SizeParses(games, name)
    requires FindRom(games, name).Some?
    requires ParseU64(FindRom(games, name).value.size) != Some(fileSize)
    ensures VerifyOutcome(games, name, fileSize, digest) == VerifyOutcome(games, name, fileSize, other)
    ensures VerifyOutcome(games, name, fileSize, digest)
            == Err(SizeMismatchPrefix + Decimal(fileSize) + " "
                   + Decimal(ParseU64(FindRom(games, name).value.size).value))
  {
  }

  /** When the first record with the file's name has the file's size, a
      different lower-cased digest fails with a message carrying both
      digests. */
  lemma DigestMismatchReported(games: seq<Game>, name: string, fileSize: nat, digest: string, i: int)
    requires IsFirstNamed(games, name, i)
    requires ParseU64(games[i].rom.size) == Some(fileSize)
    requires ToLower(digest) != games[i].rom.md5
    ensures SizeParses(games, name)
    ensures VerifyOutcome(games, name, fileSize, digest)
            == Err(DigestMismatchPrefix + ToLower(digest) + " " + games[i].rom.md5)
  {
    var j :| IsFirstNamed(games, name, j) && games[j].rom == FindRom(games, name).value;
    FirstNamedIsUnique(games, name, i, j);
  }

  /** The stored digest is compared as written: a record whose digest holds
      an upper-case letter never verifies. */
  lemma UpperCaseStoredDigestNeverMatches(games: seq<Game>, name: string, fileSize: nat, digest: string, i: int)
    requires SizeParses(games, name)
    requires IsFirstNamed(games, name, i)
    requires exists k :: 0 <= k < |games[i].rom.md5| && IsUpperAscii(games[i].rom.md5[k])
    ensures VerifyOutcome(games, name, fileSize, digest).Err?
  {
    VerifyOkExactly(games, name, fileSize, digest);
  }

  /** Lower-casing leaves a string without upper-case letters as it is. */
  lemma LowerCaseIsFixed(s: string)
    requires forall i :: 0 <= i < |s| ==> !IsUpperAscii(s[i])
    ensures ToLower(s) == s
  {
  }

  const ExampleDigest := "d41d8cd98f00b204e9800998ecf8427e"

  /** A one-game catalog: `game.nes`, 131088 bytes. */
  const ExampleCatalog: seq<Game> :=
    [Game(Category("Games"), Entry("game.nes", "131088", ExampleDigest))]

  lemma ExampleDigestIsLowerCase()
    ensures ToLower(ExampleDigest) == ExampleDigest
  {
    LowerCaseIsFixed(ExampleDigest);
  }

  lemma ExampleSizeParses()
    ensures ParseU64("131088") == Some(131088)
  {
    var size := "131088";
    assert size[..1] == "1" && size[..2][..1] == "1";
    assert size[..3][..2] == size[..2] && size[..4][..3] == size[..3];
    assert size[..5][..4] == size[..4] && size[..5] == size[..|size| - 1];
    assert DigitsValue(size[..1]) == 1;
    assert DigitsValue(size[..2]) == 13;
    assert DigitsValue(size[..3]) == 131;
    assert DigitsValue(size[..4]) == 1310;
    assert DigitsValue(size[..5]) == 13108;
  }

  /** The example record verifies a file of that name and size whose
      computed digest is the stored one, and a file with another digest
      fails on the digest. */
  lemma CatalogExample(other: string)
    requires ToLower(other) != ExampleDigest
    ensures SizeParses(ExampleCatalog, "game.nes")
    ensures VerifyOutcome(ExampleCatalog, "game.nes", 131088, ExampleDigest) == Ok(Unit)
    ensures VerifyOutcome(ExampleCatalog, "game.nes", 131088, other)
            == Err(DigestMismatchPrefix + ToLower(other) + " " + ExampleDigest)
  {
    ExampleSizeParses();
    assert IsFirstNamed(ExampleCatalog, "game.nes", 0);
    ExampleDigestIsLowerCase();
    VerifyOkExactly(ExampleCatalog, "game.nes", 131088, ExampleDigest);
    DigestMismatchReported(ExampleCatalog, "game.nes", 131088, other, 0);
  }

  /** What `Rom::new` decides for a path: an error when the path does not
      exist or cannot be classified, otherwise the console it belongs to. */
  function RomConsole(path: Path, exists_: bool, probe: FileTypes.FileProbe): (r: Result<string, string>)
    ensures !exists_ ==> r == Err(MissingFileMessage)
    ensures exists_ && FileTypes.GetConsoleId(path, probe).None? ==> r == Err(UnknownConsoleMessage)
    ensures r.Ok? ==> exists_ && FileTypes.GetConsoleId(path, probe) == Some(r.value)
    ensures r.Ok? ==> FileName(path).Some?
    ensures exists_ && FileTypes.GetConsoleId(path, probe).Some?
            ==> r == Ok(FileTypes.GetConsoleId(path, probe).value)
  {
    if !exists_ then Err(MissingFileMessage)
    else
      var id := FileTypes.GetConsoleId(path, probe);
      if id.None? then Err(UnknownConsoleMessage) else Ok(id.value)
  }

  /** A classified ROM file and whether it has been verified. */
  class Rom {
    const path: Path
    const console: string
    var status: GameStatus

    /** Only classified paths become ROMs, and a classified path has an
        extension, hence a file name for verification to look up. */
    predicate Valid()
    {
      FileName(path).Some?
    }

    constructor (path: Path, console: string)
      requires FileName(path).Some?
      ensures Valid()
      ensures this.path == path && this.console == console && status == Unverified
    {
      this.path := path;
      this.console := console;
      status := Unverified;
    }

    /** `Rom::new`: a fresh, unverified ROM whose console is the classifier's
        answer, or the reason none can be built. */
    static method New(path: Path, exists_: bool, probe: FileTypes.FileProbe) returns (r: Result<Rom, string>)
      ensures r.Err? <==> RomConsole(path, exists_, probe).Err?
      ensures r.Err? ==> r.error == RomConsole(path, exists_, probe).error
      ensures r.Ok? ==> fresh(r.value) && r.value.Valid() && r.value.path == path
                        && r.value.console == RomConsole(path, exists_, probe).value
                        && r.value.status == Unverified
    {
      var console := RomConsole(path, exists_, probe);
      if console.Err? {
        return Err(console.error);
      }
      var rom := new Rom(path, console.value);
      return Ok(rom);
    }

    /** `Rom::verify`: the status becomes `Verified` when verification
        succeeds and is left as it was otherwise, so it is never reset. */
    method Verify(dat: DatFile, fileSize: nat, digest: string)
      requires Valid()
      requires SizeParses(dat.games, FileName(path).value)
      modifies this
      ensures status == if VerifyOutcome(dat.games, FileName(path).value, fileSize, digest).Ok?
                        then Verified else old(status)
      ensures old(status) == Verified ==> status == Verified
    {
      var result := VerifyFile(dat, path, fileSize, digest);
      if result.Ok? {
        status := Verified;
      }
    }
  }
}
