# rusty-rom-manager core, modelled in Dafny

This project models the core of a ROM manager: a console classifier, a catalog verifier and a directory organizer.

- **Console classifier** (`src/organizer/file_types.rs`). A fixed, case-sensitive extension table maps extensions to console names. A `.iso` image is instead fingerprinted: its first 0xF000 bytes are compared against fixed byte patterns at fixed offsets, in the order Wii, GameCube, PlayStation 2, PSP. The PlayStation 2 check first masks every byte with `0x0F`.
- **Catalog verifier** (`src/verify/mod.rs`). It takes a parsed catalog ("dat" file) and finds the first game whose ROM has the file's base name. It then compares the sizes and then the lower-cased MD5 digest, and stops at the first failure with an error message. A `Rom` is created only for a path that exists and can be classified. It starts `Unverified` and becomes `Verified` when a verification succeeds.
- **Organizer** (`src/organizer/mod.rs`, and the older `src/organizer.rs`). Directory entries are sorted into buckets keyed by extension or console. Every bucketed entry is then sent to `target / key / file_name`.

Modules:

| file | module | models |
|---|---|---|
| `outcomes.dfy` | `Outcomes` | `Option`, `Result`, the unit value |
| `ascii.dfy` | `Ascii` | ASCII letter case, shared by the extension table and digest lower-casing |
| `paths.dfy` | `Paths` | `Path` as normal components; `file_name`, `extension`, `push` |
| `file_types.dfy` | `FileTypes` | signature constants, extension table, fingerprinting, `get_console_id` |
| `numerals.dfy` | `Numerals` | `u64` parsing (`str::parse`) and `Display` |
| `verify.dfy` | `Verification` | catalog records, `verify`, `Rom` (a class with a mutable status) |
| `grouping.dfy` | `Grouping` | the bucket map shared by both organizers, and the relocation loop |
| `organizer.dfy` | `Organizer` | `organize` of `src/organizer/mod.rs` |
| `organizer_legacy.dfy` | `LegacyOrganizer` | `organize` of `src/organizer.rs` |

Inputs that stand in for I/O:

- `FileProbe` stands for opening a file. It is either `CannotOpen`, or `Opened(size, buffer)`: the metadata size plus the 0xF000-byte header buffer as it is after the read.
- `exists_` and `srcExists` stand for `Path::exists`.
- A directory listing is an `Option<seq<...>>`, where `None` means `read_dir` failed.
- The MD5 of a file is an opaque string argument.
- A file's size is a `nat`.
- The answer of the directory-level title check is the `dirRomId` field of a directory entry.

The verifying functions `verify` and `Rom::verify` and both `organize` loops are imperative methods. Each is proved against a specification function: `VerifyOutcome`, `BucketsOf`, or `PlannedFor`. The properties are proved about those functions.

In these places the model follows the code as written rather than what one might expect:

- the extension match is case-sensitive (`"GB"` is unknown);
- there is no `Failed` status, and a failed verification leaves the status as it was;
- the stored MD5 is compared exactly as written (only the computed digest is lower-cased), so a stored digest with upper-case hex never matches;
- a non-numeric catalog size makes the code panic. Here it is a precondition (`SizeParses`), and it applies only to the record that verification selects.

## Model

| member | source | states |
|---|---|---|
| `FileTypes.SignaturesFitInBuffer` | src/organizer/file_types.rs:6-34 | every signature's offset plus its length is at most the 0xF000-byte buffer length |
| `FileTypes.ConsoleByExtension` | src/organizer/file_types.rs:37-63 | an extension with an upper-case letter, or `iso`, is in no row of the table |
| `FileTypes.ExtensionTableIsExact` | src/organizer/file_types.rs:37-63 | the table maps `ext` to `console` iff that console lists `ext` in the per-console reference table |
| `FileTypes.UnlistedExtensionIsUnknown` | src/organizer/file_types.rs:37-63 | the table returns None iff no console lists the extension |
| `FileTypes.IsFingerprintMatch` | src/organizer/file_types.rs:131-133 | true iff the buffer holds the fingerprint byte for byte at the offset; the window must lie inside the buffer |
| `FileTypes.IsPs2Game` | src/organizer/file_types.rs:137-150 | true iff the low nibbles hold the USA or the JPN pattern at 0x42F, or the EUR pattern at 0xA97 |
| `FileTypes.Ps2CheckIgnoresHighNibbles` | src/organizer/file_types.rs:137-150 | two buffers that agree on `b & 0x0F` at every byte get the same PlayStation 2 answer |
| `FileTypes.TryFingerprintIso` | src/organizer/file_types.rs:82-129 | None for an unopenable file or one below 0xF000 bytes. Otherwise the result is the first console, in the order Wii, GameCube, PS2, PSP, whose signature the header carries, and None if there is none |
| `FileTypes.WiiBeatsGameCube` | src/organizer/file_types.rs:106-116 | a header carrying both the Wii and the GameCube signature classifies as Wii |
| `FileTypes.MaskedPs2Header` | src/organizer/file_types.rs:118-122 | a header whose low nibbles spell the USA pattern classifies as PlayStation 2, whatever its upper nibbles, unless the Wii or GameCube signature is present |
| `FileTypes.GetConsoleId` | src/organizer/file_types.rs:65-80 | only a path with an extension is classified, and every answer is a console of the table or of the fingerprint list. An extension that is neither in the table nor `iso` gives None, for every path and content |
| `FileTypes.UnlistedExtensionIsUnclassified` | src/organizer/file_types.rs:65-80 | a path whose extension is neither in the table nor `iso` classifies as None, whatever its content |
| `FileTypes.TableHitIgnoresContent` | src/organizer/file_types.rs:65-70 | a table hit is returned whatever the file's content: no fingerprinting happens |
| `FileTypes.OnlyIsoIsFingerprinted` | src/organizer/file_types.rs:72-79 | for any extension other than `iso`, the answer does not depend on the file's content |
| `FileTypes.IsoIsFingerprinted` | src/organizer/file_types.rs:73-74 | an `iso` path is classified by its fingerprint alone |
| `FileTypes.NameWithoutExtensionIsUnclassified` | src/organizer/file_types.rs:157-161 | `my_file` classifies as None |
| `FileTypes.UnknownExtensionIsUnclassified` | src/organizer/file_types.rs:163-167 | `my_file.asdf` classifies as None, derived from `UnlistedExtensionIsUnclassified` |
| `Paths.FileName` | src/verify/mod.rs:112 | the base name is the last component; there is none for an empty path or one ending in `..` |
| `Paths.NameExtension` | src/organizer/file_types.rs:66 | there is no extension iff the name has no dot or its only dot is its first character. Otherwise the name is `stem.ext`, with `ext` dot-free and the stem non-empty |
| `Paths.ExtensionRoundTrip` | src/organizer/file_types.rs:66 | splitting `stem.ext` with a non-empty stem and a dot-free `ext` gives back `ext` |
| `Paths.Extension` | src/organizer/mod.rs:55 | a path without a file name has no extension; otherwise the extension is exactly that of its file name |
| `Paths.Join` | src/organizer/mod.rs:88-96 | pushing a component appends it and keeps the prefix |
| `Numerals.ParseU64` | src/verify/mod.rs:130 | a parsed size is below 2^64; the string starts with `+` or a digit, and the value is that of the digits after at most one leading character |
| `Numerals.Decimal` | src/verify/mod.rs:133 | the rendered number is a non-empty string of digits without leading zeros: `0` is rendered `0`, and any other number starts with a non-zero digit |
| `Numerals.DecimalRoundTrip` | src/verify/mod.rs:133 | rendering a `u64` and parsing it back gives the same number |
| `Numerals.PlusSignAccepted` | src/verify/mod.rs:130 | `+` followed by any non-empty digit string below 2^64 parses to that string's value, leading zeros included (`+007` is 7) |
| `Numerals.MalformedNumeralsRejected` | src/verify/mod.rs:130 | the empty string, a bare `+` and a leading `-` do not parse |
| `Numerals.DigitStringsParse` | src/verify/mod.rs:130 | every non-empty digit string whose value is below 2^64 parses to that value, leading zeros included |
| `Numerals.OverflowRejected` | src/verify/mod.rs:130 | a digit string whose value is 2^64 or more does not parse |
| `Verification.FindRom` | src/verify/mod.rs:114-121 | the result is the ROM record of the first game, in document order, named like the file, and None iff no game has that name |
| `Verification.ToLower` | src/verify/mod.rs:138 | the result has the same length and no upper-case letter; it changes only upper-case letters, and each becomes its own lower-case letter (code point plus 32) |
| `Verification.VerifyOutcome` | src/verify/mod.rs:109-150 | a file whose name no record carries fails with "Unable to find ROM in dat file"; every failure is that one, a size mismatch or a hash mismatch |
| `Verification.VerifyFile` | src/verify/mod.rs:109-150 | the scan with `break` and the three early returns produce exactly `VerifyOutcome` |
| `Verification.VerifyOkExactly` | src/verify/mod.rs:114-149 | Ok iff the first record with the file's name has the file's size and a stored MD5 equal to the lower-cased computed one |
| `Verification.UnknownNameIsNotInCatalog` | src/verify/mod.rs:123-127 | with no record of that name the result is the not-found error, whatever the size and digest |
| `Verification.SizeMismatchSkipsDigest` | src/verify/mod.rs:130-136 | a size mismatch reports both sizes, and the outcome is the same for every digest (no hashing happens) |
| `Verification.DigestMismatchReported` | src/verify/mod.rs:138-146 | when the first named record has the file's size but another digest than the lower-cased one, the result is "File hashes don't match" followed by both digests |
| `Verification.UpperCaseStoredDigestNeverMatches` | src/verify/mod.rs:138-145 | a selected record whose stored MD5 has an upper-case letter never verifies |
| `Verification.CatalogExample` | src/verify/mod.rs:109-150 | a `game.nes` record of 131088 bytes verifies a file of that name and size with the same digest, and fails on any other digest with the hash-mismatch message carrying both digests |
| `Verification.RomConsole` | src/verify/mod.rs:25-34 | "File does not exist" for a missing path, "Unable to determine console ID" when the classifier answers None, and `Ok` with the classifier's console exactly when the path exists and is classified; the path then has a file name |
| `Verification.Rom.constructor` | src/verify/mod.rs:36-40 | a new ROM keeps its path and console and is `Unverified` |
| `Verification.Rom.New` | src/verify/mod.rs:25-41 | fails with `RomConsole`'s error, or returns a fresh, valid, `Unverified` ROM with the classifier's console |
| `Verification.Rom.Verify` | src/verify/mod.rs:43-49 | the status becomes `Verified` exactly when verification is Ok, otherwise it is unchanged; `Verified` is never reset |
| `Grouping.Push` | src/organizer/mod.rs:75-78 | `entry(key).or_default().push(path)`: the key's bucket gains the path at its end and the other buckets are unchanged |
| `Grouping.BucketsSnoc` | src/organizer/mod.rs:43-79 | scanning one more entry pushes its path onto its key's bucket, or changes nothing when it has no key |
| `Grouping.BucketMembership` | src/organizer/mod.rs:43-79 | a path is in bucket `k` iff some scanned entry with key `k` has that path |
| `Grouping.ExactlyOneBucket` | src/organizer/mod.rs:43-79 | among distinct paths, an entry with a key is in that key's bucket and in no other, and an entry without a key is in no bucket |
| `Grouping.BucketedPathsAreScanned` | src/organizer/mod.rs:43-79 | every bucketed path belongs to a scanned entry with that bucket's key |
| `Grouping.Destination` | src/organizer/mod.rs:88-96 | the destination is the target, then the key, then the file's own name |
| `Grouping.PlanMoves` | src/organizer/mod.rs:86-105 | a move is planned iff it sends a file of some bucket to `target / key / file_name` |
| `Organizer.EntryKey` | src/organizer/mod.rs:43-73 | a non-directory entry gets a key only when it has an extension |
| `Organizer.BucketEntries` | src/organizer/mod.rs:41-79 | the loop builds exactly the bucket map of the entries under the sort method's key |
| `Organizer.Organize` | src/organizer/mod.rs:10-107 | NotFound when `src` is missing; listing failure reported. Otherwise the target is `dest` or `src`, the buckets are those of the listing, and the moves are exactly the planned ones |
| `Organizer.DirectoriesBucketedByTitleOnly` | src/organizer/mod.rs:44-53 | a directory is in the bucket of its directory-level console and in no other, whatever the sort method, so it is never keyed by extension |
| `Organizer.ExtensionlessFilesSkipped` | src/organizer/mod.rs:55-60 | a file without an extension is in no bucket |
| `Organizer.FilesBucketedByExtension` | src/organizer/mod.rs:62-78 | in extension mode a file is in the bucket of exactly its extension |
| `Organizer.FilesBucketedByConsole` | src/organizer/mod.rs:64-78 | in console mode an unclassified file is skipped, and any other file is in its console's bucket only |
| `Organizer.BucketedEntryDestination` | src/organizer/mod.rs:86-96 | an entry bucketed under `k` is planned to move to `target / k / file_name` |
| `LegacyOrganizer.BucketByExtension` | src/organizer.rs:39-56 | the loop builds exactly the bucket map of the entries keyed by extension |
| `LegacyOrganizer.Organize` | src/organizer.rs:5-80 | NotFound when `src` is missing; listing failure reported. Otherwise the target is `dest` or `src`, the buckets are by extension, and the moves are exactly the planned ones |
| `LegacyOrganizer.BucketKeysAreExtensions` | src/organizer.rs:50-53 | every path in bucket `k` is a listed entry whose extension is `k` |
| `LegacyOrganizer.EntryInOneBucket` | src/organizer.rs:42-56 | among distinct paths, an entry with an extension is in that extension's bucket only, and one without is in no bucket |

## Left out

- Command-line parsing and logging (`src/main.rs`), `println!` and the `log` macros: plumbing with no logic to model.
- Real file I/O is replaced by inputs: `File::open`, `metadata().size()`, `read_exact`, `read_dir`, `Path::exists`. The `read_exact` failure path only prints and goes on with the buffer as it stands, which any `IsoBuffer` input covers.
- The panic of `metadata().unwrap()` when a file opens but its metadata cannot be read is not modelled.
- Creating the target and bucket directories (`create_dir`) and its failure are not modelled. Neither are the relocations themselves: `move_folder`, `move_file`, `fs::rename` and `fs::copy`. The model yields the list of moves instead.
- MD5 hashing (`hash_file`) is a foreign library. The computed digest is an opaque input.
- Catalog loading (`DatFile::from_file`: reading the file and XML deserialisation, with its `unwrap` panics) is not modelled. The model starts from a parsed `DatFile`.
- `check_dir_level_rom` and the `Console` type are not part of this model. The check's answer is the `dirRomId` input, and console names are strings.
- Non-UTF-8 file names (the `to_str()?` failure in `get_console_id` and the `unwrap`s in the organizers) are not modelled: names are Dafny strings.
- `Verification.ToLower`: only ASCII letters are lower-cased, because Unicode case mapping is not modelled. A hex digest is ASCII.
- `Paths.FileName`: paths are sequences of normal components. Root prefixes, `.` components and separators inside a component are not modelled.
- `Paths.Join`: take a file whose name ends in `.`, so its extension is empty. In extension mode the model plans it to `target + ["", file_name]`, while Rust's two pushes give `target / file_name`.
- `Grouping.PlanMoves`: does not state the order or the number of moves, because the `HashMap` iteration order is unspecified. It states which moves are made.
- The `file_name().unwrap()` in `verify` and in the relocation loops is a precondition. For a `Rom` it is discharged by `Rom.Valid()`, and for a directory listing it always holds.
