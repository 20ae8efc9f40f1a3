/** The console classifier: a fixed extension table, and for `.iso` images a
    fingerprint of the first 0xF000 bytes against fixed byte patterns at fixed
    offsets, tried in a fixed priority order. Console identities are the
    display strings the classifier returns. */
module FileTypes {
  import opened Outcomes
  import opened Paths
  import opened Ascii

  const IsoMinSize: nat := 0xF000
  const IsoBufferLen: nat := 0xF000

  /** The header buffer that an image is read into: always exactly
      `IsoBufferLen` bytes, zero-filled where a read came up short. */
  type IsoBuffer = b: seq<bv8> | |b| == 0xF000 witness seq(0xF000, _ => 0)

  const GameCubeOffset: nat := 0x1C
  const GameCubeFingerprint: seq<bv8> := [0xC2, 0x33, 0x9F, 0x3D]
  const WiiOffset: nat := 0x18
  const WiiFingerprint: seq<bv8> := [0x5D, 0x1C, 0x9E, 0xA3]

  const Ps2UsaJpnOffset: nat := 0x42F
  const Ps2EurOffset: nat := 0xA97
  const Ps2UsaFingerprint: seq<bv8> := [
    0x06, 0x01, 0x00, 0x00, 0x03, 0x03, 0x02, 0x02, 0x02, 0x0D, 0x0D, 0x0C, 0x0C, 0x0E, 0x0E, 0x0E,
    0x09, 0x08, 0x08, 0x08, 0x08, 0x09, 0x0E, 0x0D, 0x00, 0x06, 0x05
  ]
  const Ps2JpnFingerprint: seq<bv8> := [
    0x0E, 0x09, 0x08, 0x08, 0x0B, 0x0B, 0x0A, 0x0A, 0x0A, 0x05, 0x05, 0x04, 0x04, 0x06, 0x06, 0x06,
    0x01, 0x00, 0x00, 0x00, 0x00, 0x01, 0x06, 0x05, 0x08, 0x0E, 0x0D
  ]
  const Ps2EurFingerprint: seq<bv8> := [
    0x0E, 0x09, 0x09, 0x0E, 0x0E, 0x0E, 0x0E, 0x0E, 0x0F, 0x0F, 0x0F, 0x0F, 0x0F, 0x0F, 0x0F, 0x0F,
    0x0F, 0x0F, 0x0F, 0x0E, 0x09, 0x05, 0x02, 0x00, 0x02, 0x02, 0x02, 0x02, 0x02, 0x02, 0x02, 0x06,
    0x0F, 0x0D, 0x0D, 0x0D, 0x0D, 0x0D, 0x0D, 0x0D, 0x0D, 0x0D, 0x0D, 0x0D, 0x0D, 0x0D, 0x04, 0x06,
    0x06, 0x06, 0x06, 0x06, 0x06, 0x06, 0x06, 0x06, 0x06, 0x06, 0x06, 0x06, 0x06, 0x04, 0x05, 0x0B,
    0x08, 0x0E, 0x0D
  ]
  const PspOffset: nat := 0x8000
  const PspFingerprint: seq<bv8> := [
    0x01, 0x43, 0x44, 0x30, 0x30, 0x31, 0x01, 0x00, 0x50, 0x53, 0x50, 0x20, 0x47, 0x41, 0x4D, 0x45
  ]

  /** Every signature window lies inside the header buffer, so no
      fingerprint comparison on it reads out of bounds. */
  lemma SignaturesFitInBuffer()
    ensures WiiOffset + |WiiFingerprint| <= IsoBufferLen
    ensures GameCubeOffset + |GameCubeFingerprint| <= IsoBufferLen
    ensures Ps2UsaJpnOffset + |Ps2UsaFingerprint| <= IsoBufferLen
    ensures Ps2UsaJpnOffset + |Ps2JpnFingerprint| <= IsoBufferLen
    ensures Ps2EurOffset + |Ps2EurFingerprint| <= IsoBufferLen
    ensures PspOffset + |PspFingerprint| <= IsoBufferLen
  {
  }

  /** What opening an image file yields: either it cannot be opened, or its
      size from the metadata and the header buffer after the read. */
  datatype FileProbe = CannotOpen | Opened(size: nat, buffer: IsoBuffer)

  /** The extension table: an exact, case-sensitive match, so an extension
      holding an upper-case letter is in no row; `iso` has no row of its own. */
  function ConsoleByExtension(ext: string): (r: Option<string>)
    ensures (exists i :: 0 <= i < |ext| && IsUpperAscii(ext[i])) ==> r.None?
    ensures ext == "iso" ==> r.None?
  {
    match ext
    case "gb" => Some("Gameboy")
    case "gbc" => Some("Gameboy Color")
    case "gba" => Some("Gameboy Advance")
    case "cdi" | "gdi" => Some("Dreamcast")
    case "nes" | "nez" | "unf" | "unif" => Some("NES")
    case "sfc" | "smc" => Some("SNES")
    case "gen" | "md" | "smd" => Some("Genesis")
    case "gg" => Some("Game Gear")
    case "n64" | "v64" | "z64" => Some("Nintendo 64")
    case "gcm" | "gcz" => Some("GameCube")
    case "xiso" => Some("Xbox")
    case "nds" => Some("Nintendo DS")
    case "dsi" => Some("Nintendo DSi")
    case "wad" | "wbfs" => Some("Wii")
    case "3ds" | "cia" => Some("3DS")
    case "nsp" | "xci" => Some("Nintendo Switch")
    case "ngp" | "ngc" => Some("Neo Geo")
    case "pce" => Some("PC Engine")
    case "vpk" => Some("PlayStation Vita")
    case "vb" => Some("Virtual Boy")
    case "ws" => Some("WonderSwan")
    case "wsc" => Some("WonderSwan Color")
    case _ => None
  }

  /** The same table read the other way: the extensions that name each
      console, and none for a string that is no console of the table. */
  function ExtensionsOf(console: string): set<string>
  {
    match console
    case "Gameboy" => {"gb"}
    case "Gameboy Color" => {"gbc"}
    case "Gameboy Advance" => {"gba"}
    case "Dreamcast" => {"cdi", "gdi"}
    case "NES" => {"nes", "nez", "unf", "unif"}
    case "SNES" => {"sfc", "smc"}
    case "Genesis" => {"gen", "md", "smd"}
    case "Game Gear" => {"gg"}
    case "Nintendo 64" => {"n64", "v64", "z64"}
    case "GameCube" => {"gcm", "gcz"}
    case "Xbox" => {"xiso"}
    case "Nintendo DS" => {"nds"}
    case "Nintendo DSi" => {"dsi"}
    case "Wii" => {"wad", "wbfs"}
    case "3DS" => {"3ds", "cia"}
    case "Nintendo Switch" => {"nsp", "xci"}
    case "Neo Geo" => {"ngp", "ngc"}
    case "PC Engine" => {"pce"}
    case "PlayStation Vita" => {"vpk"}
    case "Virtual Boy" => {"vb"}
    case "WonderSwan" => {"ws"}
    case "WonderSwan Color" => {"wsc"}
    case _ => {}
  }

  /** The extension table maps an extension to a console exactly when that
      console lists the extension. */
  lemma ExtensionTableIsExact(ext: string, console: string)
    ensures ConsoleByExtension(ext) == Some(console) <==> ext in ExtensionsOf(console)
  {
    if ConsoleByExtension(ext) == Some(console) {
      TableRowIsListed(ext);
    }
    if ext in ExtensionsOf(console) {
      ListedExtensionIsInTable(ext, console);
    }
  }

  lemma TableRowIsListed(ext: string)
    requires ConsoleByExtension(ext).Some?
    ensures ext in ExtensionsOf(ConsoleByExtension(ext).value)
  {
  }

  /** A listed extension is in the table under its console; the consoles
      are taken a few at a time so that each proof stays small. */
  lemma ListedExtensionIsInTable(ext: string, console: string)
    requires ext in ExtensionsOf(console)
    ensures ConsoleByExtension(ext) == Some(console)
  {
    if console in {"Gameboy", "Gameboy Color", "Gameboy Advance", "Dreamcast", "NES", "SNES"} {
      ListedInTable1(ext, console);
    } else if console in {"Genesis", "Game Gear", "Nintendo 64", "GameCube", "Xbox", "Nintendo DS"} {
      ListedInTable2(ext, console);
    } else if console in {"Nintendo DSi", "Wii", "3DS", "Nintendo Switch", "Neo Geo"} {
      ListedInTable3(ext, console);
    } else if console in {"PC Engine", "PlayStation Vita", "Virtual Boy", "WonderSwan", "WonderSwan Color"} {
      ListedInTable4(ext, console);
    }
  }

  lemma ListedInTable1(ext: string, console: string)
    requires console in {"Gameboy", "Gameboy Color", "Gameboy Advance", "Dreamcast", "NES", "SNES"} && ext in ExtensionsOf(console)
    ensures ConsoleByExtension(ext) == Some(console)
  {
  }

  lemma ListedInTable2(ext: string, console: string)
    requires console in {"Genesis", "Game Gear", "Nintendo 64", "GameCube", "Xbox", "Nintendo DS"} && ext in ExtensionsOf(console)
    ensures ConsoleByExtension(ext) == Some(console)
  {
  }

  lemma ListedInTable3(ext: string, console: string)
    requires console in {"Nintendo DSi", "Wii", "3DS", "Nintendo Switch", "Neo Geo"} && ext in ExtensionsOf(console)
    ensures ConsoleByExtension(ext) == Some(console)
  {
  }

  lemma ListedInTable4(ext: string, console: string)
    requires console in {"PC Engine", "PlayStation Vita", "Virtual Boy", "WonderSwan", "WonderSwan Color"} && ext in ExtensionsOf(console)
    ensures ConsoleByExtension(ext) == Some(console)
  {
  }

  /** Every string that no console lists, and only those, maps to nothing. */
  lemma UnlistedExtensionIsUnknown(ext: string)
    ensures ConsoleByExtension(ext).None? <==> forall c :: ext !in ExtensionsOf(c)
  {
    if ConsoleByExtension(ext).Some? {
      ExtensionTableIsExact(ext, ConsoleByExtension(ext).value);
    } else {
      forall c ensures ext !in ExtensionsOf(c) {
        ExtensionTableIsExact(ext, c);
      }
    }
  }

  /** `buff` holds `fingerprint` starting at `offset`. The caller guarantees
      the window lies inside the buffer. */
  function IsFingerprintMatch(buff: seq<bv8>, offset: nat, fingerprint: seq<bv8>): (r: bool)
    requires offset + |fingerprint| <= |buff|
    ensures r <==> forall i :: 0 <= i < |fingerprint| ==> buff[offset + i] == fingerprint[i]
  {
    buff[offset..offset + |fingerprint|] == fingerprint
  }

  /** Every byte with its upper four bits cleared. */
  function LowNibbles(buf: seq<bv8>): seq<bv8>
  {
    seq(|buf|, i requires 0 <= i < |buf| => buf[i] & 0x0F)
  }

  /** The low nibbles of `buf` spell `fingerprint` starting at `offset`. */
  ghost predicate NibblesAt(buf: seq<bv8>, offset: nat, fingerprint: seq<bv8>)
    requires offset + |fingerprint| <= |buf|
  {
    forall i :: 0 <= i < |fingerprint| ==> buf[offset + i] & 0x0F == fingerprint[i]
  }

  /** The PlayStation 2 check: the masked header holds the USA or the JPN
      pattern at 0x42F, or the EUR pattern at 0xA97. */
  function IsPs2Game(buf: IsoBuffer): (r: bool)
    ensures r <==> NibblesAt(buf, Ps2UsaJpnOffset, Ps2UsaFingerprint)
                   || NibblesAt(buf, Ps2UsaJpnOffset, Ps2JpnFingerprint)
                   || NibblesAt(buf, Ps2EurOffset, Ps2EurFingerprint)
  {
    var masked := LowNibbles(buf);
    IsFingerprintMatch(masked, Ps2UsaJpnOffset, Ps2UsaFingerprint)
    || IsFingerprintMatch(masked, Ps2UsaJpnOffset, Ps2JpnFingerprint)
    || IsFingerprintMatch(masked, Ps2EurOffset, Ps2EurFingerprint)
  }

  /** Only the low nibble of each byte matters to the PlayStation 2 check:
      garbage in the upper nibbles changes nothing. */
  lemma Ps2CheckIgnoresHighNibbles(a: IsoBuffer, b: IsoBuffer)
    requires forall i :: 0 <= i < |a| ==> a[i] & 0x0F == b[i] & 0x0F
    ensures IsPs2Game(a) == IsPs2Game(b)
  {
    assert LowNibbles(a) == LowNibbles(b);
  }

  /** The consoles an image is fingerprinted for, highest priority first. */
  const IsoPriority: seq<string> := ["Wii", "GameCube", "PlayStation 2", "PSP"]

  /** The header carries the signature of `console`. */
  predicate Carries(buf: IsoBuffer, console: string)
  {
    match console
    case "Wii" => IsFingerprintMatch(buf, WiiOffset, WiiFingerprint)
    case "GameCube" => IsFingerprintMatch(buf, GameCubeOffset, GameCubeFingerprint)
    case "PlayStation 2" => IsPs2Game(buf)
    case "PSP" => IsFingerprintMatch(buf, PspOffset, PspFingerprint)
    case _ => false
  }

  /** Fingerprinting an image file: nothing for a file that cannot be opened
      or is smaller than `IsoMinSize`; otherwise the first console in
      priority order whose signature the header carries. */
  function TryFingerprintIso(probe: FileProbe): (r: Option<string>)
    ensures r.Some? <==> probe.Opened? && probe.size >= IsoMinSize
                         && exists k :: 0 <= k < |IsoPriority| && Carries(probe.buffer, IsoPriority[k])
    ensures r.Some? ==> exists k :: 0 <= k < |IsoPriority| && r.value == IsoPriority[k]
                                    && Carries(probe.buffer, IsoPriority[k])
                                    && forall j :: 0 <= j < k ==> !Carries(probe.buffer, IsoPriority[j])
  {
    match probe
    case CannotOpen => None
    case Opened(size, buffer) =>
      if size < IsoMinSize then None
      else if IsFingerprintMatch(buffer, WiiOffset, WiiFingerprint) then
        assert Carries(buffer, IsoPriority[0]);
        Some("Wii")
      else if IsFingerprintMatch(buffer, GameCubeOffset, GameCubeFingerprint) then
        assert !Carries(buffer, IsoPriority[0]) && Carries(buffer, IsoPriority[1]);
        Some("GameCube")
      else if IsPs2Game(buffer) then
        assert !Carries(buffer, IsoPriority[0]) && !Carries(buffer, IsoPriority[1]);
        assert Carries(buffer, IsoPriority[2]);
        Some("PlayStation 2")
      else if IsFingerprintMatch(buffer, PspOffset, PspFingerprint) then
        assert !Carries(buffer, IsoPriority[0]) && !Carries(buffer, IsoPriority[1]);
        assert !Carries(buffer, IsoPriority[2]) && Carries(buffer, IsoPriority[3]);
        Some("PSP")
      else
        assert !Carries(buffer, IsoPriority[0]) && !Carries(buffer, IsoPriority[1]);
        assert !Carries(buffer, IsoPriority[2]) && !Carries(buffer, IsoPriority[3]);
        None
  }

  /** A header that carries both the Wii and the GameCube signature is a Wii
      image: the Wii check comes first. */
  lemma WiiBeatsGameCube(size: nat, buf: IsoBuffer)
    requires size >= IsoMinSize
    requires Carries(buf, "Wii") && Carries(buf, "GameCube")
    ensures TryFingerprintIso(Opened(size, buf)) == Some("Wii")
  {
  }

  /** A header whose low nibbles spell a PlayStation 2 pattern, whatever its
      upper nibbles, is a PlayStation 2 image unless a Wii or GameCube
      signature comes first. */
  lemma MaskedPs2Header(size: nat, buf: IsoBuffer)
    requires size >= IsoMinSize
    requires NibblesAt(buf, Ps2UsaJpnOffset, Ps2UsaFingerprint)
    requires !Carries(buf, "Wii") && !Carries(buf, "GameCube")
    ensures TryFingerprintIso(Opened(size, buf)) == Some("PlayStation 2")
  {
  }

  /** The classifier: the extension table first; otherwise only an `iso`
      extension leads to fingerprinting. Every answer is a console of the
      extension table or of the fingerprint list, and only a path with an
      extension is ever classified. */
  function GetConsoleId(path: Path, probe: FileProbe): (r: Option<string>)
    ensures r.Some? ==> Extension(path).Some?
    ensures r.Some? ==> ExtensionsOf(r.value) != {} || r.value in IsoPriority
    ensures (Extension(path).Some? && ConsoleByExtension(Extension(path).value).None?
             && Extension(path).value != "iso") ==> r.None?
  {
    match Extension(path)
    case None => None
    case Some(ext) =>
      var id := ConsoleByExtension(ext);
      if id.Some? then
        ExtensionTableIsExact(ext, id.value);
        id
      else if ext == "iso" then TryFingerprintIso(probe)
      else None
  }

  /** A table hit is answered from the extension alone: the file's content
      is never looked at. */
  lemma TableHitIgnoresContent(path: Path, probe: FileProbe, other: FileProbe)
    requires Extension(path).Some? && ConsoleByExtension(Extension(path).value).Some?
    ensures GetConsoleId(path, probe) == GetConsoleId(path, other) == ConsoleByExtension(Extension(path).value)
  {
  }

  /** The content matters only for paths whose extension is `iso`. */
  lemma OnlyIsoIsFingerprinted(path: Path, probe: FileProbe, other: FileProbe)
    requires Extension(path) != Some("iso")
    ensures GetConsoleId(path, probe) == GetConsoleId(path, other)
  {
  }

  /** An `iso` image is classified by its fingerprint alone. */
  lemma IsoIsFingerprinted(path: Path, probe: FileProbe)
    requires Extension(path) == Some("iso")
    ensures GetConsoleId(path, probe) == TryFingerprintIso(probe)
  {
  }

  /** Any extension that is neither in the table nor `iso` leaves a path
      unclassified, whatever its content. */
  lemma UnlistedExtensionIsUnclassified(path: Path, probe: FileProbe)
    requires Extension(path).Some? && ConsoleByExtension(Extension(path).value).None?
    requires Extension(path).value != "iso"
    ensures GetConsoleId(path, probe).None?
  {
  }

  /** A name without an extension is unclassified: `my_file` is one. */
  lemma NameWithoutExtensionIsUnclassified(probe: FileProbe)
    ensures GetConsoleId(["my_file"], probe).None?
  {
    assert Extension(["my_file"]) == NameExtension("my_file");
    assert '.' !in "my_file";
  }

  lemma AsdfIsTheExtension()
    ensures Extension(["my_file.asdf"]) == Some("asdf")
  {
    ExtensionRoundTrip("my_file", "asdf");
    assert "my_file" + "." + "asdf" == "my_file.asdf";
  }

  /** A name whose extension is neither in the table nor `iso` is
      unclassified: `my_file.asdf` is one. */
  lemma UnknownExtensionIsUnclassified(probe: FileProbe)
    ensures GetConsoleId(["my_file.asdf"], probe).None?
  {
    AsdfIsTheExtension();
    assert ConsoleByExtension("asdf").None?;
    UnlistedExtensionIsUnclassified(["my_file.asdf"], probe);
  }
}
