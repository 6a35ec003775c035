/** bytebiter.py: the same code as the main program for a 64 x 64 level and
    the file `Alice`, with `print` writing the level files, a `hex_to_byte`
    without the -1 guard, and the old level files removed when the program
    starts. */
module ByteBiter {
  import opened Base
  import opened Nibble
  import opened Grid
  import opened Tmx
  import opened Disk
  import opened Codec
  import opened Menu

  /** `MAP_SIZE`: each level is 64 x 64 cells. */
  const MapSize: nat := 64
  /** `my_file`, the default `input_file`. */
  const MyFile: string := "Alice"

  // -------------------------------------------------------- file_to_levels

  /** `file_to_levels(input_file)`: the nibbles of the file cut into 64*64
      cells, the last level padded with -1, reshaped and printed into the
      level files. */
  method FileToLevels(disk: Disk, inputFile: string) returns (e: Option<Error>)
    modifies disk
    ensures disk.files == old(disk.files)
    ensures e.None? <==> inputFile in old(disk.files) && old(disk.files)[inputFile] != []
    ensures e.Some? ==> disk.maps == old(disk.maps)
    ensures e.Some? ==> e.value == if inputFile in old(disk.files) then IndexError else FileNotFound
    ensures e.None? ==>
      EncodeLevels(old(disk.files)[inputFile], MapSize).Ok? &&
      disk.maps == SavedLevels(old(disk.maps), LevelTexts(EncodeLevels(old(disk.files)[inputFile], MapSize).value, MapSize))
  {
    var input := disk.ReadBytes(inputFile);
    if input.Err? {
      return Some(input.error);
    }
    var levelMapData := CutLevels(input.value, MapSize);
    if levelMapData.Err? {
      return Some(levelMapData.error);
    }
    PrintLevels(disk, levelMapData.value, MapSize);
    e := None;
  }

  // -------------------------------------------------------- levels_to_file

  /** `levels_to_file(input_file)`: the level files named in `mapDir` read
      back and paired, each pair joined with `hex_to_byte`, the file backed
      up when it has no backup yet (reading it whole, then writing nothing at
      its end), and the bytes written over it from its start. */
  method LevelsToFile(disk: Disk, mapDir: seq<string>, inputFile: string) returns (e: Option<Error>)
    modifies disk
    ensures disk.maps == old(disk.maps)
    ensures e.None? <==> Patched(old(disk.files), old(disk.maps), mapDir, inputFile, PairToByte).Ok?
    ensures e.None? ==> disk.files == Patched(old(disk.files), old(disk.maps), mapDir, inputFile, PairToByte).value
    ensures e.Some? ==> disk.files == old(disk.files)
    ensures e.Some? ==> e.value == Patched(old(disk.files), old(disk.maps), mapDir, inputFile, PairToByte).error
  {
    var paired := ReadLevelPairs(disk, mapDir);
    if paired.Err? {
      return Some(paired.error);
    }
    var outputData := Decoded(paired.value, PairToByte);
    if outputData.Err? {
      return Some(outputData.error);
    }
    e := BackUp(disk, inputFile);
    if e.Some? {
      return;
    }
    disk.WriteChunks(inputFile, outputData.value);
  }

  /** The backup step of `levels_to_file`: without a backup yet, the file is
      read whole into `input_file.bak`, and `write(b'')` at its end then writes
      nothing; opening a missing file raises. */
  method BackUp(disk: Disk, inputFile: string) returns (e: Option<Error>)
    modifies disk
    ensures disk.maps == old(disk.maps)
    ensures e.None? <==> BackupIfAbsent(old(disk.files), inputFile).Ok?
    ensures e.None? ==> disk.files == BackupIfAbsent(old(disk.files), inputFile).value
    ensures e.Some? ==> e.value == FileNotFound && disk.files == old(disk.files)
  {
    var bak := BackupName(inputFile);
    if !disk.IsFile(inputFile) {
      return Some(FileNotFound);
    }
    if !disk.IsFile(bak) {
      var contents := disk.files[inputFile];
      disk.CopyFile(inputFile, bak);
      OverwriteNothing(contents);
      disk.WriteAt(inputFile, |contents|, []);
    }
    e := None;
  }

  /** `hex_to_byte` inverts `byte_to_hex` on every pair of nibbles. */
  lemma PairToByteInverts()
    ensures InvertsNibbles(PairToByte)
  {
    forall h, l | 0 <= h < 16 && 0 <= l < 16 ensures PairToByte(h, l) == Ok(16 * h + l) {
      PairToByteNibbles(h, l);
    }
  }

  /** Writing the level files of a file and patching them back, in level
      order, leaves the file as it was and its backup holding it too, unless
      a backup already existed. */
  lemma RoundTripAtRest(files: map<string, seq<byte>>, maps: map<string, string>, inputFile: string)
    requires inputFile in files && files[inputFile] != []
    ensures EncodeLevels(files[inputFile], MapSize).Ok?
    ensures var grids := EncodeLevels(files[inputFile], MapSize).value;
      var r := Patched(files, SavedLevels(maps, LevelTexts(grids, MapSize)), LevelNames(|grids|), inputFile, PairToByte);
      && r.Ok? && inputFile in r.value && BackupName(inputFile) in r.value
      && r.value[inputFile] == files[inputFile]
      && r.value[BackupName(inputFile)] ==
           (if BackupName(inputFile) in files then files[BackupName(inputFile)] else files[inputFile])
  {
    PairToByteInverts();
    PatchedRoundTrip(files, maps, inputFile, MapSize, PairToByte);
  }

  // --------------------------------------------------------- gen_item_menu

  /** `gen_item_menu(loi)`: the 64 x 64 menu grid; item i's nibbles start
      row 2i. */
  method GenItemMenu(items: seq<seq<byte>>) returns (r: Result<Grid>)
    ensures r.Err? <==> MenuError(items, MapSize, 0).Some?
    ensures r.Err? ==> Some(r.error) == MenuError(items, MapSize, 0)
    ensures r.Ok? ==> MenuGrid(items, MapSize) == r
  {
    var menu := BuildMenu(items, MapSize);
    if menu.Err? {
      return Err(menu.error);
    }
    RowsAreMenu(menu.value, items, MapSize);
    r := Ok(Rows(menu.value));
  }

  /** The `__main__` menu of `b'Play()'` and `b'main()'` fits, and rows 0 and
      2 read back as the two items. */
  lemma MainMenu()
    ensures var items: seq<seq<byte>> := [[80, 108, 97, 121, 40, 41], [109, 97, 105, 110, 40, 41]];
      && MenuGrid(items, MapSize).Ok?
      && Recombine(Pairs(MenuGrid(items, MapSize).value[0][..12]), PairToByte) == Ok(items[0])
      && Recombine(Pairs(MenuGrid(items, MapSize).value[2][..12]), PairToByte) == Ok(items[1])
  {
    var items: seq<seq<byte>> := [[80, 108, 97, 121, 40, 41], [109, 97, 105, 110, 40, 41]];
    MenuFits(items, MapSize, 0);
    MenuRow(items, MapSize, 0);
    MenuRow(items, MapSize, 1);
  }
}
