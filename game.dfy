/** main.py: the game's codec with N = 32, the level files it writes for the
    file `Alice`, the patch-back into that file, the item menu and the W/S
    edit of the cell the player stands on. */
module Game {
  import opened Base
  import opened Nibble
  import opened Grid
  import opened Tmx
  import opened Disk
  import opened Codec
  import opened Menu

  /** `MAP_SIZE`: each level is 32 x 32 cells. */
  const MapSize: nat := 32
  /** `MY_FILE`: the file the game explores and patches. */
  const MyFile: string := "Alice"
  /** The level file `gen_item_menu` writes. */
  const MenuName: string := "Menu.tmx"

  /** main.py's `hex_to_byte`: a pair holding a -1 pad becomes a space (0x20);
      any other pair is joined from the leading hex digits of its values. */
  function HexToByte(h: int, l: int): (r: Result<byte>)
    ensures (h == Pad || l == Pad) ==> r == Ok(0x20)
    ensures 0 <= h < 16 && 0 <= l < 16 ==> r == Ok(16 * h + l)
    ensures r.Err? <==> h != Pad && l != Pad && (h < 0 || l < 0)
    ensures r.Err? ==> r.error == ValueError
  {
    if h == Pad || l == Pad then Ok(0x20) else PairToByte(h, l)
  }

  /** `hex_to_byte` turns every pair of nibbles into the byte they make. */
  lemma HexToByteInverts()
    ensures InvertsNibbles(HexToByte)
  {
    forall h, l | 0 <= h < 16 && 0 <= l < 16
      ensures HexToByte(h, l) == Ok(16 * h + l)
    {
    }
  }

  /** `hex_to_byte(byte_to_hex(b)) == bytes([b])` */
  lemma HexToByteRoundTrip(b: byte)
    ensures HexToByte(ByteToHex(b).0, ByteToHex(b).1) == Ok(b)
  {
  }

  // -------------------------------------------------------- file_to_levels

  /** `file_to_levels`: read the file, cut its nibbles into 32*32-cell pieces,
      pad the last in place with -1, reshape each to 32 x 32 and save it as
      `level_{k:0>8}.tmx`. An empty file has no last piece and raises. */
  method FileToLevels(disk: Disk) returns (e: Option<Error>)
    modifies disk
    ensures disk.files == old(disk.files)
    ensures e.None? <==> MyFile in old(disk.files) && old(disk.files)[MyFile] != []
    ensures e.Some? ==> disk.maps == old(disk.maps)
    ensures e.Some? ==> e.value == if MyFile in old(disk.files) then IndexError else FileNotFound
    ensures e.None? ==>
      EncodeLevels(old(disk.files)[MyFile], MapSize).Ok? &&
      disk.maps == SavedLevels(old(disk.maps), LevelTexts(EncodeLevels(old(disk.files)[MyFile], MapSize).value, MapSize))
  {
    var input := disk.ReadBytes(MyFile);
    if input.Err? {
      return Some(input.error);
    }
    var levelMapData := CutLevels(input.value, MapSize);
    if levelMapData.Err? {
      return Some(levelMapData.error);
    }
    var maps := Reshapes(levelMapData.value, MapSize);
    SaveMaps(disk, maps, MapSize);
    e := None;
  }

  // -------------------------------------------------------- levels_to_file

  /** `levels_to_file`; `mapDir` is the `MAP_DIR` list of level file names,
      taken once when the program starts. */
  method LevelsToFile(disk: Disk, mapDir: seq<string>) returns (e: Option<Error>)
    modifies disk
    ensures disk.maps == old(disk.maps)
    ensures e.None? <==> Patched(old(disk.files), old(disk.maps), mapDir, MyFile, HexToByte).Ok?
    ensures e.None? ==> disk.files == Patched(old(disk.files), old(disk.maps), mapDir, MyFile, HexToByte).value
    ensures e.Some? ==> disk.files == old(disk.files)
    ensures e.Some? ==> e.value == Patched(old(disk.files), old(disk.maps), mapDir, MyFile, HexToByte).error
  {
    var paired := ReadLevelPairs(disk, mapDir);
    if paired.Err? {
      return Some(paired.error);
    }
    var outputData := Decoded(paired.value, HexToByte);
    if outputData.Err? {
      return Some(outputData.error);
    }
    var bak := BackupName(MyFile);
    if !disk.IsFile(bak) {
      if !disk.IsFile(MyFile) {
        return Some(FileNotFound);
      }
      disk.CopyFile(MyFile, bak);
    }
    if !disk.IsFile(MyFile) {
      return Some(FileNotFound);
    }
    disk.WriteChunks(MyFile, outputData.value);
    e := None;
  }

  /** Writing the level files of the file and patching them back, in level
      order, leaves the file as it was and its backup holding it too, unless
      a backup already existed. */
  lemma RoundTripAtRest(files: map<string, seq<byte>>, maps: map<string, string>)
    requires MyFile in files && files[MyFile] != []
    ensures EncodeLevels(files[MyFile], MapSize).Ok?
    ensures var grids := EncodeLevels(files[MyFile], MapSize).value;
      var r := Patched(files, SavedLevels(maps, LevelTexts(grids, MapSize)), LevelNames(|grids|), MyFile, HexToByte);
      && r.Ok? && MyFile in r.value && BackupName(MyFile) in r.value
      && r.value[MyFile] == files[MyFile]
      && r.value[BackupName(MyFile)] ==
           (if BackupName(MyFile) in files then files[BackupName(MyFile)] else files[MyFile])
  {
    HexToByteInverts();
    PatchedRoundTrip(files, maps, MyFile, MapSize, HexToByte);
  }

  // --------------------------------------------------------- gen_item_menu

  /** `gen_item_menu`: the menu grid for 32 x 32, written to `Menu.tmx`. */
  method GenItemMenu(disk: Disk, items: seq<seq<byte>>) returns (e: Option<Error>)
    modifies disk
    ensures disk.files == old(disk.files)
    ensures e.Some? <==> MenuGrid(items, MapSize).Err?
    ensures e.Some? ==> e.value == MenuGrid(items, MapSize).error && disk.maps == old(disk.maps)
    ensures e.None? ==> disk.maps == old(disk.maps)[MenuName := WriteMap(MenuGrid(items, MapSize).value, MapSize)]
  {
    var menu := BuildMenu(items, MapSize);
    if menu.Err? {
      return Some(menu.error);
    }
    RowsAreMenu(menu.value, items, MapSize);
    disk.WriteText(MenuName, WriteMap(Rows(menu.value), MapSize));
    e := None;
  }

  // ------------------------------------------------------------- cell edit

  /** The keys of `on_key_press` that edit the level; the movement keys and
      ESCAPE only move the player or close the window. */
  datatype Key = KeyW | KeyS | KeyOther

  /** Python's `xs[i]` position for a list of length n: negative indices count
      from the end, anything else out of range raises IndexError. */
  function PyIndex(i: int, n: nat): (k: Option<nat>)
    ensures k.Some? <==> -(n as int) <= i < n
    ensures k.Some? ==> k.value < n && (k.value == i || k.value == i + n)
  {
    if 0 <= i < n then Some(i) else if -(n as int) <= i < 0 then Some(i + n) else None
  }

  /** The cell `g[y][x]` if both indices are in range, in Python's sense. */
  function CellAt(g: Grid, y: int, x: int): (c: Option<(nat, nat)>)
    ensures c.Some? ==> c.value.0 < |g| && c.value.1 < |g[c.value.0]|
  {
    match PyIndex(y, |g|)
    case None => None
    case Some(r) =>
      match PyIndex(x, |g[r]|)
      case None => None
      case Some(c) => Some((r, c))
  }

  /** `cur_block`: the value of the cell, or 0 where reading it raises. */
  function CurBlock(g: Grid, y: int, x: int): int
  {
    match CellAt(g, y, x)
    case None => 0
    case Some((r, c)) => g[r][c]
  }

  /** The level after a key press: S lowers the cell when it is above 0, W
      raises it when it is below 15; `None` when nothing is written. W where
      the cell is out of range reads 0 and then raises on the write. */
  function KeyEdit(g: Grid, y: int, x: int, key: Key): (r: Result<Option<Grid>>)
    ensures r.Err? <==> key == KeyW && CellAt(g, y, x).None?
    ensures r.Err? ==> r.error == IndexError
    ensures r == Ok(None) <==>
      key == KeyOther || (key == KeyS && CurBlock(g, y, x) <= 0) || (key == KeyW && CurBlock(g, y, x) >= 15)
  {
    var cur := CurBlock(g, y, x);
    match key
    case KeyOther => Ok(None)
    case KeyS =>
      if cur > 0 then
        var (r, c) := CellAt(g, y, x).value;
        Ok(Some(g[r := g[r][c := cur - 1]]))
      else Ok(None)
    case KeyW =>
      if cur < 15 then
        match CellAt(g, y, x)
        case None => Err(IndexError)
        case Some((r, c)) => Ok(Some(g[r := g[r][c := cur + 1]]))
      else Ok(None)
  }

  /** An edit changes the one cell stepped on, by one in the key's direction,
      and no other cell; the shape of the level is kept. */
  lemma KeyEditCell(g: Grid, y: int, x: int, key: Key)
    requires KeyEdit(g, y, x, key).Ok? && KeyEdit(g, y, x, key).value.Some?
    ensures CellAt(g, y, x).Some?
    ensures var (r, c) := CellAt(g, y, x).value;
      var h := KeyEdit(g, y, x, key).value.value;
      && |h| == |g|
      && (forall i :: 0 <= i < |g| ==> |h[i]| == |g[i]|)
      && h[r][c] == (if key == KeyS then g[r][c] - 1 else g[r][c] + 1)
      && (key == KeyS ==> g[r][c] > 0)
      && (key == KeyW ==> g[r][c] < 15)
      && forall i, j :: 0 <= i < |g| && 0 <= j < |g[i]| && (i, j) != (r, c) ==> h[i][j] == g[i][j]
  {
  }

  /** A cell holding a nibble, or the -1 pad, holds a nibble after any edit:
      S and W never leave 0..15, and W turns a pad into 0. */
  lemma KeyEditBounds(g: Grid, y: int, x: int, key: Key)
    requires KeyEdit(g, y, x, key).Ok? && KeyEdit(g, y, x, key).value.Some?
    requires CellAt(g, y, x).Some? && -1 <= CurBlock(g, y, x) < 16
    ensures var (r, c) := CellAt(g, y, x).value;
      var h := KeyEdit(g, y, x, key).value.value;
      && 0 <= h[r][c] < 16
      && (g[r][c] == Pad ==> key == KeyW && h[r][c] == 0)
  {
  }

  /** The state of the running game that the cell edit uses: the level shown
      and its `Platforms` layer, and the cell the player stands on. */
  class NesGame {
    var level: nat
    var platforms: Grid
    var blockY: int
    var blockX: int

    constructor (level: nat, platforms: Grid)
      ensures this.level == level && this.platforms == platforms
      ensures blockY == 0 && blockX == 0
    {
      this.level := level;
      this.platforms := platforms;
      blockY, blockX := 0, 0;
    }

    /** The W/S part of `on_key_press`: edit the layer in place and, after an
        edit, write it to the level's file. */
    method OnKeyPress(disk: Disk, key: Key) returns (e: Option<Error>)
      modifies this, disk
      ensures level == old(level) && blockY == old(blockY) && blockX == old(blockX)
      ensures disk.files == old(disk.files)
      ensures var r := KeyEdit(old(platforms), blockY, blockX, key);
        match r
        case Err(err) => e == Some(err) && platforms == old(platforms) && disk.maps == old(disk.maps)
        case Ok(None) => e == None && platforms == old(platforms) && disk.maps == old(disk.maps)
        case Ok(Some(h)) =>
          e == None && platforms == h && disk.maps == old(disk.maps)[LevelName(level) := WriteMap(h, MapSize)]
    {
      var cell := CellAt(platforms, blockY, blockX);
      var cur := 0;
      if cell.Some? {
        cur := platforms[cell.value.0][cell.value.1];
      }
      if key == KeyS && cur > 0 {
        var (r, c) := cell.value;
        platforms := platforms[r := platforms[r][c := platforms[r][c] - 1]];
        disk.WriteText(LevelName(level), WriteMap(platforms, MapSize));
      }
      if key == KeyW && cur < 15 {
        if cell.None? {
          return Some(IndexError);
        }
        var (r, c) := cell.value;
        platforms := platforms[r := platforms[r][c := platforms[r][c] + 1]];
        disk.WriteText(LevelName(level), WriteMap(platforms, MapSize));
      }
      e := None;
    }
  }
}
