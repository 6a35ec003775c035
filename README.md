# ByteBiter codec in Dafny

ByteBiter turns the bytes of a file into platformer levels and back. Each byte
becomes its two hex nibbles, high nibble first (`byte_to_hex`). The nibbles
are cut into pieces of N·N cells. Only the last piece is padded. Each piece is
reshaped row-major into an N x N grid and written as a Tiled map file
`level_XXXXXXXX.tmx`: six header lines, one comma-separated line per grid row,
then a three-line footer.

Decoding reads the level files in a listed order and keeps the lines between
the first six and the last four. It drops the pad tokens, pairs consecutive
nibbles with `zip` and joins each pair into a byte (`hex_to_byte`). The
source file is then copied to `NAME.bak` and overwritten from offset 0. The
game also builds an item menu: a zero grid with the nibbles of menu item i on
row 2i. Its W and S keys raise or lower the cell the player stands on.

There are three variants of the code, and each is its own module:

- `Game` (main.py) uses N = 32 and the file `Alice`. The pad is -1, and
  `hex_to_byte` turns a pair holding -1 into a space. Decoding pairs cells
  level by level, and the backup is made only when none exists.
- `ByteBiter` (bytebiter.py) uses N = 64. Its `hex_to_byte` has no -1 guard,
  and its level text comes from `gen_map_file` printed into the file.
- `MapGen` (map_gen.py) uses N = 64 and the file `smb3.nes`. It stores each
  nibble plus one and pads with 0. It decodes line by line, so each data line
  with real cells gives one piece of output. It backs up the file on every
  run.

Shared modules:

- `Base`: `byte`, `Option`, `Result` and the Python exceptions raised.
- `PyText` and `PyNum`: models of the Python text operations the level
  files depend on, over ASCII text: `str.split`, `str.join`, slices with negative bounds, `str`,
  `int`, `hex`, `zfill` and `int(s, 16)`.
- `Nibble`: the byte⇄nibble conversions and the `zip` pairing.
- `Grid`: chunking and in-place padding of the last piece, and the reshape.
- `Tmx`: the text of a level file.
- `Disk`: a class holding the binary files and the `./Maps` text files as
  two maps, with `br+` writes that never truncate.
- `Codec`: the encode, decode and patch-back shared by main.py and
  bytebiter.py.
- `Menu`: `gen_item_menu`.

The loops of the source are methods with loop invariants, each proved equal
to a specification function. The round trips are proved about those
functions:

- `Codec.RoundTrip` and `Codec.PatchedRoundTrip`: encoding and then
  decoding gives the file back, for any even N.
- `Game.RoundTripAtRest` (N = 32) and `ByteBiter.RoundTripAtRest` (N = 64):
  the same at the program's fixed `MapSize` only.
- `MapGen.BuryRoundTrip` (any even N) and `MapGen.PatchRoundTrip` (N = 64):
  the same for map_gen's line-wise decoding.

Every one of these assumes that the list of level files being read is
exactly the names of the levels just written, in level order. The source
does not ensure this. main.py:28-32, bytebiter.py:9-13 and map_gen.py:8
take the listing once, when the module is loaded. main.py then deletes the
files it listed before writing new ones. If `./Maps` held no level files at
start-up, the decoding loops (main.py:121, bytebiter.py:64, map_gen.py:49)
run over an empty list and the file is not restored from the levels. The
operations themselves take the listing as a parameter, so these cases are
modelled, but the round trips do not cover them.

The code never truncates the file. A shorter output leaves the old bytes past
it in place (`Disk.OverwriteFromStart`), and the model follows the code on
this.

Not part of the model:

- The directory listing. Each decoding operation takes the list of level
  file names (`MAP_DIR` / `map_dir`) as a parameter.
- The clock, the window and the player's position. The cell edited by W/S is
  held as state in `Game.NesGame`.

## Model

| member | source | states |
|---|---|---|
| Base.FlattenAppend | main.py:101 | flattening a concatenation of two lists of lists is the concatenation of their flattenings |
| Base.FlattenSnoc | main.py:101 | flattening a list extended by one piece appends that piece |
| Base.FlattenMember | main.py:101 | every element of every piece occurs in the flattened list |
| Base.Fill | main.py:107 | `[v] * k` has length k and every element equal to v |
| Base.FillAppend | main.py:107 | `[v] * (j + k)` is `[v] * j + [v] * k` |
| Base.Concat | main.py:120-133 | two steps succeed exactly when both do, giving both results in order; otherwise the first error is raised |
| PyText.Split | main.py:125 | `s.split(c)` returns at least one part, and no part contains the separator |
| PyText.SplitFirst | main.py:125 | splitting at the first separator yields the text before it, then the split of the rest |
| PyText.SplitJoin | main.py:125 | splitting a join gives back the parts when no part contains the separator |
| PyText.JoinAppend | main.py:125 | joining two non-empty lists puts one separator between their joins |
| PyText.SliceBound | main.py:125 | a slice bound counts from the end when negative and is clamped to 0..n |
| PyText.SliceMiddle | main.py:125 | `[6:-4]` of six lines, the data, and four lines is exactly the data |
| PyText.SliceShort | main.py:125 | `[6:-4]` of at most ten lines is empty |
| PyNum.DigitChar | main.py:114 | a decimal digit character encodes its digit value |
| PyNum.NatStr | main.py:114 | `str(n)` of a natural number consists of decimal digits |
| PyNum.NatStrValue | main.py:114 | reading the digits of `str(n)` gives n |
| PyNum.ParseStr | main.py:127 | `int(str(v)) == v` for every integer, negative ones included |
| PyNum.StrToken | main.py:54-55 | `str(v)` is a non-empty token with no comma and no newline, and equals "-1" exactly when v = -1 |
| PyNum.NatStrPlain | main.py:34-39 | the width and height written into the header contain no newline and no quote |
| PyNum.HexNat | main.py:67 | the hex digits of a number are never empty |
| PyNum.Hex | main.py:67 | `hex(v)` has at least three characters |
| PyNum.ZFill | main.py:67 | `zfill(w)` pads to width w and leaves longer strings at their length |
| PyNum.IntBase16Pair | main.py:82 | `int(a + b, 16)` of two characters is 16 times the first digit plus the second, and raises when either is no hex digit |
| PyNum.HexDigitRoundTrip | main.py:68 | a hex digit character reads back as its value |
| PyNum.LeadHexDigit | main.py:82 | the most significant hex digit of n is below 16, and is n itself when n < 16 |
| PyNum.HexNatLead | main.py:82 | the first character of the hex digits of n is its most significant digit |
| PyNum.HexThirdChar | main.py:82 | `hex(v)[2]` is the leading digit when v >= 0, and 'x' when v < 0 |
| PyNum.ByteHexString | main.py:67 | `hex(b)[2:].zfill(2)` is the two hex digits of the byte, high first |
| Nibble.ByteToHex | main.py:58-68 | `byte_to_hex(b)` is (b div 16, b mod 16), both in 0..15 |
| Nibble.PairToByte | bytebiter.py:37-39 | bytebiter's `hex_to_byte` raises ValueError when either value is negative, and otherwise joins the leading hex digits of the two values |
| Nibble.PairDigits | bytebiter.py:39 | the string built from the two leading hex digits reads as 16 times the first digit plus the second |
| Nibble.PairToByteNibbles | bytebiter.py:39 | two nibbles h, l give the byte 16·h+l |
| Nibble.Nibbles | main.py:101 | the flattened `byte_to_hex` pairs number twice the bytes, and each lies in 0..15 |
| Nibble.NibblesAt | main.py:101 | the high nibble of byte k is at cell 2k and the low one at 2k+1 |
| Nibble.NibblesOne | main.py:101 | one byte gives exactly its high and low nibbles |
| Nibble.NibblesAppend | main.py:101 | the nibbles of a concatenation are the concatenation of the nibbles |
| Nibble.EveryOther | main.py:130 | `xs[::2]` has ceil(n/2) elements, element k being `xs[2k]` |
| Nibble.Zip | main.py:130 | `zip` stops at the shorter list and pairs equal positions |
| Nibble.PairsAt | main.py:130 | pairing gives floor(n/2) pairs, pair k being (xs[2k], xs[2k+1]) |
| Nibble.PairUp | main.py:130 | `zip(xs[::2], xs[1::2])` is the list of consecutive pairs |
| Nibble.PairsAppend | main.py:130 | pairs never span two lists when the first has even length |
| Nibble.PairsDropOdd | main.py:130 | a trailing unpaired value is silently dropped |
| Nibble.NibblePairsCons | main.py:130 | the first pair of the nibbles of some bytes is the first byte's high and low nibble |
| Nibble.RecombineCons | main.py:133 | recombining a pair then more pairs puts the pair's byte first |
| Nibble.RecombineNibbles | main.py:133 | pairing the nibbles of some bytes and recombining them with any inverse of `byte_to_hex` gives the bytes back |
| Nibble.RecombineAppend | main.py:133 | recombining two lists of pairs one after the other is recombining each, the first error winning |
| Nibble.RecombineOne | main.py:133 | a single pair recombines to its byte or to its error |
| Grid.Chunks | main.py:104 | the chunks concatenate back to the input; each is non-empty and at most `size` long, and all but the last are exactly `size` long |
| Grid.ChunksCount | main.py:104 | there are ceil(\|xs\| / size) chunks |
| Grid.ChunksFull | main.py:104 | a list starting with a full chunk cuts into that chunk, then the chunks of the rest |
| Grid.PadLastInPlace | main.py:107 | padding the last chunk is the in-place update of that element with `[pad] * (size - len)` |
| Grid.LevelsEmpty | main.py:107 | padding fails with IndexError exactly when there are no cells |
| Grid.LevelsCount | main.py:104-107 | a non-empty input gives ceil(\|cells\| / size) levels |
| Grid.LevelsWidth | main.py:104-107 | every level, the padded last one included, has exactly `size` cells |
| Grid.LevelsPrefix | main.py:104-107 | every level but the last is the corresponding chunk, untouched |
| Grid.LevelsBeforeLast | main.py:104-107 | a level before the last holds only input cells, never a pad |
| Grid.PadLastFlat | main.py:107 | padding adds the pads at the very end of the flattened cells |
| Grid.LevelsCells | main.py:104-107 | laid end to end, the levels are the cells followed by fewer than `size` pads |
| Grid.LevelsCellsCount | main.py:104-107 | the levels of m cells have `size` cells each, and laid end to end they are the m cells followed by fewer than `size` pads |
| Grid.FlattenFull | main.py:104-107 | m pieces of `size` cells flatten to m·size cells |
| Grid.PaddingNoOp | main.py:104-107 | when the cell count is m·size there are m levels and no pads |
| Grid.LevelsExact | main.py:104-107 | padding adds nothing when the cell count is a multiple of `size` |
| Grid.LevelsPads | main.py:104-107 | the padding is below `size`, consists of pad values only, and is empty for exact multiples |
| Grid.LevelsSingle | main.py:104-107 | cells that fit in one level give one level padded to `size` |
| Grid.PadLastCons | main.py:107 | padding the last of x and more chunks keeps x first |
| Grid.LevelsFull | main.py:104-107 | a full first level is kept as it is and the rest is cut the same way |
| Grid.Reshape | main.py:110 | the row-major reshape keeps the cells in order, in rows of at most n |
| Grid.ReshapeSquare | main.py:110 | an n·n chunk becomes n rows of n cells |
| Tmx.Strs | main.py:54 | one `str` token per cell |
| Tmx.RowTexts | main.py:54 | one data line per grid row |
| Tmx.PrintedEqualsWriteMap | bytebiter.py:53-57 | printing `gen_map_file(shape, savetxt text)` leaves exactly the text `write_map` writes |
| Tmx.SaveTxtJoin | main.py:54 | the `savetxt` text of a non-empty grid is its row lines joined by newlines, with a final newline |
| Tmx.JoinAvoids | main.py:54 | joining parts that lack a character does not introduce it |
| Tmx.StrsTokens | main.py:54 | every written cell token is non-empty and contains no comma or newline |
| Tmx.RowTextPlain | main.py:54 | a data line contains no newline |
| Tmx.RowTextsPlain | main.py:54 | no data line contains a newline |
| Tmx.AttrLinePlain | main.py:34-39 | a header line with width and height filled in contains no newline |
| Tmx.HeaderPlain | main.py:34-39 | none of the six header lines contains a newline |
| Tmx.FooterPlain | main.py:41-43 | none of the footer lines contains a newline |
| Tmx.LinesJoin | main.py:54-55 | header, data lines and footer, each followed by a newline, form their lines joined by newlines |
| Tmx.WriteMapJoin | main.py:46-55 | a level file is its header, data and footer lines joined by newlines, with a final newline |
| Tmx.FileLines | main.py:46-55 | splitting a level file at newlines gives six header lines, one line per row, three footer lines and a final empty string |
| Tmx.DataRows | main.py:125 | `split('\n')[6:-4]` of a level file is exactly its data rows |
| Tmx.StrsAppend | main.py:54 | the tokens of two rows are the tokens of each |
| Tmx.RowsTokens | main.py:125 | comma-joining the data rows and splitting at commas gives the cell tokens in row-major order |
| Tmx.JoinRows | main.py:125 | comma-joining the rows is comma-joining all cell tokens |
| Disk.BackupName | main.py:136 | `NAME.bak` extends the name and differs from it |
| Disk.Overwrite | main.py:142-144 | a `br+` write at a position keeps the bytes before and after the written range and grows the file only past its end |
| Disk.OverwriteThen | main.py:143-144 | two writes in a row equal one write of both pieces |
| Disk.OverwriteFromStart | main.py:142-144 | the new file is the output followed by the old bytes past it; there is no truncation |
| Disk.OverwriteSame | main.py:142-144 | writing a file's own bytes over it leaves it unchanged |
| Disk.OverwriteNothing | bytebiter.py:74 | `write(b'')` at the end of the file changes nothing |
| Disk.PatchOnceEffect | main.py:135-144 | the patch fails exactly when the source is missing; on success a backup made now holds the old source, an existing backup is kept, the source is output then old tail, and nothing else changes |
| Disk.PatchOnceTwice | main.py:135-139 | after two patches the backup still holds the source from before the first |
| Disk.PatchAlwaysTwice | map_gen.py:246-249 | map_gen's second patch replaces the backup with the already patched source |
| Disk.PatchOnceSame | main.py:142-144 | patching with a file's own bytes leaves it unchanged |
| Disk.PatchOnceRestores | main.py:135-144 | patching with a file's own bytes leaves it unchanged and the backup holding it, unless a backup existed |
| Disk.PatchAlwaysRestores | map_gen.py:246-253 | map_gen's patch with the file's own bytes leaves it unchanged and the backup holding it |
| Disk.ClearedAll | main.py:31-32 | removing distinct listed files that all exist removes exactly them |
| Disk.ClearMaps | main.py:31-32 | the removal loop ends in the state `Cleared` describes, or raises its first FileNotFound |
| Disk.ClearedErr | main.py:31-32 | once a prefix of the list fails, the whole loop fails the same way |
| Disk.Disk.ReadBytes | main.py:99-101 | reading a file gives its contents, or FileNotFound exactly when it is missing |
| Disk.Disk.ReadText | main.py:122 | reading a level file gives its text, or FileNotFound exactly when it is missing |
| Disk.Disk.WriteText | main.py:54-55 | writing a level file replaces that file only |
| Disk.Disk.RemoveText | main.py:32 | `os.remove` deletes the file, or raises FileNotFound when it is missing |
| Disk.Disk.CopyFile | main.py:137-139 | the destination becomes a copy of the source and nothing else changes |
| Disk.Disk.WriteAt | main.py:144 | one write updates the file as `Overwrite` says |
| Disk.Disk.WriteChunks | main.py:142-144 | writing the chunks one after the other overwrites the file from offset 0 with their concatenation |
| Codec.LeadingZeros | main.py:114 | leading zeros do not change the value of a digit string |
| Codec.LevelNameNumber | main.py:114 | the number read back from `level_{k:0>8}.tmx` is k |
| Codec.LevelNameInjective | main.py:114 | different level numbers get different file names |
| Codec.LevelNames | main.py:112-114 | the first m level names, name k being that of level k |
| Codec.Reshapes | main.py:110 | one grid per level, each the reshape of its level |
| Codec.GridCellsReshapes | main.py:110 | the cells of the reshaped grids are the cells of the levels |
| Codec.EncodeEmpty | main.py:107 | encoding fails with IndexError exactly for an empty file |
| Codec.EncodeCount | main.py:101-110 | a file of L > 0 bytes gives ceil(2L / N²) levels |
| Codec.EncodeSquare | main.py:110 | every level is an N x N grid |
| Codec.EncodeValue | main.py:101-110 | the levels are the reshaped pieces of the nibbles, padded with -1 |
| Codec.ReshapesSquare | main.py:110 | N²-cell levels reshape to N x N grids |
| Codec.EncodeRealBeforeLast | main.py:104-107 | every level but the last holds only real nibbles, never the -1 pad |
| Codec.EncodeCellsExact | main.py:104-107 | there are no pads when 2L is a multiple of N² |
| Codec.PaddedInPlace | main.py:104-110 | cutting, padding the last piece in place and reshaping is the encoding; an empty file gives no pieces |
| Codec.CutLevels | main.py:104-107 | cutting the cells into n·n pieces and padding the last one raises `IndexError` exactly when the file is empty; otherwise every piece has n·n cells and reshaped they are the encoding of the file |
| Codec.EncodeFlat | main.py:101-110 | the grids hold the cells of the flat levels, in order |
| Codec.RealCells | main.py:127 | dropping the pads never lengthens the list |
| Codec.RealCellsMember | main.py:127 | exactly the -1 cells are dropped; 0 and every other value are kept |
| Codec.RealCellsAppend | main.py:127 | dropping pads distributes over concatenation |
| Codec.RealCellsPad | main.py:127 | a run of pads disappears entirely |
| Codec.RealCellsKeep | main.py:127 | a list without pads is kept whole |
| Codec.KeptInts | main.py:127 | the only error the token filter raises is ValueError |
| Codec.KeptStrs | main.py:125-127 | reading back the tokens of some cells gives exactly the cells that are not -1, and raises nothing |
| Codec.LevelCellsOfRows | main.py:125-127 | a text whose data lines are a grid's rows reads back to the grid's real cells |
| Codec.LevelPairs | main.py:130 | one list of pairs per level |
| Codec.LevelPairsAt | main.py:130 | level k's pairs are the consecutive pairs of its real cells |
| Codec.LevelPairsOdd | main.py:127-130 | a level with an odd count of real cells loses its last one, and no pair takes cells from two levels |
| Codec.ReadPairs | main.py:121-130 | on success there is one list of pairs per listed file |
| Codec.ReadLevelPairs | main.py:120-130 | the `paired_data` loop returns `ReadPairs` of the level files: the first missing file or malformed number raises |
| Codec.ReadPairsErr | main.py:121-130 | once a prefix of the list fails, the whole list fails the same way |
| Codec.Decoded | main.py:133 | on success there is one output chunk per level |
| Codec.DecodedCons | main.py:133 | decoding a first level then more puts that level's bytes first |
| Codec.DecodeSingle | main.py:101-133 | a file that fits in one level decodes back to itself |
| Codec.DecodeStep | main.py:101-133 | a full first level decodes to the first N²/2 bytes, and the rest decodes on its own |
| Codec.DecodeLevels | main.py:101-133 | when the level size is even, the decoded levels concatenate to the original file |
| Codec.LevelTexts | main.py:112-114 | the text written for grid k is `write_map` of grid k |
| Codec.SavedLevelsAt | main.py:112-114 | after saving, level file k holds text k |
| Codec.SavedLevelsOther | main.py:112-114 | saving touches no file but the level files |
| Codec.SavedLevelsStep | main.py:112-114 | saving one more level updates only that level's file |
| Codec.SaveMaps | main.py:112-114 | the saving loop leaves the `./Maps` files as `SavedLevels` says and the binary files unchanged |
| Codec.PrintLevels | bytebiter.py:51-57 | reshaping each level and printing its `gen_map_file` text saves the same files as main.py's `write_map` loop |
| Codec.LevelPairsSnoc | main.py:130 | the pairs of one more level are appended at the end |
| Codec.ReadSaved | main.py:120-130 | reading saved level files back in level order pairs the real cells of each grid |
| Codec.TextsOfLevels | main.py:110-114 | the files written for N²-cell levels hold N x N grids, and their data lines are the grid rows |
| Codec.ReadBackLevels | main.py:96-130 | level files written and read back in order give the pairs of the real cells of each level |
| Codec.PatchedRoundTrip | main.py:96-144 | writing the level files of a file and patching them back, with the listing exactly the written names in level order, leaves the file unchanged and the backup holding it, unless a backup existed, for even N |
| Codec.RoundTrip | main.py:96-133 | encoding a file into level files and decoding them, with the listing exactly the written names in level order, gives its bytes back, for even N |
| Menu.MenuCell | main.py:152-161 | every menu cell is a nibble or 0 |
| Menu.MenuError | main.py:161 | the first error is IndexError when an item has no row 2i, or ValueError when its nibbles do not fit in the row |
| Menu.MenuFits | main.py:161 | no error is raised exactly when 2i < N and 2·\|item i\| <= N for every item i |
| Menu.MenuGrid | main.py:147-161 | the menu fails exactly when an item does not fit, and is otherwise N x N |
| Menu.MenuRow | main.py:157-161 | row 2i starts with the nibbles of item i, which recombine to the item, and the rest of the row is 0 |
| Menu.MenuBlank | main.py:152-161 | odd rows and the rows after the last item are all 0 |
| Menu.BuildMenu | main.py:152-161 | the array loop fails exactly as `MenuError` says; otherwise it returns a fresh N x N array holding the menu cells |
| Menu.PlaceRow | main.py:161 | the slice assignment changes only the first cells of that row |
| Menu.MenuStep | main.py:154-161 | placing item k changes only the first 2·\|item k\| cells of row 2k |
| Menu.Rows | main.py:164 | the rows of an array hold its cells |
| Menu.RowsAreMenu | main.py:152-164 | the rows of the built array are the menu grid |
| Game.HexToByte | main.py:71-82 | a pair holding -1 gives a space; nibbles h, l give 16·h+l; other negative values raise ValueError |
| Game.HexToByteInverts | main.py:79-82 | `hex_to_byte` maps every pair of nibbles to the byte they make |
| Game.HexToByteRoundTrip | main.py:58-82 | `hex_to_byte(byte_to_hex(b))` is b for every byte |
| Game.FileToLevels | main.py:96-114 | fails with FileNotFound or IndexError (empty file) and writes nothing; otherwise writes the 32 x 32 level files of the file |
| Game.LevelsToFile | main.py:117-144 | the binary files become `Patched` of the listed level files, or stay unchanged with `Patched`'s error |
| Game.RoundTripAtRest | main.py:96-144 | at N = 32, file_to_levels then levels_to_file with the listing exactly the written names leaves `Alice` unchanged and its backup holding it, unless a backup existed |
| Game.GenItemMenu | main.py:147-164 | writes `Menu.tmx` from the menu grid, or raises the menu's error and writes nothing |
| Game.PyIndex | main.py:270-273 | Python indexing succeeds exactly for -n <= i < n, counting negative indices from the end |
| Game.CellAt | main.py:270-273 | a found cell position is inside the grid |
| Game.KeyEdit | main.py:270-293 | W raises IndexError exactly when the cell is out of range; nothing is edited exactly for other keys, for S on a cell <= 0 and for W on a cell >= 15 |
| Game.KeyEditCell | main.py:286-293 | an edit changes only the cell stepped on, by one in the key's direction, and keeps the grid's shape |
| Game.KeyEditBounds | main.py:286-293 | a cell in -1..15 is left in 0..15 after an edit, and W turns a -1 pad into 0 |
| Game.NesGame.OnKeyPress | main.py:258-293 | the layer and the level file change as `KeyEdit` says, and the error is reported as `KeyEdit`'s |
| MapGen.Shift | map_gen.py:33 | every cell moved by d, the length kept |
| MapGen.ShiftAppend | map_gen.py:31-36 | shifting distributes over concatenation |
| MapGen.RomCells | map_gen.py:31-36 | stored cells lie in 1..16: byte k's high nibble plus one at 2k and its low nibble plus one at 2k+1 |
| MapGen.RomStep | map_gen.py:31-33 | one more byte appends its two shifted nibbles |
| MapGen.GetDataSpec | map_gen.py:27-44 | fails exactly for a missing file (FileNotFound) or an empty one (IndexError) |
| MapGen.GetData | map_gen.py:27-44 | the appending loop and the in-place padding return `GetDataSpec` |
| MapGen.SaveLevels | map_gen.py:235-242 | writes the 64 x 64 level files of the file's pieces, or raises `get_data`'s error and writes nothing |
| MapGen.WriteToMap | map_gen.py:220-225 | writes one level file, under its number, and nothing else |
| MapGen.Decremented | map_gen.py:52 | one value per token; a malformed token raises ValueError |
| MapGen.DecrementedStrs | map_gen.py:52 | reading back the tokens of some cells gives each cell less one |
| MapGen.BuryCells | map_gen.py:52-56 | a line gives nothing exactly when it has no real cells |
| MapGen.Piece | map_gen.py:53-57 | a line with real cells gives one output piece, a line without gives none, and errors pass through |
| MapGen.BuryLines | map_gen.py:51-57 | there are at most as many pieces as lines |
| MapGen.BuryLinesAppend | map_gen.py:51-57 | the pieces of two runs of lines are those of each, the first error winning |
| MapGen.Repair | map_gen.py:54-56 | the `repaired` loop recombines the consecutive pairs of the line |
| MapGen.RepairPairs | map_gen.py:54-56 | the loop over the pairs returns their recombination, stopping at the first error |
| MapGen.BuryLevel | map_gen.py:50-57 | the inner loop over one file's data lines returns `BuryText` |
| MapGen.BuryLineOnce | map_gen.py:52-57 | one pass of the inner loop returns the pieces of that line |
| MapGen.BuryData | map_gen.py:47-58 | `bury_data` returns `BuryAll` of the listed files |
| MapGen.BuryFile | map_gen.py:49-57 | one level file read and buried gives `BuryText` of its contents, or `FileNotFound` when it is missing |
| MapGen.BuryAllErr | map_gen.py:47-58 | once a prefix of the list fails, the whole list fails the same way |
| MapGen.UnpadMember | map_gen.py:52 | after subtracting one and dropping -1, exactly the 0 pads are removed |
| MapGen.RowsBytes | map_gen.py:51-57 | there are at most as many pieces as rows |
| MapGen.RowsBytesAppend | map_gen.py:51-57 | the pieces of two runs of rows are those of each |
| MapGen.BuryLineRow | map_gen.py:52-57 | a written data line reads back as its row less one |
| MapGen.BuryLinesRows | map_gen.py:51-57 | a grid's data lines read back as its rows |
| MapGen.ReadBuried | map_gen.py:47-58 | burying saved level files in level order reads back all grid rows |
| MapGen.PadRows | map_gen.py:53 | rows of pads only give no output |
| MapGen.Unshift | map_gen.py:33 | subtracting one from stored cells and pads gives the nibbles and -1s |
| MapGen.DropPads | map_gen.py:52 | dropping the -1s after some nibbles leaves the nibbles |
| MapGen.RowOf | map_gen.py:52-57 | a row holding the cells of some bytes, then pads, reads back as those bytes, or as nothing when there are none |
| MapGen.CellsRows | map_gen.py:51-57 | rows of N cells holding a file's cells and then pads read back as the file when N is even, since a row never splits a byte |
| MapGen.LastRowBytes | map_gen.py:51-57 | the row holding the last bytes, followed by pad rows, reads back as those bytes |
| MapGen.FullRow | map_gen.py:51-57 | a full first row holds the cells of the first N/2 bytes |
| MapGen.LastRow | map_gen.py:51-57 | a first row holding all the remaining bytes is followed only by pads |
| MapGen.RowsWidth | map_gen.py:236 | the rows of N x N grids have N cells |
| MapGen.RowsCells | map_gen.py:236 | the cells of all the rows are the cells of the levels |
| MapGen.GridRows | map_gen.py:236 | the rows of the reshaped levels, laid end to end, are the level cells, N to a row |
| MapGen.LevelRowsBytes | map_gen.py:36-57 | the rows of the grids of a file, read back in order, give the file |
| MapGen.GridsBytes | map_gen.py:47-58 | square levels whose cells are the shifted nibbles of some bytes followed by 0 pads are buried, row by row, back into exactly those bytes |
| MapGen.BuryRoundTrip | map_gen.py:27-58 | writing a file's level files and burying them, with the listing exactly the written names in level order, gives the file back, for any even N |
| MapGen.ReadLevels | map_gen.py:235-242 | burying the written files of N x N levels reads back all their rows |
| MapGen.PatchBack | map_gen.py:246-253 | the file is always backed up and then overwritten from offset 0 with what `bury_data` returns; if that raises, only the backup is made |
| MapGen.PatchRoundTrip | map_gen.py:235-253 | at N = 64, writing the level files of `smb3.nes` and patching them back with the listing exactly the written names leaves it unchanged and the backup holding it |
| MapGen.Masked | map_gen.py:231 | `value * (value > 4)` is the value or 0, and 0 exactly for values <= 4 |
| MapGen.MaskedTwice | map_gen.py:231 | masking twice is masking once |
| MapGen.MaskedCells | map_gen.py:231 | on stored cells the mask clears the pad and the nibbles 0..3 and keeps 4..15 |
| MapGen.MaskOutZeros | map_gen.py:228-232 | a fresh array of the same shape holding each cell masked |
| ByteBiter.FileToLevels | bytebiter.py:42-59 | fails with FileNotFound or IndexError and writes nothing; otherwise writes the 64 x 64 level files of the file |
| ByteBiter.LevelsToFile | bytebiter.py:62-78 | the binary files become `Patched` of the listed level files with the unguarded `hex_to_byte`, or stay unchanged with its error |
| ByteBiter.BackUp | bytebiter.py:70-74 | the backup copy is made only when there is none yet, the file itself is left as it was, and a missing file fails with `FileNotFound` and changes nothing |
| ByteBiter.PairToByteInverts | bytebiter.py:37-39 | the unguarded `hex_to_byte` inverts `byte_to_hex` on every pair of nibbles |
| ByteBiter.RoundTripAtRest | bytebiter.py:42-78 | at N = 64, file_to_levels then levels_to_file with the listing exactly the written names leaves the file unchanged and the backup holding it, unless a backup existed |
| ByteBiter.GenItemMenu | bytebiter.py:94-100 | returns the 64 x 64 menu grid, or the first item's error |
| ByteBiter.MainMenu | bytebiter.py:103-104 | the menu of `b'Play()'` and `b'main()'` fits, and rows 0 and 2 read back as the two items |

## Left out

- The `arcade` window, sprites, physics, viewport scrolling, level switching
  and `load_level` (main.py:177-359, map_gen.py:76-211). These are third-party
  UI code with float coordinates. The cell the player stands on is state of
  `Game.NesGame`.
- `on_draw` and `get_block` (main.py:85-93, 229-256): drawing text with its
  `round` and `str` formatting. `Game.HexToByte` models the `hex_to_byte`
  it calls.
- The UP, DOWN, LEFT, RIGHT and ESCAPE keys of `on_key_press`. They only move
  the sprite or close the window.
- The SPACE edit of map_gen.py:138-141. It is UI-bound, and its condition
  reads the window's loaded map.
- `write_wrapper` and the two processes of main.py:167-174 and 370-396.
  Their point is concurrency racing on the files. The model has the two
  operations they loop over.
- The interactive `main()` call between map_gen's writing and patching
  (map_gen.py:244). The model has the steps before and after it.
- `os.listdir`, `sorted` and the `.tmx` filter. The list of level file names
  is a parameter of each decoding operation, as the listing is taken once at
  import time. With this, a listing that no longer matches the written files
  is modelled rather than excluded.
- The temporary `./Maps/map_data.csv` of map_gen.py and bytebiter.py. It is
  written and read back unchanged, so the model passes its text directly.
- `lru_cache`, which is transparent memoisation.
- bytebiter.py:100 formats the numpy `str()` of the menu array into the
  template. `ByteBiter.GenItemMenu` returns the grid built there and not
  that text.
- `int()` also accepts surrounding whitespace, `_` separators and non-ASCII
  Unicode decimal digits (such as Arabic-Indic digits), and `int(s, 16)`
  accepts those digits as well. The level files written by the codec never
  contain them. `PyNum.ParseInt` and `PyNum.IntBase16` take only ASCII digits
  and reject the rest.
- MaskOutZeros: models the evidently intended `np.zeros` of the same shape.
  The source's `np.zeros(shape=level_to_mask)` uses the array's values as
  its shape, and the program never calls the function.
- `__main__` of bytebiter.py prints the menu text to standard output. The
  model has the menu only (`ByteBiter.MainMenu`).
