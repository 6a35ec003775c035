/** map_gen.py: the variant with N = 64 for the file `smb3.nes` that stores
    every nibble plus one, pads the last level with 0, and decodes the level
    files line by line, so that every data line with real cells becomes one
    piece of output. */
module MapGen {
  import opened Base
  import opened PyText
  import opened PyNum
  import opened Nibble
  import opened Grid
  import opened Tmx
  import opened Disk
  import opened Codec

  /** `MAP_SIZE`: each level is 64 x 64 cells. */
  const MapSize: nat := 64
  /** `my_file`: the file explored and patched. */
  const MyFile: string := "smb3.nes"
  /** The pad after the last real cell; a real cell is at least 1. */
  const ZeroPad: int := 0

  /** Every cell moved by d. */
  function Shift(xs: seq<int>, d: int): (ys: seq<int>)
    ensures |ys| == |xs| && forall i {:trigger ys[i]} :: 0 <= i < |xs| ==> ys[i] == xs[i] + d
  {
    if xs == [] then [] else [xs[0] + d] + Shift(xs[1..], d)
  }

  lemma {:induction false} ShiftAppend(a: seq<int>, b: seq<int>, d: int)
    ensures Shift(a + b, d) == Shift(a, d) + Shift(b, d)
  {
    if a == [] {
      assert a + b == b;
    } else {
      assert (a + b)[0] == a[0] && (a + b)[1..] == a[1..] + b;
      ShiftAppend(a[1..], b, d);
    }
  }

  // -------------------------------------------------------------- get_data

  /** The cells `get_data` makes of a file: the nibbles, each plus one. They
      lie in 1..16, the high nibble of byte k at 2k and the low one at 2k+1. */
  lemma RomCells(data: seq<byte>, k: nat)
    requires k < |data|
    ensures var cells := Shift(Nibbles(data), 1);
      && |cells| == 2 * |data|
      && cells[2 * k] == data[k] / 16 + 1 && cells[2 * k + 1] == data[k] % 16 + 1
      && 1 <= cells[2 * k] <= 16 && 1 <= cells[2 * k + 1] <= 16
  {
    NibblesAt(data, k);
  }

  /** One more byte adds its two cells at the end. */
  lemma RomStep(data: seq<byte>, i: nat)
    requires i < |data|
    ensures Shift(Nibbles(data[..i + 1]), 1) == Shift(Nibbles(data[..i]), 1) + [data[i] / 16 + 1, data[i] % 16 + 1]
  {
    TakeSnoc(data, i + 1);
    ShiftNibblesSnoc(data[..i], data[i]);
    ShiftByte(data[i]);
  }

  lemma ShiftNibblesSnoc(pre: seq<byte>, b: byte)
    ensures Shift(Nibbles(pre + [b]), 1) == Shift(Nibbles(pre), 1) + Shift(Nibbles([b]), 1)
  {
    NibblesAppend(pre, [b]);
    ShiftAppend(Nibbles(pre), Nibbles([b]), 1);
  }

  lemma ShiftByte(b: byte)
    ensures Shift(Nibbles([b]), 1) == [b / 16 + 1, b % 16 + 1]
  {
    NibblesOne(b);
  }

  /** What `get_data` returns for the files on disk. */
  function GetDataSpec(files: map<string, seq<byte>>, inputFile: string): (r: Result<seq<seq<int>>>)
    ensures r.Err? <==> inputFile !in files || files[inputFile] == []
    ensures r.Err? ==> r.error == if inputFile in files then IndexError else FileNotFound
  {
    if inputFile in files
    then
      LevelsEmpty(Shift(Nibbles(files[inputFile]), 1), MapSize * MapSize, ZeroPad);
      Levels(Shift(Nibbles(files[inputFile]), 1), MapSize * MapSize, ZeroPad)
    else Err(FileNotFound)
  }

  /** `get_data`: the cells of the file, cut into 64*64-cell pieces, the last
      padded in place with 0; an empty file has no last piece and raises. */
  method GetData(disk: Disk, inputFile: string) returns (r: Result<seq<seq<int>>>)
    ensures r == GetDataSpec(disk.files, inputFile)
  {
    var input := disk.ReadBytes(inputFile);
    if input.Err? {
      return Err(input.error);
    }
    var data := input.value;
    var marioRom: seq<seq<int>> := [];
    var i := 0;
    while i < |data|
      invariant 0 <= i <= |data|
      invariant Flatten(marioRom) == Shift(Nibbles(data[..i]), 1)
    {
      var v := ByteToHex(data[i]);
      var hi, lo := v.0, v.1;
      var pair := [hi + 1, lo + 1];
      assert pair == [data[i] / 16 + 1, data[i] % 16 + 1];
      FlattenSnoc(marioRom, pair);
      RomStep(data, i);
      marioRom := marioRom + [pair];
      i := i + 1;
    }
    assert data[..i] == data;
    var cells := Flatten(marioRom);
    var size := MapSize * MapSize;
    var compositeList := Chunks(cells, size);
    if compositeList == [] {
      return Err(IndexError);
    }
    PadLastInPlace(compositeList, size, ZeroPad);
    var last := compositeList[|compositeList| - 1];
    compositeList := compositeList[|compositeList| - 1 := last + Fill(ZeroPad, size - |last|)];
    r := Ok(compositeList);
  }

  // ------------------------------------------------------- the level files

  /** The start of the `__main__` block: the pieces of `get_data` reshaped
      to 64 x 64 and written as the level files. */
  method SaveLevels(disk: Disk, inputFile: string) returns (e: Option<Error>)
    modifies disk
    ensures disk.files == old(disk.files)
    ensures GetDataSpec(old(disk.files), inputFile).Err? ==>
      e == Some(GetDataSpec(old(disk.files), inputFile).error) && disk.maps == old(disk.maps)
    ensures GetDataSpec(old(disk.files), inputFile).Ok? ==>
      e.None? && disk.maps == SavedLevels(old(disk.maps), LevelTexts(Reshapes(GetDataSpec(old(disk.files), inputFile).value, MapSize), MapSize))
  {
    var levels := GetData(disk, inputFile);
    if levels.Err? {
      return Some(levels.error);
    }
    LevelsWidth(Shift(Nibbles(disk.files[inputFile]), 1), MapSize * MapSize, ZeroPad);
    PrintLevels(disk, levels.value, MapSize);
    e := None;
  }

  /** `write_to_map`: one level written the same way under its number. */
  method WriteToMap(disk: Disk, levelData: Grid, level: nat)
    modifies disk
    ensures disk.maps == old(disk.maps)[LevelName(level) := WriteMap(levelData, MapSize)]
    ensures disk.files == old(disk.files)
  {
    var platforms := GenMapFile(MapSize, MapSize, SaveTxt(levelData));
    PrintedEqualsWriteMap(levelData, MapSize);
    disk.WriteText(LevelName(level), platforms + "\n");
  }

  // ------------------------------------------------------------- bury_data

  /** `[(int(i) - 1) for i in tokens]`; a token that is no integer raises. */
  function Decremented(tokens: seq<string>): (r: Result<seq<int>>)
    ensures r.Ok? ==> |r.value| == |tokens|
    ensures r.Err? ==> r.error == ValueError
  {
    if tokens == [] then Ok([])
    else match ParseInt(tokens[0])
      case None => Err(ValueError)
      case Some(v) =>
        match Decremented(tokens[1..])
        case Err(e) => Err(e)
        case Ok(rest) => Ok([v - 1] + rest)
  }

  /** Reading back the `str` of some cells gives each cell less one. */
  lemma {:induction false} DecrementedStrs(xs: seq<int>)
    ensures Decremented(Strs(xs)) == Ok(Shift(xs, -1))
  {
    if xs != [] {
      ParseStr(xs[0]);
      DecrementedStrs(xs[1..]);
      assert Strs(xs)[1..] == Strs(xs[1..]);
      assert Shift(xs, -1) == [xs[0] - 1] + Shift(xs[1..], -1);
    }
  }

  /** The cells of one line, already less one: without the -1s, paired with
      `zip` and joined into bytes; `None` for a line with no real cells,
      which `if cur_rom_line` skips. */
  function BuryCells(vs: seq<int>): (r: Result<Option<seq<byte>>>)
    ensures r.Ok? && r.value.None? <==> RealCells(vs) == []
  {
    var line := RealCells(vs);
    if line == [] then Ok(None)
    else match Recombine(Pairs(line), PairToByte)
      case Err(e) => Err(e)
      case Ok(b) => Ok(Some(b))
  }

  /** One data line of a level file. */
  function BuryLine(line: string): Result<Option<seq<byte>>>
  {
    match Decremented(Split(line, ','))
    case Err(e) => Err(e)
    case Ok(vs) => BuryCells(vs)
  }

  /** A line with real cells gives
      one piece of output, a line without gives none. */
  function Piece(r: Result<Option<seq<byte>>>): (p: Result<seq<seq<byte>>>)
    ensures p.Ok? <==> r.Ok?
    ensures p.Ok? ==> p.value == if r.value.None? then [] else [r.value.value]
    ensures p.Err? ==> p.error == r.error
  {
    match r
    case Err(e) => Err(e)
    case Ok(None) => Ok([])
    case Ok(Some(b)) => Ok([b])
  }

  /** The pieces of output of some data lines, in order. */
  function BuryLines(lines: seq<string>): (r: Result<seq<seq<byte>>>)
    ensures r.Ok? ==> |r.value| <= |lines|
  {
    if lines == [] then Ok([])
    else Concat(Piece(BuryLine(lines[0])), BuryLines(lines[1..]))
  }

  lemma {:induction false} BuryLinesAppend(a: seq<string>, b: seq<string>)
    ensures BuryLines(a + b) == Concat(BuryLines(a), BuryLines(b))
  {
    if a == [] {
      assert a + b == b;
      ConcatNil(BuryLines(b));
    } else {
      assert (a + b)[0] == a[0] && (a + b)[1..] == a[1..] + b;
      BuryLinesAppend(a[1..], b);
      ConcatAssoc(Piece(BuryLine(a[0])), BuryLines(a[1..]), BuryLines(b));
    }
  }

  /** The pieces of output of one level file: its lines `[6:-4]`. */
  function BuryText(text: string): Result<seq<seq<byte>>>
  {
    BuryLines(PySlice(Split(text, '\n'), 6, -4))
  }

  /** `bury_data`: the pieces of every level file named in `mapDir`, in
      order; a missing file or a malformed number stops it at the first
      error. */
  function BuryAll(maps: map<string, string>, names: seq<string>): Result<seq<seq<byte>>>
    decreases |names|
  {
    if names == [] then Ok([])
    else
      var name := names[|names| - 1];
      Concat(BuryAll(maps, names[..|names| - 1]), if name in maps then BuryText(maps[name]) else Err(FileNotFound))
  }

  /** The `repaired` loop: the cells of a line paired with `zip` and each pair
      turned into a byte from the leading hex digits of its two values. */
  method Repair(line: seq<int>) returns (r: Result<seq<byte>>)
    ensures r == Recombine(Pairs(line), PairToByte)
  {
    var ps := PairUp(line);
    r := RepairPairs(ps);
  }

  /** The loop of `Repair` over the pairs. */
  method RepairPairs(ps: seq<(int, int)>) returns (r: Result<seq<byte>>)
    ensures r == Recombine(ps, PairToByte)
  {
    var repaired: seq<byte> := [];
    var j := 0;
    assert ps[..0] == [];
    while j < |ps|
      invariant 0 <= j <= |ps|
      invariant Recombine(ps[..j], PairToByte) == Ok(repaired)
    {
      var p := ps[j];
      var b := PairToByte(p.0, p.1);
      TakeSnoc(ps, j + 1);
      RecombineAppend(ps[..j], [p], PairToByte);
      RecombineOne(p, PairToByte);
      if b.Err? {
        TakeDrop(ps, j + 1);
        RecombineAppend(ps[..j + 1], ps[j + 1..], PairToByte);
        return Err(b.error);
      }
      repaired := repaired + [b.value];
      j := j + 1;
    }
    TakeAll(ps);
    r := Ok(repaired);
  }

  /** The inner loop of `bury_data` over the data lines of one level file. */
  method BuryLevel(text: string) returns (r: Result<seq<seq<byte>>>)
    ensures r == BuryText(text)
  {
    var lines := PySlice(Split(text, '\n'), 6, -4);
    var out: seq<seq<byte>> := [];
    var k := 0;
    assert lines[..0] == [];
    while k < |lines|
      invariant 0 <= k <= |lines|
      invariant BuryLines(lines[..k]) == Ok(out)
    {
      BuryLinesAppend(lines[..k], [lines[k]]);
      TakeSnoc(lines, k + 1);
      var piece := BuryLineOnce(lines[k]);
      if piece.Err? {
        BuryLinesAppend(lines[..k + 1], lines[k + 1..]);
        TakeDrop(lines, k + 1);
        return Err(piece.error);
      }
      out := out + piece.value;
      k := k + 1;
    }
    TakeAll(lines);
    r := Ok(out);
  }

  /** One pass of the inner loop: the decremented cells of the line, without
      the -1s, repaired when there are any. */
  method BuryLineOnce(line: string) returns (r: Result<seq<seq<byte>>>)
    ensures r == BuryLines([line])
  {
    assert [line][0] == line && [line][1..] == [];
    assert BuryLines([]) == Ok([]);
    ConcatNil(Piece(BuryLine(line)));
    var vs := Decremented(Split(line, ','));
    if vs.Err? {
      return Err(vs.error);
    }
    var curRomLine := RealCells(vs.value);
    if curRomLine == [] {
      return Ok([]);
    }
    var repaired := Repair(curRomLine);
    if repaired.Err? {
      return Err(repaired.error);
    }
    r := Ok([repaired.value]);
  }

  /** `bury_data`, over the level file names `mapDir`. */
  method BuryData(disk: Disk, mapDir: seq<string>) returns (r: Result<seq<seq<byte>>>)
    ensures r == BuryAll(disk.maps, mapDir)
  {
    var finalOut: seq<seq<byte>> := [];
    var i := 0;
    assert mapDir[..0] == [];
    while i < |mapDir|
      invariant 0 <= i <= |mapDir|
      invariant BuryAll(disk.maps, mapDir[..i]) == Ok(finalOut)
    {
      var pieces := BuryFile(disk, mapDir[i]);
      BuryAllStep(disk.maps, mapDir, i);
      if pieces.Err? {
        BuryAllErr(disk.maps, mapDir, i + 1);
        return Err(pieces.error);
      }
      finalOut := finalOut + pieces.value;
      i := i + 1;
    }
    TakeAll(mapDir);
    r := Ok(finalOut);
  }

  /** One pass of the `bury_data` loop: the named level file read and buried. */
  method BuryFile(disk: Disk, name: string) returns (r: Result<seq<seq<byte>>>)
    ensures r == if name in disk.maps then BuryText(disk.maps[name]) else Err(FileNotFound)
  {
    var text := disk.ReadText(name);
    if text.Err? {
      return Err(text.error);
    }
    r := BuryLevel(text.value);
  }

  /** One more name adds the pieces of its file after the others. */
  lemma BuryAllStep(maps: map<string, string>, names: seq<string>, i: nat)
    requires i < |names|
    ensures BuryAll(maps, names[..i + 1]) ==
      Concat(BuryAll(maps, names[..i]), if names[i] in maps then BuryText(maps[names[i]]) else Err(FileNotFound))
  {
    assert names[..i + 1][..i] == names[..i];
  }

  /** Once a prefix of the names fails, the whole list fails the same way. */
  lemma {:induction false} BuryAllErr(maps: map<string, string>, names: seq<string>, i: nat)
    requires 0 < i <= |names| && BuryAll(maps, names[..i]).Err?
    ensures BuryAll(maps, names) == BuryAll(maps, names[..i])
    decreases |names| - i
  {
    if i < |names| {
      assert names[..i + 1][..i] == names[..i];
      BuryAllErr(maps, names, i + 1);
    } else {
      assert names[..i] == names;
    }
  }

  /** Subtracting one and dropping the -1s removes exactly the 0 pads: a
      value survives exactly when it is a stored cell less one that is not a
      pad. */
  lemma UnpadMember(row: seq<int>, v: int)
    ensures v in RealCells(Shift(row, -1)) <==> v + 1 in row && v + 1 != ZeroPad
  {
    RealCellsMember(Shift(row, -1), v);
    if v in Shift(row, -1) {
      var i :| 0 <= i < |row| && Shift(row, -1)[i] == v;
      assert row[i] == v + 1;
    }
    if v + 1 in row {
      var i :| 0 <= i < |row| && row[i] == v + 1;
      assert Shift(row, -1)[i] == v;
    }
  }

  // ------------------------------------------------------------ round trip

  /** The output of some rows of cells as `bury_data` reads them back. */
  function RowsBytes(rows: seq<seq<int>>): (r: Result<seq<seq<byte>>>)
    ensures r.Ok? ==> |r.value| <= |rows|
  {
    if rows == [] then Ok([])
    else Concat(Piece(BuryCells(Shift(rows[0], -1))), RowsBytes(rows[1..]))
  }

  lemma {:induction false} RowsBytesAppend(a: seq<seq<int>>, b: seq<seq<int>>)
    ensures RowsBytes(a + b) == Concat(RowsBytes(a), RowsBytes(b))
  {
    if a == [] {
      assert a + b == b;
      ConcatNil(RowsBytes(b));
    } else {
      assert (a + b)[0] == a[0] && (a + b)[1..] == a[1..] + b;
      RowsBytesAppend(a[1..], b);
      ConcatAssoc(Piece(BuryCells(Shift(a[0], -1))), RowsBytes(a[1..]), RowsBytes(b));
    }
  }

  /** A written data line reads back as its row. */
  lemma BuryLineRow(row: seq<int>)
    requires row != []
    ensures BuryLine(RowText(row)) == BuryCells(Shift(row, -1))
  {
    StrsTokens(row);
    SplitJoin(Strs(row), ',');
    DecrementedStrs(row);
  }

  /** The data lines of a grid read back as its rows. */
  lemma {:induction false} BuryLinesRows(g: Grid)
    requires forall r :: 0 <= r < |g| ==> g[r] != []
    ensures BuryLines(RowTexts(g)) == RowsBytes(g)
  {
    if g != [] {
      BuryLineRow(g[0]);
      BuryLinesRows(g[1..]);
      assert RowTexts(g)[0] == RowText(g[0]) && RowTexts(g)[1..] == RowTexts(g[1..]);
    }
  }

  /** Reading back, in level order, level files whose data lines are the
      rows of grids reads back all the rows of the grids. */
  lemma {:induction false} ReadBuried(maps: map<string, string>, texts: seq<string>, grids: seq<Grid>, m: nat)
    requires m <= |texts| == |grids|
    requires forall k :: 0 <= k < |texts| ==> PySlice(Split(texts[k], '\n'), 6, -4) == RowTexts(grids[k])
    requires forall k, r :: 0 <= k < |grids| && 0 <= r < |grids[k]| ==> grids[k][r] != []
    ensures BuryAll(SavedLevels(maps, texts), LevelNames(m)) == RowsBytes(Flatten(grids[..m]))
  {
    if m == 0 {
      assert grids[..0] == [];
    } else {
      var saved := SavedLevels(maps, texts);
      var names := LevelNames(m);
      var before, g := grids[..m - 1], grids[m - 1];
      ReadBuried(maps, texts, grids, m - 1);
      assert names[..m - 1] == LevelNames(m - 1);
      SavedLevelsAt(maps, texts, m - 1);
      assert names[m - 1] == LevelName(m - 1);
      assert BuryText(saved[LevelName(m - 1)]) == BuryLines(RowTexts(g));
      BuryLinesRows(g);
      assert BuryAll(saved, names) == Concat(RowsBytes(Flatten(before)), RowsBytes(g));
      TakeSnoc(grids, m);
      FlattenSnoc(before, g);
      RowsBytesAppend(Flatten(before), g);
    }
  }

  /** Rows of pads only give no output. */
  lemma {:induction false} PadRows(rows: seq<seq<int>>, q: nat)
    requires Flatten(rows) == Fill(ZeroPad, q)
    ensures RowsBytes(rows) == Ok([])
    decreases |rows|
  {
    if rows != [] {
      var first, rest := rows[0], rows[1..];
      assert Flatten(rows) == first + Flatten(rest);
      FillAppend(ZeroPad, |first|, q - |first|);
      assert first == Flatten(rows)[..|first|];
      assert first == Fill(ZeroPad, |first|);
      assert Flatten(rest) == Flatten(rows)[|first|..];
      assert Shift(first, -1) == Fill(Pad, |first|);
      RealCellsPad(|first|);
      PadRows(rest, q - |first|);
    }
  }

  /** Subtracting one from stored cells and pads gives the nibbles and -1s. */
  lemma Unshift(cells: seq<int>, p: nat)
    ensures Shift(Shift(cells, 1) + Fill(ZeroPad, p), -1) == cells + Fill(Pad, p)
  {
    ShiftAppend(Shift(cells, 1), Fill(ZeroPad, p), -1);
    assert Shift(Shift(cells, 1), -1) == cells;
    assert Shift(Fill(ZeroPad, p), -1) == Fill(Pad, p);
  }

  /** Dropping the -1s after some nibbles leaves the nibbles. */
  lemma DropPads(cells: seq<int>, p: nat)
    requires Pad !in cells
    ensures RealCells(cells + Fill(Pad, p)) == cells
  {
    RealCellsAppend(cells, Fill(Pad, p));
    RealCellsPad(p);
    RealCellsKeep(cells);
  }

  /** A row holding the cells of some bytes and then pads reads back as those
      bytes, or as nothing when there are none. */
  lemma RowOf(a: seq<byte>, p: nat)
    ensures BuryCells(Shift(Shift(Nibbles(a), 1) + Fill(ZeroPad, p), -1)) ==
            if a == [] then Ok(None) else Ok(Some(a))
  {
    var na := Nibbles(a);
    Unshift(na, p);
    DropPads(na, p);
    RecombineNibbles(a, PairToByte);
  }

  /** Rows of N cells each, holding the cells of some bytes and then pads,
      read back as the bytes, provided N is even: a row never splits a byte.
      */
  lemma {:induction false} CellsRows(rows: seq<seq<int>>, data: seq<byte>, p: nat, n: nat)
    requires n > 0 && n % 2 == 0
    requires forall i :: 0 <= i < |rows| ==> |rows[i]| == n
    requires Flatten(rows) == Shift(Nibbles(data), 1) + Fill(ZeroPad, p)
    ensures RowsBytes(rows).Ok? && Flatten(RowsBytes(rows).value) == data
    decreases |rows|
  {
    if rows == [] {
      assert |Flatten(rows)| == 0;
    } else {
      var first, rest := rows[0], rows[1..];
      var head := Piece(BuryCells(Shift(first, -1)));
      assert RowsBytes(rows) == Concat(head, RowsBytes(rest));
      if 2 * |data| >= n {
        FullRow(rows, data, p, n);
        var a, b := data[..n / 2], data[n / 2..];
        RowOf(a, 0);
        assert head == Ok([a]);
        CellsRows(rest, b, p, n);
        var out := RowsBytes(rest).value;
        assert RowsBytes(rows) == Ok([a] + out);
        assert ([a] + out)[0] == a && ([a] + out)[1..] == out;
        TakeDrop(data, n / 2);
      } else {
        LastRowBytes(rows, data, p, n);
      }
    }
  }

  /** The row holding the last bytes, followed by rows of pads only. */
  lemma LastRowBytes(rows: seq<seq<int>>, data: seq<byte>, p: nat, n: nat)
    requires rows != [] && |rows[0]| == n && 2 * |data| < n
    requires Flatten(rows) == Shift(Nibbles(data), 1) + Fill(ZeroPad, p)
    ensures RowsBytes(rows).Ok? && Flatten(RowsBytes(rows).value) == data
  {
    var head := Piece(BuryCells(Shift(rows[0], -1)));
    assert RowsBytes(rows) == Concat(head, RowsBytes(rows[1..]));
    var q := n - 2 * |data|;
    LastRow(rows, data, p, n);
    RowOf(data, q);
    PadRows(rows[1..], p - q);
    ConcatNil(head);
    if data == [] {
      assert head == Ok([]);
    } else {
      assert head == Ok([data]);
      assert Flatten([data]) == data + Flatten([]);
    }
  }

  /** A first row filled with the cells of the first N/2 bytes. */
  lemma FullRow(rows: seq<seq<int>>, data: seq<byte>, p: nat, n: nat)
    requires n > 0 && n % 2 == 0 && rows != [] && |rows[0]| == n && 2 * |data| >= n
    requires Flatten(rows) == Shift(Nibbles(data), 1) + Fill(ZeroPad, p)
    ensures rows[0] == Shift(Nibbles(data[..n / 2]), 1) + Fill(ZeroPad, 0)
    ensures Flatten(rows[1..]) == Shift(Nibbles(data[n / 2..]), 1) + Fill(ZeroPad, p)
  {
    var a, b := data[..n / 2], data[n / 2..];
    TakeDrop(data, n / 2);
    NibblesAppend(a, b);
    ShiftAppend(Nibbles(a), Nibbles(b), 1);
    var ca, cb := Shift(Nibbles(a), 1), Shift(Nibbles(b), 1);
    assert Flatten(rows) == rows[0] + Flatten(rows[1..]);
    assert Flatten(rows) == ca + (cb + Fill(ZeroPad, p));
    assert rows[0] == Flatten(rows)[..n] == ca;
    assert Flatten(rows[1..]) == Flatten(rows)[n..];
  }

  /** A first row holding all the remaining bytes, then pads; the rows after
      it hold pads only. */
  lemma LastRow(rows: seq<seq<int>>, data: seq<byte>, p: nat, n: nat)
    requires rows != [] && |rows[0]| == n && 2 * |data| < n
    requires Flatten(rows) == Shift(Nibbles(data), 1) + Fill(ZeroPad, p)
    ensures n - 2 * |data| <= p
    ensures rows[0] == Shift(Nibbles(data), 1) + Fill(ZeroPad, n - 2 * |data|)
    ensures Flatten(rows[1..]) == Fill(ZeroPad, p - (n - 2 * |data|))
  {
    var q := n - 2 * |data|;
    var c := Shift(Nibbles(data), 1);
    assert Flatten(rows) == rows[0] + Flatten(rows[1..]);
    FillAppend(ZeroPad, q, p - q);
    assert Flatten(rows) == (c + Fill(ZeroPad, q)) + Fill(ZeroPad, p - q);
    assert rows[0] == Flatten(rows)[..n];
    assert Flatten(rows[1..]) == Flatten(rows)[n..];
  }

  /** The rows of all the grids have N cells each when every grid is N x N. */
  lemma {:induction false} RowsWidth(grids: seq<Grid>, n: nat)
    requires forall k, r :: 0 <= k < |grids| && 0 <= r < |grids[k]| ==> |grids[k][r]| == n
    ensures forall i :: 0 <= i < |Flatten(grids)| ==> |Flatten(grids)[i]| == n
  {
    if grids != [] {
      RowsWidth(grids[1..], n);
      assert Flatten(grids) == grids[0] + Flatten(grids[1..]);
    }
  }

  /** The cells of all the rows of the grids are the cells of the levels. */
  lemma {:induction false} RowsCells(grids: seq<Grid>, levels: seq<seq<int>>)
    requires |grids| == |levels| && forall k :: 0 <= k < |grids| ==> Flatten(grids[k]) == levels[k]
    ensures Flatten(Flatten(grids)) == Flatten(levels)
  {
    if grids != [] {
      RowsCells(grids[1..], levels[1..]);
      FlattenAppend(grids[0], Flatten(grids[1..]));
    }
  }

  /** The rows of the N x N grids of some levels, laid end to end, are the
      cells of the levels, N to a row. */
  lemma GridRows(levels: seq<seq<int>>, n: nat)
    requires n > 0 && forall k :: 0 <= k < |levels| ==> |levels[k]| == n * n
    ensures var rows := Flatten(Reshapes(levels, n));
      && (forall i :: 0 <= i < |rows| ==> |rows[i]| == n)
      && Flatten(rows) == Flatten(levels)
  {
    var grids := Reshapes(levels, n);
    forall k, r | 0 <= k < |grids| && 0 <= r < |grids[k]|
      ensures |grids[k][r]| == n
    {
      ReshapeSquare(levels[k], n);
    }
    RowsWidth(grids, n);
    RowsCells(grids, levels);
  }

  /** The rows of the grids of some bytes, read back in order, give the
      bytes. */
  lemma LevelRowsBytes(data: seq<byte>, n: nat)
    requires n > 0 && n % 2 == 0 && data != []
    ensures n * n > 0 && Levels(Shift(Nibbles(data), 1), n * n, ZeroPad).Ok?
    ensures var levels := Levels(Shift(Nibbles(data), 1), n * n, ZeroPad).value;
      var r := RowsBytes(Flatten(Reshapes(levels, n)));
      r.Ok? && Flatten(r.value) == data
  {
    SquarePos(n);
    var p := LevelsCellsCount(Shift(Nibbles(data), 1), n * n, ZeroPad, 2 * |data|);
    GridsBytes(Levels(Shift(Nibbles(data), 1), n * n, ZeroPad).value, data, p, n);
  }

  /** Square levels whose cells are the shifted nibbles of some bytes and then
      padding read back, row by row, as those bytes. */
  lemma GridsBytes(levels: seq<seq<int>>, data: seq<byte>, p: nat, n: nat)
    requires n > 0 && n % 2 == 0
    requires forall k :: 0 <= k < |levels| ==> |levels[k]| == n * n
    requires Flatten(levels) == Shift(Nibbles(data), 1) + Fill(ZeroPad, p)
    ensures var r := RowsBytes(Flatten(Reshapes(levels, n)));
      r.Ok? && Flatten(r.value) == data
  {
    GridRows(levels, n);
    CellsRows(Flatten(Reshapes(levels, n)), data, p, n);
  }

  /** Writing the level files of some bytes and burying them back, in level
      order, gives the file's bytes back, for any even N. */
  lemma BuryRoundTrip(maps: map<string, string>, data: seq<byte>, n: nat)
    requires n > 0 && n % 2 == 0 && data != []
    ensures Levels(Shift(Nibbles(data), 1), n * n, ZeroPad).Ok?
    ensures var levels := Levels(Shift(Nibbles(data), 1), n * n, ZeroPad).value;
      forall k :: 0 <= k < |levels| ==> |levels[k]| == n * n
    ensures var levels := Levels(Shift(Nibbles(data), 1), n * n, ZeroPad).value;
      var grids := Reshapes(levels, n);
      var r := BuryAll(SavedLevels(maps, LevelTexts(grids, n)), LevelNames(|grids|));
      r.Ok? && Flatten(r.value) == data
  {
    SquarePos(n);
    var _ := LevelsCellsCount(Shift(Nibbles(data), 1), n * n, ZeroPad, 2 * |data|);
    LevelRowsBytes(data, n);
    ReadLevels(maps, Levels(Shift(Nibbles(data), 1), n * n, ZeroPad).value, n);
  }

  /** Burying the level files written for some N x N levels reads back the
      rows of all of them. */
  lemma ReadLevels(maps: map<string, string>, levels: seq<seq<int>>, n: nat)
    requires n > 0 && forall k :: 0 <= k < |levels| ==> |levels[k]| == n * n
    ensures var grids := Reshapes(levels, n);
      BuryAll(SavedLevels(maps, LevelTexts(grids, n)), LevelNames(|grids|)) == RowsBytes(Flatten(grids))
  {
    var grids := Reshapes(levels, n);
    TextsOfLevels(levels, n);
    ReadBuried(maps, LevelTexts(grids, n), grids, |grids|);
    TakeAll(grids);
  }

  // ------------------------------------------------------------ patch-back

  /** The end of the `__main__` block: copy the file to its backup, write
      nothing at the end of the file, then overwrite it from the start with
      what `bury_data` returns. The backup is made before `bury_data` runs,
      so it is kept when that raises. */
  method PatchBack(disk: Disk, mapDir: seq<string>) returns (e: Option<Error>)
    modifies disk
    ensures disk.maps == old(disk.maps)
    ensures MyFile !in old(disk.files) ==> e == Some(FileNotFound) && disk.files == old(disk.files)
    ensures MyFile in old(disk.files) ==>
      match BuryAll(old(disk.maps), mapDir)
      case Err(err) => e == Some(err) && disk.files == BackupAlways(old(disk.files), MyFile).value
      case Ok(out) => e == None && disk.files == PatchAlways(old(disk.files), MyFile, Flatten(out)).value
  {
    if !disk.IsFile(MyFile) {
      return Some(FileNotFound);
    }
    disk.CopyFile(MyFile, BackupName(MyFile));
    var contents := disk.files[MyFile];
    OverwriteNothing(contents);
    disk.WriteAt(MyFile, |contents|, []);
    assert disk.files == BackupAlways(old(disk.files), MyFile).value;
    var out := BuryData(disk, mapDir);
    if out.Err? {
      return Some(out.error);
    }
    disk.WriteChunks(MyFile, out.value);
    e := None;
  }

  /** Writing the level files of `smb3.nes` and patching them back leaves the
      file as it was, and the backup holding it. */
  lemma PatchRoundTrip(files: map<string, seq<byte>>, maps: map<string, string>)
    requires MyFile in files && files[MyFile] != []
    ensures Levels(Shift(Nibbles(files[MyFile]), 1), MapSize * MapSize, ZeroPad).Ok?
    ensures var levels := Levels(Shift(Nibbles(files[MyFile]), 1), MapSize * MapSize, ZeroPad).value;
      var grids := Reshapes(levels, MapSize);
      var r := BuryAll(SavedLevels(maps, LevelTexts(grids, MapSize)), LevelNames(|grids|));
      && r.Ok?
      && PatchAlways(files, MyFile, Flatten(r.value)).Ok?
      && MyFile in PatchAlways(files, MyFile, Flatten(r.value)).value
      && BackupName(MyFile) in PatchAlways(files, MyFile, Flatten(r.value)).value
      && PatchAlways(files, MyFile, Flatten(r.value)).value[MyFile] == files[MyFile]
      && PatchAlways(files, MyFile, Flatten(r.value)).value[BackupName(MyFile)] == files[MyFile]
  {
    BuryRoundTrip(maps, files[MyFile], MapSize);
    PatchAlwaysRestores(files, MyFile);
  }

  // -------------------------------------------------------- mask_out_zeros

  /** `value * (value > 4)` */
  function Masked(v: int): (m: int)
    ensures m == v || m == 0
    ensures m == 0 <==> v <= 4
  {
    if v > 4 then v else 0
  }

  /** Masking twice masks once. */
  lemma MaskedTwice(v: int)
    ensures Masked(Masked(v)) == Masked(v)
  {
  }

  /** On stored cells, the mask clears the pad and the nibbles 0 to 3 and
      keeps the nibbles 4 to 15. */
  lemma MaskedCells(nibble: int)
    requires 0 <= nibble < 16
    ensures Masked(nibble + 1) == if nibble < 4 then 0 else nibble + 1
    ensures Masked(ZeroPad) == 0
  {
  }

  /** `mask_out_zeros`: a new array of the same shape with each cell masked. */
  method MaskOutZeros(level: array2<int>) returns (g: array2<int>)
    ensures fresh(g) && g.Length0 == level.Length0 && g.Length1 == level.Length1
    ensures forall i, j :: 0 <= i < g.Length0 && 0 <= j < g.Length1 ==> g[i, j] == Masked(level[i, j])
  {
    g := new int[level.Length0, level.Length1]((i, j) => 0);
    var row := 0;
    while row < level.Length0
      invariant 0 <= row <= level.Length0
      invariant forall i, j :: 0 <= i < row && 0 <= j < g.Length1 ==> g[i, j] == Masked(level[i, j])
    {
      var col := 0;
      while col < level.Length1
        invariant 0 <= col <= level.Length1
        invariant forall i, j :: 0 <= i < row && 0 <= j < g.Length1 ==> g[i, j] == Masked(level[i, j])
        invariant forall j :: 0 <= j < col ==> g[row, j] == Masked(level[row, j])
      {
        g[row, col] := Masked(level[row, col]);
        col := col + 1;
      }
      row := row + 1;
    }
  }
}
