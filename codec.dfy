/** The codec shared by main.py and bytebiter.py: the nibbles of a file cut
    into N*N-cell levels, the last padded with -1; each level written as a
    level file named `level_XXXXXXXX.tmx`; and the decoder that reads the
    numbers of each level file back, drops the '-1' and '' tokens, pairs the
    rest with `zip` level by level and turns the pairs into bytes. */
module Codec {
  import opened Base
  import opened PyText
  import opened PyNum
  import opened Nibble
  import opened Grid
  import opened Tmx
  import opened Disk

  /** The pad written after the last real nibble. */
  const Pad: int := -1

  // ---------------------------------------------------------------- names

  /** `f'level_{k:0>8}.tmx'`: the number right-aligned in eight places,
      filled with zeros. */
  function LevelName(k: nat): string
  {
    var digits := NatStr(k);
    "level_" + (if |digits| < 8 then Fill('0', 8 - |digits|) + digits else digits) + ".tmx"
  }

  /** The number a level file name carries, if it has the form of one. */
  function LevelNumber(name: string): Option<nat>
  {
    if |name| >= 11 && name[..6] == "level_" && name[|name| - 4..] == ".tmx"
       && IsDigits(name[6..|name| - 4])
    then Some(DigitsValue(name[6..|name| - 4]))
    else None
  }

  lemma {:induction false} LeadingZeros(m: nat, s: string)
    requires forall i :: 0 <= i < |s| ==> IsDigit(s[i])
    ensures forall i :: 0 <= i < |Fill('0', m) + s| ==> IsDigit((Fill('0', m) + s)[i])
    ensures DigitsValue(Fill('0', m) + s) == DigitsValue(s)
    decreases |s|, m
  {
    var z := Fill('0', m);
    if s == [] {
      assert z + s == z;
      if m > 0 {
        assert z[..m - 1] == Fill('0', m - 1) + [];
        LeadingZeros(m - 1, []);
      }
    } else {
      var t := s[..|s| - 1];
      assert (z + s)[..|z + s| - 1] == z + t;
      LeadingZeros(m, t);
    }
  }

  /** Reading the number back out of a level name gives the level number. */
  lemma LevelNameNumber(k: nat)
    ensures LevelNumber(LevelName(k)) == Some(k)
  {
    var digits := NatStr(k);
    var mid := if |digits| < 8 then Fill('0', 8 - |digits|) + digits else digits;
    var name := LevelName(k);
    assert name == "level_" + mid + ".tmx";
    assert name[..6] == "level_";
    assert name[|name| - 4..] == ".tmx";
    assert name[6..|name| - 4] == mid;
    NatStrValue(k);
    if |digits| < 8 {
      LeadingZeros(8 - |digits|, digits);
    }
  }

  /** Different level numbers get different file names. */
  lemma LevelNameInjective(j: nat, k: nat)
    ensures LevelName(j) == LevelName(k) <==> j == k
  {
    LevelNameNumber(j);
    LevelNameNumber(k);
  }

  /** The names of the first m level files, in order. */
  function LevelNames(m: nat): (names: seq<string>)
    ensures |names| == m
    ensures forall k :: 0 <= k < m ==> names[k] == LevelName(k)
  {
    if m == 0 then [] else LevelNames(m - 1) + [LevelName(m - 1)]
  }

  // --------------------------------------------------------------- encode

  /** Each level reshaped to n x n, row-major. */
  function Reshapes(levels: seq<seq<int>>, n: nat): (grids: seq<Grid>)
    requires n > 0
    ensures |grids| == |levels|
    ensures forall k :: 0 <= k < |grids| ==> grids[k] == Reshape(levels[k], n)
  {
    if levels == [] then [] else [Reshape(levels[0], n)] + Reshapes(levels[1..], n)
  }

  /** What `file_to_levels` makes of the bytes of a file: the nibbles in
      N*N-cell levels, the last padded with -1, each reshaped to N x N. */
  function EncodeLevels(data: seq<byte>, n: nat): Result<seq<Grid>>
    requires n > 0
  {
    match Levels(Nibbles(data), n * n, Pad)
    case Err(e) => Err(e)
    case Ok(levels) => Ok(Reshapes(levels, n))
  }

  /** The cells of a list of grids laid end to end. */
  function GridCells(grids: seq<Grid>): (cells: seq<int>)
  {
    if grids == [] then [] else Flatten(grids[0]) + GridCells(grids[1..])
  }

  lemma {:induction false} GridCellsReshapes(levels: seq<seq<int>>, n: nat)
    requires n > 0
    ensures GridCells(Reshapes(levels, n)) == Flatten(levels)
  {
    if levels != [] {
      GridCellsReshapes(levels[1..], n);
    }
  }

  /** An empty file has no last level: `level_map_data[-1]` raises. */
  lemma EncodeEmpty(data: seq<byte>, n: nat)
    requires n > 0
    ensures data == [] <==> EncodeLevels(data, n).Err?
    ensures data == [] ==> EncodeLevels(data, n) == Err(IndexError)
  {
    LevelsEmpty(Nibbles(data), n * n, Pad);
  }

  /** There are ceil(2L / N^2) levels. */
  lemma EncodeCount(data: seq<byte>, n: nat)
    requires n > 0 && data != []
    ensures EncodeLevels(data, n).Ok?
    ensures var m := |EncodeLevels(data, n).value|; (m - 1) * (n * n) < 2 * |data| <= m * (n * n)
  {
    LevelsCount(Nibbles(data), n * n, Pad);
  }

  /** Every level is an N x N grid. */
  lemma EncodeSquare(data: seq<byte>, n: nat)
    requires n > 0 && data != []
    ensures EncodeLevels(data, n).Ok?
    ensures var grids := EncodeLevels(data, n).value;
      forall k :: 0 <= k < |grids| ==> |grids[k]| == n && forall r :: 0 <= r < n ==> |grids[k][r]| == n
  {
    LevelsWidth(Nibbles(data), n * n, Pad);
    EncodeValue(data, n);
    ReshapesSquare(Levels(Nibbles(data), n * n, Pad).value, n);
  }

  lemma EncodeValue(data: seq<byte>, n: nat)
    requires n > 0 && data != []
    ensures Levels(Nibbles(data), n * n, Pad).Ok? && EncodeLevels(data, n).Ok?
    ensures EncodeLevels(data, n).value == Reshapes(Levels(Nibbles(data), n * n, Pad).value, n)
  {
    LevelsEmpty(Nibbles(data), n * n, Pad);
  }

  /** N^2-cell levels reshape to N x N grids. */
  lemma ReshapesSquare(levels: seq<seq<int>>, n: nat)
    requires n > 0 && forall k :: 0 <= k < |levels| ==> |levels[k]| == n * n
    ensures var grids := Reshapes(levels, n);
      forall k :: 0 <= k < |grids| ==> |grids[k]| == n && forall r :: 0 <= r < n ==> |grids[k][r]| == n
  {
    forall k | 0 <= k < |levels|
      ensures |Reshape(levels[k], n)| == n && forall r :: 0 <= r < n ==> |Reshape(levels[k], n)[r]| == n
    {
      ReshapeSquare(levels[k], n);
    }
  }

  /** Every level but the last holds only real nibbles. */
  lemma EncodeRealBeforeLast(data: seq<byte>, n: nat)
    requires n > 0 && data != []
    ensures EncodeLevels(data, n).Ok?
    ensures var grids := EncodeLevels(data, n).value;
      forall k, v :: 0 <= k < |grids| - 1 && v in Flatten(grids[k]) ==> 0 <= v < 16
  {
    var cells := Nibbles(data);
    var levels := Levels(cells, n * n, Pad).value;
    LevelsEmpty(cells, n * n, Pad);
    forall k, v | 0 <= k < |levels| - 1 && v in levels[k] ensures 0 <= v < 16 {
      LevelsBeforeLast(cells, n * n, Pad, k, v);
    }
  }

  /** There are no pads when 2L is a multiple of N^2. */
  lemma EncodeCellsExact(data: seq<byte>, n: nat)
    requires n > 0 && data != [] && 2 * |data| % (n * n) == 0
    ensures EncodeLevels(data, n).Ok?
    ensures GridCells(EncodeLevels(data, n).value) == Nibbles(data)
  {
    LevelsExact(Nibbles(data), n * n, Pad);
    EncodeFlat(data, n);
  }

  /** `file_to_levels` step by step: cutting the nibbles into N*N-cell
      pieces, padding the last piece in place and reshaping the pieces is
      `EncodeLevels`; an empty file gives no pieces. */
  lemma PaddedInPlace(data: seq<byte>, n: nat)
    requires n > 0
    ensures var cs := Chunks(Nibbles(data), n * n);
      && (cs == [] <==> data == [])
      && (cs != [] ==>
            EncodeLevels(data, n) == Ok(Reshapes(cs[|cs| - 1 := cs[|cs| - 1] + Fill(Pad, n * n - |cs[|cs| - 1]|)], n)))
  {
    SquarePos(n);
    var cells := Nibbles(data);
    var cs := Chunks(cells, n * n);
    if data != [] {
      assert cells != [] && Flatten(cs) == cells;
      PadLastInPlace(cs, n * n, Pad);
      assert Levels(cells, n * n, Pad) == PadLast(cs, n * n, Pad);
    }
  }

  /** `file_to_levels` up to the reshape: the nibbles cut into N*N-cell
      pieces and the last piece padded in place with -1; an empty file has no
      last piece and raises. */
  method CutLevels(data: seq<byte>, n: nat) returns (r: Result<seq<seq<int>>>)
    requires n > 0
    ensures r.Err? <==> data == []
    ensures r.Err? ==> r.error == IndexError
    ensures r.Ok? ==> EncodeLevels(data, n) == Ok(Reshapes(r.value, n))
    ensures r.Ok? ==> forall k :: 0 <= k < |r.value| ==> |r.value[k]| == n * n
  {
    PaddedInPlace(data, n);
    var size := n * n;
    var levelMapData := Chunks(Nibbles(data), size);
    if levelMapData == [] {
      return Err(IndexError);
    }
    var last := levelMapData[|levelMapData| - 1];
    levelMapData := levelMapData[|levelMapData| - 1 := last + Fill(Pad, size - |last|)];
    r := Ok(levelMapData);
  }

  /** The grids hold the cells of the flat levels, in order. */
  lemma EncodeFlat(data: seq<byte>, n: nat)
    requires n > 0 && data != []
    ensures Levels(Nibbles(data), n * n, Pad).Ok? && EncodeLevels(data, n).Ok?
    ensures GridCells(EncodeLevels(data, n).value) == Flatten(Levels(Nibbles(data), n * n, Pad).value)
  {
    LevelsEmpty(Nibbles(data), n * n, Pad);
    GridCellsReshapes(Levels(Nibbles(data), n * n, Pad).value, n);
  }

  // --------------------------------------------------------------- decode

  /** The cells that are not the -1 pad, in order; 0 is a real cell. */
  function RealCells(xs: seq<int>): (ys: seq<int>)
    ensures |ys| <= |xs|
  {
    if xs == [] then [] else (if xs[0] == Pad then [] else [xs[0]]) + RealCells(xs[1..])
  }

  /** Exactly the -1 cells are dropped; every other value, 0 included, is
      kept. */
  lemma {:induction false} RealCellsMember(xs: seq<int>, v: int)
    ensures v in RealCells(xs) <==> v in xs && v != Pad
  {
    if xs != [] {
      RealCellsMember(xs[1..], v);
      assert xs == [xs[0]] + xs[1..];
    }
  }

  lemma {:induction false} RealCellsAppend(a: seq<int>, b: seq<int>)
    ensures RealCells(a + b) == RealCells(a) + RealCells(b)
  {
    if a == [] {
      assert a + b == b;
    } else {
      assert (a + b)[1..] == a[1..] + b;
      RealCellsAppend(a[1..], b);
    }
  }

  /** Pads are removed entirely. */
  lemma {:induction false} RealCellsPad(k: nat)
    ensures RealCells(Fill(Pad, k)) == []
  {
    if k > 0 {
      assert Fill(Pad, k)[1..] == Fill(Pad, k - 1);
      RealCellsPad(k - 1);
    }
  }

  /** A list without pads is kept whole. */
  lemma {:induction false} RealCellsKeep(xs: seq<int>)
    requires Pad !in xs
    ensures RealCells(xs) == xs
  {
    if xs != [] {
      RealCellsKeep(xs[1..]);
      assert xs == [xs[0]] + xs[1..];
    }
  }

  /** The tokens other than '-1' and '' read as decimal integers; a token that is no
      integer raises a ValueError. */
  function KeptInts(tokens: seq<string>): (r: Result<seq<int>>)
    ensures r.Err? ==> r.error == ValueError
  {
    if tokens == [] then Ok([])
    else if tokens[0] == "-1" || tokens[0] == "" then KeptInts(tokens[1..])
    else match ParseInt(tokens[0])
      case None => Err(ValueError)
      case Some(v) =>
        match KeptInts(tokens[1..])
        case Err(e) => Err(e)
        case Ok(rest) => Ok([v] + rest)
  }

  /** Reading back the `str` of some cells keeps exactly the cells that are
      not -1, and nothing raises. */
  lemma {:induction false} KeptStrs(xs: seq<int>)
    ensures KeptInts(Strs(xs)) == Ok(RealCells(xs))
  {
    if xs != [] {
      var ts := Strs(xs);
      StrToken(xs[0]);
      ParseStr(xs[0]);
      KeptStrs(xs[1..]);
      assert ts[0] == Str(xs[0]) && ts[1..] == Strs(xs[1..]);
      if xs[0] == Pad {
        assert ts[0] == "-1";
        assert KeptInts(ts) == KeptInts(ts[1..]);
        assert RealCells(xs) == RealCells(xs[1..]);
      } else {
        assert ts[0] != "-1" && ts[0] != "";
        assert KeptInts(ts) == Ok([xs[0]] + RealCells(xs[1..]));
        assert RealCells(xs) == [xs[0]] + RealCells(xs[1..]);
      }
    }
  }

  /** The numbers of one level file: the lines between the six header lines
      and the last four, joined with commas, split at commas, '-1' and ''
      tokens dropped, the rest read as integers. */
  function LevelCells(text: string): Result<seq<int>>
  {
    KeptInts(Split(Join(PySlice(Split(text, '\n'), 6, -4), ','), ','))
  }

  /** A text whose data lines are the rows of a grid reads back to the real
      cells of the grid. */
  lemma LevelCellsOfRows(text: string, g: Grid)
    requires g != [] && forall r :: 0 <= r < |g| ==> g[r] != []
    requires PySlice(Split(text, '\n'), 6, -4) == RowTexts(g)
    ensures LevelCells(text) == Ok(RealCells(Flatten(g)))
  {
    RowsTokens(g);
    KeptStrs(Flatten(g));
  }

  /** `list(zip(cells[::2], cells[1::2]))` of the real cells of each level. */
  function LevelPairs(levels: seq<seq<int>>): (ps: seq<seq<(int, int)>>)
    ensures |ps| == |levels|
  {
    if levels == [] then [] else [Pairs(RealCells(levels[0]))] + LevelPairs(levels[1..])
  }

  lemma {:induction false} LevelPairsAt(levels: seq<seq<int>>)
    ensures forall k :: 0 <= k < |levels| ==> LevelPairs(levels)[k] == Pairs(RealCells(levels[k]))
  {
    if levels != [] {
      LevelPairsAt(levels[1..]);
    }
  }

  /** Pairing is done level by level: a level with an odd number of real
      cells loses its last one, and no pair takes cells from two levels. */
  lemma LevelPairsOdd(a: seq<int>, x: int, rest: seq<seq<int>>)
    requires |RealCells(a)| % 2 == 0 && x != Pad
    ensures LevelPairs([a + [x]] + rest) == LevelPairs([a] + rest)
  {
    RealCellsAppend(a, [x]);
    assert RealCells([x]) == [x];
    PairsDropOdd(RealCells(a), x);
    assert ([a + [x]] + rest)[1..] == rest == ([a] + rest)[1..];
  }

  /** The loop over `map_dir` in `levels_to_file`: each listed level file is
      read and its real cells are paired; a missing file or a malformed number
      stops the loop. */
  function ReadPairs(maps: map<string, string>, names: seq<string>): (r: Result<seq<seq<(int, int)>>>)
    ensures r.Ok? ==> |r.value| == |names|
    decreases |names|
  {
    if names == [] then Ok([])
    else
      match ReadPairs(maps, names[..|names| - 1])
      case Err(e) => Err(e)
      case Ok(done) =>
        var name := names[|names| - 1];
        if name !in maps then Err(FileNotFound)
        else match LevelCells(maps[name])
          case Err(e) => Err(e)
          case Ok(cells) => Ok(done + [PairUp(cells)])
  }

  /** The `paired_data` loop: one list of pairs per listed level file. */
  method ReadLevelPairs(disk: Disk, names: seq<string>) returns (r: Result<seq<seq<(int, int)>>>)
    ensures r == ReadPairs(disk.maps, names)
  {
    var paired: seq<seq<(int, int)>> := [];
    var i := 0;
    assert names[..0] == [];
    while i < |names|
      invariant 0 <= i <= |names|
      invariant ReadPairs(disk.maps, names[..i]) == Ok(paired)
    {
      assert names[..i + 1][..i] == names[..i];
      var text := disk.ReadText(names[i]);
      if text.Err? {
        ReadPairsErr(disk.maps, names, i + 1);
        return Err(text.error);
      }
      var cells := LevelCells(text.value);
      if cells.Err? {
        ReadPairsErr(disk.maps, names, i + 1);
        return Err(cells.error);
      }
      paired := paired + [PairUp(cells.value)];
      i := i + 1;
    }
    assert names[..i] == names;
    r := Ok(paired);
  }

  /** Once a prefix of the names fails, the whole list fails the same way. */
  lemma {:induction false} ReadPairsErr(maps: map<string, string>, names: seq<string>, i: nat)
    requires 0 < i <= |names| && ReadPairs(maps, names[..i]).Err?
    ensures ReadPairs(maps, names) == ReadPairs(maps, names[..i])
    decreases |names| - i
  {
    if i < |names| {
      assert names[..i + 1][..i] == names[..i];
      ReadPairsErr(maps, names, i + 1);
    } else {
      assert names[..i] == names;
    }
  }

  /** A conversion that turns every pair of nibbles into the byte they make. */
  ghost predicate InvertsNibbles(toByte: (int, int) -> Result<byte>)
  {
    forall h, l :: 0 <= h < 16 && 0 <= l < 16 ==> toByte(h, l) == Ok(16 * h + l)
  }

  /** Each level's pairs turned into bytes with `toByte` and joined. */
  function Decoded(paired: seq<seq<(int, int)>>, toByte: (int, int) -> Result<byte>): (r: Result<seq<seq<byte>>>)
    ensures r.Ok? ==> |r.value| == |paired|
  {
    if paired == [] then Ok([])
    else match Recombine(paired[0], toByte)
      case Err(e) => Err(e)
      case Ok(b) =>
        match Decoded(paired[1..], toByte)
        case Err(e) => Err(e)
        case Ok(rest) => Ok([b] + rest)
  }

  lemma DecodedCons(p: seq<(int, int)>, ps: seq<seq<(int, int)>>, toByte: (int, int) -> Result<byte>, b: seq<byte>, outs: seq<seq<byte>>)
    requires Recombine(p, toByte) == Ok(b) && Decoded(ps, toByte) == Ok(outs)
    ensures Decoded([p] + ps, toByte) == Ok([b] + outs)
  {
    assert ([p] + ps)[0] == p && ([p] + ps)[1..] == ps;
  }

  lemma {:induction false} EvenSquare(n: nat)
    requires n % 2 == 0
    ensures (n * n) % 2 == 0
  {
    var k := n / 2;
    assert n * n == 2 * (k * n);
  }

  /** A file that fits in one level decodes back to itself. */
  lemma DecodeSingle(data: seq<byte>, size: nat, toByte: (int, int) -> Result<byte>)
    requires 0 < 2 * |data| <= size && InvertsNibbles(toByte)
    ensures Levels(Nibbles(data), size, Pad).Ok?
    ensures Decoded(LevelPairs(Levels(Nibbles(data), size, Pad).value), toByte) == Ok([data])
  {
    var cells := Nibbles(data);
    LevelsSingle(cells, size, Pad);
    var level := cells + Fill(Pad, size - |cells|);
    RealCellsAppend(cells, Fill(Pad, size - |cells|));
    RealCellsPad(size - |cells|);
    RealCellsKeep(cells);
    assert RealCells(level) == cells;
    RecombineNibbles(data, toByte);
    assert LevelPairs([level]) == [Pairs(cells)] + LevelPairs([]);
    DecodedCons(Pairs(cells), [], toByte, data, []);
    assert [Pairs(cells)] + [] == [Pairs(cells)] && [data] + [] == [data];
  }

  /** A full first level decodes to the first N^2 / 2 bytes, and the rest is
      decoded on its own. */
  lemma DecodeStep(a: seq<byte>, b: seq<byte>, size: nat, toByte: (int, int) -> Result<byte>, outs: seq<seq<byte>>)
    requires size > 0 && 2 * |a| == size && b != [] && InvertsNibbles(toByte)
    requires Levels(Nibbles(b), size, Pad).Ok?
    requires Decoded(LevelPairs(Levels(Nibbles(b), size, Pad).value), toByte) == Ok(outs)
    ensures Levels(Nibbles(a + b), size, Pad).Ok?
    ensures Decoded(LevelPairs(Levels(Nibbles(a + b), size, Pad).value), toByte) == Ok([a] + outs)
  {
    NibblesAppend(a, b);
    var na, nb := Nibbles(a), Nibbles(b);
    LevelsFull(na, nb, size, Pad);
    var rest := Levels(nb, size, Pad).value;
    var levels := [na] + rest;
    assert levels[1..] == rest;
    RealCellsKeep(na);
    RecombineNibbles(a, toByte);
    assert LevelPairs(levels) == [Pairs(na)] + LevelPairs(rest);
    DecodedCons(Pairs(na), LevelPairs(rest), toByte, a, outs);
  }

  /** Decoding the levels of a file, pairing level by level, gives the file
      back, provided the level size is even so that no byte straddles two
      levels. */
  lemma {:induction false} DecodeLevels(data: seq<byte>, size: nat, toByte: (int, int) -> Result<byte>)
    requires size > 0 && size % 2 == 0 && data != [] && InvertsNibbles(toByte)
    ensures Levels(Nibbles(data), size, Pad).Ok?
    ensures Decoded(LevelPairs(Levels(Nibbles(data), size, Pad).value), toByte).Ok?
    ensures Flatten(Decoded(LevelPairs(Levels(Nibbles(data), size, Pad).value), toByte).value) == data
    decreases |data|
  {
    if 2 * |data| <= size {
      DecodeSingle(data, size, toByte);
      assert Flatten([data]) == data + Flatten([]);
    } else {
      var a, b := data[..size / 2], data[size / 2..];
      assert data == a + b;
      DecodeLevels(b, size, toByte);
      var outs := Decoded(LevelPairs(Levels(Nibbles(b), size, Pad).value), toByte).value;
      DecodeStep(a, b, size, toByte, outs);
      assert Flatten([a] + outs) == a + Flatten(outs);
    }
  }

  // ------------------------------------------------------------ the files

  /** The texts `write_map` writes for a list of grids. */
  function LevelTexts(grids: seq<Grid>, n: int): (texts: seq<string>)
    ensures |texts| == |grids|
    ensures forall k :: 0 <= k < |grids| ==> texts[k] == WriteMap(grids[k], n)
  {
    if grids == [] then [] else [WriteMap(grids[0], n)] + LevelTexts(grids[1..], n)
  }

  /** The `./Maps` directory after the texts are written in order, text k to
      `f'level_{k:0>8}.tmx'`. */
  function SavedLevels(maps: map<string, string>, texts: seq<string>): map<string, string>
    decreases |texts|
  {
    if texts == [] then maps
    else SavedLevels(maps, texts[..|texts| - 1])[LevelName(|texts| - 1) := texts[|texts| - 1]]
  }

  /** After saving, level file k holds text k. */
  lemma {:induction false} SavedLevelsAt(maps: map<string, string>, texts: seq<string>, k: nat)
    requires k < |texts|
    ensures LevelName(k) in SavedLevels(maps, texts) && SavedLevels(maps, texts)[LevelName(k)] == texts[k]
    decreases |texts|
  {
    var m := |texts| - 1;
    if k < m {
      assert texts[..m][k] == texts[k];
      SavedLevelsAt(maps, texts[..m], k);
      LevelNameInjective(k, m);
    }
  }

  /** Saving touches no file but the level files. */
  lemma {:induction false} SavedLevelsOther(maps: map<string, string>, texts: seq<string>, name: string)
    requires forall k :: 0 <= k < |texts| ==> name != LevelName(k)
    ensures name in SavedLevels(maps, texts) <==> name in maps
    ensures name in maps ==> SavedLevels(maps, texts)[name] == maps[name]
    decreases |texts|
  {
    if texts != [] {
      SavedLevelsOther(maps, texts[..|texts| - 1], name);
    }
  }

  /** Saving one more level file. */
  lemma SavedLevelsStep(maps: map<string, string>, texts: seq<string>, k: nat)
    requires k < |texts|
    ensures SavedLevels(maps, texts[..k + 1]) == SavedLevels(maps, texts[..k])[LevelName(k) := texts[k]]
  {
    assert texts[..k + 1][..k] == texts[..k];
  }

  /** Each grid written with `write_map` to the level file of its number. */
  method SaveMaps(disk: Disk, grids: seq<Grid>, n: int)
    modifies disk
    ensures disk.maps == SavedLevels(old(disk.maps), LevelTexts(grids, n))
    ensures disk.files == old(disk.files)
  {
    ghost var texts := LevelTexts(grids, n);
    var k := 0;
    assert texts[..0] == [];
    while k < |grids|
      invariant 0 <= k <= |grids|
      invariant disk.maps == SavedLevels(old(disk.maps), texts[..k])
      invariant disk.files == old(disk.files)
    {
      disk.WriteText(LevelName(k), WriteMap(grids[k], n));
      SavedLevelsStep(old(disk.maps), texts, k);
      k := k + 1;
    }
    assert texts[..k] == texts;
  }

  /** `for map_num, cur_map in enumerate(maps)`: each level reshaped to
      N x N, its `savetxt` wrapped by `gen_map_file(cur_map.shape, ...)` and
      printed into the level file. */
  method PrintLevels(disk: Disk, levels: seq<seq<int>>, n: nat)
    requires n > 0 && forall k :: 0 <= k < |levels| ==> |levels[k]| == n * n
    modifies disk
    ensures disk.maps == SavedLevels(old(disk.maps), LevelTexts(Reshapes(levels, n), n))
    ensures disk.files == old(disk.files)
  {
    var maps := Reshapes(levels, n);
    ghost var texts := LevelTexts(maps, n);
    var k := 0;
    assert texts[..0] == [];
    while k < |maps|
      invariant 0 <= k <= |maps|
      invariant disk.maps == SavedLevels(old(disk.maps), texts[..k])
      invariant disk.files == old(disk.files)
    {
      ReshapeSquare(levels[k], n);
      var curMap := maps[k];
      var platforms := GenMapFile(|curMap|, |curMap[0]|, SaveTxt(curMap));
      PrintedEqualsWriteMap(curMap, n);
      disk.WriteText(LevelName(k), platforms + "\n");
      SavedLevelsStep(old(disk.maps), texts, k);
      k := k + 1;
    }
    assert texts[..k] == texts;
  }

  lemma LevelPairsSnoc(levels: seq<seq<int>>, m: nat)
    requires 0 < m <= |levels|
    ensures LevelPairs(levels[..m]) == LevelPairs(levels[..m - 1]) + [Pairs(RealCells(levels[m - 1]))]
  {
    var lhs := LevelPairs(levels[..m - 1]) + [Pairs(RealCells(levels[m - 1]))];
    LevelPairsAt(levels[..m]);
    LevelPairsAt(levels[..m - 1]);
    forall k | 0 <= k < m ensures LevelPairs(levels[..m])[k] == lhs[k] {
      if k < m - 1 {
        assert levels[..m - 1][k] == levels[..m][k];
      }
    }
  }

  /** Reading back, in level order, level files whose data lines are the
      rows of grids pairs the real cells of each grid. */
  lemma {:induction false} ReadSaved(maps: map<string, string>, texts: seq<string>, grids: seq<Grid>, levels: seq<seq<int>>, m: nat)
    requires m <= |texts| == |grids| == |levels|
    requires forall k :: 0 <= k < |texts| ==> PySlice(Split(texts[k], '\n'), 6, -4) == RowTexts(grids[k])
    requires forall k :: 0 <= k < |grids| ==> grids[k] != [] && Flatten(grids[k]) == levels[k]
    requires forall k, r :: 0 <= k < |grids| && 0 <= r < |grids[k]| ==> grids[k][r] != []
    ensures ReadPairs(SavedLevels(maps, texts), LevelNames(m)) == Ok(LevelPairs(levels[..m]))
  {
    if m > 0 {
      ReadSaved(maps, texts, grids, levels, m - 1);
      var names := LevelNames(m);
      assert names[..m - 1] == LevelNames(m - 1);
      SavedLevelsAt(maps, texts, m - 1);
      LevelCellsOfRows(texts[m - 1], grids[m - 1]);
      LevelPairsSnoc(levels, m);
    }
  }

  /** The level files written for N^2-cell levels hold N x N grids whose
      data lines are the grid rows. */
  lemma TextsOfLevels(levels: seq<seq<int>>, n: nat)
    requires n > 0 && forall k :: 0 <= k < |levels| ==> |levels[k]| == n * n
    ensures var grids := Reshapes(levels, n);
      var texts := LevelTexts(grids, n);
      && (forall k :: 0 <= k < |texts| ==> PySlice(Split(texts[k], '\n'), 6, -4) == RowTexts(grids[k]))
      && (forall k :: 0 <= k < |grids| ==> grids[k] != [] && Flatten(grids[k]) == levels[k])
      && (forall k, r :: 0 <= k < |grids| && 0 <= r < |grids[k]| ==> grids[k][r] != [])
  {
    var grids := Reshapes(levels, n);
    forall k | 0 <= k < |grids|
      ensures PySlice(Split(WriteMap(grids[k], n), '\n'), 6, -4) == RowTexts(grids[k])
    {
      DataRows(grids[k], n);
    }
    forall k | 0 <= k < |grids|
      ensures |grids[k]| == n && forall r :: 0 <= r < n ==> |grids[k][r]| == n
    {
      ReshapeSquare(levels[k], n);
    }
  }

  /** Level files written for N^2-cell levels and read back in level order
      give the pairs of the real cells of each level. */
  lemma ReadBackLevels(maps: map<string, string>, levels: seq<seq<int>>, n: nat)
    requires n > 0 && forall k :: 0 <= k < |levels| ==> |levels[k]| == n * n
    ensures ReadPairs(SavedLevels(maps, LevelTexts(Reshapes(levels, n), n)), LevelNames(|levels|))
            == Ok(LevelPairs(levels))
  {
    var grids := Reshapes(levels, n);
    TextsOfLevels(levels, n);
    ReadSaved(maps, LevelTexts(grids, n), grids, levels, |levels|);
    assert levels[..|levels|] == levels;
  }

  /** What `levels_to_file` does to the binary files: the level files named
      in `mapDir` are read and decoded with `toByte`, then the source `name`
      is backed up if it has no backup yet and overwritten from offset 0. */
  function Patched(files: map<string, seq<byte>>, maps: map<string, string>, mapDir: seq<string>,
                   name: string, toByte: (int, int) -> Result<byte>): Result<map<string, seq<byte>>>
  {
    match ReadPairs(maps, mapDir)
    case Err(e) => Err(e)
    case Ok(paired) =>
      match Decoded(paired, toByte)
      case Err(e) => Err(e)
      case Ok(outs) => PatchOnce(files, name, Flatten(outs))
  }

  /** Writing the level files of a file and patching them back, in level
      order, leaves the file as it was, and its backup holding it too unless
      a backup already existed. */
  lemma PatchedRoundTrip(files: map<string, seq<byte>>, maps: map<string, string>, name: string,
                         n: nat, toByte: (int, int) -> Result<byte>)
    requires n > 0 && n % 2 == 0 && InvertsNibbles(toByte)
    requires name in files && files[name] != []
    ensures EncodeLevels(files[name], n).Ok?
    ensures var grids := EncodeLevels(files[name], n).value;
      var r := Patched(files, SavedLevels(maps, LevelTexts(grids, n)), LevelNames(|grids|), name, toByte);
      && r.Ok? && name in r.value && BackupName(name) in r.value
      && r.value[name] == files[name]
      && r.value[BackupName(name)] ==
           (if BackupName(name) in files then files[BackupName(name)] else files[name])
  {
    var data := files[name];
    RoundTrip(maps, data, n, toByte);
    var grids := EncodeLevels(data, n).value;
    var paired := ReadPairs(SavedLevels(maps, LevelTexts(grids, n)), LevelNames(|grids|)).value;
    var outs := Decoded(paired, toByte).value;
    assert Flatten(outs) == data;
    PatchOnceRestores(files, name);
    assert Patched(files, SavedLevels(maps, LevelTexts(grids, n)), LevelNames(|grids|), name, toByte)
           == PatchOnce(files, name, data);
  }

  /** Encoding a file into level files and decoding those files, in level
      order, gives the file's bytes back. */
  lemma RoundTrip(maps: map<string, string>, data: seq<byte>, n: nat, toByte: (int, int) -> Result<byte>)
    requires n > 0 && n % 2 == 0 && data != [] && InvertsNibbles(toByte)
    ensures EncodeLevels(data, n).Ok?
    ensures var grids := EncodeLevels(data, n).value;
      var paired := ReadPairs(SavedLevels(maps, LevelTexts(grids, n)), LevelNames(|grids|));
      && paired.Ok?
      && Decoded(paired.value, toByte).Ok?
      && Flatten(Decoded(paired.value, toByte).value) == data
  {
    EvenSquare(n);
    DecodeLevels(data, n * n, toByte);
    var levels := Levels(Nibbles(data), n * n, Pad).value;
    LevelsWidth(Nibbles(data), n * n, Pad);
    ReadBackLevels(maps, levels, n);
    assert EncodeLevels(data, n).value == Reshapes(levels, n);
  }
}
