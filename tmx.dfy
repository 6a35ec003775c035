/** The text of a level file: a six-line map header, one comma-separated
    line per grid row as `np.savetxt(delimiter=",", fmt='%s')` writes it, and
    a three-line footer. */
module Tmx {
  import opened Base
  import opened PyText
  import opened PyNum
  import opened Grid

  /** The header lines; the width and height are written with `str`. The
      second line ends in a space in every copy of the template. */
  function HeaderLines(w: int, h: int): seq<string>
  {
    [XmlLine, MapLine(w, h), TileLine, TilesetLine, LayerLine(w, h), DataLine]
  }

  const XmlLine: string := "<?xml version=\"1.0\" " + "encoding=\"UTF-8\"?>"

  function MapLine(w: int, h: int): string
  {
    MapOpen + Str(w) + HeightAttr + Str(h) + "\" "
  }

  const MapOpen: string := MapVersion + MapLayout

  const MapVersion: string := "<map version=\"1.2\" " + "tiledversion=\"1.2.3\" "

  const MapLayout: string := "orientation=\"orthogonal\" " + "renderorder=\"right-down\" " + "width=\""

  const HeightAttr: string := "\" height=\""

  const TileLine: string := TileSize + TileIds

  const TileSize: string := "tilewidth=\"64\" " + "tileheight=\"64\" " + "infinite=\"0\" "

  const TileIds: string := "nextlayerid=\"2\" " + "nextobjectid=\"1\">"

  const TilesetLine: string := " <tileset firstgid=\"1\" " + "source=\"./tiles.tsx\"/>"

  function LayerLine(w: int, h: int): string
  {
    LayerOpen + Str(w) + HeightAttr + Str(h) + "\">"
  }

  const LayerOpen: string := " <layer id=\"1\" " + "name=\"Platforms\" " + "width=\""

  const DataLine: string := "  <data encoding=\"csv\">"

  const FooterLines: seq<string> := ["</data>", " </layer>", "</map>"]

  /** `str(v)` of every cell of a row. */
  function Strs(row: seq<int>): (ts: seq<string>)
    ensures |ts| == |row|
  {
    if row == [] then [] else [Str(row[0])] + Strs(row[1..])
  }

  /** One line of `np.savetxt(..., delimiter=",", fmt='%s')`. */
  function RowText(row: seq<int>): string
  {
    Join(Strs(row), ',')
  }

  function RowTexts(g: Grid): (lines: seq<string>)
    ensures |lines| == |g|
  {
    if g == [] then [] else [RowText(g[0])] + RowTexts(g[1..])
  }

  /** What `np.savetxt` writes for the rows: each line then a newline. */
  function SaveTxt(g: Grid): string
  {
    if g == [] then "" else RowText(g[0]) + "\n" + SaveTxt(g[1..])
  }

  /** `write_map` (main.py): `np.savetxt` with the header and footer; it adds a
      newline after the header and after the footer. */
  function WriteMap(g: Grid, n: int): string
  {
    Join(HeaderLines(n, n), '\n') + "\n" + SaveTxt(g) + Join(FooterLines, '\n') + "\n"
  }

  /** `gen_map_file(map_info, data)` (map_gen.py and bytebiter.py): the header,
      a newline, the data, then the footer straight after it. */
  function GenMapFile(w: int, h: int, data: string): string
  {
    Join(HeaderLines(w, h), '\n') + "\n" + data + Join(FooterLines, '\n')
  }

  /** `print(gen_map_file(shape, savetxt), file=f)` leaves exactly the text
      `write_map` writes. */
  lemma PrintedEqualsWriteMap(g: Grid, n: int)
    ensures GenMapFile(n, n, SaveTxt(g)) + "\n" == WriteMap(g, n)
  {
  }

  lemma {:induction false} SaveTxtJoin(g: Grid)
    requires g != []
    ensures SaveTxt(g) == Join(RowTexts(g), '\n') + "\n"
  {
    if |g| > 1 {
      SaveTxtJoin(g[1..]);
    }
  }

  lemma {:induction false} JoinAvoids(parts: seq<string>, c: char, d: char)
    requires c != d && forall p :: p in parts ==> d !in p
    ensures d !in Join(parts, c)
  {
    if |parts| > 1 {
      assert parts[0] in parts;
      forall p | p in parts[1..] ensures d !in p {
        assert p in parts;
      }
      JoinAvoids(parts[1..], c, d);
    } else if |parts| == 1 {
      assert parts[0] in parts;
    }
  }

  lemma {:induction false} StrsTokens(row: seq<int>)
    ensures forall t :: t in Strs(row) ==> t != [] && ',' !in t && '\n' !in t
  {
    if row != [] {
      StrToken(row[0]);
      StrsTokens(row[1..]);
    }
  }

  lemma RowTextPlain(row: seq<int>)
    ensures '\n' !in RowText(row)
  {
    StrsTokens(row);
    JoinAvoids(Strs(row), ',', '\n');
  }

  lemma {:induction false} RowTextsPlain(g: Grid)
    ensures forall l :: l in RowTexts(g) ==> '\n' !in l
  {
    if g != [] {
      RowTextPlain(g[0]);
      RowTextsPlain(g[1..]);
    }
  }

  /** A header line with the width and height filled in has no newline when
      its fixed parts have none. */
  lemma AttrLinePlain(a: string, w: int, b: string, h: int, c: string)
    requires '\n' !in a && '\n' !in b && '\n' !in c
    ensures '\n' !in a + Str(w) + b + Str(h) + c
  {
    StrToken(w);
    StrToken(h);
  }

  lemma {:induction false} PlainJoin(a: string, b: string)
    requires '\n' !in a && '\n' !in b
    ensures '\n' !in a + b
  {
  }

  lemma MapVersionPlain()
    ensures '\n' !in MapVersion
  {
    assert '\n' !in "<map version=\"1.2\" ";
    assert '\n' !in "tiledversion=\"1.2.3\" ";
  }

  lemma MapLayoutPlain()
    ensures '\n' !in MapLayout
  {
    assert '\n' !in "orientation=\"orthogonal\" ";
    assert '\n' !in "renderorder=\"right-down\" ";
  }

  lemma MapOpenPlain()
    ensures '\n' !in MapOpen
  {
    MapVersionPlain();
    MapLayoutPlain();
    PlainJoin(MapVersion, MapLayout);
  }

  lemma TileSizePlain()
    ensures '\n' !in TileSize
  {
    assert '\n' !in "tilewidth=\"64\" ";
    assert '\n' !in "tileheight=\"64\" ";
  }

  lemma TileIdsPlain()
    ensures '\n' !in TileIds
  {
    assert '\n' !in "nextlayerid=\"2\" ";
    assert '\n' !in "nextobjectid=\"1\">";
  }

  lemma TileLinePlain()
    ensures '\n' !in TileLine
  {
    TileSizePlain();
    TileIdsPlain();
    PlainJoin(TileSize, TileIds);
  }

  lemma XmlLinePlain()
    ensures '\n' !in XmlLine
  {
    assert '\n' !in "<?xml version=\"1.0\" ";
  }

  lemma TilesetLinePlain()
    ensures '\n' !in TilesetLine
  {
    assert '\n' !in " <tileset firstgid=\"1\" ";
  }

  lemma LayerOpenPlain()
    ensures '\n' !in LayerOpen && '\n' !in HeightAttr
  {
    assert '\n' !in " <layer id=\"1\" ";
    assert '\n' !in "name=\"Platforms\" ";
  }

  lemma FooterPlain()
    ensures forall l :: l in FooterLines + [""] ==> '\n' !in l
  {
    assert '\n' !in "</data>" && '\n' !in " </layer>" && '\n' !in "</map>";
  }

  lemma HeaderPlain(w: int, h: int)
    ensures forall l :: l in HeaderLines(w, h) ==> '\n' !in l
  {
    MapOpenPlain();
    TileLinePlain();
    XmlLinePlain();
    TilesetLinePlain();
    LayerOpenPlain();
    assert '\n' !in "\" " && '\n' !in "\">";
    AttrLinePlain(MapOpen, w, HeightAttr, h, "\" ");
    AttrLinePlain(LayerOpen, w, HeightAttr, h, "\">");
  }

  /** Header lines, a text that is either empty or some lines each ended by a
      newline, and footer lines, joined the way `write_map` lays them out. */
  lemma {:induction false} LinesJoin(hs: seq<string>, rs: seq<string>, body: string, fs: seq<string>)
    requires |hs| >= 1 && |fs| >= 1
    requires body == if rs == [] then "" else Join(rs, '\n') + "\n"
    ensures Join(hs, '\n') + "\n" + body + Join(fs, '\n') + "\n" == Join(hs + rs + fs + [""], '\n')
  {
    JoinAppend(fs, [""], '\n');
    var tail := fs + [""];
    if rs == [] {
      assert hs + rs + fs + [""] == hs + tail;
      JoinAppend(hs, tail, '\n');
    } else {
      assert hs + rs + fs + [""] == hs + (rs + tail);
      JoinAppend(rs, tail, '\n');
      JoinAppend(hs, rs + tail, '\n');
    }
  }

  /** A level file is its lines joined by newlines. */
  lemma WriteMapJoin(g: Grid, n: int)
    ensures WriteMap(g, n) == Join(HeaderLines(n, n) + RowTexts(g) + FooterLines + [""], '\n')
  {
    if g != [] {
      SaveTxtJoin(g);
    }
    LinesJoin(HeaderLines(n, n), RowTexts(g), SaveTxt(g), FooterLines);
  }

  lemma {:induction false} PlainConcat(a: seq<string>, b: seq<string>)
    requires forall l :: l in a ==> '\n' !in l
    requires forall l :: l in b ==> '\n' !in l
    ensures forall l :: l in a + b ==> '\n' !in l
  {
  }

  /** The lines of a level file: the six header lines, one line per row, the
      three footer lines, and the empty string after the final newline. */
  lemma FileLines(g: Grid, n: int)
    ensures Split(WriteMap(g, n), '\n') == HeaderLines(n, n) + RowTexts(g) + FooterLines + [""]
  {
    var hs, rs, fs := HeaderLines(n, n), RowTexts(g), FooterLines + [""];
    WriteMapJoin(g, n);
    HeaderPlain(n, n);
    RowTextsPlain(g);
    FooterPlain();
    PlainConcat(hs, rs);
    PlainConcat(hs + rs, fs);
    assert hs + rs + fs == HeaderLines(n, n) + RowTexts(g) + FooterLines + [""];
    SplitJoin(hs + rs + fs, '\n');
  }

  /** `text.split('\n')[6:-4]` of a level file is exactly its data rows. */
  lemma DataRows(g: Grid, n: int)
    ensures PySlice(Split(WriteMap(g, n), '\n'), 6, -4) == RowTexts(g)
  {
    FileLines(g, n);
    var hs, rs := HeaderLines(n, n), RowTexts(g);
    assert hs + rs + FooterLines + [""] == hs + rs + (FooterLines + [""]);
    SliceMiddle(hs, rs, FooterLines + [""]);
  }

  lemma {:induction false} StrsAppend(a: seq<int>, b: seq<int>)
    ensures Strs(a + b) == Strs(a) + Strs(b)
  {
    if a == [] {
      assert a + b == b;
    } else {
      assert (a + b)[1..] == a[1..] + b;
      StrsAppend(a[1..], b);
    }
  }

  /** `','.join(rows).split(',')` of the data rows gives back the cell tokens
      in row-major order. */
  lemma {:induction false} RowsTokens(g: Grid)
    requires g != [] && forall r :: 0 <= r < |g| ==> g[r] != []
    ensures Split(Join(RowTexts(g), ','), ',') == Strs(Flatten(g))
  {
    JoinRows(g);
    StrsTokens(Flatten(g));
    SplitJoin(Strs(Flatten(g)), ',');
  }

  lemma {:induction false} JoinRows(g: Grid)
    requires g != [] && forall r :: 0 <= r < |g| ==> g[r] != []
    ensures Flatten(g) != []
    ensures Join(RowTexts(g), ',') == Join(Strs(Flatten(g)), ',')
  {
    if |g| == 1 {
      assert Flatten(g) == g[0] + Flatten(g[1..]);
      assert Flatten(g) == g[0];
    } else {
      var rest := g[1..];
      JoinRows(rest);
      assert RowTexts(g) == [RowText(g[0])] + RowTexts(rest);
      assert Join(RowTexts(g), ',') == RowText(g[0]) + [','] + Join(RowTexts(rest), ',');
      StrsAppend(g[0], Flatten(rest));
      JoinAppend(Strs(g[0]), Strs(Flatten(rest)), ',');
    }
  }
}
