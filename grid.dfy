/** Cutting a flat list of cells into levels: `[xs[x:x+S] for x in range(0,
    len(xs), S)]`, padding the last piece in place, and the row-major reshape
    of one level into an N x N grid. */
module Grid {
  import opened Base

  /** A level as the decoder and the game see it: a list of rows. */
  type Grid = seq<seq<int>>

  /** Consecutive slices of `size` elements; the last may be shorter. */
  function Chunks<T>(xs: seq<T>, size: nat): (cs: seq<seq<T>>)
    requires size > 0
    ensures Flatten(cs) == xs
    ensures forall i :: 0 <= i < |cs| ==> 0 < |cs[i]| <= size
    ensures forall i :: 0 <= i < |cs| - 1 ==> |cs[i]| == size
    decreases |xs|
  {
    if |xs| == 0 then []
    else if |xs| <= size then [xs]
    else
      var cs := [xs[..size]] + Chunks(xs[size..], size);
      assert xs == xs[..size] + xs[size..];
      cs
  }

  /** The number of chunks is the ceiling of |xs| / size. */
  lemma {:induction false} ChunksCount<T>(xs: seq<T>, size: nat)
    requires size > 0
    ensures (|Chunks(xs, size)| - 1) * size < |xs| <= |Chunks(xs, size)| * size
    decreases |xs|
  {
    if |xs| > size {
      ChunksCount(xs[size..], size);
      var k := |Chunks(xs[size..], size)|;
      MulStep(k, size);
      MulStep(k - 1, size);
    }
  }

  lemma MulStep(k: int, size: int)
    ensures (k + 1) * size == k * size + size
  {
  }

  lemma SquarePos(n: nat)
    requires n > 0
    ensures n * n > 0
  {
  }

  /** The ceiling of m * size / size is m. */
  lemma CeilExact(k: int, m: int, size: nat)
    requires size > 0 && (k - 1) * size < m * size <= k * size
    ensures k == m
  {
  }

  /** A list that starts with a full chunk cuts into that chunk and the rest. */
  lemma ChunksFull<T>(a: seq<T>, b: seq<T>, size: nat)
    requires size > 0 && |a| == size && b != []
    ensures Chunks(a + b, size) == [a] + Chunks(b, size)
  {
    assert (a + b)[..size] == a;
    assert (a + b)[size..] == b;
  }

  /** The last chunk extended in place with pads up to `size`; with no
      chunks the `[-1]` index raises. */
  function PadLast(cs: seq<seq<int>>, size: nat, pad: int): Result<seq<seq<int>>>
  {
    if cs == [] then Err(IndexError)
    else
      var last := cs[|cs| - 1];
      Ok(cs[..|cs| - 1] + [last + Fill(pad, if |last| < size then size - |last| else 0)])
  }

  /** Padding the last chunk is updating it in place. */
  lemma PadLastInPlace(cs: seq<seq<int>>, size: nat, pad: int)
    requires cs != [] && |cs[|cs| - 1]| <= size
    ensures PadLast(cs, size, pad) == Ok(cs[|cs| - 1 := cs[|cs| - 1] + Fill(pad, size - |cs[|cs| - 1]|)])
  {
    var last := cs[|cs| - 1];
    var padded := last + Fill(pad, size - |last|);
    assert cs[..|cs| - 1] + [padded] == cs[|cs| - 1 := padded];
  }

  /** The flat levels of a cell list: chunks of `size`, the last one padded. */
  function Levels(cells: seq<int>, size: nat, pad: int): Result<seq<seq<int>>>
    requires size > 0
  {
    PadLast(Chunks(cells, size), size, pad)
  }

  /** `[-1]` of no chunks raises: the levels fail exactly for no cells. */
  lemma LevelsEmpty(cells: seq<int>, size: nat, pad: int)
    requires size > 0
    ensures cells == [] <==> Levels(cells, size, pad).Err?
    ensures cells == [] ==> Levels(cells, size, pad) == Err(IndexError)
  {
  }

  /** There are ceil(|cells| / size) levels, as many as there are chunks. */
  lemma LevelsCount(cells: seq<int>, size: nat, pad: int)
    requires size > 0 && cells != []
    ensures Levels(cells, size, pad).Ok?
    ensures |Levels(cells, size, pad).value| == |Chunks(cells, size)|
    ensures var m := |Levels(cells, size, pad).value|; (m - 1) * size < |cells| <= m * size
  {
    ChunksCount(cells, size);
  }

  /** Every level, the padded last one included, has exactly `size` cells. */
  lemma LevelsWidth(cells: seq<int>, size: nat, pad: int)
    requires size > 0 && cells != []
    ensures Levels(cells, size, pad).Ok?
    ensures forall i :: 0 <= i < |Levels(cells, size, pad).value| ==> |Levels(cells, size, pad).value[i]| == size
  {
  }

  /** Every level but the last is the corresponding chunk, untouched. */
  lemma LevelsPrefix(cells: seq<int>, size: nat, pad: int)
    requires size > 0 && cells != []
    ensures Levels(cells, size, pad).Ok?
    ensures var ls := Levels(cells, size, pad).value;
      |ls| == |Chunks(cells, size)| && ls[..|ls| - 1] == Chunks(cells, size)[..|ls| - 1]
  {
  }

  /** A level before the last holds only cells of the input. */
  lemma LevelsBeforeLast(cells: seq<int>, size: nat, pad: int, k: nat, v: int)
    requires size > 0 && cells != []
    requires Levels(cells, size, pad).Ok? && k < |Levels(cells, size, pad).value| - 1
    requires v in Levels(cells, size, pad).value[k]
    ensures v in cells
  {
    var cs := Chunks(cells, size);
    LevelsPrefix(cells, size, pad);
    assert Levels(cells, size, pad).value[k] == cs[k];
    FlattenMember(cs, k, v);
  }

  /** Padding the last piece adds the pads at the very end. */
  lemma PadLastFlat(cs: seq<seq<int>>, size: nat, pad: int)
    requires cs != [] && |cs[|cs| - 1]| <= size
    ensures PadLast(cs, size, pad).Ok?
    ensures Flatten(PadLast(cs, size, pad).value) == Flatten(cs) + Fill(pad, size - |cs[|cs| - 1]|)
  {
    var init, last := cs[..|cs| - 1], cs[|cs| - 1];
    assert cs == init + [last];
    FlattenSnoc(init, last);
    FlattenSnoc(init, last + Fill(pad, size - |last|));
  }

  /** Laid end to end the levels are the cells followed by fewer than `size`
      pads; with `LevelsWidth` and `FlattenFull`, the pads number
      |levels| * size - |cells|. */
  lemma LevelsCells(cells: seq<int>, size: nat, pad: int)
    requires size > 0 && cells != []
    ensures Levels(cells, size, pad).Ok?
    ensures var flat := Flatten(Levels(cells, size, pad).value);
      && |cells| <= |flat| < |cells| + size
      && flat == cells + Fill(pad, |flat| - |cells|)
  {
    PadLastFlat(Chunks(cells, size), size, pad);
  }

  /** The levels of m cells have `size` cells each, and laid end to end they
      are the cells followed by pads. */
  lemma LevelsCellsCount(cells: seq<int>, size: nat, pad: int, m: nat) returns (p: nat)
    requires size > 0 && cells != [] && |cells| == m
    ensures Levels(cells, size, pad).Ok?
    ensures forall k :: 0 <= k < |Levels(cells, size, pad).value| ==> |Levels(cells, size, pad).value[k]| == size
    ensures Flatten(Levels(cells, size, pad).value) == cells + Fill(pad, p)
    ensures |Flatten(Levels(cells, size, pad).value)| == m + p && p < size
  {
    LevelsWidth(cells, size, pad);
    LevelsCells(cells, size, pad);
    p := |Flatten(Levels(cells, size, pad).value)| - m;
  }

  lemma {:induction false} FlattenFull<T>(cs: seq<seq<T>>, size: nat)
    requires forall i :: 0 <= i < |cs| ==> |cs[i]| == size
    ensures |Flatten(cs)| == |cs| * size
  {
    if cs != [] {
      FlattenFull(cs[1..], size);
    }
  }

  /** When the cell count is a multiple of the level size the padding adds
      nothing. */
  lemma PaddingNoOp(cells: seq<int>, size: nat, pad: int, m: nat)
    requires size > 0 && m > 0 && |cells| == m * size
    ensures Levels(cells, size, pad).Ok?
    ensures Flatten(Levels(cells, size, pad).value) == cells
    ensures |Levels(cells, size, pad).value| == m
  {
    LevelsCount(cells, size, pad);
    LevelsWidth(cells, size, pad);
    LevelsCells(cells, size, pad);
    var ls := Levels(cells, size, pad).value;
    FlattenFull(ls, size);
    CeilExact(|ls|, m, size);
    assert Fill(pad, 0) == [];
  }

  /** No padding when the cell count is a multiple of the level size. */
  lemma LevelsExact(cells: seq<int>, size: nat, pad: int)
    requires size > 0 && cells != [] && |cells| % size == 0
    ensures Levels(cells, size, pad).Ok?
    ensures Flatten(Levels(cells, size, pad).value) == cells
  {
    var q := |cells| / size;
    assert |cells| == q * size;
    PaddingNoOp(cells, size, pad, q);
  }

  /** The levels add fewer than `size` pads, and none when the cell count is
      a multiple of `size`. */
  lemma LevelsPads(cells: seq<int>, size: nat, pad: int)
    requires size > 0 && cells != []
    ensures Levels(cells, size, pad).Ok?
    ensures var flat := Flatten(Levels(cells, size, pad).value);
      var padding := |flat| - |cells|;
      && 0 <= padding < size
      && flat == cells + Fill(pad, padding)
      && (|cells| % size == 0 ==> padding == 0)
  {
    LevelsCells(cells, size, pad);
    if |cells| % size == 0 {
      LevelsExact(cells, size, pad);
    }
  }

  /** A level whose cells all fit: one level, padded to `size`. */
  lemma LevelsSingle(cells: seq<int>, size: nat, pad: int)
    requires 0 < |cells| <= size
    ensures Levels(cells, size, pad) == Ok([cells + Fill(pad, size - |cells|)])
  {
    var cs := Chunks(cells, size);
    assert cs == [cells];
    assert cs[..0] + [cells + Fill(pad, size - |cells|)] == [cells + Fill(pad, size - |cells|)];
  }

  lemma PadLastCons(x: seq<int>, cs: seq<seq<int>>, size: nat, pad: int)
    requires cs != []
    ensures PadLast([x] + cs, size, pad).Ok? && PadLast(cs, size, pad).Ok?
    ensures PadLast([x] + cs, size, pad).value == [x] + PadLast(cs, size, pad).value
  {
    var xs := [x] + cs;
    assert xs[|xs| - 1] == cs[|cs| - 1];
    assert xs[..|xs| - 1] == [x] + cs[..|cs| - 1];
  }

  /** A full first level is left as it is and the rest is cut the same way. */
  lemma LevelsFull(a: seq<int>, b: seq<int>, size: nat, pad: int)
    requires size > 0 && |a| == size && b != []
    ensures Levels(a + b, size, pad).Ok? && Levels(b, size, pad).Ok?
    ensures Levels(a + b, size, pad).value == [a] + Levels(b, size, pad).value
  {
    ChunksFull(a, b, size);
    PadLastCons(a, Chunks(b, size), size, pad);
  }

  /** `np.reshape(chunk, (n, n))`: row-major, so the rows are the n-cell
      pieces of the chunk in order. */
  function Reshape(chunk: seq<int>, n: nat): (g: Grid)
    requires n > 0
    ensures Flatten(g) == chunk
    ensures forall r :: 0 <= r < |g| ==> 0 < |g[r]| <= n
  {
    Chunks(chunk, n)
  }

  /** An n*n chunk becomes an n x n grid. */
  lemma ReshapeSquare(chunk: seq<int>, n: nat)
    requires n > 0 && |chunk| == n * n
    ensures |Reshape(chunk, n)| == n
    ensures forall r :: 0 <= r < n ==> |Reshape(chunk, n)[r]| == n
  {
    ChunksCount(chunk, n);
    CeilExact(|Reshape(chunk, n)|, n, n);
    var g := Reshape(chunk, n);
    FlattenFull(g[..n - 1], n);
    assert g == g[..n - 1] + [g[n - 1]];
    FlattenAppend(g[..n - 1], [g[n - 1]]);
    assert Flatten([g[n - 1]]) == g[n - 1];
  }
}
