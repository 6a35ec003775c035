/** `gen_item_menu` (main.py and bytebiter.py): a zero N x N grid whose row
    2i holds the nibbles of menu item i from column 0 on. */
module Menu {
  import opened Base
  import opened Nibble

  /** Cell (r, c) of the menu once the first k items are placed. */
  function MenuCell(items: seq<seq<byte>>, k: nat, r: int, c: int): (v: int)
    requires k <= |items|
    ensures 0 <= v < 16
  {
    if 0 <= r && r % 2 == 0 && r / 2 < k && 0 <= c < 2 * |items[r / 2]|
    then Nibbles(items[r / 2])[c]
    else 0
  }

  /** The error raised by the first item, from item i on, that does not fit:
      a row index 2i past the last row raises IndexError, and more nibbles than
      the row has cells raise ValueError (numpy cannot broadcast them). */
  function MenuError(items: seq<seq<byte>>, n: nat, i: nat): (e: Option<Error>)
    requires i <= |items|
    ensures e.Some? ==> e.value == IndexError || e.value == ValueError
    decreases |items| - i
  {
    if i == |items| then None
    else if 2 * i >= n then Some(IndexError)
    else if 2 * |items[i]| > n then Some(ValueError)
    else MenuError(items, n, i + 1)
  }

  /** The menu raises nothing exactly when every later item has a row and
      every item's nibbles fit in a row. */
  lemma {:induction false} MenuFits(items: seq<seq<byte>>, n: nat, i: nat)
    requires i <= |items|
    ensures MenuError(items, n, i).None? <==>
      forall j :: i <= j < |items| ==> 2 * j < n && 2 * |items[j]| <= n
    decreases |items| - i
  {
    if i < |items| {
      MenuFits(items, n, i + 1);
    }
  }

  /** The grid `gen_item_menu` builds, or the error it raises. */
  function MenuGrid(items: seq<seq<byte>>, n: nat): (r: Result<seq<seq<int>>>)
    ensures r.Err? <==> MenuError(items, n, 0).Some?
    ensures r.Ok? ==> |r.value| == n && forall i :: 0 <= i < n ==> |r.value[i]| == n
  {
    match MenuError(items, n, 0)
    case Some(e) => Err(e)
    case None => Ok(seq(n, r => seq(n, c => MenuCell(items, |items|, r, c))))
  }

  /** Row 2i of the menu starts with the nibbles of item i, which pair up and
      recombine into the item's bytes; the rest of that row is 0. */
  lemma MenuRow(items: seq<seq<byte>>, n: nat, i: nat)
    requires MenuGrid(items, n).Ok? && i < |items|
    ensures 2 * i < n && 2 * |items[i]| <= n
    ensures MenuGrid(items, n).value[2 * i][..2 * |items[i]|] == Nibbles(items[i])
    ensures forall c :: 2 * |items[i]| <= c < n ==> MenuGrid(items, n).value[2 * i][c] == 0
    ensures Recombine(Pairs(MenuGrid(items, n).value[2 * i][..2 * |items[i]|]), PairToByte) == Ok(items[i])
  {
    MenuFits(items, n, 0);
    var row := MenuGrid(items, n).value[2 * i];
    assert (2 * i) / 2 == i && (2 * i) % 2 == 0;
    assert row[..2 * |items[i]|] == Nibbles(items[i]);
    RecombineNibbles(items[i], PairToByte);
  }

  /** Odd rows and the rows after the last item are all zeros. */
  lemma MenuBlank(items: seq<seq<byte>>, n: nat, r: nat, c: nat)
    requires MenuGrid(items, n).Ok? && r < n && c < n
    requires r % 2 == 1 || r >= 2 * |items|
    ensures MenuGrid(items, n).value[r][c] == 0
  {
  }

  /** A zero n x n array, then the nibbles of item i written into row 2i
      from column 0 on, item by item. */
  method BuildMenu(items: seq<seq<byte>>, n: nat) returns (r: Result<array2<int>>)
    ensures r.Err? <==> MenuError(items, n, 0).Some?
    ensures r.Err? ==> Some(r.error) == MenuError(items, n, 0)
    ensures r.Ok? ==> fresh(r.value) && r.value.Length0 == n && r.value.Length1 == n
    ensures r.Ok? ==> forall i, j :: 0 <= i < n && 0 <= j < n ==> r.value[i, j] == MenuCell(items, |items|, i, j)
  {
    var menu := new int[n, n]((i, j) => 0);
    var k := 0;
    while k < |items|
      invariant 0 <= k <= |items|
      invariant MenuError(items, n, 0) == MenuError(items, n, k)
      invariant forall i, j :: 0 <= i < n && 0 <= j < n ==> menu[i, j] == MenuCell(items, k, i, j)
    {
      var hex := Nibbles(items[k]);
      if 2 * k >= n {
        return Err(IndexError);
      }
      if |hex| > n {
        return Err(ValueError);
      }
      PlaceRow(menu, 2 * k, hex);
      forall a, b | 0 <= a < n && 0 <= b < n {
        MenuStep(items, k, a, b);
      }
      k := k + 1;
    }
    return Ok(menu);
  }

  /** `menu[row, 0:len(hex)] = hex` for a row that exists and is long
      enough. */
  method PlaceRow(menu: array2<int>, row: nat, hex: seq<int>)
    requires row < menu.Length0 && |hex| <= menu.Length1
    modifies menu
    ensures forall a, b :: 0 <= a < menu.Length0 && 0 <= b < menu.Length1 ==>
      menu[a, b] == if a == row && b < |hex| then hex[b] else old(menu[a, b])
  {
    var j := 0;
    while j < |hex|
      invariant 0 <= j <= |hex|
      invariant forall a, b :: 0 <= a < menu.Length0 && 0 <= b < menu.Length1 ==>
        menu[a, b] == if a == row && b < j then hex[b] else old(menu[a, b])
    {
      menu[row, j] := hex[j];
      j := j + 1;
    }
  }

  /** Placing item k changes only the first cells of row 2k. */
  lemma MenuStep(items: seq<seq<byte>>, k: nat, a: int, b: int)
    requires k < |items|
    ensures MenuCell(items, k + 1, a, b) ==
      if a == 2 * k && 0 <= b < 2 * |items[k]| then Nibbles(items[k])[b] else MenuCell(items, k, a, b)
  {
    if a == 2 * k {
      assert a / 2 == k && a % 2 == 0;
    } else if 0 <= a && a % 2 == 0 {
      assert a == 2 * (a / 2);
    }
  }

  /** The cells of an array as a list of rows. */
  function Rows(a: array2<int>): (g: seq<seq<int>>)
    reads a
    ensures |g| == a.Length0
    ensures forall i, j :: 0 <= i < a.Length0 && 0 <= j < a.Length1 ==> |g[i]| == a.Length1 && g[i][j] == a[i, j]
  {
    seq(a.Length0, i requires 0 <= i < a.Length0 reads a => seq(a.Length1, j requires 0 <= i < a.Length0 && 0 <= j < a.Length1 reads a => a[i, j]))
  }

  /** The rows of the array `BuildMenu` returns are the menu grid. */
  lemma RowsAreMenu(a: array2<int>, items: seq<seq<byte>>, n: nat)
    requires MenuGrid(items, n).Ok? && a.Length0 == n && a.Length1 == n
    requires forall i, j :: 0 <= i < n && 0 <= j < n ==> a[i, j] == MenuCell(items, |items|, i, j)
    ensures Rows(a) == MenuGrid(items, n).value
  {
    var g, m := Rows(a), MenuGrid(items, n).value;
    forall i | 0 <= i < n ensures g[i] == m[i] {
      assert |g[i]| == n;
    }
  }
}
