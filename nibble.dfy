/** Splitting bytes into nibbles and joining nibble pairs back into bytes. */
module Nibble {
  import opened Base
  import opened PyNum

  /** `byte_to_hex`: `hex(b)[2:].zfill(2)`, each of the two characters read in
      base 16. The same code stands in main.py and bytebiter.py. */
  function ByteToHex(b: byte): (pair: (int, int))
    ensures pair == (b / 16, b % 16)
    ensures 0 <= pair.0 < 16 && 0 <= pair.1 < 16
  {
    var val := ZFill(Hex(b)[2..], 2);
    ByteHexString(b);
    HexDigitRoundTrip(b / 16);
    HexDigitRoundTrip(b % 16);
    var hi := IntBase16([val[0]]);
    var lo := IntBase16(ZFill([val[1]], 1));
    (hi.value, lo.value)
  }

  /** The byte read in base 16 from the leading hex digit of each
      value, joined. A negative value puts an 'x' into the string and
      `int(..., 16)` raises. */
  function PairToByte(h: int, l: int): (r: Result<byte>)
    ensures r == if h < 0 || l < 0 then Err(ValueError)
                 else Ok(16 * LeadHexDigit(h) + LeadHexDigit(l))
  {
    PairDigits(h, l);
    var digits := [Hex(h)[2], Hex(l)[2]];
    match IntBase16(digits)
    case None => Err(ValueError)
    case Some(v) => if v < 256 then Ok(v) else Err(ValueError)
  }

  lemma PairDigits(h: int, l: int)
    ensures IntBase16([Hex(h)[2], Hex(l)[2]]) ==
      if h < 0 || l < 0 then None else Some(16 * LeadHexDigit(h) + LeadHexDigit(l))
  {
    HexThirdChar(h);
    HexThirdChar(l);
    IntBase16Pair(Hex(h)[2], Hex(l)[2]);
    if h >= 0 {
      HexDigitRoundTrip(LeadHexDigit(h));
    }
    if l >= 0 {
      HexDigitRoundTrip(LeadHexDigit(l));
    }
  }

  /** Real nibbles come back as the byte they describe. */
  lemma PairToByteNibbles(h: int, l: int)
    requires 0 <= h < 16 && 0 <= l < 16
    ensures PairToByte(h, l) == Ok(16 * h + l)
  {
  }

  /** The flattened `byte_to_hex` pairs: high then low nibble of each byte
      (ByteToHex's contract says these are the pair it reads back). */
  function Nibbles(data: seq<byte>): (cells: seq<int>)
    ensures |cells| == 2 * |data|
    ensures forall i :: 0 <= i < |cells| ==> 0 <= cells[i] < 16
  {
    if data == [] then []
    else [data[0] / 16, data[0] % 16] + Nibbles(data[1..])
  }

  /** Byte k is stored high nibble first, at positions 2k and 2k+1. */
  lemma NibblesAt(data: seq<byte>, k: nat)
    requires k < |data|
    ensures Nibbles(data)[2 * k] == data[k] / 16 && Nibbles(data)[2 * k + 1] == data[k] % 16
  {
    var pre, post := data[..k], data[k..];
    assert data == pre + post;
    NibblesAppend(pre, post);
    NibblesCons(post);
    assert post[0] == data[k];
    var rest := Nibbles(post[1..]);
    assert Nibbles(data) == Nibbles(pre) + ([data[k] / 16, data[k] % 16] + rest);
    assert |Nibbles(pre)| == 2 * k;
  }

  lemma NibblesCons(data: seq<byte>)
    requires data != []
    ensures Nibbles(data) == [data[0] / 16, data[0] % 16] + Nibbles(data[1..])
  {
  }

  lemma NibblesOne(b: byte)
    ensures Nibbles([b]) == [b / 16, b % 16]
  {
    assert [b][1..] == [];
  }

  lemma {:induction false} NibblesAppend(a: seq<byte>, b: seq<byte>)
    ensures Nibbles(a + b) == Nibbles(a) + Nibbles(b)
  {
    if a == [] {
      assert a + b == b;
    } else {
      assert (a + b)[1..] == a[1..] + b;
      NibblesAppend(a[1..], b);
    }
  }

  /** `xs[::2]` */
  function EveryOther(xs: seq<int>): (r: seq<int>)
    ensures |r| == (|xs| + 1) / 2
    ensures forall k :: 0 <= k < |r| ==> r[k] == xs[2 * k]
    decreases |xs|
  {
    if |xs| == 0 then []
    else if |xs| == 1 then [xs[0]]
    else
      var rest := EveryOther(xs[2..]);
      assert forall k :: 1 <= k < |rest| + 1 ==> xs[2 * k] == xs[2..][2 * (k - 1)];
      [xs[0]] + rest
  }

  /** `zip(a, b)`: stops at the shorter list. */
  function Zip(a: seq<int>, b: seq<int>): (ps: seq<(int, int)>)
    ensures |ps| == if |a| < |b| then |a| else |b|
    ensures forall k :: 0 <= k < |ps| ==> ps[k] == (a[k], b[k])
  {
    if a == [] || b == [] then [] else [(a[0], b[0])] + Zip(a[1..], b[1..])
  }

  /** Consecutive pairs (xs[0], xs[1]), (xs[2], xs[3]), ...; an odd last value
      has no partner. */
  function Pairs(xs: seq<int>): seq<(int, int)>
  {
    if |xs| < 2 then [] else [(xs[0], xs[1])] + Pairs(xs[2..])
  }

  lemma {:induction false} PairsAt(xs: seq<int>)
    ensures |Pairs(xs)| == |xs| / 2
    ensures forall k :: 0 <= k < |xs| / 2 ==> Pairs(xs)[k] == (xs[2 * k], xs[2 * k + 1])
  {
    if |xs| >= 2 {
      PairsAt(xs[2..]);
      var r := Pairs(xs[2..]);
      assert forall k :: 1 <= k < |xs| / 2 ==> Pairs(xs)[k] == r[k - 1];
    }
  }

  /** `zip(xs[::2], xs[1::2])` pairs consecutive values and drops an odd last one. */
  function PairUp(xs: seq<int>): (ps: seq<(int, int)>)
    ensures ps == Pairs(xs)
  {
    var odds := if xs == [] then [] else EveryOther(xs[1..]);
    assert forall k :: 0 <= k < |odds| ==> odds[k] == xs[2 * k + 1];
    var ps := Zip(EveryOther(xs), odds);
    PairsAt(xs);
    assert |ps| == |Pairs(xs)|;
    ps
  }

  /** Pairs never span two lists of even length. */
  lemma {:induction false} PairsAppend(a: seq<int>, b: seq<int>)
    requires |a| % 2 == 0
    ensures Pairs(a + b) == Pairs(a) + Pairs(b)
    decreases |a|
  {
    if a == [] {
      assert a + b == b;
    } else {
      assert (a + b)[2..] == a[2..] + b;
      PairsAppend(a[2..], b);
    }
  }

  /** A trailing unpaired value is silently dropped. */
  lemma PairsDropOdd(xs: seq<int>, x: int)
    requires |xs| % 2 == 0
    ensures Pairs(xs + [x]) == Pairs(xs)
  {
    PairsAppend(xs, [x]);
  }

  /** `b''.join(to_byte(p) for p in ps)`; the first pair that raises aborts. */
  function Recombine(ps: seq<(int, int)>, toByte: (int, int) -> Result<byte>): Result<seq<byte>>
  {
    if ps == [] then Ok([])
    else match toByte(ps[0].0, ps[0].1)
      case Err(e) => Err(e)
      case Ok(b) =>
        match Recombine(ps[1..], toByte)
        case Err(e) => Err(e)
        case Ok(rest) => Ok([b] + rest)
  }

  lemma NibblePairsCons(data: seq<byte>)
    requires data != []
    ensures Pairs(Nibbles(data)) == [(data[0] / 16, data[0] % 16)] + Pairs(Nibbles(data[1..]))
  {
    var cells := Nibbles(data);
    assert cells == [data[0] / 16, data[0] % 16] + Nibbles(data[1..]);
    assert cells[2..] == Nibbles(data[1..]);
  }

  lemma RecombineCons(p: (int, int), ps: seq<(int, int)>, toByte: (int, int) -> Result<byte>)
    requires toByte(p.0, p.1).Ok? && Recombine(ps, toByte).Ok?
    ensures Recombine([p] + ps, toByte) == Ok([toByte(p.0, p.1).value] + Recombine(ps, toByte).value)
  {
    assert ([p] + ps)[0] == p;
    assert ([p] + ps)[1..] == ps;
  }

  /** Pairing the nibbles of some bytes and recombining them with any
      conversion that inverts `byte_to_hex` gives the bytes back. */
  lemma {:induction false} RecombineNibbles(data: seq<byte>, toByte: (int, int) -> Result<byte>)
    requires forall h, l :: 0 <= h < 16 && 0 <= l < 16 ==> toByte(h, l) == Ok(16 * h + l)
    ensures Recombine(Pairs(Nibbles(data)), toByte) == Ok(data)
  {
    if data != [] {
      var b, rest := data[0], data[1..];
      NibblePairsCons(data);
      RecombineNibbles(rest, toByte);
      var h, l := ByteHalves(b);
      assert toByte(h, l) == Ok(b);
      RecombineCons((h, l), Pairs(Nibbles(rest)), toByte);
      HeadTail(data);
    }
  }

  /** The high and low nibble of a byte, and how they make it up again. */
  lemma ByteHalves(b: byte) returns (h: int, l: int)
    ensures h == b / 16 && l == b % 16
    ensures 0 <= h < 16 && 0 <= l < 16 && 16 * h + l == b
  {
    h, l := b / 16, b % 16;
  }

  /** Recombining two lists of pairs one after the other. */
  lemma {:induction false} RecombineAppend(a: seq<(int, int)>, b: seq<(int, int)>, toByte: (int, int) -> Result<byte>)
    ensures Recombine(a + b, toByte) == Concat(Recombine(a, toByte), Recombine(b, toByte))
  {
    if a == [] {
      assert a + b == b;
      ConcatNil(Recombine(b, toByte));
    } else {
      assert (a + b)[0] == a[0] && (a + b)[1..] == a[1..] + b;
      RecombineAppend(a[1..], b, toByte);
      var x := toByte(a[0].0, a[0].1);
      if x.Ok? {
        ConcatAssoc(Ok([x.value]), Recombine(a[1..], toByte), Recombine(b, toByte));
      }
    }
  }

  lemma RecombineOne(p: (int, int), toByte: (int, int) -> Result<byte>)
    ensures Recombine([p], toByte) == match toByte(p.0, p.1) case Err(e) => Err(e) case Ok(b) => Ok([b])
  {
    assert [p][0] == p && [p][1..] == [];
    assert Recombine([], toByte) == Ok([]);
    if toByte(p.0, p.1).Ok? {
      assert [toByte(p.0, p.1).value] + [] == [toByte(p.0, p.1).value];
    }
  }
}
