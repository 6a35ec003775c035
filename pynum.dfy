/** The Python conversions between integers and text that the codec relies on:
    `str(v)` and `int(s)` in base 10 (how `np.savetxt(fmt='%s')` writes a cell
    and how the decoder reads it back), `hex(v)`, `s.zfill(w)` and `int(s, 16)`. */
module PyNum {
  import opened Base

  predicate IsDigit(ch: char) { '0' <= ch <= '9' }

  predicate IsDigits(s: string)
  {
    |s| > 0 && forall i :: 0 <= i < |s| ==> IsDigit(s[i])
  }

  function DigitChar(d: nat): (ch: char)
    requires d < 10
    ensures IsDigit(ch) && ch as int - '0' as int == d
  {
    (d + '0' as int) as char
  }

  /** `str(n)` for a non-negative integer: no leading zeros. */
  function NatStr(n: nat): (s: string)
    ensures IsDigits(s)
  {
    if n < 10 then [DigitChar(n)] else NatStr(n / 10) + [DigitChar(n % 10)]
  }

  /** `str(v)` */
  function Str(v: int): string
  {
    if v < 0 then "-" + NatStr(-v) else NatStr(v)
  }

  /** The value of a string of decimal digits, leading zeros allowed. */
  function DigitsValue(s: string): nat
    requires forall i :: 0 <= i < |s| ==> IsDigit(s[i])
  {
    if |s| == 0 then 0
    else
      assert IsDigit(s[|s| - 1]);
      DigitsValue(s[..|s| - 1]) * 10 + (s[|s| - 1] as int - '0' as int)
  }

  /** `int(s)` for an optional sign followed by decimal digits; anything else
      raises, which is `None` here. */
  function ParseInt(s: string): Option<int>
  {
    if |s| > 0 && (s[0] == '-' || s[0] == '+') then
      if IsDigits(s[1..]) then
        Some(if s[0] == '-' then -(DigitsValue(s[1..]) as int) else DigitsValue(s[1..]))
      else None
    else if IsDigits(s) then Some(DigitsValue(s))
    else None
  }

  lemma {:induction false} NatStrValue(n: nat)
    ensures DigitsValue(NatStr(n)) == n
  {
    if n >= 10 {
      var s := NatStr(n);
      assert s[..|s| - 1] == NatStr(n / 10);
      NatStrValue(n / 10);
    }
  }

  /** `int(str(v)) == v` */
  lemma ParseStr(v: int)
    ensures ParseInt(Str(v)) == Some(v)
  {
    if v < 0 {
      var digits := NatStr(-v);
      NatStrValue(-v);
      assert Str(v) == "-" + digits;
      assert Str(v)[0] == '-' && Str(v)[1..] == digits;
    } else {
      NatStrValue(v);
      assert IsDigit(NatStr(v)[0]);
    }
  }

  /** What a written cell looks like to the decoder: one non-empty token with
      no comma and no newline, equal to "-1" exactly for the value -1. */
  lemma StrToken(v: int)
    ensures Str(v) != [] && ',' !in Str(v) && '\n' !in Str(v)
    ensures Str(v) == "-1" <==> v == -1
  {
    ParseStr(v);
    var s := Str(v);
    assert ParseInt("-1") == Some(-1) by {
      assert "-1"[1..] == "1";
    }
    if v < 0 {
      assert s == ['-'] + NatStr(-v);
      assert forall i :: 1 <= i < |s| ==> IsDigit(s[i]);
    }
    assert ',' !in s && '\n' !in s;
  }

  /** Decimal digits carry no newline; used for the width in the headers. */
  lemma NatStrPlain(n: nat)
    ensures '\n' !in NatStr(n) && '"' !in NatStr(n)
  {
  }

  function HexDigitChar(d: nat): char
    requires d < 16
  {
    if d < 10 then (d + '0' as int) as char else (d - 10 + 'a' as int) as char
  }

  /** The lower-case hex digits of `n`, no leading zeros. */
  function HexNat(n: nat): (s: string)
    ensures |s| >= 1
  {
    if n < 16 then [HexDigitChar(n)] else HexNat(n / 16) + [HexDigitChar(n % 16)]
  }

  /** `hex(v)`: "0x" or "-0x" then the digits. */
  function Hex(v: int): (s: string)
    ensures |s| >= 3
  {
    if v < 0 then "-0x" + HexNat(-v) else "0x" + HexNat(v)
  }

  /** `s.zfill(w)`: zeros on the left up to width w, after a leading sign. */
  function ZFill(s: string, w: nat): (r: string)
    ensures |r| == if |s| >= w then |s| else w
  {
    if |s| >= w then s
    else if |s| > 0 && (s[0] == '+' || s[0] == '-') then [s[0]] + Fill('0', w - |s|) + s[1..]
    else Fill('0', w - |s|) + s
  }

  /** The value of one character in base 16 (either case), if it is a digit. */
  function HexDigitValue(ch: char): Option<nat>
  {
    if '0' <= ch <= '9' then Some(ch as int - '0' as int)
    else if 'a' <= ch <= 'f' then Some(ch as int - 'a' as int + 10)
    else if 'A' <= ch <= 'F' then Some(ch as int - 'A' as int + 10)
    else None
  }

  /** `int(s, 16)` for a string of hex digits; anything else raises (`None`). */
  function IntBase16(s: string): Option<nat>
  {
    if |s| == 0 then None
    else
      var d := HexDigitValue(s[|s| - 1]);
      if d.None? then None
      else if |s| == 1 then d
      else match IntBase16(s[..|s| - 1])
        case None => None
        case Some(hi) => Some(hi * 16 + d.value)
  }

  /** `int(a + b, 16)` for two characters. */
  lemma IntBase16Pair(a: char, b: char)
    ensures IntBase16([a, b]) ==
      if HexDigitValue(a).Some? && HexDigitValue(b).Some?
      then Some(16 * HexDigitValue(a).value + HexDigitValue(b).value)
      else None
  {
    assert [a, b][..1] == [a];
  }

  lemma HexDigitRoundTrip(d: nat)
    requires d < 16
    ensures HexDigitValue(HexDigitChar(d)) == Some(d)
  {
  }

  /** The most significant hex digit of `n`. */
  function LeadHexDigit(n: nat): (d: nat)
    ensures d < 16
    ensures n < 16 ==> d == n
  {
    if n < 16 then n else LeadHexDigit(n / 16)
  }

  lemma {:induction false} HexNatLead(n: nat)
    ensures HexNat(n)[0] == HexDigitChar(LeadHexDigit(n))
  {
    if n >= 16 {
      HexNatLead(n / 16);
    }
  }

  /** `hex(v)[2]`: the leading digit for v >= 0, and 'x' for v < 0. */
  lemma HexThirdChar(v: int)
    ensures v >= 0 ==> Hex(v)[2] == HexDigitChar(LeadHexDigit(v))
    ensures v < 0 ==> Hex(v)[2] == 'x'
  {
    if v >= 0 {
      HexNatLead(v);
    }
  }

  /** `hex(b)[2:].zfill(2)` is the two hex digits of a byte. */
  lemma ByteHexString(b: byte)
    ensures ZFill(Hex(b)[2..], 2) == [HexDigitChar(b / 16), HexDigitChar(b % 16)]
  {
    assert Hex(b)[2..] == HexNat(b);
    if b >= 16 {
      assert HexNat(b) == HexNat(b / 16) + [HexDigitChar(b % 16)];
    }
  }
}
