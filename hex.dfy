/** Lowercase hexadecimal rendering of byte strings, as Python's
    `binascii.b2a_hex` produces it: the base16 alphabet of section 8 of
    RFC 4648 with the letters in lower case, two digits per byte (high
    nibble first), no separators and no prefix. */
module Hex {
  import opened Wrappers
  import opened Bytes

  /** The sixteen characters `0-9a-f`. */
  predicate IsLowerHexDigit(c: char)
  {
    '0' <= c <= '9' || 'a' <= c <= 'f'
  }

  /** The digit that stands for a nibble. */
  function Digit(n: int): (c: char)
    requires 0 <= n < 16
    ensures IsLowerHexDigit(c)
  {
    if n < 10 then ('0' as int + n) as char else ('a' as int + n - 10) as char
  }

  /** The nibble a digit stands for; `None` for any other character. */
  function DigitValue(c: char): (r: Option<int>)
    ensures r.Some? <==> IsLowerHexDigit(c)
    ensures r.Some? ==> 0 <= r.value < 16 && Digit(r.value) == c
  {
    if '0' <= c <= '9' then Some(c as int - '0' as int)
    else if 'a' <= c <= 'f' then Some(c as int - 'a' as int + 10)
    else None
  }

  function High(b: Byte): int { b as int / 16 }

  function Low(b: Byte): int { b as int % 16 }

  /** `binascii.b2a_hex(s)`, as text. */
  function Hexlify(s: seq<Byte>): (r: string)
    ensures |r| == 2 * |s|
    ensures forall k :: 0 <= k < |r| ==> IsLowerHexDigit(r[k])
  {
    if s == [] then "" else [Digit(High(s[0])), Digit(Low(s[0]))] + Hexlify(s[1..])
  }

  /** The inverse of `Hexlify`, failing on an odd length or a character
      outside `0-9a-f`; it serves to prove that `Hexlify` is injective. */
  function Unhexlify(r: string): (s: Option<seq<Byte>>)
    ensures s.Some? ==> 2 * |s.value| == |r|
  {
    if r == [] then Some([])
    else if |r| == 1 then None
    else
      match (DigitValue(r[0]), DigitValue(r[1]), Unhexlify(r[2..]))
      case (Some(hi), Some(lo), Some(rest)) => Some([(hi * 16 + lo) as Byte] + rest)
      case _ => None
  }

  /** Characters `2i` and `2i+1` are the high and the low nibble of byte `i`. */
  lemma {:induction false} HexlifyAt(s: seq<Byte>, i: nat)
    requires i < |s|
    ensures Hexlify(s)[2 * i] == Digit(High(s[i]))
    ensures Hexlify(s)[2 * i + 1] == Digit(Low(s[i]))
  {
    if i > 0 {
      HexlifyAt(s[1..], i - 1);
    }
  }

  /** Reading the rendering back yields the bytes it came from. */
  lemma {:induction false} UnhexlifyHexlify(s: seq<Byte>)
    ensures Unhexlify(Hexlify(s)) == Some(s)
  {
    if s != [] {
      var r := Hexlify(s);
      assert r[2..] == Hexlify(s[1..]);
      UnhexlifyHexlify(s[1..]);
      assert DigitValue(r[0]) == Some(High(s[0]));
      assert DigitValue(r[1]) == Some(Low(s[0]));
      assert s == [s[0]] + s[1..];
    }
  }

  /** Different byte strings render differently. */
  lemma HexlifyInjective(s: seq<Byte>, t: seq<Byte>)
    requires Hexlify(s) == Hexlify(t)
    ensures s == t
  {
    UnhexlifyHexlify(s);
    UnhexlifyHexlify(t);
  }

  /** `n` zero bytes render as `2n` zero digits. */
  lemma ZerosRenderAsZeros(n: nat)
    ensures Hexlify(seq(n, _ => 0 as Byte)) == seq(2 * n, _ => '0')
  {
    var s := seq(n, _ => 0 as Byte);
    forall k | 0 <= k < 2 * n ensures Hexlify(s)[k] == '0' {
      HexlifyAt(s, k / 2);
    }
  }
}
