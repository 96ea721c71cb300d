/**
  UTF-8, as far as `str::len` and `str::is_empty` need it: a Rust `&str` is a
  UTF-8 byte string and its `len()` counts bytes, not characters. A Dafny
  `char` is a Unicode scalar value, so a Dafny `string` stands for the
  characters of a `&str` and `Encode` gives the bytes `len()` measures.
*/
module Utf8 {

  type byte = b: int | 0 <= b < 0x100

  /** Number of bytes UTF-8 spends on one scalar value. */
  function Width(c: char): (w: nat)
    ensures 1 <= w <= 4
    ensures w == 1 <==> IsAscii(c)
  {
    var cp := c as int;
    if cp < 0x80 then 1
    else if cp < 0x800 then 2
    else if cp < 0x1_0000 then 3
    else 4
  }

  predicate IsAscii(c: char) {
    (c as int) < 0x80
  }

  /** A continuation byte `10xxxxxx`: every byte of an encoding except its first. */
  predicate IsContinuation(b: byte) {
    0x80 <= b < 0xC0
  }

  /** The UTF-8 encoding of one scalar value. */
  function EncodeChar(c: char): (bs: seq<byte>)
    ensures |bs| == Width(c)
    ensures !IsContinuation(bs[0])
    ensures forall i :: 1 <= i < |bs| ==> IsContinuation(bs[i])
  {
    var cp := c as int;
    if cp < 0x80 then [cp]
    else if cp < 0x800 then [0xC0 + cp / 0x40, 0x80 + cp % 0x40]
    else if cp < 0x1_0000 then
      [0xE0 + cp / 0x1000, 0x80 + (cp / 0x40) % 0x40, 0x80 + cp % 0x40]
    else
      [0xF0 + cp / 0x4_0000, 0x80 + (cp / 0x1000) % 0x40, 0x80 + (cp / 0x40) % 0x40, 0x80 + cp % 0x40]
  }

  /** The bytes of a string, the sequence `str::len` measures. */
  function Encode(s: string): (bs: seq<byte>)
    ensures |bs| == TotalWidth(s)
  {
    if |s| == 0 then [] else EncodeChar(s[0]) + Encode(s[1..])
  }

  /** Sum of the character widths of a string. */
  function TotalWidth(s: string): nat
  {
    if |s| == 0 then 0 else Width(s[0]) + TotalWidth(s[1..])
  }

  /** Characters in a byte string counted the way `str::chars().count()` does: the non-continuation bytes. */
  function CharCount(bs: seq<byte>): nat
  {
    if |bs| == 0 then 0
    else (if IsContinuation(bs[0]) then 0 else 1) + CharCount(bs[1..])
  }

  lemma {:induction false} EncodeLength(s: string)
    ensures |Encode(s)| == TotalWidth(s)
    ensures |s| <= |Encode(s)| <= 4 * |s|
  {
    if |s| > 0 {
      EncodeLength(s[1..]);
    }
  }

  /** A string is empty exactly when its byte string is: `is_empty` agrees on both views. */
  lemma IsEmptyAgrees(s: string)
    ensures Encode(s) == [] <==> s == []
  {
    EncodeLength(s);
  }

  /** Byte length equals character count exactly for ASCII strings. */
  lemma {:induction false} ByteLengthIsCharCountIffAscii(s: string)
    ensures |Encode(s)| == |s| <==> forall i :: 0 <= i < |s| ==> IsAscii(s[i])
  {
    EncodeLength(s);
    if |s| > 0 {
      ByteLengthIsCharCountIffAscii(s[1..]);
      EncodeLength(s[1..]);
      if forall i :: 0 <= i < |s| ==> IsAscii(s[i]) {
        assert forall i :: 0 <= i < |s[1..]| ==> IsAscii(s[1..][i]) by {
          forall i | 0 <= i < |s[1..]| ensures IsAscii(s[1..][i]) {
            assert s[1..][i] == s[i + 1];
          }
        }
      }
    }
  }

  lemma {:induction false} CharCountAppend(a: seq<byte>, b: seq<byte>)
    ensures CharCount(a + b) == CharCount(a) + CharCount(b)
    decreases |a|
  {
    if |a| > 0 {
      assert (a + b)[0] == a[0];
      assert (a + b)[1..] == a[1..] + b;
      CharCountAppend(a[1..], b);
    } else {
      assert a + b == b;
    }
  }

  lemma CharCountEncodeChar(c: char)
    ensures CharCount(EncodeChar(c)) == 1
  {
    var bs := EncodeChar(c);
    assert bs == [bs[0]] + bs[1..];
    CharCountAppend([bs[0]], bs[1..]);
    ContinuationsCountNothing(bs[1..]);
  }

  lemma {:induction false} ContinuationsCountNothing(bs: seq<byte>)
    requires forall i :: 0 <= i < |bs| ==> IsContinuation(bs[i])
    ensures CharCount(bs) == 0
    decreases |bs|
  {
    if |bs| > 0 {
      ContinuationsCountNothing(bs[1..]);
    }
  }

  /** Counting characters in the encoding gives back the number of characters. */
  lemma {:induction false} CharCountEncode(s: string)
    ensures CharCount(Encode(s)) == |s|
  {
    if |s| > 0 {
      CharCountAppend(EncodeChar(s[0]), Encode(s[1..]));
      CharCountEncodeChar(s[0]);
      CharCountEncode(s[1..]);
    }
  }
}
