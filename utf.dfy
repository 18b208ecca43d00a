/**
  The two text conversions the protocol touches: QString::toUtf8 (characters
  to UTF-8 bytes, used by every sender) and the length in UTF-16 code units
  of the QString that QString::fromUtf8 builds from received bytes (used by
  the reader's arithmetic on the remaining block size).
 */
module Utf {
  import opened Common

  /** The UTF-8 encoding of one Unicode scalar value. */
  function Utf8Char(c: char): (r: Bytes)
    ensures 1 <= |r| <= 4
  {
    var x := c as int;
    if x < 0x80 then [x]
    else if x < 0x800 then [0xC0 + x / 0x40, 0x80 + x % 0x40]
    else if x < 0x1_0000 then [0xE0 + x / 0x1000, 0x80 + (x / 0x40) % 0x40, 0x80 + x % 0x40]
    else [0xF0 + x / 0x4_0000, 0x80 + (x / 0x1000) % 0x40, 0x80 + (x / 0x40) % 0x40, 0x80 + x % 0x40]
  }

  /** QString::toUtf8 */
  function Utf8(s: string): (r: Bytes)
  {
    if s == [] then [] else Utf8Char(s[0]) + Utf8(s[1..])
  }

  /** QString::size(): characters outside the Basic Multilingual Plane take a surrogate pair. */
  function Utf16Units(s: string): nat
  {
    if s == [] then 0 else (if s[0] as int < 0x1_0000 then 1 else 2) + Utf16Units(s[1..])
  }

  /** How many UTF-16 code units a byte contributes when well-formed UTF-8 is
      decoded: a continuation byte none, a four-byte lead two, any other byte one. */
  function UnitsStartedBy(b: Byte): nat
  {
    if 0x80 <= b < 0xC0 then 0 else if b >= 0xF0 then 2 else 1
  }

  /** QString::fromUtf8(b).count() for well-formed UTF-8 input. */
  function DecodedLength(b: Bytes): nat
  {
    if b == [] then 0 else UnitsStartedBy(b[0]) + DecodedLength(b[1..])
  }

  predicate IsAscii(s: string)
  {
    forall i :: 0 <= i < |s| ==> s[i] as int < 0x80
  }

  lemma {:induction false} DecodedLengthAppend(a: Bytes, b: Bytes)
    ensures DecodedLength(a + b) == DecodedLength(a) + DecodedLength(b)
  {
    if a != [] {
      assert (a + b)[1..] == a[1..] + b;
      DecodedLengthAppend(a[1..], b);
    } else {
      assert a + b == b;
    }
  }

  lemma {:induction false} DecodedLengthOfChar(c: char)
    ensures DecodedLength(Utf8Char(c)) == (if c as int < 0x1_0000 then 1 else 2)
  {
    var x := c as int;
    var r := Utf8Char(c);
    if x < 0x80 {
    } else if x < 0x800 {
      assert 2 <= x / 0x40 < 0x20;
      assert UnitsStartedBy(r[0]) == 1 && UnitsStartedBy(r[1]) == 0;
      assert r[1..][1..] == [];
      assert DecodedLength(r[1..]) == 0;
    } else if x < 0x1_0000 {
      assert 0 <= x / 0x1000 < 0x10;
      assert UnitsStartedBy(r[0]) == 1 && UnitsStartedBy(r[1]) == 0 && UnitsStartedBy(r[2]) == 0;
      assert r[1..][1..][1..] == [];
      assert DecodedLength(r[1..][1..]) == 0;
      assert DecodedLength(r[1..]) == 0;
    } else {
      assert UnitsStartedBy(r[0]) == 2;
      assert UnitsStartedBy(r[1]) == 0 && UnitsStartedBy(r[2]) == 0 && UnitsStartedBy(r[3]) == 0;
      assert r[1..][1..][1..][1..] == [];
      assert DecodedLength(r[1..][1..][1..]) == 0;
      assert DecodedLength(r[1..][1..]) == 0;
      assert DecodedLength(r[1..]) == 0;
    }
  }

  /** Decoding what toUtf8 produced gives back a string of the original UTF-16 length. */
  lemma {:induction false} DecodedLengthOfUtf8(s: string)
    ensures DecodedLength(Utf8(s)) == Utf16Units(s)
  {
    if s != [] {
      DecodedLengthAppend(Utf8Char(s[0]), Utf8(s[1..]));
      DecodedLengthOfChar(s[0]);
      DecodedLengthOfUtf8(s[1..]);
    }
  }

  /** Bytes and code units: every code unit needs at least one byte, and a
      string encodes to nothing exactly when it is empty. */
  lemma {:induction false} Utf8Size(s: string)
    ensures Utf16Units(s) <= |Utf8(s)| <= 4 * |s|
    ensures |s| <= Utf16Units(s) <= 2 * |s|
    ensures Utf8(s) == [] <==> s == []
  {
    if s != [] {
      Utf8Size(s[1..]);
    }
  }

  /** On ASCII text the three lengths coincide. */
  lemma {:induction false} AsciiSizes(s: string)
    requires IsAscii(s)
    ensures |Utf8(s)| == |s| == Utf16Units(s)
  {
    if s != [] {
      assert IsAscii(s[1..]) by {
        forall i | 0 <= i < |s| - 1 ensures s[1..][i] as int < 0x80 {
          assert s[1..][i] == s[i + 1];
        }
      }
      AsciiSizes(s[1..]);
    }
  }
}
