/**
  Basic value types shared by the protocol model: bytes, Qt's fixed-width
  unsigned integers, their big-endian serialisation (QDataStream's default
  byte order), and an Option type for values that may be absent.
 */
module Common {

  datatype Option<+T> = None | Some(value: T)

  type Byte = x: int | 0 <= x < 0x100
  type Bytes = seq<Byte>

  /** quint16 */
  type U16 = x: int | 0 <= x < 0x1_0000
  /** quint32 */
  type U32 = x: int | 0 <= x < 0x1_0000_0000

  /** A quint16 as QDataStream writes it: most significant byte first. */
  function BE16(v: U16): (r: Bytes)
    ensures |r| == 2
  {
    [v / 0x100, v % 0x100]
  }

  /** A quint32 as QDataStream writes it: most significant byte first. */
  function BE32(v: U32): (r: Bytes)
    ensures |r| == 4
  {
    [v / 0x100_0000, (v / 0x1_0000) % 0x100, (v / 0x100) % 0x100, v % 0x100]
  }

  /** The quint16 held by two big-endian bytes. */
  function Value16(b: Bytes): (v: U16)
    requires |b| == 2
  {
    (b[0] as int) * 0x100 + b[1]
  }

  /** The quint32 held by four big-endian bytes. */
  function Value32(b: Bytes): (v: U32)
    requires |b| == 4
  {
    (((b[0] as int) * 0x100 + b[1]) * 0x100 + b[2]) * 0x100 + b[3]
  }

  lemma {:induction false} Value16OfBE16(v: U16)
    ensures Value16(BE16(v)) == v
  {
  }

  lemma {:induction false} Value32OfBE32(v: U32)
    ensures Value32(BE32(v)) == v
  {
    var b := BE32(v);
    assert (b[0] as int) * 0x100 + b[1] == v / 0x1_0000;
    assert ((b[0] as int) * 0x100 + b[1]) * 0x100 + b[2] == v / 0x100;
  }

  /** Truncation of an integer to quint16, as a C++ conversion to quint16 does. */
  function ToU16(x: int): U16
  {
    x % 0x1_0000
  }
}
