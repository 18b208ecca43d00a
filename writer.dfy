/**
  Frame encoding as app/src/tcpclient.cpp does it: a QDataStream writes into
  a QByteArray through its buffer device, starting with a zero placeholder
  for the length; at the end the stream seeks back to the start and writes
  the real length over the placeholder.
 */
module FrameWriter {
  import opened Common
  import opened Wire

  /** The bytes `b` written at position `at` of `data`: bytes already there
      are overwritten and the array grows when the write runs past its end. */
  function Overwrite(data: Bytes, at: nat, b: Bytes): (r: Bytes)
    requires at <= |data|
    ensures |r| == if at + |b| > |data| then at + |b| else |data|
    ensures r[..at] == data[..at] && r[at..at + |b|] == b
    ensures at + |b| <= |data| ==> r[at + |b|..] == data[at + |b|..]
  {
    if at + |b| >= |data| then data[..at] + b else data[..at] + b + data[at + |b|..]
  }

  /** Two writes in a row are one write of both. */
  lemma {:induction false} OverwriteTwice(data: Bytes, at: nat, a: Bytes, b: Bytes)
    requires at <= |data|
    ensures Overwrite(Overwrite(data, at, a), at + |a|, b) == Overwrite(data, at, a + b)
  {
    var r := Overwrite(Overwrite(data, at, a), at + |a|, b);
    var r' := Overwrite(data, at, a + b);
    assert |r| == |r'|;
    forall i | 0 <= i < |r| ensures r[i] == r'[i] {
      if i < at {
        assert r[i] == r[..at][i];
        assert r'[i] == r'[..at][i];
      } else if i < at + |a| + |b| {
        assert r'[i] == r'[at..at + |a| + |b|][i - at];
        if i < at + |a| {
          assert r[i] == r[..at + |a|][i];
          assert Overwrite(data, at, a)[i] == Overwrite(data, at, a)[at..at + |a|][i - at];
        } else {
          assert r[i] == r[at + |a|..at + |a| + |b|][i - at - |a|];
        }
      } else {
        assert r[i] == r[at + |a| + |b|..][i - at - |a| - |b|];
        assert r'[i] == r'[at + |a| + |b|..][i - at - |a| - |b|];
      }
    }
  }

  /** Writing at the end appends. */
  lemma {:induction false} OverwriteAtEnd(data: Bytes, b: Bytes)
    ensures Overwrite(data, |data|, b) == data + b
  {
    assert data[..|data|] == data;
  }

  /** A QDataStream over a QByteArray opened write-only: the array and the
      device's position. */
  class ByteArrayStream {
    var data: Bytes
    var pos: nat

    ghost predicate Valid()
      reads this
    {
      pos <= |data|
    }

    constructor ()
      ensures Valid() && data == [] && pos == 0
    {
      data := [];
      pos := 0;
    }

    /** QBuffer::writeData */
    method WriteRaw(b: Bytes)
      requires Valid()
      modifies this
      ensures Valid()
      ensures data == Overwrite(old(data), old(pos), b) && pos == old(pos) + |b|
    {
      data := Overwrite(data, pos, b);
      pos := pos + |b|;
    }

    /** `out << quint16` */
    method WriteU16(v: U16)
      requires Valid()
      modifies this
      ensures Valid()
      ensures data == Overwrite(old(data), old(pos), BE16(v)) && pos == old(pos) + 2
    {
      WriteRaw(BE16(v));
    }

    /** `out << QByteArray` */
    method WriteByteArray(b: Bytes)
      requires Valid() && |b| < 0xFFFF_FFFF
      modifies this
      ensures Valid()
      ensures data == Overwrite(old(data), old(pos), ByteArrayField(b))
      ensures pos == old(pos) + |ByteArrayField(b)|
    {
      WriteRaw(BE32(|b|));
      WriteRaw(b);
      OverwriteTwice(old(data), old(pos), BE32(|b|), b);
    }

    /** `out.device()->seek(p)` within the array */
    method Seek(p: nat)
      requires Valid() && p <= |data|
      modifies this
      ensures Valid() && data == old(data) && pos == p
    {
      pos := p;
    }
  }

  /** The final step of every sender: seek to the start and overwrite the
      placeholder with (size - 2) as a quint16. */
  method PatchLength(out: ByteArrayStream)
    requires out.Valid() && |out.data| >= 2
    modifies out
    ensures out.Valid()
    ensures out.data == BE16(ToU16(|old(out.data)| - 2)) + old(out.data)[2..]
  {
    var size := |out.data|;
    out.Seek(0);
    out.WriteU16(ToU16(size - 2));
  }

  /** The first two writes of every sender: the zero placeholder and the tag. */
  method StartFrame(k: MessageKind) returns (out: ByteArrayStream)
    ensures fresh(out) && out.Valid()
    ensures out.data == BE16(0) + BE16(Tag(k)) && out.pos == |out.data|
  {
    out := new ByteArrayStream();
    out.WriteU16(0);
    OverwriteAtEnd([], BE16(0));
    out.WriteU16(Tag(k));
    OverwriteAtEnd(BE16(0), BE16(Tag(k)));
  }

  /** `out << QByteArray` at the end of what was written so far appends the field. */
  method AppendByteArray(out: ByteArrayStream, b: Bytes)
    requires out.Valid() && out.pos == |out.data| && |b| < 0xFFFF_FFFF
    modifies out
    ensures out.Valid()
    ensures out.data == old(out.data) + ByteArrayField(b) && out.pos == |out.data|
  {
    out.WriteByteArray(b);
    OverwriteAtEnd(old(out.data), ByteArrayField(b));
  }

  /** Patching the length of a placeholder, a tag and a payload gives the frame. */
  lemma {:induction false} PatchedFrame(k: MessageKind, payload: Bytes)
    ensures var d := BE16(0) + BE16(Tag(k)) + payload;
      BE16(ToU16(|d| - 2)) + d[2..] == Frame(k, payload)
  {
    var d := BE16(0) + BE16(Tag(k)) + payload;
    assert d[2..] == BE16(Tag(k)) + payload;
  }

  /** The frame sendDatabase writes to the socket for a file whose name,
      without its last three characters, is `name` in UTF-8. */
  method EncodeDatabase(name: Bytes, contents: Bytes) returns (frame: Bytes)
    requires |name| < 0xFFFF_FFFF && |contents| < 0xFFFF_FFFF
    ensures frame == DatabaseFrame(name, contents)
  {
    var out := StartFrame(Database);
    AppendByteArray(out, name);
    AppendByteArray(out, contents);
    PatchedFrame(Database, ByteArrayField(name) + ByteArrayField(contents));
    assert out.data == BE16(0) + BE16(Tag(Database)) + (ByteArrayField(name) + ByteArrayField(contents));
    PatchLength(out);
    frame := out.data;
  }

  /** The frame sendDatabasesListRequest writes to the socket. */
  method EncodeListRequest() returns (frame: Bytes)
    ensures frame == ListRequestFrame()
  {
    var out := StartFrame(DatabasesListRequest);
    PatchedFrame(DatabasesListRequest, []);
    assert out.data == BE16(0) + BE16(Tag(DatabasesListRequest)) + [];
    PatchLength(out);
    frame := out.data;
  }

  /** The frame sendSelectedDatabaseName writes to the socket for the name
      `name` in UTF-8. */
  method EncodeSelectedName(name: Bytes) returns (frame: Bytes)
    requires |name| < 0xFFFF_FFFF
    ensures frame == SelectedNameFrame(name)
  {
    var out := StartFrame(SelectedDatabaseName);
    AppendByteArray(out, name);
    PatchedFrame(SelectedDatabaseName, ByteArrayField(name));
    PatchLength(out);
    frame := out.data;
  }
}
