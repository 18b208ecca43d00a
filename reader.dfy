/**
  The frame reader of app/src/tcpclient.cpp (slotReadyRead). One call reads
  from a QDataStream over the socket whatever the socket has buffered: a
  loop reads a length, on the first pass also the type tag and the type's
  leading field, and then a QByteArray whenever the length says enough
  bytes remain. Its state (nextBlockSize, incomingDataType, the name, the
  list and the data) is local to the call and starts from zero every time.
  After the loop the call dispatches once, on the type it read.

  QDataStream reads past the end of the buffered bytes yield zero or an
  empty value, consume the bytes that were there, and set the stream's
  status to ReadPastEnd; later reads go on regardless of the status.
 */
module FrameReader {
  import opened Common
  import opened Utf
  import opened Wire

  /** One read from the stream: the value, the position after it, and
      whether every byte the read asked for was there. */
  datatype Read<+T> = Read(value: T, pos: nat, ok: bool)

  /** `in >> quint16` */
  function ReadU16At(buf: Bytes, pos: nat): (r: Read<U16>)
    requires pos <= |buf|
    ensures pos <= r.pos <= |buf|
    ensures r.ok <==> pos + 2 <= |buf|
    ensures !r.ok ==> r.value == 0 && r.pos == |buf|
  {
    if pos + 2 <= |buf| then Read(Value16(buf[pos..pos + 2]), pos + 2, true)
    else Read(0, |buf|, false)
  }

  /** `in >> quint32` */
  function ReadU32At(buf: Bytes, pos: nat): (r: Read<U32>)
    requires pos <= |buf|
    ensures pos <= r.pos <= |buf|
    ensures r.ok <==> pos + 4 <= |buf|
    ensures !r.ok ==> r.value == 0 && r.pos == |buf|
  {
    if pos + 4 <= |buf| then Read(Value32(buf[pos..pos + 4]), pos + 4, true)
    else Read(0, |buf|, false)
  }

  /** `in >> QByteArray`: a quint32 byte count (0xFFFFFFFF for a null array),
      then that many bytes; a short read gives an empty array. */
  function ReadByteArrayAt(buf: Bytes, pos: nat): (r: Read<Bytes>)
    requires pos <= |buf|
    ensures pos <= r.pos <= |buf|
  {
    var n := ReadU32At(buf, pos);
    if n.value == 0xFFFF_FFFF then Read([], n.pos, n.ok)
    else if n.pos + n.value <= |buf| then Read(buf[n.pos..n.pos + n.value], n.pos + n.value, n.ok)
    else Read([], |buf|, false)
  }

  /** Big-endian byte pairs as UTF-16 code units. */
  function UnitsOf(b: Bytes): (s: seq<U16>)
    requires |b| % 2 == 0
    ensures |s| == |b| / 2
  {
    if b == [] then [] else [Value16(b[..2])] + UnitsOf(b[2..])
  }

  /** `in >> QString`: a quint32 byte count (0xFFFFFFFF for a null string),
      then the code units; an odd count is corrupt data and reads nothing
      more; a short read gives an empty string. */
  function ReadStringAt(buf: Bytes, pos: nat): (r: Read<Utf16String>)
    requires pos <= |buf|
    ensures pos <= r.pos <= |buf|
  {
    var n := ReadU32At(buf, pos);
    if n.value == 0xFFFF_FFFF then Read([], n.pos, n.ok)
    else if n.value % 2 == 1 then Read([], n.pos, false)
    else if n.pos + n.value <= |buf| then Read(UnitsOf(buf[n.pos..n.pos + n.value]), n.pos + n.value, n.ok)
    else Read([], |buf|, false)
  }

  /** The element loop of `in >> QStringList`: `count` more strings after
      `acc`; a string that cannot be read empties the list and ends it. */
  function ReadStringsAt(buf: Bytes, pos: nat, count: nat, acc: seq<Utf16String>): (r: Read<seq<Utf16String>>)
    requires pos <= |buf|
    ensures pos <= r.pos <= |buf|
    decreases count
  {
    if count == 0 then Read(acc, pos, true)
    else
      var s := ReadStringAt(buf, pos);
      if !s.ok then Read([], s.pos, false)
      else ReadStringsAt(buf, s.pos, count - 1, acc + [s.value])
  }

  /** `in >> QStringList`: a quint32 count, then the strings. */
  function ReadStringListAt(buf: Bytes, pos: nat): (r: Read<seq<Utf16String>>)
    requires pos <= |buf|
    ensures pos <= r.pos <= |buf|
  {
    var n := ReadU32At(buf, pos);
    var l := ReadStringsAt(buf, n.pos, n.value, []);
    Read(l.value, l.pos, n.ok && l.ok)
  }

  /** How much the reader subtracts from the remaining block size for the
      name it read. The source subtracts the size of the name serialised as
      a QString, 2 * (characters + 2) bytes (app/src/tcpclient.cpp:137),
      although the name came as a UTF-8 QByteArray of 4 + bytes;
      ByteArraySize is the count of the bytes actually read. */
  datatype NameAccounting = QStringSize | ByteArraySize

  function NameFieldSize(acc: NameAccounting, name: Bytes): nat
  {
    match acc
    case QStringSize => 2 * (DecodedLength(name) + 2)
    case ByteArraySize => 4 + |name|
  }

  /** The locals of slotReadyRead. */
  datatype ReaderState = ReaderState(
    pos: nat,                 // bytes consumed from the socket so far
    ok: bool,                 // in.status() == QDataStream::Ok
    blockSize: U16,           // nextBlockSize
    dataType: U16,            // incomingDataType
    name: Bytes,              // the bytes behind receivedDbName
    list: seq<Utf16String>,      // databasesOnServerList
    data: Bytes)              // data

  /** Every call starts here: nothing read, both counters 0. */
  const Start := ReaderState(0, true, 0, 0, [], [], [])

  /** The part of one loop pass that runs when nextBlockSize is 0 and at
      least two bytes are buffered: the length, and while no type has been
      read, the type and the type's leading field. */
  function ReadHeader(acc: NameAccounting, buf: Bytes, st: ReaderState): (r: ReaderState)
    requires st.pos + 2 <= |buf|
    ensures st.pos + 2 <= r.pos <= |buf|
  {
    var len := ReadU16At(buf, st.pos);
    var st1 := st.(pos := len.pos, blockSize := len.value);
    if st1.dataType != 0 then st1
    else
      var t := ReadU16At(buf, st1.pos);
      var st2 := st1.(pos := t.pos, ok := st1.ok && t.ok, dataType := t.value,
                      blockSize := ToU16(st1.blockSize - 2));
      if t.value == Tag(Database) then
        var nm := ReadByteArrayAt(buf, st2.pos);
        st2.(pos := nm.pos, ok := st2.ok && nm.ok, name := nm.value,
             blockSize := ToU16(st2.blockSize - NameFieldSize(acc, nm.value)))
      else if t.value == Tag(DatabasesList) then
        var l := ReadStringListAt(buf, st2.pos);
        st2.(pos := l.pos, ok := st2.ok && l.ok, list := l.value)
      else st2
  }

  /** The `while (true)` loop, from a pass that starts with nextBlockSize 0:
      stop when fewer than two bytes are buffered, or when fewer bytes than
      nextBlockSize remain after the header; otherwise read a QByteArray
      into `data`, reset nextBlockSize and go round again. */
  function ReadLoop(acc: NameAccounting, buf: Bytes, st: ReaderState): (r: ReaderState)
    requires st.pos <= |buf| && st.blockSize == 0
    ensures st.pos <= r.pos <= |buf|
    decreases |buf| - st.pos
  {
    if |buf| - st.pos < 2 then st
    else
      var st1 := ReadHeader(acc, buf, st);
      if |buf| - st1.pos < st1.blockSize then st1
      else
        var d := ReadByteArrayAt(buf, st1.pos);
        ReadLoop(acc, buf, st1.(pos := d.pos, ok := st1.ok && d.ok, data := d.value, blockSize := 0))
  }

  /** What one call of slotReadyRead makes of what it read. */
  datatype Outcome =
    | DatabaseReceived(data: Bytes, name: Bytes)  // emit databaseReceived(data, name)
    | CreationResult(created: bool)               // emit serverCreatedDatabaseFile(created)
    | ListReceived(names: seq<Utf16String>)          // the catalogue is offered to the user
    | Ignored                                     // only logged

  /** The dispatch after the loop (app/src/tcpclient.cpp:152-186). */
  function Dispatch(st: ReaderState): (o: Outcome)
  {
    if st.dataType == Tag(Database) then
      if st.name == [] then Ignored else DatabaseReceived(st.data, st.name)
    else if st.dataType == Tag(DatabaseFileCreationSuccess) then CreationResult(true)
    else if st.dataType == Tag(DatabaseFileCreationFailure) then CreationResult(false)
    else if st.dataType == Tag(DatabasesList) then ListReceived(st.list)
    else Ignored
  }

  /** The reader as written: the outcome of one call on the bytes the socket holds. */
  function Arrival(buf: Bytes): Outcome
  {
    Dispatch(ReadLoop(QStringSize, buf, Start))
  }

  /** The reader as written: how many of those bytes the call takes off the socket. */
  function Consumed(buf: Bytes): nat
  {
    ReadLoop(QStringSize, buf, Start).pos
  }

  /** A QDataStream reading from the socket: the bytes the socket holds when
      slotReadyRead runs, the stream's position and its status. */
  class SocketStream {
    const buf: Bytes
    var pos: nat
    var ok: bool

    ghost predicate Valid()
      reads this
    {
      pos <= |buf|
    }

    constructor (buffered: Bytes)
      ensures Valid() && buf == buffered && pos == 0 && ok
    {
      buf := buffered;
      pos := 0;
      ok := true;
    }

    /** QIODevice::bytesAvailable */
    function BytesAvailable(): nat
      reads this
      requires Valid()
    {
      |buf| - pos
    }

    /** QDataStream::readRawData: up to `n` bytes; a short read marks the
        stream ReadPastEnd. */
    method ReadRaw(n: nat) returns (b: Bytes)
      requires Valid()
      modifies this
      ensures Valid()
      ensures pos == if old(pos) + n <= |buf| then old(pos) + n else |buf|
      ensures b == buf[old(pos)..pos]
      ensures ok == (old(ok) && old(pos) + n <= |buf|)
    {
      if pos + n <= |buf| {
        b := buf[pos..pos + n];
        pos := pos + n;
      } else {
        b := buf[pos..];
        pos := |buf|;
        ok := false;
      }
    }

    method ReadU16() returns (v: U16)
      requires Valid()
      modifies this
      ensures Valid()
      ensures var r := ReadU16At(buf, old(pos)); v == r.value && pos == r.pos && ok == (old(ok) && r.ok)
    {
      var b := ReadRaw(2);
      v := if |b| == 2 then Value16(b) else 0;
    }

    method ReadU32() returns (v: U32)
      requires Valid()
      modifies this
      ensures Valid()
      ensures var r := ReadU32At(buf, old(pos)); v == r.value && pos == r.pos && ok == (old(ok) && r.ok)
    {
      var b := ReadRaw(4);
      v := if |b| == 4 then Value32(b) else 0;
    }

    method ReadByteArray() returns (a: Bytes)
      requires Valid()
      modifies this
      ensures Valid()
      ensures var r := ReadByteArrayAt(buf, old(pos)); a == r.value && pos == r.pos && ok == (old(ok) && r.ok)
    {
      var len := ReadU32();
      if len == 0xFFFF_FFFF {
        a := [];
      } else {
        a := ReadRaw(len);
        if |a| != len {
          a := [];
        }
      }
    }

    method ReadString() returns (s: Utf16String)
      requires Valid()
      modifies this
      ensures Valid()
      ensures var r := ReadStringAt(buf, old(pos)); s == r.value && pos == r.pos && ok == (old(ok) && r.ok)
    {
      var len := ReadU32();
      if len == 0xFFFF_FFFF {
        s := [];
      } else if len % 2 == 1 {
        s := [];
        ok := false;
      } else {
        var b := ReadRaw(len);
        s := if |b| == len then UnitsOf(b) else [];
      }
    }

    /** `in >> QStringList`. The status is cleared for the duration of the
        read and the earlier failure, if any, restored afterwards. */
    method ReadStringList() returns (l: seq<Utf16String>)
      requires Valid()
      modifies this
      ensures Valid()
      ensures var r := ReadStringListAt(buf, old(pos)); l == r.value && pos == r.pos && ok == (old(ok) && r.ok)
    {
      var saved := ok;
      ok := true;
      var count := ReadU32();
      ghost var countOk := ok;
      ghost var start := pos;
      l := [];
      var i: nat := 0;
      while i < count
        invariant Valid() && start <= pos && i <= count
        invariant ok == countOk
        invariant ReadStringsAt(buf, pos, count - i, l) == ReadStringsAt(buf, start, count, [])
        decreases count - i
      {
        var s := ReadString();
        if !ok {
          l := [];
          break;
        }
        l := l + [s];
        i := i + 1;
      }
      ok := saved && ok;
    }
  }

  /** The header part of one loop pass (app/src/tcpclient.cpp:122-143),
      on the stream and the locals at the start of the pass. */
  method ReadPassHeader(acc: NameAccounting, stream: SocketStream, head: ReaderState)
    returns (st: ReaderState)
    requires stream.Valid() && head.pos == stream.pos && head.ok == stream.ok
    requires head.blockSize == 0 && stream.BytesAvailable() >= 2
    modifies stream
    ensures stream.Valid() && st.pos == stream.pos && st.ok == stream.ok
    ensures st == ReadHeader(acc, stream.buf, head)
  {
    var nextBlockSize := stream.ReadU16();
    var incomingDataType := head.dataType;
    var receivedName := head.name;
    var listOnServer := head.list;
    if incomingDataType == 0 {
      incomingDataType := stream.ReadU16();
      nextBlockSize := ToU16(nextBlockSize - 2);
      if incomingDataType == Tag(Database) {
        receivedName := stream.ReadByteArray();
        nextBlockSize := ToU16(nextBlockSize - NameFieldSize(acc, receivedName));
      } else if incomingDataType == Tag(DatabasesList) {
        listOnServer := stream.ReadStringList();
      }
    }
    st := ReaderState(stream.pos, stream.ok, nextBlockSize, incomingDataType, receivedName, listOnServer, head.data);
  }

  /** One call of slotReadyRead up to the dispatch, on the bytes the socket
      holds; `acc` chooses the as-written or the corrected name accounting. */
  method ReadArrival(acc: NameAccounting, buf: Bytes) returns (st: ReaderState)
    ensures st == ReadLoop(acc, buf, Start)
  {
    var stream := new SocketStream(buf);
    st := Start;
    while true
      invariant stream.Valid() && stream.buf == buf
      invariant st.pos == stream.pos && st.ok == stream.ok && st.blockSize == 0
      invariant ReadLoop(acc, buf, st) == ReadLoop(acc, buf, Start)
      decreases |buf| - stream.pos
    {
      if stream.BytesAvailable() < 2 {
        break;
      }
      var afterHeader := ReadPassHeader(acc, stream, st);
      if stream.BytesAvailable() < afterHeader.blockSize {
        return afterHeader;
      }
      var data := stream.ReadByteArray();
      st := afterHeader.(pos := stream.pos, ok := stream.ok, data := data, blockSize := 0);
    }
  }
}
