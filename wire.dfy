/**
  The wire format of the client/server protocol: message kinds and their
  16-bit tags, QDataStream's serialisation of QByteArray, QString and
  QStringList, and the layout of one frame (16-bit length, 16-bit tag,
  payload), as the senders in app/src/tcpclient.cpp build it.
 */
module Wire {
  import opened Common

  /** TcpDataType without its Unknown member, which is never sent. */
  datatype MessageKind =
    | Database
    | DatabasesList
    | DatabasesListRequest
    | SelectedDatabaseName
    | DatabaseFileCreationSuccess
    | DatabaseFileCreationFailure

  /** The enumerator value of each kind. 0 is TcpDataType::Unknown, which the
      reader also uses for "no type read yet", so no kind has tag 0. */
  function Tag(k: MessageKind): (t: U16)
    ensures 1 <= t <= 6
  {
    match k
    case Database => 1
    case DatabasesList => 2
    case DatabasesListRequest => 3
    case SelectedDatabaseName => 4
    case DatabaseFileCreationSuccess => 5
    case DatabaseFileCreationFailure => 6
  }

  /** The kind a received tag stands for, if any. */
  function KindOf(t: U16): (k: Option<MessageKind>)
    ensures k.Some? <==> 1 <= t <= 6
  {
    if t == 1 then Some(Database)
    else if t == 2 then Some(DatabasesList)
    else if t == 3 then Some(DatabasesListRequest)
    else if t == 4 then Some(SelectedDatabaseName)
    else if t == 5 then Some(DatabaseFileCreationSuccess)
    else if t == 6 then Some(DatabaseFileCreationFailure)
    else None
  }

  /** Tags identify kinds: decoding a kind's tag gives the kind back, so no
      two kinds share a tag and none uses the sentinel 0. */
  lemma {:induction false} TagsAreInjective(k: MessageKind, k': MessageKind)
    ensures KindOf(Tag(k)) == Some(k)
    ensures Tag(k) == Tag(k') ==> k == k'
    ensures Tag(k) != 0 && KindOf(0) == None
  {
  }

  /** `out << QByteArray`: a quint32 byte count, then the bytes. */
  function ByteArrayField(b: Bytes): (r: Bytes)
    requires |b| < 0xFFFF_FFFF
  {
    BE32(|b|) + b
  }

  /** UTF-16 code units written big-endian, as QDataStream writes a QString's data. */
  function Units(s: seq<U16>): (r: Bytes)
    ensures |r| == 2 * |s|
  {
    if s == [] then [] else BE16(s[0]) + Units(s[1..])
  }

  /** The UTF-16 code units of a QString whose byte count fits the quint32
      count QDataStream writes before them (0xFFFFFFFF marks a null string). */
  type Utf16String = s: seq<U16> | 2 * |s| < 0xFFFF_FFFF

  /** `out << QString` for a non-null string: a quint32 byte count, then the code units. */
  function StringField(s: Utf16String): (r: Bytes)
  {
    BE32(2 * |s|) + Units(s)
  }

  function Strings(l: seq<Utf16String>): (r: Bytes)
  {
    if l == [] then [] else StringField(l[0]) + Strings(l[1..])
  }

  /** `out << QStringList`: a quint32 count, then each string. */
  function StringListField(l: seq<Utf16String>): (r: Bytes)
    requires |l| < 0x1_0000_0000
  {
    BE32(|l|) + Strings(l)
  }

  /** One frame: the length placeholder overwritten with (size - 2)
      truncated to quint16, the kind's tag, then the payload. */
  function Frame(k: MessageKind, payload: Bytes): (f: Bytes)
    ensures |f| == 4 + |payload|
  {
    BE16(ToU16(2 + |payload|)) + BE16(Tag(k)) + payload
  }

  /** sendDatabase: the name and the file's contents, each as a QByteArray. */
  function DatabaseFrame(name: Bytes, contents: Bytes): (f: Bytes)
    requires |name| < 0xFFFF_FFFF && |contents| < 0xFFFF_FFFF
  {
    Frame(Database, ByteArrayField(name) + ByteArrayField(contents))
  }

  /** sendDatabasesListRequest: no payload. */
  function ListRequestFrame(): (f: Bytes)
  {
    Frame(DatabasesListRequest, [])
  }

  /** sendSelectedDatabaseName: the chosen name as a QByteArray. */
  function SelectedNameFrame(name: Bytes): (f: Bytes)
    requires |name| < 0xFFFF_FFFF
  {
    Frame(SelectedDatabaseName, ByteArrayField(name))
  }

  /** What the server peer sends for a catalogue: the names as a QStringList. */
  function ListFrame(names: seq<Utf16String>): (f: Bytes)
    requires |names| < 0x1_0000_0000
  {
    Frame(DatabasesList, StringListField(names))
  }

  /** What the server peer sends after storing an upload: a bare tag. */
  function CreationResultFrame(created: bool): (f: Bytes)
  {
    Frame(if created then DatabaseFileCreationSuccess else DatabaseFileCreationFailure, [])
  }

  /** Every frame starts with its length field and its tag. The length field
      holds the number of bytes after it only modulo 2^16, so it is exact
      exactly when the frame is at most 65537 bytes long. */
  lemma {:induction false} FrameHeader(k: MessageKind, payload: Bytes)
    ensures var f := Frame(k, payload);
      && Value16(f[..2]) == (|f| - 2) % 0x1_0000
      && Value16(f[2..4]) == Tag(k)
      && f[4..] == payload
      && (Value16(f[..2]) == |f| - 2 <==> |f| <= 0x1_0001)
  {
    var f := Frame(k, payload);
    assert f[..2] == BE16(ToU16(2 + |payload|));
    assert f[2..4] == BE16(Tag(k));
    Value16OfBE16(ToU16(2 + |payload|));
    Value16OfBE16(Tag(k));
  }

  /** A request for the catalogue is exactly four bytes: length 2, tag 3. */
  lemma {:induction false} ListRequestBytes()
    ensures ListRequestFrame() == [0, 2, 0, 3]
  {
  }

  /** The payload of a Database frame: the name's byte count and bytes,
      then the contents' byte count and bytes. */
  lemma {:induction false} DatabaseFrameLayout(name: Bytes, contents: Bytes)
    requires |name| < 0xFFFF_FFFF && |contents| < 0xFFFF_FFFF
    ensures var f := DatabaseFrame(name, contents);
      var n := |name|;
      && |f| == 12 + n + |contents|
      && Value16(f[2..4]) == Tag(Database)
      && Value32(f[4..8]) == n
      && f[8..8 + n] == name
      && Value32(f[8 + n..12 + n]) == |contents|
      && f[12 + n..] == contents
  {
    var f := DatabaseFrame(name, contents);
    var n := |name|;
    FrameHeader(Database, ByteArrayField(name) + ByteArrayField(contents));
    assert f[4..8] == BE32(n);
    assert f[8 + n..12 + n] == BE32(|contents|);
    Value32OfBE32(n);
    Value32OfBE32(|contents|);
  }
}
