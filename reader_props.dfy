/**
  What slotReadyRead makes of the frames the senders build: reading a field
  the sender wrote gives the value back, the type tag is read once per call
  and decides the outcome, and the contents of a Database frame arrive only
  when the reader's arithmetic on the name happens to come out right.
 */
module ReaderProperties {
  import opened Common
  import opened Utf
  import opened Wire
  import opened FrameReader

  /** Truncating before subtracting truncates the same. */
  lemma {:induction false} ToU16OfDifference(x: int, y: int)
    ensures ToU16(ToU16(x) - y) == ToU16(x - y)
  {
    var q := x / 0x1_0000;
    assert x == q * 0x1_0000 + ToU16(x);
    assert ToU16(x) - y == (x - y) - q * 0x1_0000;
  }

  lemma {:induction false} ReadU16Of(buf: Bytes, pos: nat, v: U16)
    requires pos + 2 <= |buf| && Value16(buf[pos..pos + 2]) == v
    ensures ReadU16At(buf, pos) == Read(v, pos + 2, true)
  {
  }

  /** Reading a QByteArray whose count and bytes are in the buffer. */
  lemma {:induction false} ReadByteArrayOf(buf: Bytes, pos: nat, b: Bytes)
    requires |b| < 0xFFFF_FFFF && pos + 4 + |b| <= |buf|
    requires Value32(buf[pos..pos + 4]) == |b| && buf[pos + 4..pos + 4 + |b|] == b
    ensures ReadByteArrayAt(buf, pos) == Read(b, pos + 4 + |b|, true)
  {
  }

  lemma {:induction false} ReadByteArrayField(buf: Bytes, pos: nat, b: Bytes)
    requires |b| < 0xFFFF_FFFF && pos + 4 + |b| <= |buf|
    requires buf[pos..pos + 4 + |b|] == ByteArrayField(b)
    ensures ReadByteArrayAt(buf, pos) == Read(b, pos + 4 + |b|, true)
  {
    assert buf[pos..pos + 4] == buf[pos..pos + 4 + |b|][..4] == BE32(|b|);
    assert buf[pos + 4..pos + 4 + |b|] == buf[pos..pos + 4 + |b|][4..] == b;
    Value32OfBE32(|b|);
  }

  /** Code units written big-endian read back as the same code units. */
  lemma {:induction false} UnitsOfUnits(s: seq<U16>)
    ensures UnitsOf(Units(s)) == s
  {
    if s != [] {
      var u := Units(s);
      assert u[..2] == BE16(s[0]);
      assert u[2..] == Units(s[1..]);
      Value16OfBE16(s[0]);
      UnitsOfUnits(s[1..]);
    }
  }

  lemma {:induction false} ReadStringField(buf: Bytes, pos: nat, s: Utf16String)
    requires pos + |StringField(s)| <= |buf| && buf[pos..pos + |StringField(s)|] == StringField(s)
    ensures ReadStringAt(buf, pos) == Read(s, pos + |StringField(s)|, true)
  {
    var f := StringField(s);
    assert buf[pos..pos + 4] == f[..4] == BE32(2 * |s|);
    assert buf[pos + 4..pos + |f|] == f[4..] == Units(s);
    Value32OfBE32(2 * |s|);
    UnitsOfUnits(s);
  }

  /** A buffer holding x + y at `pos` holds x there and y right after it. */
  lemma {:induction false} SplitField(buf: Bytes, pos: nat, x: Bytes, y: Bytes)
    requires pos + |x| + |y| <= |buf| && buf[pos..pos + |x| + |y|] == x + y
    ensures buf[pos..pos + |x|] == x && buf[pos + |x|..pos + |x| + |y|] == y
  {
    assert buf[pos..pos + |x|] == buf[pos..pos + |x| + |y|][..|x|];
    assert buf[pos + |x|..pos + |x| + |y|] == buf[pos..pos + |x| + |y|][|x|..];
  }

  /** Reading a string at each offset in `offs` gives the string of `l` at
      that index and ends at the next offset. */
  predicate ReadsAs(buf: Bytes, offs: seq<nat>, l: seq<Utf16String>)
  {
    && |offs| == |l| + 1
    && (forall i :: 0 <= i < |offs| ==> offs[i] <= |buf|)
    && (forall i :: 0 <= i < |l| ==> ReadStringAt(buf, offs[i]) == Read(l[i], offs[i + 1], true))
  }

  lemma {:induction false} ReadStringsFrom(buf: Bytes, offs: seq<nat>, l: seq<Utf16String>, acc: seq<Utf16String>)
    requires ReadsAs(buf, offs, l)
    ensures ReadStringsAt(buf, offs[0], |l|, acc) == Read(acc + l, offs[|l|], true)
    decreases |l|
  {
    if l == [] {
      assert acc + l == acc;
    } else {
      assert ReadStringAt(buf, offs[0]) == Read(l[0], offs[1], true);
      assert ReadsAs(buf, offs[1..], l[1..]) by {
        forall i | 0 <= i < |l| - 1
          ensures ReadStringAt(buf, offs[1..][i]) == Read(l[1..][i], offs[1..][i + 1], true)
        {
          assert ReadStringAt(buf, offs[i + 1]) == Read(l[i + 1], offs[i + 2], true);
        }
      }
      ReadStringsFrom(buf, offs[1..], l[1..], acc + [l[0]]);
      assert acc + [l[0]] + l[1..] == acc + l;
    }
  }

  /** Writing two lists one after the other writes their concatenation. */
  lemma {:induction false} StringsAppend(a: seq<Utf16String>, b: seq<Utf16String>)
    ensures Strings(a + b) == Strings(a) + Strings(b)
    decreases |a|
  {
    if a != [] {
      assert (a + b)[1..] == a[1..] + b;
      StringsAppend(a[1..], b);
    } else {
      assert a + b == b;
    }
  }

  lemma {:induction false} StringsOfOne(x: Utf16String)
    ensures Strings([x]) == StringField(x)
  {
    assert Strings([x]) == StringField(x) + Strings([]);
  }

  /** Writing a list whose first part is `a` writes `a`'s strings first. */
  lemma {:induction false} StringsOfConcat(l: seq<Utf16String>, a: seq<Utf16String>, b: seq<Utf16String>)
    requires l == a + b
    ensures Strings(l) == Strings(a) + Strings(b)
  {
    StringsAppend(a, b);
  }

  lemma {:induction false} SliceAt<T>(l: seq<T>, i: nat)
    requires i < |l|
    ensures l == l[..i + 1] + l[i + 1..] && l[..i + 1] == l[..i] + [l[i]]
  {
  }

  /** The strings of `l` written one after another: those up to and
      including index `i`, then those after it; and the ones up to `i` are
      those before it followed by the string at `i`. */
  lemma {:induction false} StringsSplit(l: seq<Utf16String>, i: nat)
    requires i < |l|
    ensures Strings(l) == Strings(l[..i + 1]) + Strings(l[i + 1..])
    ensures Strings(l[..i + 1]) == Strings(l[..i]) + StringField(l[i])
  {
    SliceAt(l, i);
    StringsOfConcat(l, l[..i + 1], l[i + 1..]);
    StringsOfConcat(l[..i + 1], l[..i], [l[i]]);
    StringsOfOne(l[i]);
  }

  /** Where each string of `l` starts when they are written from `pos` on,
      followed by where the last one ends. */
  function Offsets(pos: nat, l: seq<Utf16String>): (offs: seq<nat>)
    ensures |offs| == |l| + 1
    ensures forall i :: 0 <= i <= |l| ==> offs[i] == pos + |Strings(l[..i])|
  {
    seq(|l| + 1, i requires 0 <= i <= |l| => pos + |Strings(l[..i])|)
  }

  /** A string written between two other runs of bytes is read back. */
  lemma {:induction false} ReadStringBetween(buf: Bytes, pos: nat, x: Bytes, s: Utf16String, y: Bytes)
    requires pos + |x + StringField(s) + y| <= |buf| && buf[pos..pos + |x + StringField(s) + y|] == x + StringField(s) + y
    ensures pos + |x| + |StringField(s)| <= |buf|
    ensures ReadStringAt(buf, pos + |x|) == Read(s, pos + |x| + |StringField(s)|, true)
  {
    SplitField(buf, pos, x + StringField(s), y);
    SplitField(buf, pos, x, StringField(s));
    ReadStringField(buf, pos + |x|, s);
  }

  /** The string at index `i` of a list written at `pos` is read back at its offset. */
  lemma {:induction false} ReadStringAtOffset(buf: Bytes, pos: nat, l: seq<Utf16String>, i: nat)
    requires pos + |Strings(l)| <= |buf| && buf[pos..pos + |Strings(l)|] == Strings(l)
    requires i < |l|
    ensures Offsets(pos, l)[i] <= Offsets(pos, l)[i + 1] <= |buf|
    ensures ReadStringAt(buf, Offsets(pos, l)[i]) == Read(l[i], Offsets(pos, l)[i + 1], true)
  {
    var x := Strings(l[..i]);
    var at, next := Offsets(pos, l)[i], Offsets(pos, l)[i + 1];
    assert at == pos + |x|;
    assert next == pos + |Strings(l[..i + 1])|;
    StringsSplit(l, i);
    assert next == at + |StringField(l[i])|;
    ReadStringBetween(buf, pos, x, l[i], Strings(l[i + 1..]));
    assert ReadStringAt(buf, pos + |x|) == Read(l[i], next, true);
  }

  lemma {:induction false} StringsReadAs(buf: Bytes, pos: nat, l: seq<Utf16String>)
    requires pos + |Strings(l)| <= |buf| && buf[pos..pos + |Strings(l)|] == Strings(l)
    ensures ReadsAs(buf, Offsets(pos, l), l)
  {
    var offs := Offsets(pos, l);
    forall i | 0 <= i < |offs| ensures offs[i] <= |buf| {
      if i < |l| {
        ReadStringAtOffset(buf, pos, l, i);
      } else {
        assert l[..i] == l;
      }
    }
    forall i | 0 <= i < |l| ensures ReadStringAt(buf, offs[i]) == Read(l[i], offs[i + 1], true) {
      ReadStringAtOffset(buf, pos, l, i);
    }
  }

  /** Reading a QStringList the peer wrote gives the list back. */
  lemma {:induction false} ReadStringListField(buf: Bytes, pos: nat, l: seq<Utf16String>)
    requires |l| < 0x1_0000_0000
    requires pos + |StringListField(l)| <= |buf|
    requires buf[pos..pos + |StringListField(l)|] == StringListField(l)
    ensures ReadStringListAt(buf, pos) == Read(l, pos + |StringListField(l)|, true)
  {
    var f := StringListField(l);
    assert buf[pos..pos + 4] == f[..4] == BE32(|l|);
    Value32OfBE32(|l|);
    assert buf[pos + 4..pos + 4 + |Strings(l)|] == f[4..] == Strings(l);
    StringsReadAs(buf, pos + 4, l);
    ReadStringsFrom(buf, Offsets(pos + 4, l), l, []);
    assert [] + l == l && l[..|l|] == l;
  }

  /** Once a type has been read, later passes of the loop never read another
      type, name or list: they only overwrite `data`. */
  lemma {:induction false} TypeIsReadOnce(acc: NameAccounting, buf: Bytes, st: ReaderState)
    requires st.pos <= |buf| && st.blockSize == 0 && st.dataType != 0
    ensures var r := ReadLoop(acc, buf, st);
      r.dataType == st.dataType && r.name == st.name && r.list == st.list
    decreases |buf| - st.pos
  {
    if |buf| - st.pos >= 2 {
      var st1 := ReadHeader(acc, buf, st);
      if |buf| - st1.pos >= st1.blockSize {
        var d := ReadByteArrayAt(buf, st1.pos);
        TypeIsReadOnce(acc, buf, st1.(pos := d.pos, ok := st1.ok && d.ok, data := d.value, blockSize := 0));
      }
    }
  }

  /** The tag of the first frame in the buffer decides what the call does,
      whatever follows it: a creation result for tags 5 and 6, the list read
      after the tag for tag 2, the name read after the tag for tag 1 (nothing
      if it is empty), and nothing for any other non-zero tag. */
  lemma {:induction false} FirstTagDecides(acc: NameAccounting, buf: Bytes)
    requires |buf| >= 4 && Value16(buf[2..4]) != 0
    ensures var t := Value16(buf[2..4]);
      var o := Dispatch(ReadLoop(acc, buf, Start));
      && (t == Tag(DatabaseFileCreationSuccess) ==> o == CreationResult(true))
      && (t == Tag(DatabaseFileCreationFailure) ==> o == CreationResult(false))
      && (t == Tag(DatabasesList) ==> o == ListReceived(ReadStringListAt(buf, 4).value))
      && (t == Tag(Database) ==>
            var name := ReadByteArrayAt(buf, 4).value;
            if name == [] then o == Ignored else o.DatabaseReceived? && o.name == name)
      && (t !in {1, 2, 5, 6} ==> o == Ignored)
  {
    var st1 := ReadHeader(acc, buf, Start);
    assert st1.dataType == Value16(buf[2..4]);
    assert st1.dataType == Tag(Database) ==> st1.name == ReadByteArrayAt(buf, 4).value;
    assert st1.dataType == Tag(DatabasesList) ==> st1.list == ReadStringListAt(buf, 4).value;
    if |buf| - st1.pos >= st1.blockSize {
      var d := ReadByteArrayAt(buf, st1.pos);
      TypeIsReadOnce(acc, buf, st1.(pos := d.pos, ok := st1.ok && d.ok, data := d.value, blockSize := 0));
    }
  }

  /** Fewer than four bytes (a length and half a tag at most) produce no
      signal; the call takes them off the socket unless there is only one. */
  lemma {:induction false} ShortArrivalIgnored(buf: Bytes)
    requires |buf| < 4
    ensures Arrival(buf) == Ignored && Consumed(buf) == if |buf| < 2 then 0 else |buf|
  {
    if |buf| >= 2 {
      var st1 := ReadHeader(QStringSize, buf, Start);
      assert st1.pos == |buf| && st1.dataType == 0;
      if |buf| - st1.pos >= st1.blockSize {
        var d := ReadByteArrayAt(buf, st1.pos);
        var st2 := st1.(pos := d.pos, ok := st1.ok && d.ok, data := d.value, blockSize := 0);
        assert ReadLoop(QStringSize, buf, st2) == st2;
        assert ReadLoop(QStringSize, buf, Start) == st2;
      } else {
        assert ReadLoop(QStringSize, buf, Start) == st1;
      }
    }
  }

  /** A creation result is understood whatever follows it in the buffer. */
  lemma {:induction false} CreationResultArrival(created: bool, rest: Bytes)
    ensures Arrival(CreationResultFrame(created) + rest) == CreationResult(created)
  {
    var f := CreationResultFrame(created) + rest;
    assert f[2..4] == BE16(if created then 5 else 6);
    FirstTagDecides(QStringSize, f);
  }

  /** A catalogue is understood, whatever follows it in the buffer. */
  lemma {:induction false} ListArrival(names: seq<Utf16String>, rest: Bytes)
    requires |names| < 0x1_0000_0000
    ensures Arrival(ListFrame(names) + rest) == ListReceived(names)
  {
    var payload := StringListField(names);
    var f := ListFrame(names) + rest;
    assert f[2..4] == BE16(Tag(DatabasesList));
    assert f[4..4 + |payload|] == payload;
    ReadStringListField(f, 4, names);
    FirstTagDecides(QStringSize, f);
  }

  /** The first pass of the loop over a buffer that starts with a length,
      the Database tag and a name. */
  lemma {:induction false} HeaderOfReads(acc: NameAccounting, buf: Bytes, len: U16, name: Bytes)
    requires 4 <= |buf|
    requires ReadU16At(buf, 0) == Read(len, 2, true)
    requires ReadU16At(buf, 2) == Read(Tag(Database), 4, true)
    requires ReadByteArrayAt(buf, 4) == Read(name, 8 + |name|, true)
    ensures ReadHeader(acc, buf, Start)
      == ReaderState(8 + |name|, true, ToU16(ToU16(len - 2) - NameFieldSize(acc, name)), Tag(Database), name, [], [])
  {
  }

  /** The length, the tag and the name of a Database frame read back. */
  lemma {:induction false} DatabaseFrameReads(name: Bytes, contents: Bytes)
    requires |name| < 0xFFFF_FFFF && |contents| < 0xFFFF_FFFF
    ensures var f := DatabaseFrame(name, contents);
      && 12 + |name| <= |f|
      && ReadU16At(f, 0) == Read(ToU16(10 + |name| + |contents|), 2, true)
      && ReadU16At(f, 2) == Read(Tag(Database), 4, true)
      && ReadByteArrayAt(f, 4) == Read(name, 8 + |name|, true)
  {
    var f := DatabaseFrame(name, contents);
    DatabaseFrameLayout(name, contents);
    FrameHeader(Database, ByteArrayField(name) + ByteArrayField(contents));
    ReadU16Of(f, 0, ToU16(10 + |name| + |contents|));
    ReadU16Of(f, 2, Tag(Database));
    ReadByteArrayOf(f, 4, name);
  }

  /** The remaining block size after the name, under either accounting, for a
      Database frame delivered whole. */
  lemma {:induction false} DatabaseHeader(acc: NameAccounting, name: Bytes, contents: Bytes)
    requires |name| < 0xFFFF_FFFF && |contents| < 0xFFFF_FFFF
    ensures var f := DatabaseFrame(name, contents);
      ReadHeader(acc, f, Start)
        == ReaderState(8 + |name|, true, ToU16(10 + |name| + |contents| - 2 - NameFieldSize(acc, name)),
                       Tag(Database), name, [], [])
  {
    var f := DatabaseFrame(name, contents);
    var n := |name|;
    var len := ToU16(10 + n + |contents|);
    DatabaseFrameReads(name, contents);
    HeaderOfReads(acc, f, len, name);
    ToU16OfDifference(10 + n + |contents|, 2);
    ToU16OfDifference(10 + n + |contents| - 2, NameFieldSize(acc, name));
  }

  /** The reader on a Database frame delivered whole: with `rest` the block
      size left after the name, the contents arrive iff `rest` does not
      exceed the 4 + |contents| bytes really left; otherwise the call stops
      there, leaves the contents field on the socket, and still emits the
      name, with empty contents. An empty name is ignored. */
  lemma {:induction false} DatabaseArrival(acc: NameAccounting, name: Bytes, contents: Bytes, rest: U16)
    requires |name| < 0xFFFF_FFFF && |contents| < 0xFFFF_FFFF
    requires rest == ToU16(10 + |name| + |contents| - 2 - NameFieldSize(acc, name))
    ensures var f := DatabaseFrame(name, contents);
      var r := ReadLoop(acc, f, Start);
      && Dispatch(r) == (if name == [] then Ignored
                         else DatabaseReceived(if rest <= 4 + |contents| then contents else [], name))
      && r.pos == (if rest <= 4 + |contents| then |f| else 8 + |name|)
  {
    var f := DatabaseFrame(name, contents);
    var n := |name|;
    DatabaseFrameLayout(name, contents);
    DatabaseHeader(acc, name, contents);
    var st1 := ReadHeader(acc, f, Start);
    if |f| - st1.pos >= st1.blockSize {
      assert f[12 + n..12 + n + |contents|] == f[12 + n..] == contents;
      ReadByteArrayOf(f, 8 + n, contents);
    }
  }

  lemma {:induction false} ChargeAsWritten(n: int, b: int, u: int, k: int)
    requires k == 2 * (u + 2)
    ensures ToU16(10 + n + b - 2 - k) == ToU16(4 + b + n - 2 * u)
  {
  }

  /** The reader as written, on a Database frame delivered whole whose name
      decodes to u UTF-16 code units: the name is charged 2 * (u + 2) bytes
      instead of the 4 + n it took, so the block size left is
      (4 + |contents| + n - 2u) modulo 2^16, and the contents arrive iff
      that does not exceed the 4 + |contents| bytes left. */
  lemma {:induction false} DatabaseFrameArrival(name: Bytes, contents: Bytes, u: nat)
    requires name != [] && |name| < 0xFFFF_FFFF && |contents| < 0xFFFF_FFFF
    requires DecodedLength(name) == u
    ensures var rest := ToU16(4 + |contents| + |name| - 2 * u);
      && Arrival(DatabaseFrame(name, contents))
           == DatabaseReceived(if rest <= 4 + |contents| then contents else [], name)
      && Consumed(DatabaseFrame(name, contents))
           == if rest <= 4 + |contents| then |DatabaseFrame(name, contents)| else 8 + |name|
  {
    ChargeAsWritten(|name|, |contents|, u, NameFieldSize(QStringSize, name));
    DatabaseArrival(QStringSize, name, contents, ToU16(4 + |contents| + |name| - 2 * u));
  }

  /** The two outcomes of the lemma above, each under its own condition. */
  lemma {:induction false} FittingRestDelivers(name: Bytes, contents: Bytes, u: nat)
    requires name != [] && 12 + |name| + |contents| <= 0x1_0001
    requires DecodedLength(name) == u <= |name|
    requires ToU16(4 + |contents| + |name| - 2 * u) <= 4 + |contents|
    ensures Arrival(DatabaseFrame(name, contents)) == DatabaseReceived(contents, name)
  {
    DatabaseFrameArrival(name, contents, u);
  }

  lemma {:induction false} ExceedingRestLoses(name: Bytes, contents: Bytes, u: nat)
    requires name != [] && 12 + |name| + |contents| <= 0x1_0001
    requires DecodedLength(name) == u <= |name|
    requires ToU16(4 + |contents| + |name| - 2 * u) > 4 + |contents|
    ensures Arrival(DatabaseFrame(name, contents)) == DatabaseReceived([], name)
  {
    DatabaseFrameArrival(name, contents, u);
  }

  /** The arithmetic behind the condition below, with w standing for 2u:
      the block size left fits the bytes left when n <= w <= n + 4 + b ... */
  lemma {:induction false} RestFits(n: nat, w: nat, b: nat)
    requires 12 + n + b <= 0x1_0001
    requires n <= w <= n + 4 + b
    ensures ToU16(4 + b + n - w) <= 4 + b
  {
    assert ToU16(4 + b + n - w) == 4 + b + n - w;
  }

  /** ... and exceeds them otherwise, for a frame shorter than 64 KiB. */
  lemma {:induction false} RestExceeds(n: nat, w: nat, b: nat)
    requires w <= 2 * n && 12 + n + b <= 0x1_0001
    requires w < n || n + 4 + b < w
    ensures ToU16(4 + b + n - w) > 4 + b
  {
    if w < n {
      assert ToU16(4 + b + n - w) == 4 + b + n - w;
    } else {
      assert ToU16(4 + b + n - w) == 0x1_0000 + 4 + b + n - w;
    }
  }

  lemma {:induction false} SmallFrameDelivered(name: Bytes, contents: Bytes, u: nat)
    requires name != [] && 12 + |name| + |contents| <= 0x1_0001
    requires DecodedLength(name) == u <= |name|
    requires |name| <= 2 * u <= |name| + 4 + |contents|
    ensures Arrival(DatabaseFrame(name, contents)) == DatabaseReceived(contents, name)
  {
    assert ToU16(4 + |contents| + |name| - 2 * u) <= 4 + |contents| by {
      RestFits(|name|, 2 * u, |contents|);
    }
    FittingRestDelivers(name, contents, u);
  }

  lemma {:induction false} SmallFrameLosesContents(name: Bytes, contents: Bytes, u: nat)
    requires name != [] && 12 + |name| + |contents| <= 0x1_0001
    requires DecodedLength(name) == u <= |name|
    requires 2 * u < |name| || |name| + 4 + |contents| < 2 * u
    ensures Arrival(DatabaseFrame(name, contents)) == DatabaseReceived([], name)
  {
    // both branches make the same call: the split only keeps the solver steady
    if 2 * u < |name| {
      RestExceeds(|name|, 2 * u, |contents|);
    } else {
      RestExceeds(|name|, 2 * u, |contents|);
    }
    ExceedingRestLoses(name, contents, u);
  }

  /** For a frame shorter than 64 KiB whose name has at most as many UTF-16
      units u as bytes n (true of whatever toUtf8 produced, see Utf8Size and
      DecodedLengthOfUtf8) the condition reads: the contents arrive iff
      n <= 2u <= n + 4 + |contents|. */
  lemma {:induction false} SmallDatabaseFrameArrival(name: Bytes, contents: Bytes, u: nat)
    requires name != [] && 12 + |name| + |contents| <= 0x1_0001
    requires DecodedLength(name) == u <= |name|
    ensures var n := |name|;
      Arrival(DatabaseFrame(name, contents))
        == DatabaseReceived(if n <= 2 * u <= n + 4 + |contents| then contents else [], name)
  {
    if |name| <= 2 * u <= |name| + 4 + |contents| {
      SmallFrameDelivered(name, contents, u);
    } else {
      SmallFrameLosesContents(name, contents, u);
    }
  }

  predicate AsciiBytes(b: Bytes)
  {
    forall i :: 0 <= i < |b| ==> b[i] < 0x80
  }

  lemma {:induction false} DecodedLengthOfAscii(b: Bytes)
    requires AsciiBytes(b)
    ensures DecodedLength(b) == |b|
  {
    if b != [] {
      assert AsciiBytes(b[1..]) by {
        forall i | 0 <= i < |b| - 1 ensures b[1..][i] < 0x80 {
          assert b[1..][i] == b[i + 1];
        }
      }
      DecodedLengthOfAscii(b[1..]);
    }
  }

  /** For an ASCII name in a frame shorter than 64 KiB: the contents arrive
      iff the name is at most four bytes longer than the contents. */
  lemma {:induction false} AsciiDatabaseFrameArrival(name: Bytes, contents: Bytes)
    requires name != [] && AsciiBytes(name) && 12 + |name| + |contents| <= 0x1_0001
    ensures Arrival(DatabaseFrame(name, contents))
      == DatabaseReceived(if |name| <= 4 + |contents| then contents else [], name)
  {
    DecodedLengthOfAscii(name);
    SmallDatabaseFrameArrival(name, contents, |name|);
  }

  /** The character U+4E2D encodes to three bytes and decodes to one unit. */
  lemma {:induction false} HanCharacterBytes()
    ensures Utf8("\U{4E2D}") == [0xE4, 0xB8, 0xAD]
    ensures DecodedLength([0xE4, 0xB8, 0xAD]) == 1
  {
    assert Utf8("\U{4E2D}") == Utf8Char('\U{4E2D}') + Utf8([]);
  }

  /** A name whose characters take three UTF-8 bytes each loses the contents
      of a frame shorter than 64 KiB: its byte count exceeds twice its unit
      count. */
  lemma {:induction false} ThreeByteNameLosesContents(contents: Bytes)
    requires 12 + 3 + |contents| <= 0x1_0001
    ensures Arrival(DatabaseFrame([0xE4, 0xB8, 0xAD], contents)) == DatabaseReceived([], [0xE4, 0xB8, 0xAD])
  {
    HanCharacterBytes();
    SmallDatabaseFrameArrival([0xE4, 0xB8, 0xAD], contents, 1);
  }

  /** A concrete input for the line-137 arithmetic: the file "abcdef.db"
      holding one byte is sent as the name "abcdef" and the contents [1];
      the reader stops after the name, leaves the contents on the socket and
      emits the name with empty contents. */
  lemma {:induction false} LongNameLosesContents(name: Bytes, contents: Bytes)
    requires name == [97, 98, 99, 100, 101, 102] && contents == [1]
    ensures Arrival(DatabaseFrame(name, contents)) == DatabaseReceived([], name)
    ensures Consumed(DatabaseFrame(name, contents)) == 14
  {
    assert AsciiBytes(name);
    DecodedLengthOfAscii(name);
    assert ToU16(4 + |contents| + |name| - 2 * 6) == 0xFFFF;
    DatabaseFrameArrival(name, contents, 6);
  }

  lemma {:induction false} ChargeCorrected(n: int, b: nat, k: int)
    requires k == 4 + n
    ensures ToU16(10 + n + b - 2 - k) == ToU16(4 + b) <= 4 + b
  {
  }

  /** With the name counted as the bytes actually read (4 + its length), a
      Database frame delivered whole always yields its contents and name, of
      any size, and the call takes the whole frame. */
  lemma {:induction false} CorrectedDatabaseArrival(name: Bytes, contents: Bytes)
    requires name != [] && |name| < 0xFFFF_FFFF && |contents| < 0xFFFF_FFFF
    ensures var f := DatabaseFrame(name, contents);
      var r := ReadLoop(ByteArraySize, f, Start);
      Dispatch(r) == DatabaseReceived(contents, name) && r.pos == |f|
  {
    ChargeCorrected(|name|, |contents|, NameFieldSize(ByteArraySize, name));
    DatabaseArrival(ByteArraySize, name, contents, ToU16(4 + |contents|));
  }
}
