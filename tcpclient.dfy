/**
  TcpClient (app/src/tcpclient.cpp) as the rest of the application sees it:
  the bytes it has written to the server socket, the bytes the socket holds
  that no call of slotReadyRead has taken yet, the three senders and the
  reader with its dispatch.
 */
module Client {
  import opened Common
  import opened Utf
  import opened Wire
  import opened FrameWriter
  import opened FrameReader
  import opened ReaderProperties

  /** What QFile finds at the path sendDatabase is given. */
  datatype DbFile = Missing | Unreadable | Readable(contents: Bytes)

  /** The name sendDatabase puts in the frame: the file name without its last
      three characters (the ".db"), in UTF-8. */
  function UploadName(fileName: string): (r: Bytes)
    requires |fileName| >= 3
    ensures r == [] <==> |fileName| == 3
  {
    Utf8Size(fileName[..|fileName| - 3]);
    Utf8(fileName[..|fileName| - 3])
  }

  class TcpClient {
    /** Everything written to the server socket, in order. */
    var written: Bytes
    /** The bytes received from the server that no read has taken yet. */
    var buffered: Bytes

    constructor ()
      ensures written == [] && buffered == []
    {
      written := [];
      buffered := [];
    }

    /** sendDatabase: nothing is written unless the file exists and opens;
        then one Database frame carrying the name and the whole file. */
    method SendDatabase(fileName: string, file: DbFile)
      requires |fileName| >= 3
      requires file.Readable? ==> |UploadName(fileName)| < 0xFFFF_FFFF && |file.contents| < 0xFFFF_FFFF
      modifies this
      ensures buffered == old(buffered)
      ensures written == old(written) + match file
        case Readable(contents) => DatabaseFrame(UploadName(fileName), contents)
        case _ => []
    {
      if file.Missing? {
        return;
      }
      if file.Unreadable? {
        return;
      }
      var frame := EncodeDatabase(UploadName(fileName), file.contents);
      written := written + frame;
    }

    /** sendDatabasesListRequest */
    method SendDatabasesListRequest()
      modifies this
      ensures buffered == old(buffered)
      ensures written == old(written) + ListRequestFrame()
    {
      var frame := EncodeListRequest();
      written := written + frame;
    }

    /** sendSelectedDatabaseName */
    method SendSelectedDatabaseName(name: string)
      requires |Utf8(name)| < 0xFFFF_FFFF
      modifies this
      ensures buffered == old(buffered)
      ensures written == old(written) + SelectedNameFrame(Utf8(name))
    {
      var frame := EncodeSelectedName(Utf8(name));
      written := written + frame;
    }

    /** Bytes from the server reach the socket. */
    method Receive(chunk: Bytes)
      modifies this
      ensures written == old(written) && buffered == old(buffered) + chunk
    {
      buffered := buffered + chunk;
    }

    /** slotReadyRead on what the socket holds. `choice` is the version the
        user accepts in the dialog shown for a catalogue (None when the
        dialog is rejected); it is sent back as a SelectedDatabaseName frame. */
    method ReadyRead(choice: Option<string>) returns (o: Outcome)
      requires choice.Some? ==> |Utf8(choice.value)| < 0xFFFF_FFFF
      modifies this
      ensures o == Arrival(old(buffered))
      ensures buffered == old(buffered)[Consumed(old(buffered))..]
      ensures written == old(written) +
        if o.ListReceived? && choice.Some? then SelectedNameFrame(Utf8(choice.value)) else []
    {
      var st := ReadArrival(QStringSize, buffered);
      buffered := buffered[st.pos..];
      o := Dispatch(st);
      if o.ListReceived? && choice.Some? {
        SendSelectedDatabaseName(choice.value);
      }
    }
  }

  /** A creation result the server sent in one write, [0, 2, 0, 5], that
      reaches the client as [0, 2] and then [0, 5]: the first call reads the
      length, finds no tag and takes both bytes; the second reads 5 as a
      length and again finds no tag. The result is never reported, although
      the same bytes arriving together are. */
  lemma {:induction false} SplitCreationResultLost(first: Bytes, second: Bytes)
    requires first == [0, 2] && second == [0, 5]
    ensures CreationResultFrame(true) == first + second
    ensures Arrival(first + second) == CreationResult(true)
    ensures Arrival(first) == Ignored && Consumed(first) == |first|
    ensures Arrival(second) == Ignored && Consumed(second) == |second|
  {
    CreationResultArrival(true, []);
    assert CreationResultFrame(true) + [] == first + second;
    ShortArrivalIgnored(first);
    ShortArrivalIgnored(second);
  }
}
