/**
  A corrected reader for app/src/tcpclient.cpp. The reader as written keeps
  nextBlockSize and the bytes of a frame it could not finish in locals of
  one slotReadyRead call, so a frame that reaches the socket in two pieces
  is never understood (Client.SplitCreationResultLost). The reader here
  keeps the bytes of an unfinished frame in a field, cuts the stream into
  frames by their 16-bit length fields, and reads each complete frame with
  the name counted as the bytes it occupies. What it reports does not
  depend on how the bytes were split into arrivals.
 */
module Assembler {
  import opened Common
  import opened Wire
  import opened FrameReader
  import opened ReaderProperties

  /** The number of bytes of the frame at the start of `buf`, as its length
      field gives it: the field itself plus the count it holds. */
  function FrameSize(buf: Bytes): (n: nat)
    requires |buf| >= 2
    ensures 2 <= n <= 0x1_0001
  {
    2 + Value16(buf[..2])
  }

  /** The complete frames at the start of `buf`, and the bytes after them,
      which hold at most the beginning of a frame. */
  function Split(buf: Bytes): (r: (seq<Bytes>, Bytes))
    ensures |r.1| <= |buf|
    decreases |buf|
  {
    if |buf| < 2 || |buf| < FrameSize(buf) then ([], buf)
    else
      var tail := Split(buf[FrameSize(buf)..]);
      ([buf[..FrameSize(buf)]] + tail.0, tail.1)
  }

  function Concat(frames: seq<Bytes>): Bytes
  {
    if frames == [] then [] else frames[0] + Concat(frames[1..])
  }

  /** Splitting loses no byte and every frame it returns is complete: its
      size is what its length field says. */
  lemma {:induction false} SplitIsExact(buf: Bytes)
    ensures Concat(Split(buf).0) + Split(buf).1 == buf
    ensures forall i :: 0 <= i < |Split(buf).0| ==>
      |Split(buf).0[i]| >= 2 && |Split(buf).0[i]| == FrameSize(Split(buf).0[i])
    ensures |Split(buf).1| < 2 || |Split(buf).1| < FrameSize(Split(buf).1)
    decreases |buf|
  {
    if !(|buf| < 2 || |buf| < FrameSize(buf)) {
      var n := FrameSize(buf);
      var f := buf[..n];
      SplitIsExact(buf[n..]);
      var tail := Split(buf[n..]);
      assert f[..2] == buf[..2];
      assert Split(buf).0 == [f] + tail.0;
      assert Concat(Split(buf).0) == f + Concat(tail.0);
      assert buf == f + buf[n..];
      forall i | 0 <= i < |Split(buf).0|
        ensures |Split(buf).0[i]| >= 2 && |Split(buf).0[i]| == FrameSize(Split(buf).0[i])
      {
        if i > 0 {
          assert Split(buf).0[i] == tail.0[i - 1];
        }
      }
    }
  }

  /** Bytes that arrive later do not change the frames already complete:
      splitting a + b gives the frames of a, then the frames of what a left
      over followed by b. */
  lemma {:induction false} SplitAppend(a: Bytes, b: Bytes)
    ensures Split(a + b) == (Split(a).0 + Split(Split(a).1 + b).0, Split(Split(a).1 + b).1)
    decreases |a|
  {
    if |a| < 2 || |a| < FrameSize(a) {
      assert Split(a) == ([], a);
      assert Split(a).0 + Split(Split(a).1 + b).0 == Split(a + b).0;
    } else {
      var n := FrameSize(a);
      assert (a + b)[..2] == a[..2];
      assert FrameSize(a + b) == n;
      assert (a + b)[..n] == a[..n];
      assert (a + b)[n..] == a[n..] + b;
      SplitAppend(a[n..], b);
      var p, q := Split(a[n..]), Split(Split(a[n..]).1 + b);
      assert Split(a) == ([a[..n]] + p.0, p.1);
      assert Split(a + b) == ([a[..n]] + (p.0 + q.0), q.1);
      assert [a[..n]] + (p.0 + q.0) == ([a[..n]] + p.0) + q.0;
    }
  }

  /** What one complete frame means, read with the corrected accounting. */
  function FrameOutcome(frame: Bytes): Outcome
  {
    Dispatch(ReadLoop(ByteArraySize, frame, Start))
  }

  function Outcomes(frames: seq<Bytes>): (r: seq<Outcome>)
    ensures |r| == |frames|
  {
    if frames == [] then [] else [FrameOutcome(frames[0])] + Outcomes(frames[1..])
  }

  lemma {:induction false} OutcomesAppend(x: seq<Bytes>, y: seq<Bytes>)
    ensures Outcomes(x + y) == Outcomes(x) + Outcomes(y)
    decreases |x|
  {
    if x == [] {
      assert x + y == y;
    } else {
      assert (x + y)[1..] == x[1..] + y;
      OutcomesAppend(x[1..], y);
    }
  }

  /** What the reader reports for the bytes `pending` it kept plus a new
      arrival `chunk`, and what it keeps afterwards. */
  function Deliver(pending: Bytes, chunk: Bytes): (seq<Outcome>, Bytes)
  {
    (Outcomes(Split(pending + chunk).0), Split(pending + chunk).1)
  }

  /** Chunking does not matter: two arrivals report what their
      concatenation reports in one, and leave the same bytes kept. */
  lemma {:induction false} ChunkingIrrelevant(pending: Bytes, c1: Bytes, c2: Bytes)
    ensures var (o1, p1) := Deliver(pending, c1);
      var (o2, p2) := Deliver(p1, c2);
      (o1 + o2, p2) == Deliver(pending, c1 + c2)
  {
    SplitAppend(pending + c1, c2);
    assert pending + (c1 + c2) == pending + c1 + c2;
    OutcomesAppend(Split(pending + c1).0, Split(Split(pending + c1).1 + c2).0);
  }

  /** A frame shorter than 64 KiB followed by anything: the first complete
      frame is exactly that frame. */
  lemma {:induction false} SplitFirstFrame(f: Bytes, rest: Bytes)
    requires |f| >= 2 && Value16(f[..2]) == |f| - 2
    ensures Split(f + rest).0 != [] && Split(f + rest).0[0] == f
    ensures Split(f + rest) == ([f] + Split(rest).0, Split(rest).1)
  {
    var buf := f + rest;
    assert buf[..2] == f[..2];
    assert buf[..|f|] == f && buf[|f|..] == rest;
  }

  /** The reader keeping its unfinished frame between calls. */
  class FrameAssembler {
    var pending: Bytes

    constructor ()
      ensures pending == []
    {
      pending := [];
    }

    /** One call on the arrival of `chunk`: every frame completed by it, in
        order, read with the corrected accounting. */
    method ReadyRead(chunk: Bytes) returns (outcomes: seq<Outcome>)
      modifies this
      ensures (outcomes, pending) == Deliver(old(pending), chunk)
    {
      ghost var whole := pending + chunk;
      pending := pending + chunk;
      outcomes := [];
      while |pending| >= 2 && |pending| >= FrameSize(pending)
        invariant Outcomes(Split(whole).0) == outcomes + Outcomes(Split(pending).0)
        invariant Split(whole).1 == Split(pending).1
        decreases |pending|
      {
        var n := FrameSize(pending);
        assert Split(pending).0 == [pending[..n]] + Split(pending[n..]).0;
        var st := ReadArrival(ByteArraySize, pending[..n]);
        outcomes := outcomes + [Dispatch(st)];
        pending := pending[n..];
      }
      assert Split(pending) == ([], pending);
      assert outcomes + Outcomes([]) == outcomes;
    }
  }

  /** A Database frame shorter than 64 KiB with a non-empty name, cut once
      anywhere into two arrivals: once the second has arrived the reader
      reports the name and the whole contents, and keeps nothing of it. */
  lemma {:induction false} DatabaseFrameDelivered(name: Bytes, contents: Bytes, c1: Bytes, c2: Bytes)
    requires name != [] && 12 + |name| + |contents| <= 0x1_0001
    requires c1 + c2 == DatabaseFrame(name, contents)
    ensures var (o1, p1) := Deliver([], c1);
      var (o2, p2) := Deliver(p1, c2);
      o1 + o2 == [DatabaseReceived(contents, name)] && p2 == []
  {
    var f := DatabaseFrame(name, contents);
    ChunkingIrrelevant([], c1, c2);
    FrameHeader(Database, ByteArrayField(name) + ByteArrayField(contents));
    SplitFirstFrame(f, []);
    assert [] + (c1 + c2) == f + [];
    assert Split([]) == ([], []);
    CorrectedDatabaseArrival(name, contents);
  }
}
