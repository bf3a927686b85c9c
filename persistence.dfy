/** The append-only log of persistence/persistence.go.

    The log file is modelled by its contents alone. Write appends the
    encoding of one Value; Read decodes the file from its start, one Value
    after the other, and hands each to the caller until the decoder reports
    EOF (a clean end) or another error (returned). Here Read gives back the
    Values it would have passed to its callback, in order, together with
    the error; the callback itself is the replay step of the server. */
module Persistence {
  import opened GoTypes
  import opened Resp
  import RespLaws

  /** What a read of the whole log yields: the Values met in order, then
      the error that stopped it (None when that was EOF). */
  datatype Scanned = Scanned(records: seq<Value>, err: Option<Error>)

  /** The records of a log: Values decoded from the front of s until a read
      fails; EOF ends the log cleanly, any other failure is reported. A
      reported NegativeLength is the panic of make() inside Read, which
      ends the process. A fresh, empty log has no records and no error. */
  function Scan(s: Bytes): (r: Scanned)
    ensures |s| == 0 ==> r == Scanned([], None)
    decreases |s|
  {
    var p := Parse(s);
    if p.res.Fail? then
      if p.res.error == EOF then Scanned([], None) else Scanned([], Some(p.res.error))
    else
      Prepend([p.res.value], Scan(p.rest))
  }

  function Prepend(vs: seq<Value>, sc: Scanned): Scanned {
    Scanned(vs + sc.records, sc.err)
  }

  /** One record read. */
  lemma ScanStep(s: Bytes, v: Value, rest: Bytes)
    requires Parse(s) == Parsed(Ok(v), rest)
    ensures Scan(s) == Prepend([v], Scan(rest))
  {
  }

  lemma PrependPrepend(a: seq<Value>, b: seq<Value>, sc: Scanned)
    ensures Prepend(a, Prepend(b, sc)) == Prepend(a + b, sc)
  {
    assert a + (b + sc.records) == (a + b) + sc.records;
  }

  class Aof {
    var file: Bytes

    /** Opens a log whose file already holds contents. */
    constructor (contents: Bytes)
      ensures file == contents
    {
      file := contents;
    }

    /** Appends the encoding of value and nothing else. */
    method Write(value: Value)
      requires Marshallable(value)
      modifies this
      ensures file == old(file) + Marshal(value)
    {
      file := file + Marshal(value);
    }

    /** Decodes the log from its start. */
    method Read() returns (records: seq<Value>, err: Option<Error>)
      ensures Scanned(records, err) == Scan(file)
    {
      var reader := new Resp(file);
      records := [];
      while true
        invariant Scan(file) == Prepend(records, Scan(reader.input))
        decreases |reader.input|
      {
        ghost var before := reader.input;
        var value := reader.Read();
        if value.Fail? {
          if value.error == EOF {
            break;
          }
          assert Scan(before) == Scanned([], Some(value.error));
          assert records + [] == records;
          return records, Some(value.error);
        }
        ScanStep(before, value.value, reader.input);
        PrependPrepend(records, [value.value], Scan(reader.input));
        records := records + [value.value];
      }
      assert records + [] == records;
      err := None;
    }
  }

  // ---------------------------------------------------------------------
  // What the log promises

  /** Writing the values one after the other leaves their encodings in
      order. */
  lemma {:induction false} WritesConcatenate(vs: seq<Value>, v: Value)
    requires forall i :: 0 <= i < |vs| ==> Marshallable(vs[i])
    requires Marshallable(v)
    ensures MarshalAll(vs + [v]) == MarshalAll(vs) + Marshal(v)
    decreases |vs|
  {
    if |vs| == 0 {
      assert MarshalAll([v]) == Marshal(v) + MarshalAll([]);
    } else {
      assert (vs + [v])[1..] == vs[1..] + [v];
      WritesConcatenate(vs[1..], v);
    }
  }

  /** Reading back written values: values that survive the codec's round
      trip come back in the order they were written, followed by whatever
      the rest of the log holds. */
  lemma {:induction false} ScanWritten(vs: seq<Value>, tail: Bytes)
    requires forall i :: 0 <= i < |vs| ==> RespLaws.RoundTrips(vs[i])
    ensures forall i :: 0 <= i < |vs| ==> Marshallable(vs[i])
    ensures Scan(MarshalAll(vs) + tail) == Prepend(vs, Scan(tail))
    decreases |vs|
  {
    RespLaws.AllMarshallable(vs);
    if |vs| == 0 {
      assert MarshalAll(vs) + tail == tail;
    } else {
      ScanWritten(vs[1..], tail);
      ScanWrittenStep(vs, tail);
    }
  }

  /** The first written value read back in front of the others. */
  lemma ScanWrittenStep(vs: seq<Value>, tail: Bytes)
    requires |vs| > 0 && forall i :: 0 <= i < |vs| ==> RespLaws.RoundTrips(vs[i])
    requires forall i :: 0 <= i < |vs| ==> Marshallable(vs[i])
    requires Scan(MarshalAll(vs[1..]) + tail) == Prepend(vs[1..], Scan(tail))
    ensures Scan(MarshalAll(vs) + tail) == Prepend(vs, Scan(tail))
  {
    var after := MarshalAll(vs[1..]) + tail;
    RespLaws.MarshalAllFront(vs, tail);
    RespLaws.DecodeMarshal(vs[0], after);
    ScanStep(Marshal(vs[0]) + after, vs[0], after);
    PrependPrepend([vs[0]], vs[1..], Scan(tail));
    assert [vs[0]] + vs[1..] == vs;
  }

  /** A log made only of written values reads back as exactly those values,
      with no error. */
  lemma WrittenLogReadsBack(vs: seq<Value>)
    requires forall i :: 0 <= i < |vs| ==> RespLaws.RoundTrips(vs[i])
    ensures forall i :: 0 <= i < |vs| ==> Marshallable(vs[i])
    ensures Scan(MarshalAll(vs)) == Scanned(vs, None)
  {
    ScanWritten(vs, []);
    assert MarshalAll(vs) + [] == MarshalAll(vs);
    assert vs + [] == vs;
  }

  /** A record cut off inside its first line (a crash in the middle of a
      write) reads as EOF, so Read ends cleanly before it. */
  lemma TruncatedLineEndsLog(t: Byte, line: Bytes)
    requires t in {ARRAY, BULK, INTEGER, STRING, ERROR}
    requires forall j :: 0 <= j < |line| - 1 ==> line[j] != CR
    ensures Scan([t] + line) == Scanned([], None)
  {
    RespLaws.ParseByType(t, line);
    ParseLineShort(line);
    if |line| > 0 {
      CrIndexIs(line, if line[|line| - 1] == CR then |line| - 1 else |line|);
    }
  }

  /** A record that fails with anything but EOF ends the read with that
      error, after the records before it. */
  lemma BadRecordStopsRead(vs: seq<Value>, bad: Bytes)
    requires forall i :: 0 <= i < |vs| ==> RespLaws.RoundTrips(vs[i])
    requires Parse(bad).res.Fail? && Parse(bad).res.error != EOF
    ensures forall i :: 0 <= i < |vs| ==> Marshallable(vs[i])
    ensures Scan(MarshalAll(vs) + bad) == Scanned(vs, Some(Parse(bad).res.error))
  {
    ScanWritten(vs, bad);
    assert vs + [] == vs;
  }
}
