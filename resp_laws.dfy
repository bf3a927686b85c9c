/** What the codec of resp/resp.go promises about Marshal and Read taken
    together: which values survive an encode/decode round trip (exactly
    the ones built from Bulk, Int and Array), and what the decoder does
    with the others and with malformed input. */
module RespLaws {
  import opened GoTypes
  import opened Resp
  import Strconv

  /** Values built only from Bulk, Int and Array, with every length and
      number within Go's int range. */
  predicate RoundTrips(v: Value)
    decreases v
  {
    if v.tag == TagBulk then v.val.Text? && |v.val.text| <= MaxInt64
    else if v.tag == TagInt then v.val.Num? && IsInt64(v.val.n)
    else if v.tag == TagArr then
      && v.val.Elems?
      && |v.val.elems| <= MaxInt64
      && forall i :: 0 <= i < |v.val.elems| ==> RoundTrips(v.val.elems[i])
    else false
  }

  lemma {:induction false} RoundTripsMarshallable(v: Value)
    requires RoundTrips(v)
    ensures Marshallable(v)
    decreases v
  {
    if v.tag == TagArr {
      forall i | 0 <= i < |v.val.elems| ensures Marshallable(v.val.elems[i]) {
        RoundTripsMarshallable(v.val.elems[i]);
      }
    }
  }

  lemma AllMarshallable(vs: seq<Value>)
    requires forall i :: 0 <= i < |vs| ==> RoundTrips(vs[i])
    ensures forall i :: 0 <= i < |vs| ==> Marshallable(vs[i])
  {
    forall i | 0 <= i < |vs| ensures Marshallable(vs[i]) {
      RoundTripsMarshallable(vs[i]);
    }
  }

  /** readLine returns the bytes before the first '\r' and swallows the next
      byte whatever it is: it never checks for '\n'. */
  lemma LineIgnoresTerminator(line: Bytes, b: Byte, rest: Bytes)
    requires CR !in line
    ensures ParseLine(line + [CR, b] + rest) == Parsed(Ok(line), rest)
  {
    var s := line + [CR, b] + rest;
    assert s[|line|] == CR;
    assert forall j :: 0 <= j < |line| ==> s[j] == line[j];
    assert CrIndex(s) == |line|;
    assert s[..|line|] == line && s[|line| + 2..] == rest;
  }

  lemma IntegerLine(n: int, rest: Bytes)
    ensures ParseInteger(Strconv.Itoa(n) + CRLF + rest)
         == if IsInt64(n) then Parsed(Ok(n), rest) else Parsed(Fail(BadInteger), rest)
  {
    Strconv.ItoaHasNoCR(n);
    assert Strconv.Itoa(n) + CRLF + rest == Strconv.Itoa(n) + [CR, LF] + rest;
    LineIgnoresTerminator(Strconv.Itoa(n), LF, rest);
    Strconv.ParseItoa(n);
  }

  /** A length or integer line that is not a base-10 int64 fails the read
      of an Integer, a Bulk and an Array alike. */
  lemma BadIntegerLine(t: Byte, line: Bytes, b: Byte, rest: Bytes)
    requires t == INTEGER || t == BULK || t == ARRAY
    requires CR !in line && Strconv.ParseInt64(line).None?
    ensures Parse([t] + line + [CR, b] + rest) == Parsed(Fail(BadInteger), rest)
  {
    assert ([t] + line + [CR, b] + rest)[1..] == line + [CR, b] + rest;
    LineIgnoresTerminator(line, b, rest);
  }

  /** Read dispatches on the type byte alone. */
  lemma ParseByType(t: Byte, body: Bytes)
    ensures Parse([t] + body)
         == if t == ARRAY then ParseArray(body)
            else if t == BULK then ParseBulk(body)
            else if t == ERROR then ParseError(body)
            else if t == STRING then ParseString(body)
            else if t == INTEGER then ParseInt(body)
            else Parsed(Ok(Zero), body)
  {
    assert ([t] + body)[1..] == body;
  }

  /** The round trip: decoding the encoding of a Bulk/Int/Array value gives
      the value back and leaves exactly what followed it. */
  lemma {:induction false} DecodeMarshal(v: Value, rest: Bytes)
    requires RoundTrips(v)
    ensures Marshallable(v)
    ensures Parse(Marshal(v) + rest) == Parsed(Ok(v), rest)
    decreases v, 1
  {
    RoundTripsMarshallable(v);
    if v.tag == TagBulk {
      BulkComesBack(v.val.text, rest);
    } else if v.tag == TagInt {
      var n := v.val.n;
      assert Marshal(v) == [INTEGER] + Strconv.Itoa(n) + CRLF;
      IntHeader(n, rest);
    } else {
      var vs := v.val.elems;
      assert v == Arr(vs);
      MarshalArrShape(vs, rest);
      ArrayHeader(|vs|, MarshalAll(vs) + rest);
      DecodeMarshalAll(vs, rest);
    }
  }

  lemma BulkComesBack(t: Bytes, rest: Bytes)
    requires |t| <= MaxInt64
    ensures Parse(Marshal(Bulk(t)) + rest) == Parsed(Ok(Bulk(t)), rest)
  {
    var body := t + CRLF + rest;
    assert Marshal(Bulk(t)) == [BULK] + Strconv.Itoa(|t|) + CRLF + t + CRLF;
    Regroup([BULK] + Strconv.Itoa(|t|) + CRLF + t, CRLF, rest);
    Regroup([BULK] + Strconv.Itoa(|t|) + CRLF, t, CRLF + rest);
    Regroup(t, CRLF, rest);
    BulkHeader(|t|, body);
    TakeDropExact(t, rest);
    LineIgnoresTerminator([], LF, rest);
  }

  lemma TakeDropExact(t: Bytes, rest: Bytes)
    ensures Take(t + CRLF + rest, |t|) == t
    ensures Drop(t + CRLF + rest, |t|) == [] + [CR, LF] + rest
  {
    assert (t + CRLF + rest)[..|t|] == t;
    assert (t + CRLF + rest)[|t|..] == [] + [CR, LF] + rest;
  }

  /** An Integer line holding n followed by any bytes. */
  lemma IntHeader(n: int, rest: Bytes)
    ensures Parse([INTEGER] + Strconv.Itoa(n) + CRLF + rest)
         == if IsInt64(n) then Parsed(Ok(Int(n)), rest) else Parsed(Fail(BadInteger), rest)
  {
    HeaderRegroup(INTEGER, Strconv.Itoa(n), rest);
    ParseByType(INTEGER, Strconv.Itoa(n) + CRLF + rest);
    IntegerLine(n, rest);
  }

  lemma {:induction false} DecodeMarshalAll(vs: seq<Value>, rest: Bytes)
    requires forall i :: 0 <= i < |vs| ==> RoundTrips(vs[i])
    ensures forall i :: 0 <= i < |vs| ==> Marshallable(vs[i])
    ensures ParseElems(MarshalAll(vs) + rest, |vs|) == Parsed(Ok(vs), rest)
    decreases vs
  {
    AllMarshallable(vs);
    if |vs| > 0 {
      var tail := MarshalAll(vs[1..]) + rest;
      MarshalAllFront(vs, rest);
      DecodeMarshal(vs[0], tail);
      ElemsFirstOk(Marshal(vs[0]) + tail, |vs|, vs[0], tail);
      DecodeMarshalAll(vs[1..], rest);
      SplitFirst(vs);
    }
  }

  lemma MarshalArrShape(vs: seq<Value>, rest: Bytes)
    requires forall i :: 0 <= i < |vs| ==> Marshallable(vs[i])
    ensures Marshal(Arr(vs)) + rest == [ARRAY] + Strconv.Itoa(|vs|) + CRLF + (MarshalAll(vs) + rest)
  {
    Regroup([ARRAY] + Strconv.Itoa(|vs|) + CRLF, MarshalAll(vs), rest);
  }

  /** A type byte, a line and its terminator, then what follows. */
  lemma HeaderRegroup(t: Byte, a: Bytes, rest: Bytes)
    ensures [t] + a + CRLF + rest == [t] + (a + CRLF + rest)
  {
    Regroup([t] + a, CRLF, rest);
    Regroup([t], a, CRLF + rest);
    Regroup(a, CRLF, rest);
  }

  /** Concatenation regrouped, stated once so that callers need not redo it. */
  lemma Regroup(a: Bytes, b: Bytes, c: Bytes)
    ensures a + b + c == a + (b + c)
  {
  }

  /** Every encoding but an Array's is a type byte, its body, and CRLF. */
  lemma EndsWithCRLF(v: Value)
    requires Marshallable(v) && v.tag <= TagErr && v.tag != TagArr
    ensures var r := Marshal(v); |r| >= 3 && r[0] == TypeByte(v.tag) && r[|r| - 2..] == CRLF
  {
  }

  lemma SplitFirst<T>(xs: seq<T>)
    requires |xs| > 0
    ensures [xs[0]] + xs[1..] == xs
  {
  }

  lemma MarshalAllFront(vs: seq<Value>, rest: Bytes)
    requires |vs| > 0 && forall i :: 0 <= i < |vs| ==> Marshallable(vs[i])
    ensures MarshalAll(vs) + rest == Marshal(vs[0]) + (MarshalAll(vs[1..]) + rest)
  {
    assert MarshalAll(vs) == Marshal(vs[0]) + MarshalAll(vs[1..]);
    Regroup(Marshal(vs[0]), MarshalAll(vs[1..]), rest);
  }

  /** readArray stops at the first element that fails: after the elements
      that decode, the array's read fails with that element's error and
      leaves what that element's read left. */
  lemma {:induction false} ElemsAfterGoodPrefix(good: seq<Value>, count: nat, tail: Bytes)
    requires forall i :: 0 <= i < |good| ==> RoundTrips(good[i])
    requires |good| <= count
    ensures forall i :: 0 <= i < |good| ==> Marshallable(good[i])
    ensures ParseElems(MarshalAll(good) + tail, count) == Join(good, ParseElems(tail, count - |good|))
    decreases good
  {
    AllMarshallable(good);
    if |good| == 0 {
      assert MarshalAll(good) + tail == tail;
      JoinNothing(ParseElems(tail, count));
    } else {
      ElemsAfterGoodPrefix(good[1..], count - 1, tail);
      GoodPrefixStep(good, count, tail);
    }
  }

  /** One more well-formed element in front of the run. */
  lemma GoodPrefixStep(good: seq<Value>, count: nat, tail: Bytes)
    requires 0 < |good| <= count
    requires forall i :: 0 <= i < |good| ==> RoundTrips(good[i]) && Marshallable(good[i])
    requires ParseElems(MarshalAll(good[1..]) + tail, count - 1)
          == Join(good[1..], ParseElems(tail, count - |good|))
    ensures ParseElems(MarshalAll(good) + tail, count) == Join(good, ParseElems(tail, count - |good|))
  {
    var after := MarshalAll(good[1..]) + tail;
    var later := ParseElems(tail, count - |good|);
    JoinJoin([good[0]], good[1..], later);
    assert [good[0]] + good[1..] == good;
    ElemsAfterGood(good[0], after, count);
    MarshalAllFront(good, tail);
  }

  lemma ElemsAfterGood(v: Value, after: Bytes, count: nat)
    requires RoundTrips(v) && count > 0
    ensures Marshallable(v)
    ensures ParseElems(Marshal(v) + after, count) == Join([v], ParseElems(after, count - 1))
  {
    DecodeMarshal(v, after);
    ElemsFirstOk(Marshal(v) + after, count, v, after);
  }

  lemma BulkAfterLength(s: Bytes, length: nat, body: Bytes)
    requires ParseInteger(s) == Parsed(Ok(length), body)
    ensures ParseBulk(s) == Parsed(Ok(Bulk(Take(body, length))), ParseLine(Drop(body, length)).rest)
  {
  }

  /** An Array header of count elements followed by any bytes. */
  lemma ArrayHeader(count: nat, body: Bytes)
    requires count <= MaxInt64
    ensures Parse([ARRAY] + Strconv.Itoa(count) + CRLF + body) == AsArray(ParseElems(body, count))
  {
    var line := Strconv.Itoa(count) + CRLF + body;
    HeaderRegroup(ARRAY, Strconv.Itoa(count), body);
    ParseByType(ARRAY, line);
    IntegerLine(count, body);
    ArrayAfterCount(line, count, body);
  }

  /** A Bulk header of length bytes followed by any bytes. */
  lemma BulkHeader(length: nat, body: Bytes)
    requires length <= MaxInt64
    ensures Parse([BULK] + Strconv.Itoa(length) + CRLF + body)
         == Parsed(Ok(Bulk(Take(body, length))), ParseLine(Drop(body, length)).rest)
  {
    var line := Strconv.Itoa(length) + CRLF + body;
    HeaderRegroup(BULK, Strconv.Itoa(length), body);
    ParseByType(BULK, line);
    IntegerLine(length, body);
    BulkAfterLength(line, length, body);
  }

  /** A length beyond int64 fails the read of a Bulk or an Array. */
  lemma OversizedLength(t: Byte, length: nat, body: Bytes)
    requires t == BULK || t == ARRAY
    requires length > MaxInt64
    ensures Parse([t] + Strconv.Itoa(length) + CRLF + body) == Parsed(Fail(BadInteger), body)
  {
    HeaderRegroup(t, Strconv.Itoa(length), body);
    ParseByType(t, Strconv.Itoa(length) + CRLF + body);
    IntegerLine(length, body);
  }

  lemma ArrayStopsAtFirstError(good: seq<Value>, count: nat, tail: Bytes)
    requires forall i :: 0 <= i < |good| ==> RoundTrips(good[i])
    requires |good| < count <= MaxInt64
    requires Parse(tail).res.Fail?
    ensures forall i :: 0 <= i < |good| ==> Marshallable(good[i])
    ensures Parse([ARRAY] + Strconv.Itoa(count) + CRLF + MarshalAll(good) + tail)
         == Parsed(Fail(Parse(tail).res.error), Parse(tail).rest)
  {
    ElemsAfterGoodPrefix(good, count, tail);
    Regroup([ARRAY] + Strconv.Itoa(count) + CRLF, MarshalAll(good), tail);
    ArrayHeader(count, MarshalAll(good) + tail);
  }

  /** readString keeps the '\r' in the text: a String comes back one byte
      longer than it was sent. */
  lemma StringKeepsCR(s: Bytes, rest: Bytes)
    requires CR !in s
    ensures Parse(Marshal(Str(s)) + rest) == Parsed(Ok(Str(s + [CR])), rest)
  {
    var u := Marshal(Str(s)) + rest;
    var t := s + [CR, LF] + rest;
    assert u[1..] == t;
    assert t[|s|] == CR;
    assert forall j :: 0 <= j < |s| ==> t[j] == s[j];
    assert CrIndex(t) == |s|;
    assert t[..|s| + 1] == s + [CR] && t[|s| + 2..] == rest;
  }

  /** No String survives the round trip: either the '\r' is kept, or a '\r'
      inside the text is not followed by '\n' and the read fails. */
  lemma StringNeverRoundTrips(s: Bytes, rest: Bytes)
    ensures Parse(Marshal(Str(s)) + rest).res != Ok(Str(s))
  {
    var u := Marshal(Str(s)) + rest;
    var t := s + [CR, LF] + rest;
    assert u[1..] == t;
    assert t[|s|] == CR;
  }

  /** readError wraps readString's whole Value, so an Error comes back as an
      Error holding a String, not as the Error that was sent. */
  lemma ErrorBoxesString(s: Bytes, rest: Bytes)
    requires CR !in s
    ensures Parse(Marshal(Err(s)) + rest) == Parsed(Ok(Value(TagErr, Boxed(Str(s + [CR])))), rest)
  {
    var u := Marshal(Err(s)) + rest;
    assert u[1..] == Marshal(Str(s))[1..] + rest;
    StringKeepsCR(s, rest);
    assert (Marshal(Str(s)) + rest)[1..] == u[1..];
  }

  /** Nil is written as a Bulk of length -1, and reading that makes make()
      panic. */
  lemma NilCannotBeRead(rest: Bytes)
    ensures Parse(Marshal(Nil()) + rest) == Parsed(Fail(NegativeLength), rest)
  {
    assert Strconv.Itoa(-1) == "-1";
    assert Marshal(Nil()) == [BULK] + Strconv.Itoa(-1) + CRLF;
    HeaderRegroup(BULK, Strconv.Itoa(-1), rest);
    ParseByType(BULK, Strconv.Itoa(-1) + CRLF + rest);
    IntegerLine(-1, rest);
  }

  /** The empty Bulk has its own encoding, distinct from Nil's, and reads
      back as the empty Bulk. */
  lemma EmptyBulkIsNotNil(rest: Bytes)
    ensures Marshal(Bulk([])) == "$0\r\n\r\n" != Marshal(Nil())
    ensures Parse(Marshal(Bulk([])) + rest) == Parsed(Ok(Bulk([])), rest)
  {
    EmptyBulkBytes();
    BulkComesBack([], rest);
  }

  lemma EmptyBulkBytes()
    ensures Marshal(Bulk([])) == "$0\r\n\r\n"
  {
    assert Strconv.Itoa(0) == "0";
  }

  /** An unknown type byte reads as the zero Value, with no error, and only
      that byte is consumed. */
  lemma UnknownTypeByte(b: Byte, rest: Bytes)
    requires b !in {ARRAY, BULK, ERROR, STRING, INTEGER}
    ensures Parse([b] + rest) == Parsed(Ok(Zero), rest)
  {
    assert ([b] + rest)[1..] == rest;
  }

  /** readString's own failure: a '\r' followed by anything but '\n'. */
  lemma StringBadTerminator(line: Bytes, b: Byte, rest: Bytes)
    requires CR !in line && b != LF
    ensures Parse([STRING] + line + [CR, b] + rest) == Parsed(Fail(InvalidTerminator), rest)
  {
    var t := line + [CR, b] + rest;
    assert ([STRING] + line + [CR, b] + rest)[1..] == t;
    assert t[|line|] == CR;
    assert forall j :: 0 <= j < |line| ==> t[j] == line[j];
    assert CrIndex(t) == |line|;
    assert t[|line| + 2..] == rest;
  }

  /** An Error never survives the round trip: it comes back holding a
      String Value, or not at all. */
  lemma ErrorNeverRoundTrips(s: Bytes, rest: Bytes)
    ensures Parse(Marshal(Err(s)) + rest).res != Ok(Err(s))
  {
    assert (Marshal(Err(s)) + rest)[0] == ERROR;
  }

  /** Exactly the Bulk/Int/Array values round-trip: for every value Marshal
      can encode, decoding its encoding gives it back if and only if it is
      built from those three tags. */
  lemma RoundTripExactly(v: Value, rest: Bytes)
    requires Marshallable(v)
    ensures Parse(Marshal(v) + rest).res == Ok(v) <==> RoundTrips(v)
  {
    if Parse(Marshal(v) + rest).res == Ok(v) {
      OnlyRoundTripsComeBack(v, rest);
    }
    if RoundTrips(v) {
      DecodeMarshal(v, rest);
    }
  }

  lemma {:induction false} OnlyRoundTripsComeBack(v: Value, rest: Bytes)
    requires Marshallable(v)
    requires Parse(Marshal(v) + rest).res == Ok(v)
    ensures RoundTrips(v)
    decreases v, 1
  {
    if v.tag == TagArr {
      assert v == Arr(v.val.elems);
      ArrayOnlyIf(v.val.elems, rest);
    } else {
      ScalarComesBack(v, rest);
    }
  }

  lemma {:induction false} ArrayOnlyIf(vs: seq<Value>, rest: Bytes)
    requires forall i :: 0 <= i < |vs| ==> Marshallable(vs[i])
    requires Parse(Marshal(Arr(vs)) + rest).res == Ok(Arr(vs))
    ensures |vs| <= MaxInt64 && forall i :: 0 <= i < |vs| ==> RoundTrips(vs[i])
    decreases vs, 2
  {
    MarshalArrShape(vs, rest);
    if |vs| <= MaxInt64 {
      ArrayHeader(|vs|, MarshalAll(vs) + rest);
      ElemsOnlyIf(vs, rest);
    }
  }

  /** The cases of the round trip with no elements to recurse into. */
  lemma ScalarComesBack(v: Value, rest: Bytes)
    requires Marshallable(v) && v.tag != TagArr
    requires Parse(Marshal(v) + rest).res == Ok(v)
    ensures RoundTrips(v)
  {
    if v.tag == TagNil {
      NilCannotBeRead(rest);
    } else if v.tag == TagStr {
      StringNeverRoundTrips(v.val.text, rest);
    } else if v.tag == TagErr {
      ErrorNeverRoundTrips(v.val.text, rest);
    }
  }

  lemma {:induction false} ElemsOnlyIf(vs: seq<Value>, rest: Bytes)
    requires forall i :: 0 <= i < |vs| ==> Marshallable(vs[i])
    requires ParseElems(MarshalAll(vs) + rest, |vs|).res == Ok(vs)
    ensures forall i :: 0 <= i < |vs| ==> RoundTrips(vs[i])
    decreases vs, 1
  {
    if |vs| > 0 {
      var tail := MarshalAll(vs[1..]) + rest;
      MarshalAllFront(vs, rest);
      FirstElementComesBack(vs, tail);
      ElemsOnlyIf(vs[1..], rest);
      forall i | 0 <= i < |vs| ensures RoundTrips(vs[i]) {
        if i > 0 {
          assert vs[i] == vs[1..][i - 1];
        }
      }
    }
  }

  /** If a run of elements reads back as vs, its first element came back on
      its own, consumed exactly its encoding, and the rest read back as the
      remaining elements. */
  lemma {:induction false} FirstElementComesBack(vs: seq<Value>, tail: Bytes)
    requires |vs| > 0 && forall i :: 0 <= i < |vs| ==> Marshallable(vs[i])
    requires ParseElems(Marshal(vs[0]) + tail, |vs|).res == Ok(vs)
    ensures RoundTrips(vs[0])
    ensures ParseElems(tail, |vs| - 1).res == Ok(vs[1..])
    decreases vs, 0
  {
    var first := Parse(Marshal(vs[0]) + tail);
    assert first.res.Ok?;
    var rest := ParseElems(first.rest, |vs| - 1);
    assert ParseElems(Marshal(vs[0]) + tail, |vs|) == Join([first.res.value], rest);
    assert rest.res.Ok? && [first.res.value] + rest.res.value == vs;
    assert first.res.value == vs[0];
    OnlyRoundTripsComeBack(vs[0], tail);
    DecodeMarshal(vs[0], tail);
    assert rest.res.value == vs[1..];
  }
}
