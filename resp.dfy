/** The RESP2 wire codec of resp/resp.go.

    A Value is a tag and an untyped payload, as in the Go struct. Marshal
    and its helpers are pure functions; the reader is the class Resp, whose
    methods consume its input step by step and are proved equal to the pure
    Parse functions below, which state what each read returns and how much
    of the input it leaves. */
module Resp {
  import opened GoTypes
  import Strconv

  // Type bytes of the wire format.
  const STRING: Byte := '+'
  const ERROR: Byte := '-'
  const INTEGER: Byte := ':'
  const BULK: Byte := '$'
  const ARRAY: Byte := '*'

  /** Go's `type Tag byte`: any byte is a Tag, six of them are named. */
  newtype Tag = t: int | 0 <= t < 256

  const TagNil: Tag := 0
  const TagStr: Tag := 1
  const TagBulk: Tag := 2
  const TagInt: Tag := 3
  const TagArr: Tag := 4
  const TagErr: Tag := 5

  /** What the Go field `val any` holds: nothing (nil), a string, an int,
      a []Value, or a whole Value (readError stores readString's Value). */
  datatype Payload =
    | NoPayload
    | Text(text: Bytes)
    | Num(n: int)
    | Elems(elems: seq<Value>)
    | Boxed(inner: Value)

  datatype Value = Value(tag: Tag, val: Payload)

  /** The zero Value, Value{}: tag nil, payload nil. */
  const Zero: Value := Value(TagNil, NoPayload)

  // The values the handlers build with NewValue.
  function Nil(): Value { Value(TagNil, NoPayload) }
  function Str(s: Bytes): Value { Value(TagStr, Text(s)) }
  function Bulk(s: Bytes): Value { Value(TagBulk, Text(s)) }
  function Int(n: int): Value { Value(TagInt, Num(n)) }
  function Arr(vs: seq<Value>): Value { Value(TagArr, Elems(vs)) }
  function Err(s: Bytes): Value { Value(TagErr, Text(s)) }

  /** The values Marshal can encode without a failing type assertion:
      text for String, Bulk and Error, a Go int for Integer, a slice of
      encodable values for Array. Nil and unknown tags ignore the payload. */
  predicate Marshallable(v: Value)
    decreases v
  {
    if v.tag == TagStr || v.tag == TagBulk || v.tag == TagErr then v.val.Text?
    else if v.tag == TagInt then v.val.Num? && IsInt64(v.val.n)
    else if v.tag == TagArr then
      v.val.Elems? && forall i :: 0 <= i < |v.val.elems| ==> Marshallable(v.val.elems[i])
    else true
  }

  /** The type byte a tag is written with (Nil shares '$' with Bulk). */
  function TypeByte(t: Tag): Byte
    requires t <= TagErr
  {
    if t == TagNil || t == TagBulk then BULK
    else if t == TagStr then STRING
    else if t == TagInt then INTEGER
    else if t == TagArr then ARRAY
    else ERROR
  }

  /** Value.Marshal: every named tag is written as its type byte followed
      by its own layout; any other tag is written as nothing. */
  function Marshal(v: Value): (r: Bytes)
    requires Marshallable(v)
    ensures v.tag <= TagErr ==> |r| > 0 && r[0] == TypeByte(v.tag)
    ensures v.tag > TagErr ==> r == []
    decreases v, 1
  {
    if v.tag == TagArr then MarshalArray(v)
    else if v.tag == TagBulk then MarshalBulk(v)
    else if v.tag == TagNil then MarshalNil()
    else if v.tag == TagStr then MarshalString(v)
    else if v.tag == TagErr then MarshalError(v)
    else if v.tag == TagInt then MarshalInt(v)
    else []
  }

  function MarshalInt(v: Value): (r: Bytes)
    requires v.tag == TagInt && Marshallable(v)
    ensures |r| >= 4 && r[0] == INTEGER
  {
    [INTEGER] + Strconv.Itoa(v.val.n) + CRLF
  }

  function MarshalString(v: Value): (r: Bytes)
    requires v.val.Text?
    ensures |r| == |v.val.text| + 3 && r[0] == STRING
  {
    [STRING] + v.val.text + CRLF
  }

  function MarshalArray(v: Value): (r: Bytes)
    requires v.tag == TagArr && Marshallable(v)
    ensures |r| >= 4 && r[0] == ARRAY
    decreases v, 0
  {
    [ARRAY] + Strconv.Itoa(|v.val.elems|) + CRLF + MarshalAll(v.val.elems)
  }

  /** The encodings of vs, concatenated in order. */
  function MarshalAll(vs: seq<Value>): (r: Bytes)
    requires forall i :: 0 <= i < |vs| ==> Marshallable(vs[i])
    decreases vs
  {
    if |vs| == 0 then [] else Marshal(vs[0]) + MarshalAll(vs[1..])
  }

  function MarshalBulk(v: Value): (r: Bytes)
    requires v.val.Text?
    ensures |r| >= |v.val.text| + 5 && r[0] == BULK
  {
    [BULK] + Strconv.Itoa(|v.val.text|) + CRLF + v.val.text + CRLF
  }

  function MarshalNil(): (r: Bytes)
    ensures |r| == 5 && r[0] == BULK
  {
    "$-1\r\n"
  }

  function MarshalError(v: Value): (r: Bytes)
    requires v.val.Text?
    ensures |r| == |v.val.text| + 3 && r[0] == ERROR
  {
    [ERROR] + v.val.text + CRLF
  }

  // ---------------------------------------------------------------------
  // Decoding

  /** How a read fails. EOF is the reader's io.EOF; BadInteger is any error
      of strconv.ParseInt; InvalidTerminator is readString's own error;
      NegativeLength stands for the run-time panic of make() with a
      negative length, which no caller recovers. */
  datatype Error = EOF | BadInteger | InvalidTerminator | NegativeLength

  datatype Result<+T> = Ok(value: T) | Fail(error: Error)

  /** The outcome of a read together with the input it leaves unread. */
  datatype Parsed<+T> = Parsed(res: Result<T>, rest: Bytes)

  /** The index of the first carriage return in s, or |s| if there is none. */
  function CrIndex(s: Bytes): (i: nat)
    ensures i <= |s|
    ensures i < |s| ==> s[i] == CR
    ensures forall j :: 0 <= j < i ==> s[j] != CR
    decreases |s|
  {
    if |s| == 0 || s[0] == CR then 0 else 1 + CrIndex(s[1..])
  }

  /** The first carriage return of s is at i (or there is none, i == |s|). */
  lemma CrIndexIs(s: Bytes, i: nat)
    requires i <= |s| && (i < |s| ==> s[i] == CR)
    requires forall j :: 0 <= j < i ==> s[j] != CR
    ensures CrIndex(s) == i
  {
  }

  /** A line whose '\r' is at k - 2, ending at k. */
  lemma ParseLineAt(s: Bytes, k: nat)
    requires 2 <= k <= |s| && s[k - 2] == CR
    requires forall j :: 0 <= j < k - 2 ==> s[j] != CR
    ensures ParseLine(s) == Parsed(Ok(s[..k - 2]), s[k..])
  {
    CrIndexIs(s, k - 2);
  }

  /** A line with no '\r' before its last byte. */
  lemma ParseLineShort(s: Bytes)
    requires forall j :: 0 <= j < |s| - 1 ==> s[j] != CR
    ensures ParseLine(s) == Parsed(Fail(EOF), [])
  {
    if |s| > 0 {
      CrIndexIs(s, if s[|s| - 1] == CR then |s| - 1 else |s|);
    }
  }

  /** readLine: the bytes before the first '\r'; one more byte (whatever it
      is) is consumed after it. Without that byte the reader's EOF comes
      back and the whole input has been consumed. */
  function ParseLine(s: Bytes): (p: Parsed<Bytes>)
    ensures p.res.Ok? ==> |p.rest| + |p.res.value| + 2 == |s|
    ensures p.res.Fail? ==> p.res.error == EOF && p.rest == []
  {
    var i := CrIndex(s);
    if i + 1 < |s| then Parsed(Ok(s[..i]), s[i + 2..]) else Parsed(Fail(EOF), [])
  }

  /** readInteger: a line holding a base-10 int64. */
  function ParseInteger(s: Bytes): (p: Parsed<int>)
    ensures |p.rest| <= |s|
    ensures p.res.Ok? ==> |p.rest| + 2 <= |s| && IsInt64(p.res.value)
  {
    var line := ParseLine(s);
    if line.res.Fail? then Parsed(Fail(line.res.error), line.rest)
    else
      match Strconv.ParseInt64(line.res.value)
      case None => Parsed(Fail(BadInteger), line.rest)
      case Some(n) => Parsed(Ok(n), line.rest)
  }

  /** Read: one type byte, then the reader for that type. An unknown type
      byte gives the zero Value and no error. */
  function Parse(s: Bytes): (p: Parsed<Value>)
    ensures |p.rest| <= |s|
    ensures p.res.Ok? ==> |p.rest| < |s| && p.res.value.tag <= TagErr
    ensures |s| == 0 ==> p == Parsed(Fail(EOF), [])
    decreases |s|, 0
  {
    if |s| == 0 then Parsed(Fail(EOF), [])
    else if s[0] == ARRAY then ParseArray(s[1..])
    else if s[0] == BULK then ParseBulk(s[1..])
    else if s[0] == ERROR then ParseError(s[1..])
    else if s[0] == STRING then ParseString(s[1..])
    else if s[0] == INTEGER then ParseInt(s[1..])
    else Parsed(Ok(Zero), s[1..])
  }

  /** readInt: an Integer Value holding the line's number. */
  function ParseInt(s: Bytes): (p: Parsed<Value>)
    ensures |p.rest| <= |s|
    ensures p.res.Ok? ==> p.res.value.tag == TagInt
  {
    var n := ParseInteger(s);
    if n.res.Fail? then Parsed(Fail(n.res.error), n.rest)
    else Parsed(Ok(Int(n.res.value)), n.rest)
  }

  /** readError: an Error Value whose payload is the String Value that
      readString returned, not that Value's text. */
  function ParseError(s: Bytes): (p: Parsed<Value>)
    ensures |p.rest| <= |s|
    ensures p.res.Ok? ==> p.res.value.tag == TagErr && p.res.value.val.Boxed?
  {
    var str := ParseString(s);
    if str.res.Fail? then str else Parsed(Ok(Value(TagErr, Boxed(str.res.value))), str.rest)
  }

  /** readString: everything up to and including the first '\r' (the
      delimiter stays in the text), then a byte that must be '\n'. */
  function ParseString(s: Bytes): (p: Parsed<Value>)
    ensures |p.rest| <= |s|
    ensures p.res.Ok? ==> p.res.value.tag == TagStr && p.res.value.val.Text?
  {
    var i := CrIndex(s);
    if i == |s| || i + 1 == |s| then Parsed(Fail(EOF), [])
    else if s[i + 1] != LF then Parsed(Fail(InvalidTerminator), s[i + 2..])
    else Parsed(Ok(Str(s[..i + 1])), s[i + 2..])
  }

  /** readArray: a count line, then that many Values read one after the
      other, stopping at the first one that fails. */
  function ParseArray(s: Bytes): (p: Parsed<Value>)
    ensures |p.rest| <= |s|
    ensures p.res.Ok? ==> p.res.value.tag == TagArr && p.res.value.val.Elems?
    decreases |s|, 2
  {
    var n := ParseInteger(s);
    if n.res.Fail? then Parsed(Fail(n.res.error), n.rest)
    else if n.res.value < 0 then Parsed(Fail(NegativeLength), n.rest)
    else
      AsArray(ParseElems(n.rest, n.res.value))
  }

  /** The Array Value made of the elements read, or their read's error. */
  function AsArray(elems: Parsed<seq<Value>>): (p: Parsed<Value>)
    ensures p.rest == elems.rest
    ensures p.res.Ok? <==> elems.res.Ok?
  {
    if elems.res.Fail? then Parsed(Fail(elems.res.error), elems.rest)
    else Parsed(Ok(Arr(elems.res.value)), elems.rest)
  }

  /** Prepends what was read before to a later outcome. */
  function Join(before: seq<Value>, p: Parsed<seq<Value>>): Parsed<seq<Value>> {
    if p.res.Ok? then Parsed(Ok(before + p.res.value), p.rest) else p
  }

  lemma JoinNothing(p: Parsed<seq<Value>>)
    ensures Join([], p) == p
  {
    if p.res.Ok? {
      assert [] + p.res.value == p.res.value;
    }
  }

  lemma JoinJoin(a: seq<Value>, b: seq<Value>, p: Parsed<seq<Value>>)
    ensures Join(a, Join(b, p)) == Join(a + b, p)
  {
    if p.res.Ok? {
      assert a + (b + p.res.value) == (a + b) + p.res.value;
    }
  }

  lemma ElemsFirstOk(s: Bytes, count: nat, v: Value, rest: Bytes)
    requires count > 0 && Parse(s) == Parsed(Ok(v), rest)
    ensures ParseElems(s, count) == Join([v], ParseElems(rest, count - 1))
  {
  }

  lemma ArrayAfterCount(s: Bytes, count: nat, body: Bytes)
    requires ParseInteger(s) == Parsed(Ok(count), body)
    ensures ParseArray(s) == AsArray(ParseElems(body, count))
  {
  }

  /** One more Value read by the loop of readArray. */
  lemma ElemsStep(s: Bytes, count: nat, done: seq<Value>, before: Bytes, v: Value, after: Bytes)
    requires |done| < count
    requires ParseElems(s, count) == Join(done, ParseElems(before, count - |done|))
    requires Parse(before) == Parsed(Ok(v), after)
    ensures ParseElems(s, count) == Join(done + [v], ParseElems(after, count - |done| - 1))
  {
    ElemsFirstOk(before, count - |done|, v, after);
    JoinJoin(done, [v], ParseElems(after, count - |done| - 1));
  }

  /** The read that stops the loop of readArray. */
  lemma ElemsStepFails(s: Bytes, count: nat, done: seq<Value>, before: Bytes, e: Error, after: Bytes)
    requires |done| < count
    requires ParseElems(s, count) == Join(done, ParseElems(before, count - |done|))
    requires Parse(before) == Parsed(Fail(e), after)
    ensures ParseElems(s, count) == Parsed(Fail(e), after)
  {
    ElemsFirstFails(before, count - |done|, e, after);
  }

  /** The loop of readArray after its last Value. */
  lemma ElemsDone(s: Bytes, done: seq<Value>, after: Bytes)
    requires ParseElems(s, |done|) == Join(done, ParseElems(after, 0))
    ensures ParseElems(s, |done|) == Parsed(Ok(done), after)
  {
    ElemsNone(after);
    assert done + [] == done;
  }

  lemma ElemsNone(s: Bytes)
    ensures ParseElems(s, 0) == Parsed(Ok([]), s)
  {
  }

  lemma ElemsFirstFails(s: Bytes, count: nat, e: Error, rest: Bytes)
    requires count > 0 && Parse(s) == Parsed(Fail(e), rest)
    ensures ParseElems(s, count) == Parsed(Fail(e), rest)
  {
  }

  /** The loop of readArray: count Values in a row. */
  function ParseElems(s: Bytes, count: nat): (p: Parsed<seq<Value>>)
    ensures |p.rest| <= |s|
    ensures p.res.Ok? ==> |p.res.value| == count
    decreases |s|, 1, count
  {
    if count == 0 then Parsed(Ok([]), s)
    else
      var first := Parse(s);
      if first.res.Fail? then Parsed(Fail(first.res.error), first.rest)
      else Join([first.res.value], ParseElems(first.rest, count - 1))
  }

  /** `length` bytes from the front of s, padded with the zero bytes that
      make() put in the buffer when s runs out first. */
  function Take(s: Bytes, length: nat): (r: Bytes)
    ensures |r| == length
  {
    if length <= |s| then s[..length] else s + seq(length - |s|, _ => 0 as char)
  }

  function Drop(s: Bytes, length: nat): Bytes {
    if length <= |s| then s[length..] else []
  }

  /** readBulk: a length line, then that many bytes, then one readLine
      whose result (and error) is ignored. */
  function ParseBulk(s: Bytes): (p: Parsed<Value>)
    ensures |p.rest| <= |s|
    ensures p.res.Ok? ==> p.res.value.tag == TagBulk && p.res.value.val.Text?
  {
    var n := ParseInteger(s);
    if n.res.Fail? then Parsed(Fail(n.res.error), n.rest)
    else if n.res.value < 0 then Parsed(Fail(NegativeLength), n.rest)
    else
      var body := Take(n.rest, n.res.value);
      Parsed(Ok(Bulk(body)), ParseLine(Drop(n.rest, n.res.value)).rest)
  }

  // ---------------------------------------------------------------------
  // The reader

  /** Go's Resp: a buffered reader over a byte stream. `input` is what the
      stream still holds; each read consumes from its front. */
  class Resp {
    var input: Bytes

    constructor (rd: Bytes)
      ensures input == rd
    {
      input := rd;
    }

    /** bufio.Reader.ReadByte. */
    method ReadByte() returns (r: Result<Byte>)
      modifies this
      ensures |old(input)| == 0 ==> r == Fail(EOF) && input == []
      ensures |old(input)| > 0 ==> r == Ok(old(input)[0]) && input == old(input)[1..]
    {
      if |input| == 0 {
        return Fail(EOF);
      }
      r := Ok(input[0]);
      input := input[1..];
    }

    method ReadLine() returns (r: Result<Bytes>, n: nat)
      modifies this
      ensures Parsed(r, input) == ParseLine(old(input))
      ensures n == if r.Ok? then |old(input)| - |input| else 0
    {
      ghost var s := input;
      var line: Bytes := [];
      n := 0;
      while true
        invariant |line| <= |s| && line == s[..|line|] && input == s[|line|..]
        invariant n == |line|
        invariant forall j :: 0 <= j < |line| - 1 ==> s[j] != CR
        decreases |input|
      {
        var b := ReadByte();
        if b.Fail? {
          ParseLineShort(s);
          return Fail(b.error), 0;
        }
        n := n + 1;
        line := line + [b.value];
        assert line == s[..|line|];
        if |line| >= 2 && line[|line| - 2] == CR {
          break;
        }
      }
      ParseLineAt(s, |line|);
      assert s[..|line| - 2] == line[..|line| - 2];
      r := Ok(line[..|line| - 2]);
    }

    method ReadInteger() returns (r: Result<int>, n: nat)
      modifies this
      ensures Parsed(r, input) == ParseInteger(old(input))
    {
      var line;
      line, n := ReadLine();
      if line.Fail? {
        return Fail(line.error), 0;
      }
      var i64 := Strconv.ParseInt64(line.value);
      if i64.None? {
        return Fail(BadInteger), n;
      }
      r := Ok(i64.value);
    }

    /** Read one Value. */
    method Read() returns (r: Result<Value>)
      modifies this
      ensures Parsed(r, input) == Parse(old(input))
      decreases |input|, 0
    {
      var t := ReadByte();
      if t.Fail? {
        return Fail(t.error);
      }
      var typ := t.value;
      if typ == ARRAY {
        r := ReadArray();
      } else if typ == BULK {
        r := ReadBulk();
      } else if typ == ERROR {
        r := ReadError();
      } else if typ == STRING {
        r := ReadString();
      } else if typ == INTEGER {
        r := ReadInt();
      } else {
        r := Ok(Zero);
      }
    }

    method ReadInt() returns (r: Result<Value>)
      modifies this
      ensures Parsed(r, input) == ParseInt(old(input))
    {
      var ival, _ := ReadInteger();
      if ival.Fail? {
        return Fail(ival.error);
      }
      r := Ok(Int(ival.value));
    }

    method ReadError() returns (r: Result<Value>)
      modifies this
      ensures Parsed(r, input) == ParseError(old(input))
    {
      var errval := ReadString();
      if errval.Fail? {
        return errval;
      }
      r := Ok(Value(TagErr, Boxed(errval.value)));
    }

    method ReadString() returns (r: Result<Value>)
      modifies this
      ensures Parsed(r, input) == ParseString(old(input))
    {
      // bufio.Reader.ReadString('\r')
      var i := CrIndex(input);
      if i == |input| {
        input := [];
        return Fail(EOF);
      }
      var strval := input[..i + 1];
      input := input[i + 1..];
      var lf := ReadByte();
      if lf.Fail? {
        return Fail(lf.error);
      }
      if lf.value != LF {
        return Fail(InvalidTerminator);
      }
      r := Ok(Str(strval));
    }

    method ReadArray() returns (r: Result<Value>)
      modifies this
      ensures Parsed(r, input) == ParseArray(old(input))
      decreases |input|, 3
    {
      var length, _ := ReadInteger();
      if length.Fail? {
        return Fail(length.error);
      }
      if length.value < 0 {
        return Fail(NegativeLength);
      }
      ArrayAfterCount(old(input), length.value, input);
      var arr := new Value[length.value];
      var err := ReadElems(arr);
      if err.Some? {
        return Fail(err.value);
      }
      r := Ok(Arr(arr[..]));
    }

    /** The loop of readArray: fills arr with Values read one after the
        other, stopping at the first read that fails. */
    method ReadElems(arr: array<Value>) returns (err: Option<Error>)
      modifies this, arr
      ensures err.Some? ==> ParseElems(old(input), arr.Length) == Parsed(Fail(err.value), input)
      ensures err.None? ==> ParseElems(old(input), arr.Length) == Parsed(Ok(arr[..]), input)
      decreases |input|, 2
    {
      ghost var s := input;
      ghost var done: seq<Value> := [];
      var i := 0;
      JoinNothing(ParseElems(input, arr.Length));
      while i < arr.Length
        invariant 0 <= i <= arr.Length && |done| == i
        invariant |input| <= |s|
        invariant ParseElems(s, arr.Length) == Join(done, ParseElems(input, arr.Length - i))
        invariant arr[..i] == done
        decreases arr.Length - i
      {
        var v := ReadElem(s, arr.Length, done);
        if v.Fail? {
          return Some(v.error);
        }
        arr[i] := v.value;
        assert arr[..i + 1] == done + [v.value];
        done := done + [v.value];
        i := i + 1;
      }
      ElemsDone(s, done, input);
      assert arr[..] == arr[..arr.Length];
      err := None;
    }

    /** One pass of readArray's loop: the next Value, with done read
        before it out of count. */
    method ReadElem(ghost s: Bytes, count: nat, ghost done: seq<Value>) returns (v: Result<Value>)
      requires |done| < count
      requires ParseElems(s, count) == Join(done, ParseElems(input, count - |done|))
      modifies this
      ensures |input| <= |old(input)|
      ensures v.Fail? ==> ParseElems(s, count) == Parsed(Fail(v.error), input)
      ensures v.Ok? ==> ParseElems(s, count) == Join(done + [v.value], ParseElems(input, count - |done| - 1))
      decreases |input|, 1
    {
      ghost var before := input;
      v := Read();
      if v.Fail? {
        ElemsStepFails(s, count, done, before, v.error, input);
      } else {
        ElemsStep(s, count, done, before, v.value, input);
      }
    }

    method ReadBulk() returns (r: Result<Value>)
      modifies this
      ensures Parsed(r, input) == ParseBulk(old(input))
    {
      var length, _ := ReadInteger();
      if length.Fail? {
        return Fail(length.error);
      }
      if length.value < 0 {
        return Fail(NegativeLength);
      }
      // make([]byte, length) and one Read that fills it from what is left
      var bulk := Take(input, length.value);
      input := Drop(input, length.value);
      var _, _ := ReadLine();
      r := Ok(Bulk(bulk));
    }
  }
}
