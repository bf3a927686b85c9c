/** The server loop of main.go: one iteration of handleConnection, which
    reads a request, routes it through the command table, logs SET and HSET
    requests and writes the handler's reply; and the replay callback that
    main hands to the log's Read at start-up.

    A Go panic (a failing type assertion, an index out of range, make()
    with a negative length, which the decoder reports as NegativeLength)
    ends the whole process; here it is the outcome Panicked, and whatever
    the log and the maps held at that point is kept. The pure function Step
    says what one iteration does; HandleRequest is proved to do exactly
    that, and Serve iterates Step as the loop does. The theorem at the end
    ties the two halves together: serving well-formed requests leaves a log
    that replays into the state serving built. */
module Server {
  import opened GoTypes
  import opened Resp
  import opened Handler
  import RespLaws
  import Persistence

  // ---------------------------------------------------------------------
  // strings.ToUpper on the ASCII letters

  predicate IsLower(b: Byte) {
    'a' <= b <= 'z'
  }

  function UpperByte(b: Byte): Byte {
    if IsLower(b) then (b as int - 32) as char else b
  }

  function Upper(s: Bytes): (r: Bytes)
    ensures |r| == |s|
    ensures forall i :: 0 <= i < |s| ==> !IsLower(r[i]) && (r[i] == s[i] || r[i] as int + 32 == s[i] as int)
    ensures forall i :: 0 <= i < |s| && r[i] != s[i] ==> IsLower(s[i])
  {
    seq(|s|, i requires 0 <= i < |s| => UpperByte(s[i]))
  }

  /** Upper-casing twice is upper-casing once. */
  lemma UpperIdempotent(s: Bytes)
    ensures Upper(Upper(s)) == Upper(s)
  {
  }

  /** A name without lower-case letters is matched by exactly the inputs
      that spell it in any mix of cases. */
  lemma UpperMatches(s: Bytes, name: Bytes)
    requires forall i :: 0 <= i < |name| ==> !IsLower(name[i])
    ensures Upper(s) == name <==>
      && |s| == |name|
      && forall i :: 0 <= i < |s| ==>
           s[i] == name[i] || ('A' <= name[i] <= 'Z' && s[i] as int == name[i] as int + 32)
  {
    if |s| == |name| && forall i :: 0 <= i < |s| ==>
         s[i] == name[i] || ('A' <= name[i] <= 'Z' && s[i] as int == name[i] as int + 32) {
      forall i | 0 <= i < |s| ensures Upper(s)[i] == name[i] {
      }
    }
  }

  /** Every name in the table is already upper case, so it is found by
      any spelling of itself. */
  lemma TableNamesAreUpper()
    ensures forall name :: name in Handlers ==> forall i :: 0 <= i < |name| ==> !IsLower(name[i])
  {
  }

  /** The two names whose requests are logged are the two writing
      commands. */
  lemma LoggedNames(name: Bytes)
    requires name in Handlers
    ensures (name == "SET" || name == "HSET") <==> Logs(Handlers[name])
  {
  }

  // ---------------------------------------------------------------------
  // Routing

  /** Where element 0 of a request sends it: a panic when it is not text,
      nowhere when its upper-cased name is not in the table, otherwise to
      the named handler with the remaining elements as arguments. */
  datatype Route = Crash | Unknown | Run(c: Cmd, args: seq<Value>)

  function RouteOf(elems: seq<Value>): (r: Route)
    requires |elems| > 0
    ensures r.Run? <==> elems[0].val.Text? && Upper(elems[0].val.text) in Handlers
    ensures r.Run? ==> r.args == elems[1..] && Logs(r.c) == (Upper(elems[0].val.text) in {"SET", "HSET"})
  {
    if !elems[0].val.Text? then Crash
    else
      var name := Upper(elems[0].val.text);
      if name in Handlers then Run(Handlers[name], elems[1..]) else Unknown
  }

  /** The commands whose requests are appended to the log. */
  predicate Logs(c: Cmd) {
    c == CmdSet || c == CmdHSet
  }

  /** How handleConnection routes a request it has read: anything but a
      non-empty Array is skipped (None), and the Array's payload is
      asserted to be a slice of Values. */
  function Request(v: Value): (r: Option<Route>)
    ensures r.None? <==> v.tag != TagArr || v.val == Elems([])
  {
    if v.tag != TagArr then None
    else if !v.val.Elems? then Some(Crash)
    else if |v.val.elems| == 0 then None
    else Some(RouteOf(v.val.elems))
  }

  /** The loop iteration's result: the connection is closed on a read
      error, a request is skipped without a reply, a reply is written, or
      the process panics. */
  datatype Outcome = Closed(err: Error) | Skipped | Replied(reply: Value) | Panicked

  /** Writer.Write: encoding the reply panics when it holds a payload its
      tag cannot be written with. */
  function Written(reply: Value): (r: Outcome)
    ensures r == Replied(reply) || r == Panicked
    ensures r.Replied? <==> Marshallable(reply)
  {
    if Marshallable(reply) then Replied(reply) else Panicked
  }

  /** What one iteration leaves: its outcome, the unread input, the maps
      and the log. */
  datatype Served = Served(out: Outcome, rest: Bytes, st: Store, log: Bytes)

  /** order is a valid HGETALL field order whenever the request read from
      input is an HGETALL the handler runs. */
  ghost predicate Fits(input: Bytes, st: Store, order: seq<Bytes>) {
    var p := Parse(input);
    p.res.Ok? && Request(p.res.value).Some? && Request(p.res.value).value.Run? ==>
      var c := Request(p.res.value).value.c;
      var args := Request(p.res.value).value.args;
      c == CmdHGetAll && Accepts(c, args) && !WrongArity(c, args) ==>
        IsOrdering(order, Fields(st, args[0].val.text).Keys)
  }

  /** One iteration of handleConnection on input, with the maps in st and
      the log holding log. */
  ghost function Step(input: Bytes, st: Store, log: Bytes, order: seq<Bytes>): (r: Served)
    requires Fits(input, st, order)
    ensures |r.rest| <= |input| && log <= r.log
    ensures r.out.Closed? || r.out.Skipped? ==> r.st == st && r.log == log
    ensures r.out.Closed? <==> Parse(input).res.Fail? && Parse(input).res.error != NegativeLength
  {
    var p := Parse(input);
    if p.res.Fail? then
      if p.res.error == NegativeLength then Served(Panicked, p.rest, st, log)
      else Served(Closed(p.res.error), p.rest, st, log)
    else
      var v := p.res.value;
      match Request(v)
      case None => Served(Skipped, p.rest, st, log)
      case Some(Crash) => Served(Panicked, p.rest, st, log)
      case Some(Unknown) => Served(Replied(Str("")), p.rest, st, log)
      case Some(Run(c, args)) =>
        if Logs(c) && !Marshallable(v) then Served(Panicked, p.rest, st, log)
        else
          var logged := if Logs(c) then log + Marshal(v) else log;
          if !Accepts(c, args) then Served(Panicked, p.rest, st, logged)
          else Served(Written(Respond(st, c, args, order)), p.rest, Apply(st, c, args), logged)
  }

  /** One iteration of handleConnection's loop. order is the field order
      an HGETALL handler chose. */
  method HandleRequest(conn: Resp, engine: Engine, aof: Persistence.Aof)
    returns (out: Outcome, ghost order: seq<Bytes>)
    modifies conn, engine, aof
    ensures Fits(old(conn.input), old(engine.State()), order)
    ensures Served(out, conn.input, engine.State(), aof.file)
         == Step(old(conn.input), old(engine.State()), old(aof.file), order)
  {
    order := [];
    var value := conn.Read();
    if value.Fail? {
      if value.error == NegativeLength {
        return Panicked, order;
      }
      return Closed(value.error), order;
    }
    var v := value.value;
    if v.tag != TagArr {
      return Skipped, order;
    }
    if !v.val.Elems? {
      return Panicked, order;
    }
    var arrayValue := v.val.elems;
    if |arrayValue| == 0 {
      return Skipped, order;
    }
    if !arrayValue[0].val.Text? {
      return Panicked, order;
    }
    var command := Upper(arrayValue[0].val.text);
    var args := arrayValue[1..];
    if command !in Handlers {
      return Replied(Str("")), order;
    }
    var c := Handlers[command];
    LoggedNames(command);
    if command == "SET" || command == "HSET" {
      if !Marshallable(v) {
        return Panicked, order;
      }
      aof.Write(v);
    }
    if !Accepts(c, args) {
      return Panicked, order;
    }
    var result;
    result, order := engine.Call(c, args);
    out := Written(result);
  }

  // ---------------------------------------------------------------------
  // Replay

  /** The replay callback's route: it asserts the payload is a slice and
      indexes element 0 without checking either, and ignores the tag. */
  function ReplayRoute(v: Value): (r: Route)
    ensures v.val.Elems? && |v.val.elems| > 0 ==> Request(Arr(v.val.elems)) == Some(r)
    ensures !v.val.Elems? || |v.val.elems| == 0 ==> r == Crash
  {
    if !v.val.Elems? || |v.val.elems| == 0 then Crash else RouteOf(v.val.elems)
  }

  /** The maps after the callback runs on one logged Value; None when it
      panics. Unknown names are skipped; results are discarded. */
  function Replayed(st: Store, v: Value): (r: Option<Store>)
    ensures r.Some? && r.value != st ==> ReplayRoute(v).Run? && Logs(ReplayRoute(v).c)
  {
    match ReplayRoute(v)
    case Crash => None
    case Unknown => Some(st)
    case Run(c, args) => if Accepts(c, args) then Some(Apply(st, c, args)) else None
  }

  /** The maps after the callback runs on each record in turn, stopping at
      the first panic. */
  function ReplayAll(st: Store, records: seq<Value>): (r: Option<Store>)
    ensures (forall i :: 0 <= i < |records| ==> Runs(records[i])) ==> r.Some?
    decreases |records|
  {
    if |records| == 0 then Some(st)
    else match ReplayAll(st, records[..|records| - 1])
      case None => None
      case Some(before) => Replayed(before, records[|records| - 1])
  }

  /** The callback main passes to aof.Read. */
  method ApplyRecord(engine: Engine, value: Value) returns (ok: bool)
    modifies engine
    ensures Replayed(old(engine.State()), value) == if ok then Some(engine.State()) else None
  {
    if !value.val.Elems? || |value.val.elems| == 0 {
      return false;
    }
    var values := value.val.elems;
    if !values[0].val.Text? {
      return false;
    }
    var command := Upper(values[0].val.text);
    var args := values[1..];
    if command !in Handlers {
      return true;
    }
    var c := Handlers[command];
    if !Accepts(c, args) {
      return false;
    }
    var _, _ := engine.Call(c, args);
    ok := true;
  }

  /** Start-up: read the log and run the callback on every record. The
      process panics when the callback does, or when Read meets a negative
      length (after running the callback on the records before it); any
      other error Read returns is dropped, as main drops it. */
  method Replay(engine: Engine, aof: Persistence.Aof) returns (panicked: bool)
    modifies engine
    ensures var sc := Persistence.Scan(aof.file);
      var replayed := ReplayAll(old(engine.State()), sc.records);
      && panicked == (replayed.None? || sc.err == Some(NegativeLength))
      && (replayed.Some? ==> engine.State() == replayed.value)
  {
    ghost var start := engine.State();
    var records, err := aof.Read();
    var i := 0;
    while i < |records|
      invariant 0 <= i <= |records|
      invariant ReplayAll(start, records[..i]) == Some(engine.State())
    {
      var ok := ApplyRecord(engine, records[i]);
      assert records[..i + 1][..i] == records[..i];
      if !ok {
        ReplayStops(start, records[..i + 1], records);
        return true;
      }
      i := i + 1;
    }
    assert records[..i] == records;
    panicked := err == Some(NegativeLength);
  }

  /** Once a prefix panics, so does the whole. */
  lemma {:induction false} ReplayStops(st: Store, prefix: seq<Value>, records: seq<Value>)
    requires prefix <= records
    requires ReplayAll(st, prefix) == None
    ensures ReplayAll(st, records) == None
    decreases |records|
  {
    if |records| > |prefix| {
      var init := records[..|records| - 1];
      assert prefix <= init;
      ReplayStops(st, prefix, init);
    } else {
      assert prefix == records;
    }
  }

  // ---------------------------------------------------------------------
  // What one iteration promises

  /** A read error other than a negative length closes the connection and
      changes nothing. */
  lemma ReadErrorCloses(input: Bytes, st: Store, log: Bytes, order: seq<Bytes>)
    requires Parse(input).res.Fail? && Parse(input).res.error != NegativeLength
    ensures Fits(input, st, order)
    ensures Step(input, st, log, order)
         == Served(Closed(Parse(input).res.error), Parse(input).rest, st, log)
  {
  }

  /** A negative length read anywhere in a request panics before anything
      is logged or run. */
  lemma NegativeLengthPanics(input: Bytes, st: Store, log: Bytes, order: seq<Bytes>)
    requires Parse(input).res == Fail(NegativeLength)
    ensures Fits(input, st, order)
    ensures Step(input, st, log, order) == Served(Panicked, Parse(input).rest, st, log)
  {
  }

  /** A request that is not an Array, or is an empty Array, gets no reply,
      is not logged and changes nothing; the loop reads on after it. */
  lemma NonArraySkipped(input: Bytes, st: Store, log: Bytes, order: seq<Bytes>)
    requires Parse(input).res.Ok?
    requires Parse(input).res.value.tag != TagArr || Parse(input).res.value == Arr([])
    ensures Fits(input, st, order)
    ensures Step(input, st, log, order) == Served(Skipped, Parse(input).rest, st, log)
  {
  }

  /** A name not in the table gets the empty String, is not logged and
      changes nothing. */
  lemma UnknownCommandRepliesEmpty(input: Bytes, name: Bytes, args: seq<Value>, st: Store, log: Bytes, order: seq<Bytes>)
    requires Parse(input).res.Ok? && Parse(input).res.value.tag == TagArr
    requires Parse(input).res.value.val == Elems([Bulk(name)] + args)
    requires Upper(name) !in Handlers
    ensures Fits(input, st, order)
    ensures Step(input, st, log, order) == Served(Replied(Str("")), Parse(input).rest, st, log)
  {
    assert ([Bulk(name)] + args)[0] == Bulk(name);
  }

  /** The log grows only by the whole request, and only for SET and HSET,
      before the handler runs: even a request the handler then rejects for
      its argument count is logged. The maps change only for a logged
      request. */
  lemma OnlyWritesLogged(input: Bytes, st: Store, log: Bytes, order: seq<Bytes>)
    requires Fits(input, st, order)
    requires Parse(input).res.Ok?
    ensures var v := Parse(input).res.value;
      var r := Step(input, st, log, order);
      var logs := Request(v).Some? && Request(v).value.Run? && Logs(Request(v).value.c);
      && r.log == (if logs && Marshallable(v) then log + Marshal(v) else log)
      && (r.st != st ==> logs)
  {
    var v := Parse(input).res.value;
    if Request(v).Some? && Request(v).value.Run? && Accepts(Request(v).value.c, Request(v).value.args) {
      if !Logs(Request(v).value.c) {
        OnlyWritesChangeState(st, Request(v).value.c, Request(v).value.args);
      }
    }
  }

  /** A SET with the wrong argument count is still logged, answers its
      Error and changes no map. */
  lemma BadSetStillLogged(input: Bytes, name: Bytes, args: seq<Value>, st: Store, log: Bytes, order: seq<Bytes>)
    requires Parse(input).res.Ok? && Marshallable(Parse(input).res.value)
    requires Parse(input).res.value == Arr([Bulk(name)] + args)
    requires Upper(name) == "SET" && |args| != 2
    ensures Fits(input, st, order)
    ensures Step(input, st, log, order)
         == Served(Replied(Err(ArityMessage(CmdSet))), Parse(input).rest, st, log + Marshal(Parse(input).res.value))
  {
    assert ([Bulk(name)] + args)[0] == Bulk(name);
    assert ([Bulk(name)] + args)[1..] == args;
  }

  // ---------------------------------------------------------------------
  // Serving well-formed requests, and replaying what was logged

  /** A request the server runs to completion: a non-empty Array naming a
      command in the table, with text where the handler asserts text. */
  predicate Runs(v: Value) {
    Request(v).Some? && Request(v).value.Run? && Accepts(Request(v).value.c, Request(v).value.args)
  }

  /** order is a field order the HGETALL handler may choose when it runs
      v on the maps st; any order does for the other commands. */
  ghost predicate OrderFor(st: Store, v: Value, order: seq<Bytes>)
    requires Runs(v)
  {
    var c, args := Request(v).value.c, Request(v).value.args;
    c == CmdHGetAll && !WrongArity(c, args) ==> IsOrdering(order, Fields(st, args[0].val.text).Keys)
  }

  /** The handler's reply to a request it runs. */
  ghost function Reply(st: Store, v: Value, order: seq<Bytes>): Value
    requires Runs(v) && OrderFor(st, v, order)
  {
    Respond(st, Request(v).value.c, Request(v).value.args, order)
  }

  /** What running a request does to the maps. */
  function Effect(st: Store, v: Value): Store
    requires Runs(v)
  {
    Apply(st, Request(v).value.c, Request(v).value.args)
  }

  /** The maps after running the requests in order. */
  function Execute(st: Store, reqs: seq<Value>): Store
    requires forall i :: 0 <= i < |reqs| ==> Runs(reqs[i])
    decreases |reqs|
  {
    if |reqs| == 0 then st
    else Effect(Execute(st, reqs[..|reqs| - 1]), reqs[|reqs| - 1])
  }

  predicate Logged(v: Value) {
    Request(v).Some? && Request(v).value.Run? && Logs(Request(v).value.c)
  }

  /** The requests among reqs that the server appends to the log, in
      order. */
  function LogOf(reqs: seq<Value>): seq<Value>
    decreases |reqs|
  {
    if |reqs| == 0 then []
    else
      var last := reqs[|reqs| - 1];
      LogOf(reqs[..|reqs| - 1]) + (if Logged(last) then [last] else [])
  }

  /** Serving one well-formed request that survives the codec's round trip:
      the iteration consumes exactly its encoding, writes the handler's
      reply, applies the command and appends the request's encoding to the
      log if and only if it is a SET or an HSET. */
  lemma StepRunsRequest(req: Value, rest: Bytes, st: Store, log: Bytes, order: seq<Bytes>)
    requires Runs(req) && RespLaws.RoundTrips(req) && OrderFor(st, req, order)
    ensures Marshallable(req)
    ensures Fits(Marshal(req) + rest, st, order)
    ensures var r := Step(Marshal(req) + rest, st, log, order);
      && r.out == Written(Reply(st, req, order))
      && r.rest == rest
      && r.st == Effect(st, req)
      && r.log == log + (if Logged(req) then Marshal(req) else [])
  {
    RespLaws.RoundTripsMarshallable(req);
    RespLaws.DecodeMarshal(req, rest);
  }

  /** The log's records are some of the requests. */
  lemma {:induction false} LogOfFromRequests(reqs: seq<Value>)
    ensures forall v :: v in LogOf(reqs) ==> v in reqs && Logged(v)
    decreases |reqs|
  {
    if |reqs| > 0 {
      var init := reqs[..|reqs| - 1];
      LogOfFromRequests(init);
      assert forall v :: v in init ==> v in reqs;
    }
  }

  /** Replay's callback does to a well-formed request what serving it
      did. */
  lemma ReplayAgrees(st: Store, v: Value)
    requires Runs(v)
    ensures Replayed(st, v) == Some(Effect(st, v))
  {
  }

  /** Replaying the log of a run of well-formed requests rebuilds the maps
      that run built: the requests that were not logged changed nothing. */
  lemma {:induction false} ReplayRebuilds(st: Store, reqs: seq<Value>)
    requires forall i :: 0 <= i < |reqs| ==> Runs(reqs[i])
    ensures ReplayAll(st, LogOf(reqs)) == Some(Execute(st, reqs))
    decreases |reqs|
  {
    if |reqs| > 0 {
      var init := reqs[..|reqs| - 1];
      var last := reqs[|reqs| - 1];
      assert forall i :: 0 <= i < |init| ==> init[i] == reqs[i];
      ReplayRebuilds(st, init);
      var before := Execute(st, init);
      if Logged(last) {
        assert (LogOf(init) + [last])[..|LogOf(init)|] == LogOf(init);
        ReplayAgrees(before, last);
      } else {
        assert LogOf(init) + [] == LogOf(init);
        OnlyWritesChangeState(before, Request(last).value.c, Request(last).value.args);
      }
    }
  }

  /** Running requests on any maps lays the writes they make on empty maps
      over those maps. */
  lemma {:induction false} ExecuteOverlays(st: Store, reqs: seq<Value>)
    requires forall i :: 0 <= i < |reqs| ==> Runs(reqs[i])
    ensures Execute(st, reqs) == Overlay(st, Execute(Empty, reqs))
    decreases |reqs|
  {
    if |reqs| == 0 {
      OverlayEmpty(st);
    } else {
      var init := reqs[..|reqs| - 1];
      var last := reqs[|reqs| - 1];
      assert forall i :: 0 <= i < |init| ==> init[i] == reqs[i];
      ExecuteOverlays(st, init);
      OverlayApply(st, Execute(Empty, init), Request(last).value.c, Request(last).value.args);
    }
  }

  /** Replaying two runs of records one after the other is replaying the
      second from where the first left the maps. */
  lemma {:induction false} ReplayAllAppend(st: Store, first: seq<Value>, second: seq<Value>)
    ensures ReplayAll(st, first + second)
         == if ReplayAll(st, first).None? then None else ReplayAll(ReplayAll(st, first).value, second)
    decreases |second|
  {
    if |second| == 0 {
      assert first + second == first;
    } else {
      var init := second[..|second| - 1];
      ReplayAllAppend(st, first, init);
      assert (first + second)[..|first + second| - 1] == first + init;
    }
  }

  /** Replaying a log twice over leaves the maps one replay leaves: every
      logged write is a SET or HSET, and writing the same values again
      changes nothing. */
  lemma ReplayTwice(st: Store, reqs: seq<Value>)
    requires forall i :: 0 <= i < |reqs| ==> Runs(reqs[i])
    ensures ReplayAll(st, LogOf(reqs) + LogOf(reqs)) == ReplayAll(st, LogOf(reqs)) == Some(Execute(st, reqs))
  {
    var log, built := LogOf(reqs), Execute(st, reqs);
    ReplayRebuilds(st, reqs);
    ReplayAllAppend(st, log, log);
    ReplayRebuilds(built, reqs);
    ExecuteOverlays(built, reqs);
    ExecuteOverlays(st, reqs);
    OverlayTwice(st, Execute(Empty, reqs));
  }

  // ---------------------------------------------------------------------
  // The loop of handleConnection

  /** The loop goes on after a skipped request and after a reply, and
      ends after a read error or a panic. */
  predicate Ends(out: Outcome) {
    out.Closed? || out.Panicked?
  }

  /** What a run of the loop leaves: the outcome of each iteration, the
      unread input, the maps and the log. */
  datatype Session = Session(outs: seq<Outcome>, rest: Bytes, st: Store, log: Bytes)

  predicate Stopped(s: Session) {
    |s.outs| > 0 && Ends(s.outs[|s.outs| - 1])
  }

  /** orders[k] is a valid HGETALL field order for iteration k, whenever
      the loop gets that far. */
  ghost predicate OrdersFit(input: Bytes, st: Store, log: Bytes, orders: seq<seq<Bytes>>)
    decreases |orders|, 0
  {
    |orders| == 0 ||
    (OrdersFit(input, st, log, orders[..|orders| - 1]) &&
     var s := Serve(input, st, log, orders[..|orders| - 1]);
     Stopped(s) || Fits(s.rest, s.st, orders[|orders| - 1]))
  }

  /** Up to |orders| iterations of handleConnection's loop on the stream
      input, the k-th with HGETALL field order orders[k]; the loop stops
      at the first iteration that ends it. */
  ghost function Serve(input: Bytes, st: Store, log: Bytes, orders: seq<seq<Bytes>>): (s: Session)
    requires OrdersFit(input, st, log, orders)
    ensures |s.outs| <= |orders| && |s.rest| <= |input| && log <= s.log
    ensures forall k :: 0 <= k < |s.outs| - 1 ==> !Ends(s.outs[k])
    ensures |s.outs| < |orders| ==> Stopped(s)
    decreases |orders|, 1
  {
    if |orders| == 0 then Session([], input, st, log)
    else
      var s := Serve(input, st, log, orders[..|orders| - 1]);
      if Stopped(s) then s
      else
        var r := Step(s.rest, s.st, s.log, orders[|orders| - 1]);
        Session(s.outs + [r.out], r.rest, r.st, r.log)
  }

  /** orders[k] is a field order the HGETALL handler may choose for
      reqs[k] on the maps the requests before it built, and every reply can
      be written. */
  ghost predicate Answerable(st: Store, reqs: seq<Value>, orders: seq<seq<Bytes>>)
    requires forall i :: 0 <= i < |reqs| ==> Runs(reqs[i])
    decreases |reqs|
  {
    |orders| == |reqs| &&
    (|reqs| == 0 ||
     var n := |reqs| - 1;
     var before := Execute(st, reqs[..n]);
     && Answerable(st, reqs[..n], orders[..n])
     && OrderFor(before, reqs[n], orders[n])
     && Marshallable(Reply(before, reqs[n], orders[n])))
  }

  /** The handler's replies to reqs, each on the maps the requests before
      it built. */
  ghost function Replies(st: Store, reqs: seq<Value>, orders: seq<seq<Bytes>>): seq<Outcome>
    requires forall i :: 0 <= i < |reqs| ==> Runs(reqs[i])
    requires Answerable(st, reqs, orders)
    decreases |reqs|
  {
    if |reqs| == 0 then []
    else
      var n := |reqs| - 1;
      Replies(st, reqs[..n], orders[..n]) + [Replied(Reply(Execute(st, reqs[..n]), reqs[n], orders[n]))]
  }

  /** A connection that sends the encodings of well-formed requests, one
      after the other, whose replies can all be written: the loop answers
      each with the handler's reply on the maps the requests before it
      built, consumes exactly their encodings, leaves the maps their run
      builds, and appends to the log the encodings of the SET and HSET
      requests among them, in order. */
  lemma {:induction false} ServeRequests(reqs: seq<Value>, rest: Bytes, st: Store, log: Bytes, orders: seq<seq<Bytes>>)
    requires forall i :: 0 <= i < |reqs| ==> Runs(reqs[i]) && RespLaws.RoundTrips(reqs[i])
    requires Answerable(st, reqs, orders)
    ensures forall i :: 0 <= i < |reqs| ==> Marshallable(reqs[i])
    ensures forall i :: 0 <= i < |LogOf(reqs)| ==> Marshallable(LogOf(reqs)[i])
    ensures OrdersFit(MarshalAll(reqs) + rest, st, log, orders)
    ensures Serve(MarshalAll(reqs) + rest, st, log, orders)
         == Session(Replies(st, reqs, orders), rest, Execute(st, reqs), log + MarshalAll(LogOf(reqs)))
    decreases |reqs|
  {
    RespLaws.AllMarshallable(reqs);
    if |reqs| == 0 {
      assert MarshalAll(reqs) + rest == rest;
      assert log + [] == log;
    } else {
      var n := |reqs| - 1;
      var init, last := reqs[..n], reqs[n];
      ServeRequests(init, Marshal(last) + rest, st, log, orders[..n]);
      SplitLast(reqs);
      ServeRequestsInput(init, last, rest);
      ServeRequestsLog(init, last, log);
      ServeRequestsStep(init, last, rest, st, log, orders[..n], orders[n]);
      SplitLast(orders);
    }
  }

  lemma SplitLast<T>(xs: seq<T>)
    requires |xs| > 0
    ensures xs[..|xs| - 1] + [xs[|xs| - 1]] == xs
  {
  }

  /** The inductive step of ServeRequests: after serving init, the loop
      serves last. */
  lemma ServeRequestsStep(init: seq<Value>, last: Value, rest: Bytes, st: Store, log: Bytes,
                          orders: seq<seq<Bytes>>, order: seq<Bytes>)
    requires forall i :: 0 <= i < |init| ==> Runs(init[i]) && Marshallable(init[i])
    requires forall i :: 0 <= i < |LogOf(init)| ==> Marshallable(LogOf(init)[i])
    requires Runs(last) && RespLaws.RoundTrips(last) && Marshallable(last)
    requires Answerable(st, init, orders)
    requires OrderFor(Execute(st, init), last, order)
    requires Marshallable(Reply(Execute(st, init), last, order))
    requires OrdersFit(MarshalAll(init) + (Marshal(last) + rest), st, log, orders)
    requires Serve(MarshalAll(init) + (Marshal(last) + rest), st, log, orders)
          == Session(Replies(st, init, orders), Marshal(last) + rest, Execute(st, init), log + MarshalAll(LogOf(init)))
    ensures OrdersFit(MarshalAll(init) + (Marshal(last) + rest), st, log, orders + [order])
    ensures Serve(MarshalAll(init) + (Marshal(last) + rest), st, log, orders + [order])
         == Session(Replies(st, init, orders) + [Replied(Reply(Execute(st, init), last, order))], rest,
                    Effect(Execute(st, init), last),
                    log + MarshalAll(LogOf(init)) + (if Logged(last) then Marshal(last) else []))
  {
    var input := MarshalAll(init) + (Marshal(last) + rest);
    StepRunsRequest(last, rest, Execute(st, init), log + MarshalAll(LogOf(init)), order);
    ServeOneMore(input, st, log, orders, order);
  }

  /** One more iteration after a run of the loop that has not stopped. */
  lemma ServeOneMore(input: Bytes, st: Store, log: Bytes, orders: seq<seq<Bytes>>, order: seq<Bytes>)
    requires OrdersFit(input, st, log, orders)
    requires !Stopped(Serve(input, st, log, orders))
    requires var s := Serve(input, st, log, orders); Fits(s.rest, s.st, order)
    ensures OrdersFit(input, st, log, orders + [order])
    ensures var s := Serve(input, st, log, orders);
      var r := Step(s.rest, s.st, s.log, order);
      Serve(input, st, log, orders + [order]) == Session(s.outs + [r.out], r.rest, r.st, r.log)
  {
    assert (orders + [order])[..|orders|] == orders;
  }

  /** The stream of init + [last] is that of init, then that of last. */
  lemma ServeRequestsInput(init: seq<Value>, last: Value, rest: Bytes)
    requires forall i :: 0 <= i < |init| ==> Marshallable(init[i])
    requires Marshallable(last)
    ensures forall i :: 0 <= i < |init + [last]| ==> Marshallable((init + [last])[i])
    ensures MarshalAll(init + [last]) + rest == MarshalAll(init) + (Marshal(last) + rest)
  {
    Persistence.WritesConcatenate(init, last);
    RespLaws.Regroup(MarshalAll(init), Marshal(last), rest);
  }

  /** The log of init + [last] is that of init, then last if it is
      logged. */
  lemma ServeRequestsLog(init: seq<Value>, last: Value, log: Bytes)
    requires forall i :: 0 <= i < |init| ==> Marshallable(init[i])
    requires Marshallable(last)
    ensures forall i :: 0 <= i < |LogOf(init)| ==> Marshallable(LogOf(init)[i])
    ensures forall i :: 0 <= i < |LogOf(init + [last])| ==> Marshallable(LogOf(init + [last])[i])
    ensures log + MarshalAll(LogOf(init + [last]))
         == log + MarshalAll(LogOf(init)) + (if Logged(last) then Marshal(last) else [])
  {
    var logged := LogOf(init);
    LogOfMarshallable(init);
    LogOfLast(init, last);
    if Logged(last) {
      Persistence.WritesConcatenate(logged, last);
      RespLaws.Regroup(log, MarshalAll(logged), Marshal(last));
    } else {
      assert logged + [] == logged;
      assert log + MarshalAll(logged) + [] == log + MarshalAll(logged);
    }
  }

  lemma LogOfLast(init: seq<Value>, last: Value)
    ensures LogOf(init + [last]) == LogOf(init) + (if Logged(last) then [last] else [])
  {
    var reqs := init + [last];
    assert reqs[..|reqs| - 1] == init && reqs[|reqs| - 1] == last;
  }

  lemma LogOfMarshallable(reqs: seq<Value>)
    requires forall i :: 0 <= i < |reqs| ==> Marshallable(reqs[i])
    ensures forall i :: 0 <= i < |LogOf(reqs)| ==> Marshallable(LogOf(reqs)[i])
  {
    LogOfFromRequests(reqs);
    assert forall i :: 0 <= i < |LogOf(reqs)| ==> LogOf(reqs)[i] in reqs;
  }

  /** Restart: a connection to a server with empty maps and an empty log
      sends the encodings of well-formed requests whose replies can all be
      written, and the loop serves them all. The log it leaves holds their
      SET and HSET requests, reads back as exactly those with no error, and
      replaying it into empty maps rebuilds the maps serving built. */
  lemma RebuildFromLog(reqs: seq<Value>, orders: seq<seq<Bytes>>)
    requires forall i :: 0 <= i < |reqs| ==> Runs(reqs[i]) && RespLaws.RoundTrips(reqs[i])
    requires Answerable(Empty, reqs, orders)
    ensures forall i :: 0 <= i < |reqs| ==> Marshallable(reqs[i])
    ensures OrdersFit(MarshalAll(reqs), Empty, [], orders)
    ensures var s := Serve(MarshalAll(reqs), Empty, [], orders);
      && s.outs == Replies(Empty, reqs, orders)
      && s.rest == []
      && s.st == Execute(Empty, reqs)
      && Persistence.Scan(s.log) == Persistence.Scanned(LogOf(reqs), None)
      && ReplayAll(Empty, Persistence.Scan(s.log).records) == Some(s.st)
  {
    ServeRequests(reqs, [], Empty, [], orders);
    assert MarshalAll(reqs) + [] == MarshalAll(reqs);
    var logged := LogOf(reqs);
    assert [] + MarshalAll(logged) == MarshalAll(logged);
    LogOfFromRequests(reqs);
    assert forall i :: 0 <= i < |logged| ==> logged[i] in reqs;
    Persistence.WrittenLogReadsBack(logged);
    ReplayRebuilds(Empty, reqs);
  }

  /** A SET whose value is the zero Value (what an element with an unknown
      type byte reads as) is run and logged; but the zero Value is Nil,
      whose encoding reads back as a negative length, so its log record
      makes the next start-up panic. */
  lemma ZeroValuePoisonsLog(name: Bytes, key: Bytes)
    requires Upper(name) == "SET" && |key| <= MaxInt64
    ensures var v := Arr([Bulk(name), Bulk(key), Zero]);
      && Runs(v) && Logged(v) && Marshallable(v)
      && Persistence.Scan(Marshal(v)) == Persistence.Scanned([], Some(NegativeLength))
  {
    var good := [Bulk(name), Bulk(key)];
    assert good + [Zero] == [Bulk(name), Bulk(key), Zero];
    Persistence.WritesConcatenate(good, Zero);
    RespLaws.NilCannotBeRead([]);
    assert Marshal(Zero) + [] == Marshal(Zero);
    RespLaws.ArrayStopsAtFirstError(good, 3, Marshal(Zero));
    RespLaws.Regroup([ARRAY] + Strconv.Itoa(3) + CRLF, MarshalAll(good), Marshal(Zero));
  }

  /** A fresh log replays nothing. */
  lemma EmptyLogReplaysNothing(st: Store)
    ensures ReplayAll(st, Persistence.Scan([]).records) == Some(st)
  {
  }

  /** The callback looks at the payload only: whatever the tag, it treats
      an Array's elements alike. */
  lemma ReplayIgnoresTag(st: Store, t: Tag, elems: seq<Value>)
    ensures Replayed(st, Value(t, Elems(elems))) == Replayed(st, Arr(elems))
  {
  }

  /** Replay skips a record naming no command, and panics on an empty
      Array where the server would have skipped it. */
  lemma ReplayUnknownAndEmpty(st: Store, name: Bytes, args: seq<Value>)
    requires Upper(name) !in Handlers
    ensures Replayed(st, Arr([Bulk(name)] + args)) == Some(st)
    ensures Replayed(st, Arr([])) == None
  {
    assert ([Bulk(name)] + args)[0] == Bulk(name);
  }
}
