# kvs in Dafny

A model of the core of kvs, a small Redis-like key-value server written in Go, with proofs about it. The model has four parts.

- **The RESP codec** (`resp/resp.go`).
  - `Value` is a tag plus an untyped payload.
  - `Marshal` encodes a `Value` to bytes.
  - The `Resp` reader decodes one `Value` at a time from a byte stream.
- **The command engine** (`handler/handler.go`).
  - The table of seven commands: PING, COMMAND, GET, SET, HGET, HSET and HGETALL.
  - The two maps the handlers share: `mySet` for plain keys and `myHSet` for hashes of fields.
- **The append-only log** (`persistence/persistence.go`).
  - `Write` appends one encoded `Value`.
  - `Read` decodes the log from its start and hands each record on.
- **The server loop** (`main.go`).
  - One iteration of `handleConnection`: read a request, route it, log SET and HSET requests, run the handler, write the reply.
  - The replay callback run over the log at start-up.

Modules:

- `GoTypes` (gotypes.dfy):
  - Go bytes, modelled as characters below 256.
  - The int64 range.
  - `Option`.
- `Strconv` (strconv.dfy): `strconv.Itoa` and `strconv.ParseInt(s, 10, 64)`.
- `Resp` (resp.dfy):
  - `Value`.
  - `Marshal`.
  - The pure decoder `Parse`, with one function per reader method.
  - The class `Resp`. Its methods consume the input step by step and are proved to agree with `Parse`.
- `RespLaws` (resp_laws.dfy): the round trip and the decoder's quirks.
- `Handler` (handler.dfy):
  - The pure functions `Apply` (the new maps) and `Respond` (the reply).
  - The class `Engine`, holding the two maps as fields. It has one method per handler, each proved to do what `Apply` and `Respond` say.
- `Persistence` (persistence.dfy): the class `Aof`. It holds the log file's bytes, and `Scan` says what reading them yields.
- `Server` (server.dfy):
  - `Step`, which describes one loop iteration.
  - `HandleRequest`, which is proved to perform it.
  - `Serve`, which iterates `Step` over one connection's stream as the loop does.
  - `ApplyRecord` and `Replay`, for start-up.
  - The theorem that the log left by serving a stream of requests replays into the maps that serving built.

### How Go's behaviour is represented

- **Panics.** A Go panic ends the whole process. Panics come from:
  - a type assertion on an `any` payload that fails;
  - indexing an empty slice;
  - `make` with a negative length;
  - `make` with a length whose allocation exceeds the runtime's limit (the "len out of range" panic). The model does not capture this one (see "## Left out").

  The codec reports the `make` case as the error `NegativeLength`, because the decoder is a function of its input. The reader's callers never recover from it: the server loop turns it into the outcome `Panicked`, and start-up replay into a panic once the records before it are applied. Every other panic is either a precondition (`Marshallable` for `Marshal`, `Accepts` for a handler) or, in the server loop and in replay, the outcome `Panicked`.
- **A logged request that poisons the log.** An element with an unknown type byte reads as Go's zero `Value`, whose tag is Nil. A SET storing such an element is run and logged. Nil is written as "$-1\r\n", which reads back as a negative length, so the next start-up panics on that record.
- **HGETALL order.** HGETALL ranges over a Go map, whose order is unspecified. The order it took is a ghost result, and every claim about the reply holds for any order.

## Model

| member | source | states |
|---|---|---|
| Strconv.Itoa | resp/resp.go:109-116 | `strconv.Itoa` writes a non-empty run of digits, optionally signed |
| Strconv.ParseItoa | resp/resp.go:213-217 | `strconv.ParseInt` reads back exactly the number `Itoa` wrote when it is within int64, and fails for any number outside it |
| Strconv.ParseInt64 | resp/resp.go:213 | a parsed number is always within int64 |
| Strconv.ItoaHasNoCR | resp/resp.go:113-115 | an encoded number never contains '\r', so the line reader stops right after it |
| Resp.Marshal | resp/resp.go:91-108 | an encoding starts with the type byte of its tag (Nil shares '$' with Bulk); an unknown tag encodes as nothing |
| Resp.MarshalInt | resp/resp.go:109-116 | an Integer is written as ':', its decimal digits and a line end, at least four bytes |
| Resp.MarshalString | resp/resp.go:117-124 | a String is written as '+', its text and a line end: three bytes more than its text |
| Resp.MarshalArray | resp/resp.go:126-139 | an Array is written starting with '*' and its count's line, at least four bytes |
| Resp.MarshalAll | resp/resp.go:133-136 | the elements' encodings in order, with nothing between them |
| Resp.MarshalBulk | resp/resp.go:140-153 | a Bulk is written starting with '$', at least five bytes more than its text |
| Resp.MarshalNil | resp/resp.go:154-158 | Nil is written as five bytes starting with '$', like a Bulk |
| Resp.MarshalError | resp/resp.go:159-167 | an Error is written as '-', its text and a line end: three bytes more than its text |
| Resp.Marshallable | resp/resp.go:109-167 | the type assertions of the marshal helpers succeed: text for Bulk, String and Error, an int for Integer, elements that are all encodable for Array |
| Resp.ParseLine | resp/resp.go:194-207 | readLine yields the bytes before the first '\r' and consumes two more, or fails with EOF having consumed everything |
| Resp.ParseInteger | resp/resp.go:208-218 | readInteger yields an int64 and consumes at least its line's terminator |
| Resp.Parse | resp/resp.go:221-241 | Read on empty input fails with EOF; a success consumes input and has one of the six named tags |
| Resp.ParseInt | resp/resp.go:242-252 | readInt yields an Integer value |
| Resp.ParseError | resp/resp.go:253-265 | readError yields an Error whose payload is a boxed Value, not text |
| Resp.ParseString | resp/resp.go:266-284 | readString yields a String with text |
| Resp.ParseArray | resp/resp.go:286-307 | readArray yields an Array of elements |
| Resp.ParseBulk | resp/resp.go:308-322 | readBulk yields a Bulk with text |
| Resp.ParseElems | resp/resp.go:298-304 | the element loop yields exactly `count` values, or fails |
| Resp.Resp.ReadByte | resp/resp.go:196-199 | a byte is consumed from the front, or EOF when none is left |
| Resp.Resp.ReadLine | resp/resp.go:194-207 | the byte loop returns what `ParseLine` says, leaves the input `ParseLine` leaves, and counts the bytes consumed |
| Resp.Resp.ReadInteger | resp/resp.go:208-218 | reading a count or number returns what `ParseInteger` says |
| Resp.Resp.Read | resp/resp.go:221-241 | reading one value returns what `Parse` says and leaves the input it leaves |
| Resp.Resp.ReadInt | resp/resp.go:242-252 | returns what `ParseInt` says |
| Resp.Resp.ReadError | resp/resp.go:253-265 | returns what `ParseError` says |
| Resp.Resp.ReadString | resp/resp.go:266-284 | returns what `ParseString` says |
| Resp.Resp.ReadArray | resp/resp.go:286-307 | returns what `ParseArray` says; a negative count fails as the panic of make() |
| Resp.Resp.ReadElems | resp/resp.go:296-304 | filling the preallocated array element by element yields what `ParseElems` says; the first failing read stops the loop with its error |
| Resp.Resp.ReadElem | resp/resp.go:299-303 | one pass of the element loop extends the values read so far by one, or fails with the read's error |
| Resp.Resp.ReadBulk | resp/resp.go:308-322 | returns what `ParseBulk` says |
| Resp.Resp.constructor | resp/resp.go:190-192 | a new reader reads from the start of the stream it is given |
| RespLaws.RoundTripsMarshallable | resp/resp.go:91-108 | every Bulk/Int/Array value is encodable |
| RespLaws.DecodeMarshal | resp/resp.go:91-322 | decoding the encoding of a Bulk/Int/Array value (nested to any depth) gives back that value and leaves the bytes after it |
| RespLaws.RoundTripExactly | resp/resp.go:91-322 | for every encodable value, decoding its encoding gives it back if and only if it is built from Bulk, Int and Array alone |
| RespLaws.OnlyRoundTripsComeBack | resp/resp.go:91-322 | a value that comes back from its own encoding is built from Bulk, Int and Array |
| RespLaws.ArrayOnlyIf | resp/resp.go:126-139 | an Array that comes back has a count within int64 and elements that all come back |
| RespLaws.ElemsOnlyIf | resp/resp.go:298-304 | a run of encoded elements that reads back as itself is made of elements that come back |
| RespLaws.DecodeMarshalAll | resp/resp.go:134-136 | a run of encoded elements reads back as exactly those elements |
| RespLaws.LineIgnoresTerminator | resp/resp.go:194-207 | readLine accepts any byte after '\r'; it never checks for '\n' |
| RespLaws.IntegerLine | resp/resp.go:208-218 | a rendered number followed by "\r\n" reads as that number when within int64, and as a bad integer otherwise |
| RespLaws.BadIntegerLine | resp/resp.go:213-216 | a count or number line that is not a base-10 int64 fails the Integer, Bulk or Array read with that error |
| RespLaws.ParseByType | resp/resp.go:226-240 | Read dispatches on the type byte alone |
| RespLaws.BulkComesBack | resp/resp.go:140-153 | a Bulk comes back from its encoding, whatever bytes it holds |
| RespLaws.ArrayHeader | resp/resp.go:286-297 | an Array header of `count` is followed by the reading of `count` elements |
| RespLaws.BulkHeader | resp/resp.go:308-321 | a Bulk header of `length` takes exactly `length` bytes and then one line |
| RespLaws.BulkAfterLength | resp/resp.go:317-321 | readBulk takes the length's worth of bytes, zero-padded when the input runs short, then skips a line whatever it holds |
| RespLaws.OversizedLength | resp/resp.go:291-295 | a count beyond int64 fails a Bulk or Array read |
| RespLaws.ArrayStopsAtFirstError | resp/resp.go:298-302 | readArray fails with the first failing element's error, after the good elements before it |
| RespLaws.StringKeepsCR | resp/resp.go:266-284 | a String comes back with the '\r' appended to its text |
| RespLaws.StringNeverRoundTrips | resp/resp.go:266-284 | no String comes back from its own encoding |
| RespLaws.ErrorBoxesString | resp/resp.go:253-265 | an Error comes back holding readString's whole String value (with the '\r') |
| RespLaws.ErrorNeverRoundTrips | resp/resp.go:253-265 | no Error comes back from its own encoding |
| RespLaws.NilCannotBeRead | resp/resp.go:154-158 | Nil is written as "$-1\r\n", and reading that fails as make() does on a negative length |
| RespLaws.EmptyBulkIsNotNil | resp/resp.go:140-158 | the empty Bulk is written as "$0\r\n\r\n", differs from Nil's encoding, and comes back |
| RespLaws.UnknownTypeByte | resp/resp.go:237-239 | an unknown type byte reads as the zero Value with no error, consuming that one byte |
| RespLaws.StringBadTerminator | resp/resp.go:277-279 | a String whose '\r' is followed by anything but '\n' fails with the line-terminator error |
| RespLaws.EndsWithCRLF | resp/resp.go:109-167 | every encoding other than an Array's starts with its type byte and ends with "\r\n" |
| Handler.Pairs | handler/handler.go:84-87 | the HGETALL reply has two entries per field listed |
| Handler.Apply | handler/handler.go:20-89 | only SET changes the plain keys and only HSET the hashes; no handler removes a key or a hash |
| Handler.OverlayApply | handler/handler.go:41-76 | SET and HSET write the same key or field with the same value whatever else the maps hold, so a command run on maps carrying earlier writes gives those writes with the command's own laid over them |
| Handler.OverlayTwice | handler/handler.go:41-76 | writing the same keys and fields with the same values a second time changes nothing |
| Handler.Respond | handler/handler.go:20-89 | a handler answers an Error exactly when its argument count is wrong, and that Error is the command's arity text |
| Handler.Accepts | handler/handler.go:30-89 | the handlers' type assertions on keys, hashes and fields succeed; a wrong count is answered before any assertion |
| Handler.TableIsOneToOne | handler/handler.go:7-15 | the table routes to all seven handlers, each under exactly one name |
| Handler.NameOf | handler/handler.go:7-15 | each handler's name in the table |
| Handler.ArityMessageNamesCommand | handler/handler.go:30-89 | each arity Error names the command as the table spells it, with the argument count the handler checks |
| Handler.PairsAt | handler/handler.go:84-87 | entries 2i and 2i+1 of the HGETALL reply are the i-th field and its value, both as Strings |
| Handler.OrderingSize | handler/handler.go:84 | visiting every field exactly once takes as many steps as the hash has fields |
| Handler.WrongArityChangesNothing | handler/handler.go:31-33 | a wrong argument count answers the command's fixed Error text and changes neither map |
| Handler.OnlyWritesChangeState | handler/handler.go:20-89 | every command other than SET and HSET leaves both maps as they were |
| Handler.GetAfterSet | handler/handler.go:30-49 | SET answers OK, and a GET of the same key then answers a Bulk of the value set |
| Handler.GetAbsent | handler/handler.go:35-38 | GET of a key never set answers Nil |
| Handler.SetFrame | handler/handler.go:41-49 | SET creates or overwrites its one key; every other key and all hashes are unchanged |
| Handler.HGetAfterHSet | handler/handler.go:51-76 | HSET answers OK, and an HGET of the same hash and field then answers a Bulk of the value set |
| Handler.HSetFrame | handler/handler.go:63-76 | HSET creates the hash if absent and changes only its one field; the plain keys, every other hash and every other field are unchanged |
| Handler.HGetAbsent | handler/handler.go:57-60 | HGET answers Nil when the hash or the field is missing |
| Handler.PingAndCommand | handler/handler.go:20-28 | PING answers PONG, or echoes its first argument's payload as a String; COMMAND answers the empty String |
| Handler.HGetAllListsEveryField | handler/handler.go:77-89 | HGETALL answers an Array of 2 × (number of fields) Strings, pairing each field, listed exactly once, with its value; an absent hash gives the empty Array |
| Handler.Engine.constructor | handler/handler.go:17-18 | both maps start empty |
| Handler.Engine.Ping | handler/handler.go:20-25 | answers as `Respond` says for PING |
| Handler.Engine.Command | handler/handler.go:26-28 | answers as `Respond` says for COMMAND |
| Handler.Engine.Get | handler/handler.go:30-40 | answers as `Respond` says for GET, and changes nothing |
| Handler.Engine.Set | handler/handler.go:41-49 | leaves the maps as `Apply` says for SET and answers as `Respond` says |
| Handler.Engine.HGet | handler/handler.go:51-62 | answers as `Respond` says for HGET, and changes nothing |
| Handler.Engine.HSet | handler/handler.go:63-76 | leaves the maps as `Apply` says for HSET and answers as `Respond` says |
| Handler.Engine.HGetAll | handler/handler.go:77-89 | the loop over the hash visits each field exactly once, and the reply is the pairs in the order it visited them |
| Handler.Engine.Call | handler/handler.go:7-15 | calling through the table runs the named handler: new maps as `Apply` says, reply as `Respond` says |
| Persistence.Scan | persistence/persistence.go:46-60 | an empty log reads as no records and no error |
| Persistence.Aof.Write | persistence/persistence.go:42-45 | the file gains exactly the value's encoding at its end |
| Persistence.Aof.Read | persistence/persistence.go:46-60 | the loop hands on the records `Scan` finds, in order, and returns the error `Scan` reports (none for EOF) |
| Persistence.Aof.constructor | persistence/persistence.go:18-29 | an opened log holds the file's existing contents |
| Persistence.WritesConcatenate | persistence/persistence.go:42-45 | writing values one after the other leaves their encodings in order |
| Persistence.ScanWritten | persistence/persistence.go:46-60 | written Bulk/Int/Array values read back in the order written, followed by whatever the rest of the log holds |
| Persistence.WrittenLogReadsBack | persistence/persistence.go:42-60 | a log made of written Bulk/Int/Array values reads back as exactly those values, with no error |
| Persistence.TruncatedLineEndsLog | persistence/persistence.go:52-54 | a record cut off inside its header line reads as EOF, so the read ends cleanly before it |
| Persistence.BadRecordStopsRead | persistence/persistence.go:50-56 | a record that fails with anything but EOF ends the read with that error, after the records before it |
| Server.UpperIdempotent | main.go:69 | upper-casing a command name twice is the same as once |
| Server.UpperMatches | main.go:69 | a name without lower-case letters is matched by exactly the inputs that spell it in any mix of ASCII cases |
| Server.TableNamesAreUpper | handler/handler.go:7-15 | every name in the table is upper case, so any spelling of it finds it |
| Server.Upper | main.go:69 | upper-casing keeps the length, leaves no lower-case ASCII letter, and changes only lower-case letters, each to its capital |
| Server.RouteOf | main.go:69-80 | a request runs a handler exactly when element 0 is text whose upper-cased form is in the table; the handler gets the other elements, and it is a logged one exactly for SET and HSET |
| Server.Request | main.go:55-68 | a request is skipped exactly when it is not an Array or is an empty Array |
| Server.Written | resp/resp.go:176-184 | writing a reply sends it, or panics exactly when the reply cannot be encoded |
| Server.Step | main.go:55-87 | one iteration consumes input and only appends to the log; a skip or a closed connection changes neither the maps nor the log; the connection closes exactly on a read error other than a negative length |
| Server.LoggedNames | main.go:82 | the names SET and HSET are exactly the table entries of the two writing commands |
| Server.HandleRequest | main.go:55-87 | one iteration reads, routes, logs, runs and replies exactly as `Step` says, panicking on a negative length; any HGETALL order it used is a valid field order |
| Server.ReadErrorCloses | main.go:55-59 | a read or decode error other than a negative length ends the connection and changes neither the maps nor the log |
| Server.NegativeLengthPanics | resp/resp.go:286-297 | a negative Array or Bulk length in a request panics in make(), before anything is logged or run |
| Server.NonArraySkipped | main.go:60-68 | a request that is not an Array, or is an empty Array, is skipped: no reply, no log entry, no change |
| Server.UnknownCommandRepliesEmpty | main.go:72-80 | an unknown name gets the empty String and is neither logged nor run |
| Server.OnlyWritesLogged | main.go:82-86 | the log grows only for SET and HSET requests, and then by the whole request's encoding; only a logged request changes the maps |
| Server.BadSetStillLogged | main.go:82-87 | a SET with the wrong argument count is still logged before its handler answers the arity Error and changes nothing |
| Server.StepRunsRequest | main.go:55-87 | serving a well-formed request consumes exactly its encoding, writes the handler's reply, applies the command and logs the request if and only if it is a SET or an HSET |
| Server.Serve | main.go:53-88 | the loop runs at most one iteration per order given, consumes input and only appends to the log; every iteration but the last lets the loop go on, and the loop stops early only after a read error or a panic |
| Server.ServeRequests | main.go:53-88 | a connection sending the encodings of well-formed requests whose replies can be written gets each handler's reply on the maps the requests before it built; the loop consumes exactly their encodings, leaves the maps their run builds, and appends the encodings of the SET and HSET requests, in order |
| Server.ApplyRecord | main.go:27-40 | the callback leaves the maps as `Replayed` says, and reports a panic exactly when `Replayed` has no maps to give (a payload without elements, element 0 missing or not text, or a handler's type assertion failing) |
| Server.Replay | main.go:27-40 | replaying the log applies the callback to the records `Scan` finds, in order; start-up panics exactly when the callback panics on one of them or the log holds a negative length after them; otherwise the maps are the replayed ones |
| Server.ReplayStops | main.go:27-40 | once a record makes the callback panic, the replay as a whole panics |
| Server.ReplayRoute | main.go:28-29 | the callback routes a record with elements as the server routes the Array of them, and panics on a record without elements |
| Server.Replayed | main.go:27-40 | the callback changes the maps only through a SET or HSET record |
| Server.ReplayAll | main.go:27-40 | replaying records that are all well-formed requests never panics |
| Server.ReplayAgrees | main.go:27-40 | the callback does to a well-formed request what serving it did |
| Server.ReplayRebuilds | main.go:27-87 | replaying the logged SET/HSET requests of a run of well-formed requests rebuilds the maps that run built; the unlogged ones changed nothing |
| Server.ExecuteOverlays | main.go:27-40 | running requests on any maps gives those maps with the writes the requests make on empty maps laid over them |
| Server.ReplayAllAppend | main.go:27-40 | replaying two runs of records in turn is replaying the second from the maps the first left, and a panic in the first ends the replay |
| Server.ReplayTwice | main.go:27-40 | replaying a log of well-formed requests twice over leaves the same maps as replaying it once, namely the maps serving those requests built |
| Server.RebuildFromLog | main.go:27-88 | serving well-formed Bulk/Int/Array requests from empty maps and an empty log, with replies that can be written, consumes the whole stream, answers every request, and leaves a log that reads back as exactly their SET and HSET requests and replays into empty maps as the maps serving built |
| Server.ZeroValuePoisonsLog | main.go:82-87 | a SET whose value is the zero Value is run and logged, and its log record reads back as a negative length, the panic of make() |
| Server.EmptyLogReplaysNothing | main.go:27-40 | a fresh log replays into no change |
| Server.ReplayIgnoresTag | main.go:28 | the callback checks no tag: any value with array elements is treated as the Array of them |
| Server.ReplayUnknownAndEmpty | main.go:28-37 | the callback skips a record naming an unknown command, and panics on an empty Array where the server would have skipped it |

## Left out

- Networking and concurrency are not modelled: `net.Listen`, the `Accept` loop, one goroutine per connection, and the maps being shared between connections without locking (main.go:14-19, 42-49). The model serves requests one at a time.
- The fresh `bufio` reader made on every loop iteration (main.go:54) is not modelled. It can swallow buffered bytes of the next request; the model reads each request from the rest of the same stream.
- Short reads are not modelled. `readBulk` ignores how many bytes `Read` delivers (resp/resp.go:318); the model takes exactly `length` bytes, zero-padded when the input runs out.
- The log file is its contents and nothing else. Opening, closing, the once-a-second `Sync` goroutine, and the shared file offset between reading and appending are not modelled (persistence/persistence.go:18-41).
- Write errors are not modelled. `Aof.Write`'s error, ignored at main.go:83, and the connection writer's error are outside the model.
- Persistence.Aof.Read: returns the records it would have passed to its callback, instead of calling one, and reports a negative length as the error `NegativeLength` instead of panicking. `Server.Replay` then applies the records in order and panics on that error. The effect on the maps is the same, because a panicking callback stops the process before any later record or error matters.
- Server.Replay: drops `Read`'s errors other than a negative length, as main does.
- Server.Upper: upper-cases ASCII letters only. Go's `strings.ToUpper` also maps non-ASCII UTF-8 letters (for example "ſ" to "S"), so a name such as "ſet" reaches SET in Go but is unknown here.
- Strconv.ParseInt64: has one failure for both of Go's error kinds (syntax and range), because every caller treats them alike.
- `make`'s "len out of range" panic is not modelled. Go's `makeslice` panics when a length times the element size exceeds the runtime's largest allocation (2^48 bytes on linux/amd64, and a `Value` takes 24 bytes), whatever memory is free. For example, the 16-byte request "*9000000000000\r\n" crashes the Go server at resp/resp.go:296, and so does an oversized Bulk length at resp/resp.go:317. The model treats such a `make` as succeeding: it reads on until the input runs out, and the connection closes on EOF.
- Handler.Engine.HGetAll: the ghost order it returns stands for Go's unspecified map iteration order. The reply is determined only up to that order.
- `Tag.String`, `Value.String` (resp/resp.go:30-83) and the `fmt.Println` and `Printf` diagnostics only format text and are not modelled.
- The arity Error texts are built by concatenation in `Handler.Expected`. Each one spells out the literal in handler/handler.go (for example "Expected exactly 2 arguments for SET command").
